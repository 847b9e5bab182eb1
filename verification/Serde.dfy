/** The reflection-driven binary serializer: a writer and a reader that walk the
    fields of the same type description. */
module Serde {

  type byte = n: int | 0 <= n < 256
  type size = n: nat | n > 0 witness 1

  // ---- Types and values ----

  datatype Kind = BoolKind | IntKind(width: size, signed: bool) | Float32 | Float64

  function Width(k: Kind): size {
    match k
    case BoolKind => 1
    case IntKind(width, _) => width
    case Float32 => 4
    case Float64 => 8
  }

  datatype Type = Scalar(kind: Kind) | Aggregate(fields: seq<Field>)
  datatype Field = Field(name: string, ty: Type)

  /** A scalar is its object representation, lowest byte first; an aggregate is
      its members, in declaration order. */
  datatype Value = Cell(rep: seq<byte>) | Record(members: seq<Value>)

  predicate Fits(t: Type, v: Value) {
    match t
    case Scalar(k) => v.Cell? && |v.rep| == Width(k)
    case Aggregate(fs) => v.Record? && FitAll(fs, v.members)
  }

  predicate FitAll(fs: seq<Field>, vs: seq<Value>) {
    |fs| == |vs| && forall i :: 0 <= i < |fs| ==> Fits(fs[i].ty, vs[i])
  }

  function SizeOf(t: Type): nat {
    match t
    case Scalar(k) => Width(k)
    case Aggregate(fs) => SizeFrom(fs, 0)
  }

  /** The size of the members from the i-th on. */
  function SizeFrom(fs: seq<Field>, i: nat): nat
    requires i <= |fs|
    decreases fs, |fs| - i
  {
    if i == |fs| then 0 else SizeOf(fs[i].ty) + SizeFrom(fs, i + 1)
  }

  // ---- What is written, what is read ----

  function Encode(t: Type, v: Value): seq<byte>
    requires Fits(t, v)
  {
    match t
    case Scalar(_) => v.rep
    case Aggregate(fs) => EncodeFrom(fs, v.members, 0)
  }

  function EncodeFrom(fs: seq<Field>, vs: seq<Value>, i: nat): seq<byte>
    requires FitAll(fs, vs) && i <= |fs|
    decreases fs, |fs| - i
  {
    if i == |fs| then [] else Encode(fs[i].ty, vs[i]) + EncodeFrom(fs, vs, i + 1)
  }

  /** The value whose bytes start at `cur`. */
  function Decode(t: Type, buf: seq<byte>, cur: nat): (v: Value)
    requires cur + SizeOf(t) <= |buf|
  {
    match t
    case Scalar(k) => Cell(buf[cur..cur + Width(k)])
    case Aggregate(fs) => Record(DecodeFrom(fs, buf, cur, 0))
  }

  function DecodeFrom(fs: seq<Field>, buf: seq<byte>, cur: nat, i: nat): (vs: seq<Value>)
    requires i <= |fs| && cur + SizeFrom(fs, i) <= |buf|
    ensures |vs| == |fs| - i
    decreases fs, |fs| - i
  {
    if i == |fs| then []
    else [Decode(fs[i].ty, buf, cur)] + DecodeFrom(fs, buf, cur + SizeOf(fs[i].ty), i + 1)
  }

  lemma {:induction false} DecodedFits(t: Type, buf: seq<byte>, cur: nat)
    requires cur + SizeOf(t) <= |buf|
    ensures Fits(t, Decode(t, buf, cur))
    decreases t, 0
  {
    if t.Aggregate? {
      var vs := DecodeFrom(t.fields, buf, cur, 0);
      forall j | 0 <= j < |vs| ensures Fits(t.fields[j].ty, vs[j]) {
        DecodedFitsAt(t.fields, buf, cur, 0, j);
      }
    }
  }

  lemma {:induction false} DecodedFitsAt(fs: seq<Field>, buf: seq<byte>, cur: nat, i: nat, j: nat)
    requires i <= j < |fs| && cur + SizeFrom(fs, i) <= |buf|
    ensures Fits(fs[j].ty, DecodeFrom(fs, buf, cur, i)[j - i])
    decreases fs, j - i
  {
    if i == j {
      DecodedFits(fs[i].ty, buf, cur);
    } else {
      DecodedFitsAt(fs, buf, cur + SizeOf(fs[i].ty), i + 1, j);
    }
  }

  /** The number of bytes is a matter of the type alone. */
  lemma {:induction false} EncodedSize(t: Type, v: Value)
    requires Fits(t, v)
    ensures |Encode(t, v)| == SizeOf(t)
    decreases t, 0
  {
    if t.Aggregate? { EncodedSizeFrom(t.fields, v.members, 0); }
  }

  lemma {:induction false} EncodedSizeFrom(fs: seq<Field>, vs: seq<Value>, i: nat)
    requires FitAll(fs, vs) && i <= |fs|
    ensures |EncodeFrom(fs, vs, i)| == SizeFrom(fs, i)
    decreases fs, |fs| - i
  {
    if i < |fs| {
      EncodedSize(fs[i].ty, vs[i]);
      EncodedSizeFrom(fs, vs, i + 1);
    }
  }

  /** Reading back what was written, wherever it stands in the buffer. */
  lemma {:induction false} ReadBack(t: Type, v: Value, before: seq<byte>, after: seq<byte>)
    requires Fits(t, v)
    ensures |Encode(t, v)| == SizeOf(t)
    ensures Decode(t, before + Encode(t, v) + after, |before|) == v
    decreases t, 0
  {
    EncodedSize(t, v);
    if t.Scalar? {
      assert (before + v.rep + after)[|before|..|before| + Width(t.kind)] == v.rep;
    } else {
      ReadBackFrom(t.fields, v.members, 0, before, after);
      assert v.members[0..] == v.members;
    }
  }

  lemma {:induction false} ReadBackFrom(fs: seq<Field>, vs: seq<Value>, i: nat, before: seq<byte>, after: seq<byte>)
    requires FitAll(fs, vs) && i <= |fs|
    ensures |EncodeFrom(fs, vs, i)| == SizeFrom(fs, i)
    ensures DecodeFrom(fs, before + EncodeFrom(fs, vs, i) + after, |before|, i) == vs[i..]
    decreases fs, |fs| - i
  {
    EncodedSizeFrom(fs, vs, i);
    if i < |fs| {
      var head, tail := Encode(fs[i].ty, vs[i]), EncodeFrom(fs, vs, i + 1);
      ReadBack(fs[i].ty, vs[i], before, tail + after);
      ReadBackFrom(fs, vs, i + 1, before + head, after);
      Regroup(before, head, tail, after);
    }
  }

  lemma Regroup<T>(a: seq<T>, b: seq<T>, c: seq<T>, d: seq<T>)
    ensures a + (b + c) + d == a + b + (c + d) == (a + b) + c + d
  {}

  /** And the other way: writing what was read gives the very bytes that were read. */
  lemma {:induction false} WriteBack(t: Type, buf: seq<byte>, cur: nat)
    requires cur + SizeOf(t) <= |buf|
    ensures Fits(t, Decode(t, buf, cur))
    ensures Encode(t, Decode(t, buf, cur)) == buf[cur..cur + SizeOf(t)]
    decreases t, 0
  {
    DecodedFits(t, buf, cur);
    if t.Aggregate? {
      var vs := DecodeFrom(t.fields, buf, cur, 0);
      WriteBackFrom(t.fields, vs, buf, cur, 0);
    }
  }

  lemma {:induction false} WriteBackFrom(fs: seq<Field>, vs: seq<Value>, buf: seq<byte>, cur: nat, i: nat)
    requires FitAll(fs, vs) && i <= |fs| && cur + SizeFrom(fs, i) <= |buf|
    requires vs[i..] == DecodeFrom(fs, buf, cur, i)
    ensures EncodeFrom(fs, vs, i) == buf[cur..cur + SizeFrom(fs, i)]
    decreases fs, |fs| - i
  {
    if i < |fs| {
      var next := cur + SizeOf(fs[i].ty);
      assert vs[i..][1..] == vs[i + 1..];
      assert vs[i] == vs[i..][0] == Decode(fs[i].ty, buf, cur);
      WriteBack(fs[i].ty, buf, cur);
      WriteBackFrom(fs, vs, buf, next, i + 1);
    }
  }

  /** Distinct values have distinct bytes, and neither is a prefix of the other. */
  lemma EncodingIsPrefixFree(t: Type, v: Value, w: Value, x: seq<byte>, y: seq<byte>)
    requires Fits(t, v) && Fits(t, w) && Encode(t, v) + x == Encode(t, w) + y
    ensures v == w && x == y
  {
    ReadBack(t, v, [], x);
    ReadBack(t, w, [], y);
    assert [] + Encode(t, v) + x == Encode(t, v) + x;
    assert [] + Encode(t, w) + y == Encode(t, w) + y;
    assert x == (Encode(t, v) + x)[|Encode(t, v)|..];
    assert y == (Encode(t, w) + y)[|Encode(t, w)|..];
  }

  // ---- write and read, as the source has them ----

  class Buffer {
    var data: seq<byte>

    constructor ()
      ensures data == []
    {
      data := [];
    }

    method Write(t: Type, obj: Value)
      requires t.Aggregate? && Fits(t, obj)
      modifies this
      ensures data == old(data) + Encode(t, obj)
      decreases t
    {
      var fs, vs := t.fields, obj.members;
      for i := 0 to |fs|
        invariant data + EncodeFrom(fs, vs, i) == old(data) + EncodeFrom(fs, vs, 0)
      {
        assert Fits(fs[i].ty, vs[i]);
        if fs[i].ty.Scalar? {
          data := data + vs[i].rep;
        } else {
          Write(fs[i].ty, vs[i]);
        }
      }
    }
  }

  class Cursor {
    const buf: seq<byte>
    var cur: nat

    constructor (buf: seq<byte>)
      ensures this.buf == buf && cur == 0
    {
      this.buf := buf;
      cur := 0;
    }

    /** `obj` is the object to fill; every member of it is overwritten. */
    method Read(t: Type, obj: Value) returns (filled: Value)
      requires t.Aggregate? && Fits(t, obj)
      requires cur + SizeOf(t) <= |buf|
      modifies this
      ensures filled == Decode(t, buf, old(cur))
      ensures cur == old(cur) + SizeOf(t)
      decreases t, 1
    {
      var fs, members := t.fields, [];
      ghost var goal := DecodeFrom(fs, buf, cur, 0);
      for i := 0 to |fs|
        invariant cur + SizeFrom(fs, i) == old(cur) + SizeFrom(fs, 0)
        invariant members + DecodeFrom(fs, buf, cur, i) == goal
      {
        assert Fits(fs[i].ty, obj.members[i]);
        var v := ReadField(fs[i].ty, obj.members[i]);
        members := members + [v];
      }
      filled := Record(members);
    }

    /** One member: copied if scalar, entered if an aggregate. */
    method ReadField(t: Type, field: Value) returns (filled: Value)
      requires Fits(t, field) && cur + SizeOf(t) <= |buf|
      modifies this
      ensures filled == Decode(t, buf, old(cur))
      ensures cur == old(cur) + SizeOf(t)
      decreases t, 2
    {
      if t.Scalar? {
        filled := Cell(buf[cur..cur + Width(t.kind)]);
        cur := cur + Width(t.kind);
      } else {
        filled := Read(t, field);
      }
    }
  }

  method ToBytes(t: Type, obj: Value) returns (data: seq<byte>)
    requires t.Aggregate? && Fits(t, obj)
    ensures data == Encode(t, obj)
  {
    var buf := new Buffer();
    buf.Write(t, obj);
    data := buf.data;
  }

  /** `initial` is the value-initialised object; `buf` may hold more than one value. */
  method FromBytes(t: Type, buf: seq<byte>, initial: Value) returns (obj: Value)
    requires t.Aggregate? && Fits(t, initial) && SizeOf(t) <= |buf|
    ensures obj == Decode(t, buf, 0) && Fits(t, obj) && Encode(t, obj) <= buf
  {
    var cursor := new Cursor(buf);
    obj := cursor.Read(t, initial);
    WriteBack(t, buf, 0);
  }

  /** Any object survives the trip, whatever it is read into. */
  method RoundTrip(t: Type, obj: Value, initial: Value) returns (back: Value)
    requires t.Aggregate? && Fits(t, obj) && Fits(t, initial)
    ensures back == obj
  {
    var data := ToBytes(t, obj);
    ReadBack(t, obj, [], []);
    assert [] + data + [] == data;
    back := FromBytes(t, data, initial);
  }
}
