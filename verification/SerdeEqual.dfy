/** What the cells mean as C++ values, and the structural comparison built on it. */
module SerdeEqual {
  import opened Serde

  // ---- Cells as numbers ----

  function Power256(n: nat): nat {
    if n == 0 then 1 else 256 * Power256(n - 1)
  }

  /** The unsigned value, lowest byte first. */
  function Unsigned(rep: seq<byte>): (u: nat)
    ensures u < Power256(|rep|)
  {
    if rep == [] then 0 else rep[0] + 256 * Unsigned(rep[1..])
  }

  /** The bytes of an unsigned value. */
  function UnsignedBytes(u: nat, n: nat): (rep: seq<byte>)
    ensures |rep| == n
  {
    if n == 0 then [] else [u % 256] + UnsignedBytes(u / 256, n - 1)
  }

  lemma {:induction false} UnsignedInverse(rep: seq<byte>)
    ensures UnsignedBytes(Unsigned(rep), |rep|) == rep
    decreases |rep|
  {
    if rep != [] {
      UnsignedInverse(rep[1..]);
      assert Unsigned(rep) % 256 == rep[0] && Unsigned(rep) / 256 == Unsigned(rep[1..]);
    }
  }

  /** Two's complement when signed. */
  function IntOf(rep: seq<byte>, signed: bool): int {
    if signed && 2 * Unsigned(rep) >= Power256(|rep|) then Unsigned(rep) - Power256(|rep|) else Unsigned(rep)
  }

  function IntBytes(n: int, width: nat): seq<byte> {
    var u := if n < 0 then n + Power256(width) else n;
    if u < 0 then [] else UnsignedBytes(u, width)
  }

  lemma IntInverse(rep: seq<byte>, signed: bool)
    ensures IntBytes(IntOf(rep, signed), |rep|) == rep
  {
    UnsignedInverse(rep);
  }

  /** IEEE 754: the bits below the sign, and those of infinity. */
  function SignWeight(width: nat): nat { if width == 4 then 0x8000_0000 else 0x8000_0000_0000_0000 }
  function InfinityBits(width: nat): nat { if width == 4 then 0x7f80_0000 else 0x7ff0_0000_0000_0000 }

  function Magnitude(rep: seq<byte>): nat {
    Unsigned(rep) % SignWeight(|rep|)
  }

  predicate IsNaN(rep: seq<byte>) {
    Magnitude(rep) > InfinityBits(|rep|)
  }

  predicate IsZero(rep: seq<byte>) {
    Magnitude(rep) == 0
  }

  /** `==` on two scalars of one kind. */
  predicate ScalarEqual(k: Kind, x: seq<byte>, y: seq<byte>)
    requires |x| == |y| == Width(k)
  {
    match k
    case BoolKind => (x[0] != 0) == (y[0] != 0)
    case IntKind(_, signed) => IntOf(x, signed) == IntOf(y, signed)
    case _ => !IsNaN(x) && !IsNaN(y) && (Unsigned(x) == Unsigned(y) || (IsZero(x) && IsZero(y)))
  }

  predicate IsFloat(k: Kind) {
    k.Float32? || k.Float64?
  }

  /** A bool holds 0 or 1; C++ leaves every other byte undefined. */
  predicate Valid(t: Type, v: Value)
    requires Fits(t, v)
  {
    match t
    case Scalar(k) => k.BoolKind? ==> v.rep[0] <= 1
    case Aggregate(fs) =>
      assert FitAll(fs, v.members);
      forall i :: 0 <= i < |fs| ==> Fits(fs[i].ty, v.members[i]) && Valid(fs[i].ty, v.members[i])
  }

  // ---- equal ----

  predicate Equal(t: Type, a: Value, b: Value)
    requires Fits(t, a) && Fits(t, b)
  {
    match t
    case Scalar(k) => ScalarEqual(k, a.rep, b.rep)
    case Aggregate(fs) =>
      assert FitAll(fs, a.members) && FitAll(fs, b.members);
      forall i :: 0 <= i < |fs| ==>
        Fits(fs[i].ty, a.members[i]) && Fits(fs[i].ty, b.members[i]) && Equal(fs[i].ty, a.members[i], b.members[i])
  }

  method ComputeEqual(t: Type, a: Value, b: Value) returns (eq: bool)
    requires t.Aggregate? && Fits(t, a) && Fits(t, b)
    ensures eq <==> Equal(t, a, b)
    decreases t
  {
    var fs := t.fields;
    eq := true;
    for i := 0 to |fs|
      invariant eq <==> forall j :: 0 <= j < i ==>
        Fits(fs[j].ty, a.members[j]) && Fits(fs[j].ty, b.members[j]) && Equal(fs[j].ty, a.members[j], b.members[j])
    {
      assert Fits(fs[i].ty, a.members[i]) && Fits(fs[i].ty, b.members[i]);
      if fs[i].ty.Scalar? {
        eq := eq && ScalarEqual(fs[i].ty.kind, a.members[i].rep, b.members[i].rep);
      } else if eq {
        eq := ComputeEqual(fs[i].ty, a.members[i], b.members[i]);
      }
    }
  }

  // ---- What it decides ----

  /** Some float leaf satisfies `bad`. */
  ghost predicate SomeFloat(t: Type, v: Value, bad: seq<byte> -> bool)
    requires Fits(t, v)
  {
    match t
    case Scalar(k) => IsFloat(k) && bad(v.rep)
    case Aggregate(fs) =>
      assert FitAll(fs, v.members);
      exists i :: 0 <= i < |fs| && Fits(fs[i].ty, v.members[i]) && SomeFloat(fs[i].ty, v.members[i], bad)
  }

  ghost predicate HasNaN(t: Type, v: Value)
    requires Fits(t, v)
  {
    SomeFloat(t, v, IsNaN)
  }

  ghost predicate HasZeroFloat(t: Type, v: Value)
    requires Fits(t, v)
  {
    SomeFloat(t, v, IsZero)
  }

  /** An object equals its own round trip iff it holds no NaN. */
  lemma {:induction false} EqualToSelfIffNoNaN(t: Type, v: Value)
    requires Fits(t, v)
    ensures Equal(t, v, v) <==> !HasNaN(t, v)
    decreases t
  {
    if t.Aggregate? {
      forall i | 0 <= i < |t.fields|
        ensures Fits(t.fields[i].ty, v.members[i])
        ensures Equal(t.fields[i].ty, v.members[i], v.members[i]) <==> !SomeFloat(t.fields[i].ty, v.members[i], IsNaN)
      {
        EqualToSelfIffNoNaN(t.fields[i].ty, v.members[i]);
      }
    }
  }

  /** Equal objects without zero floats are the same object, bit for bit. */
  lemma {:induction false} EqualMeansSame(t: Type, v: Value, w: Value)
    requires Fits(t, v) && Fits(t, w) && Valid(t, v) && Valid(t, w)
    requires Equal(t, v, w) && !HasZeroFloat(t, v)
    ensures v == w
    decreases t
  {
    match t
    case Scalar(k) =>
      UnsignedInverse(v.rep);
      UnsignedInverse(w.rep);
      if k.IntKind? {
        IntInverse(v.rep, k.signed);
        IntInverse(w.rep, k.signed);
      } else if k.BoolKind? {
        assert v.rep == [v.rep[0]] && w.rep == [w.rep[0]];
      }
    case Aggregate(fs) =>
      forall i | 0 <= i < |fs| ensures v.members[i] == w.members[i] {
        assert Fits(fs[i].ty, v.members[i]) && Fits(fs[i].ty, w.members[i]);
        EqualMeansSame(fs[i].ty, v.members[i], w.members[i]);
      }
  }

  lemma {:induction false} BytesInverse(u: nat, n: nat)
    requires u < Power256(n)
    ensures Unsigned(UnsignedBytes(u, n)) == u
    decreases n
  {
    if n > 0 {
      BytesInverse(u / 256, n - 1);
    }
  }

  /** The zero of the other sign is another object that compares equal. */
  lemma OtherZero(k: Kind, rep: seq<byte>) returns (other: seq<byte>)
    requires IsFloat(k) && |rep| == Width(k) && IsZero(rep)
    ensures |other| == |rep| && other != rep && ScalarEqual(k, rep, other)
  {
    assert Power256(4) == 2 * SignWeight(4) && Power256(8) == 2 * SignWeight(8);
    var u := if Unsigned(rep) == 0 then SignWeight(|rep|) else 0;
    other := UnsignedBytes(u, |rep|);
    BytesInverse(u, |rep|);
  }

  /** An object with a zero float, and no NaN, has an equal twin with other bytes. */
  lemma {:induction false} ZeroTwin(t: Type, v: Value) returns (w: Value)
    requires Fits(t, v) && Valid(t, v) && HasZeroFloat(t, v) && !HasNaN(t, v)
    ensures Fits(t, w) && Valid(t, w) && Equal(t, v, w) && w != v
    decreases t
  {
    match t
    case Scalar(k) =>
      var other := OtherZero(k, v.rep);
      w := Cell(other);
    case Aggregate(fs) =>
      var i :| 0 <= i < |fs| && Fits(fs[i].ty, v.members[i]) && SomeFloat(fs[i].ty, v.members[i], IsZero);
      var m := ZeroTwin(fs[i].ty, v.members[i]);
      w := Record(v.members[i := m]);
      forall j | 0 <= j < |fs|
        ensures Fits(fs[j].ty, v.members[j]) && Fits(fs[j].ty, w.members[j])
        ensures Valid(fs[j].ty, w.members[j]) && Equal(fs[j].ty, v.members[j], w.members[j])
      {
        assert Fits(fs[j].ty, v.members[j]);
        EqualToSelfIffNoNaN(fs[j].ty, v.members[j]);
      }
      assert w.members[i] != v.members[i];
  }

  ghost predicate Agrees(t: Type, v: Value, w: Value)
    requires Fits(t, v) && Fits(t, w)
  {
    Equal(t, v, w) <==> Encode(t, v) == Encode(t, w)
  }

  /** `equal` against v is the same as comparing the bytes. */
  ghost predicate BytesDecide(t: Type, v: Value)
    requires Fits(t, v)
  {
    forall w :: Fits(t, w) && Valid(t, w) ==> Agrees(t, v, w)
  }

  lemma SameBytesSameObject(t: Type, v: Value, w: Value)
    requires Fits(t, v) && Fits(t, w)
    ensures Encode(t, v) == Encode(t, w) ==> v == w
  {
    if Encode(t, v) == Encode(t, w) { EncodingIsPrefixFree(t, v, w, [], []); }
  }

  lemma BytesDecideWhenPlain(t: Type, v: Value)
    requires Fits(t, v) && Valid(t, v) && !HasNaN(t, v) && !HasZeroFloat(t, v)
    ensures BytesDecide(t, v)
  {
    EqualToSelfIffNoNaN(t, v);
    forall w | Fits(t, w) && Valid(t, w) ensures Agrees(t, v, w) {
      SameBytesSameObject(t, v, w);
      if Equal(t, v, w) { EqualMeansSame(t, v, w); }
    }
  }

  /** It is, iff v holds neither a NaN nor a zero in floating point. */
  lemma BytesDecideIffPlain(t: Type, v: Value)
    requires Fits(t, v) && Valid(t, v)
    ensures BytesDecide(t, v) <==> !HasNaN(t, v) && !HasZeroFloat(t, v)
  {
    if HasNaN(t, v) {
      EqualToSelfIffNoNaN(t, v);
      assert !Agrees(t, v, v);
    } else if HasZeroFloat(t, v) {
      var w := ZeroTwin(t, v);
      SameBytesSameObject(t, v, w);
      assert !Agrees(t, v, w);
    } else {
      BytesDecideWhenPlain(t, v);
    }
  }
}
