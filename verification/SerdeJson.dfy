/** The JSON writer, and the parser that shows its output to be decodable by
    anyone who knows the type. */
module SerdeJson {
  import opened Common
  import opened Decimal
  import opened Serde
  import opened SerdeEqual

  /** Bool and integer leaves only: the text of a float does not determine it. */
  predicate FloatFree(t: Type) {
    match t
    case Scalar(k) => !IsFloat(k)
    case Aggregate(fs) => forall i :: 0 <= i < |fs| ==> FloatFree(fs[i].ty)
  }

  /** Values the writer is defined on. */
  predicate Writable(t: Type, v: Value) {
    FloatFree(t) && Fits(t, v) && Valid(t, v)
  }

  // ---- The text ----

  function ScalarText(k: Kind, rep: seq<byte>): string
    requires !IsFloat(k) && |rep| == Width(k)
  {
    match k
    case BoolKind => if rep[0] != 0 then "true" else "false"
    case IntKind(_, signed) => ToString(IntOf(rep, signed))
  }

  function Json(t: Type, v: Value): string
    requires Writable(t, v)
    decreases t, 0
  {
    match t
    case Scalar(k) => ScalarText(k, v.rep)
    case Aggregate(fs) => "{" + JsonFrom(t, v, 0) + "}"
  }

  function Comma(i: nat): string {
    if i == 0 then "" else ","
  }

  function Key(name: string): string {
    "\"" + name + "\":"
  }

  lemma MemberWritable(t: Type, v: Value, i: nat)
    requires Writable(t, v) && t.Aggregate? && i < |t.fields|
    ensures i < |v.members| && Writable(t.fields[i].ty, v.members[i])
  {
    assert FitAll(t.fields, v.members);
    assert Fits(t.fields[i].ty, v.members[i]);
  }

  /** The members from the i-th on. */
  function JsonFrom(t: Type, v: Value, i: nat): string
    requires Writable(t, v) && t.Aggregate? && i <= |t.fields|
    decreases t, 0, |t.fields| - i
  {
    if i == |t.fields| then ""
    else
      MemberWritable(t, v, i);
      Comma(i) + Key(t.fields[i].name) + Json(t.fields[i].ty, v.members[i]) + JsonFrom(t, v, i + 1)
  }

  lemma JsonUnfolds(t: Type, v: Value, i: nat)
    requires Writable(t, v) && t.Aggregate? && i < |t.fields|
    ensures i < |v.members| && Writable(t.fields[i].ty, v.members[i])
    ensures JsonFrom(t, v, i) ==
      (Comma(i) + Key(t.fields[i].name)) + Json(t.fields[i].ty, v.members[i]) + JsonFrom(t, v, i + 1)
  {
    MemberWritable(t, v, i);
  }

  lemma Joins<T>(a: seq<T>, b: seq<T>, c: seq<T>, d: seq<T>)
    ensures a + (b + c + d) == (a + b) + c + d
  {}

  class JsonWriter {
    var out: string

    constructor ()
      ensures out == ""
    {
      out := "";
    }

    method ToJson(t: Type, obj: Value)
      requires t.Aggregate? && Writable(t, obj)
      modifies this
      ensures out == old(out) + Json(t, obj)
      decreases t, 1
    {
      out := out + "{";
      WriteMembers(t, obj);
      out := out + "}";
    }

    /** The loop over the members. */
    method WriteMembers(t: Type, obj: Value)
      requires t.Aggregate? && Writable(t, obj)
      modifies this
      ensures out == old(out) + JsonFrom(t, obj, 0)
      decreases t, 0
    {
      var first := true;
      ghost var goal := out + JsonFrom(t, obj, 0);
      for i := 0 to |t.fields|
        invariant first <==> i == 0
        invariant out + JsonFrom(t, obj, i) == goal
      {
        JsonUnfolds(t, obj, i);
        ghost var was, rest := out, JsonFrom(t, obj, i + 1);
        WriteKey(first, t.fields[i].name);
        first := false;
        JsonValue(t.fields[i].ty, obj.members[i]);
        Joins(was, Comma(i) + Key(t.fields[i].name), Json(t.fields[i].ty, obj.members[i]), rest);
      }
    }

    method WriteKey(first: bool, name: string)
      modifies this
      ensures out == old(out) + ((if first then "" else ",") + Key(name))
    {
      if !first {
        out := out + ",";
      }
      out := out + "\"";
      out := out + name;
      out := out + "\":";
    }

    method JsonValue(t: Type, v: Value)
      requires Writable(t, v)
      modifies this
      ensures out == old(out) + Json(t, v)
      decreases t, 2
    {
      if t.Scalar? {
        out := out + ScalarText(t.kind, v.rep);
      } else {
        ToJson(t, v);
      }
    }
  }

  // ---- The parser: it is told the type and returns the value and what follows ----

  function Skip(text: string, s: string): Option<string> {
    if text <= s then Some(s[|text|..]) else None
  }

  function DigitRun(s: string): (n: nat)
    ensures n <= |s|
  {
    if s != "" && IsDigit(s[0]) then 1 + DigitRun(s[1..]) else 0
  }

  lemma {:induction false} DigitRunIsDigits(s: string)
    ensures forall i :: 0 <= i < DigitRun(s) ==> IsDigit(s[i])
    decreases |s|
  {
    if s != "" && IsDigit(s[0]) { DigitRunIsDigits(s[1..]); }
  }

  function ParseNumeral(s: string): (int, string) {
    var n := DigitRun(s);
    DigitRunIsDigits(s);
    (Read(s[..n]), s[n..])
  }

  function ParseInt(s: string): (int, string) {
    if s != "" && s[0] == '-' then var (n, rest) := ParseNumeral(s[1..]); (-n, rest) else ParseNumeral(s)
  }

  function ParseScalar(k: Kind, s: string): Option<(Value, string)> {
    match k
    case BoolKind =>
      if "true" <= s then Some((Cell([1]), s[4..]))
      else if "false" <= s then Some((Cell([0]), s[5..]))
      else None
    case IntKind(width, _) => var (n, rest) := ParseInt(s); Some((Cell(IntBytes(n, width)), rest))
    case _ => None
  }

  function Parse(t: Type, s: string): Option<(Value, string)>
    decreases t, 1, 0
  {
    match t
    case Scalar(k) => ParseScalar(k, s)
    case Aggregate(fs) =>
      match Skip("{", s)
      case None => None
      case Some(body) =>
        match ParseFrom(fs, 0, body)
        case None => None
        case Some((ms, rest)) =>
          match Skip("}", rest)
          case None => None
          case Some(after) => Some((Record(ms), after))
  }

  function ParseFrom(fs: seq<Field>, i: nat, s: string): Option<(seq<Value>, string)>
    requires i <= |fs|
    decreases fs, 0, |fs| - i
  {
    if i == |fs| then Some(([], s))
    else
      match Skip(Comma(i) + Key(fs[i].name), s)
      case None => None
      case Some(text) =>
        match Parse(fs[i].ty, text)
        case None => None
        case Some((v, rest)) =>
          match ParseFrom(fs, i + 1, rest)
          case None => None
          case Some((vs, after)) => Some(([v] + vs, after))
  }

  // ---- Decodability ----

  /** Text that cannot extend a numeral. */
  predicate EndsNumeral(s: string) {
    s == "" || !IsDigit(s[0])
  }

  lemma {:induction false} DigitRunStops(digits: string, rest: string)
    requires (forall i :: 0 <= i < |digits| ==> IsDigit(digits[i])) && EndsNumeral(rest)
    ensures DigitRun(digits + rest) == |digits|
    decreases |digits|
  {
    if digits == "" {
      assert digits + rest == rest;
    } else {
      assert (digits + rest)[1..] == digits[1..] + rest;
      DigitRunStops(digits[1..], rest);
    }
  }

  lemma NumeralParses(n: nat, rest: string)
    requires EndsNumeral(rest)
    ensures ParseNumeral(Numeral(n) + rest) == (n, rest)
  {
    DigitRunStops(Numeral(n), rest);
    NumeralReadsBack(n);
    assert (Numeral(n) + rest)[..|Numeral(n)|] == Numeral(n);
  }

  lemma IntParses(n: int, rest: string)
    requires EndsNumeral(rest)
    ensures ParseInt(ToString(n) + rest) == (n, rest)
  {
    if n < 0 {
      NumeralParses(-n, rest);
      MinusFirst(Numeral(-n), rest);
    } else {
      NumeralParses(n, rest);
      DigitFirst(Numeral(n), rest);
    }
  }

  lemma MinusFirst(digits: string, rest: string)
    ensures ("-" + digits + rest)[0] == '-' && ("-" + digits + rest)[1..] == digits + rest
  {}

  lemma DigitFirst(digits: string, rest: string)
    requires digits != "" && IsDigit(digits[0])
    ensures digits + rest != "" && (digits + rest)[0] != '-'
  {}

  lemma ScalarParses(k: Kind, v: Value, rest: string)
    requires Writable(Scalar(k), v) && EndsNumeral(rest)
    ensures ParseScalar(k, ScalarText(k, v.rep) + rest) == Some((v, rest))
  {
    match k
    case BoolKind =>
      assert v.rep == [v.rep[0]];
      var s := ScalarText(k, v.rep) + rest;
      if v.rep[0] != 0 {
        assert "true" <= s;
      } else {
        assert "false" <= s && s[0] == 'f' && "true"[0] == 't';
      }
    case IntKind(width, signed) =>
      IntParses(IntOf(v.rep, signed), rest);
      IntInverse(v.rep, signed);
  }

  /** The parser recovers the value, and stops where the text of the value stops. */
  lemma {:induction false} Decodable(t: Type, v: Value, rest: string)
    requires Writable(t, v) && (t.Scalar? ==> EndsNumeral(rest))
    ensures Parse(t, Json(t, v) + rest) == Some((v, rest))
    decreases t, 1, 0
  {
    match t
    case Scalar(k) => ScalarParses(k, v, rest);
    case Aggregate(fs) =>
      var s := Json(t, v) + rest;
      assert "{" <= s && s[1..] == JsonFrom(t, v, 0) + ("}" + rest);
      DecodableFrom(t, v, 0, "}" + rest);
      assert v.members[0..] == v.members;
      assert ("}" + rest)[1..] == rest;
  }

  lemma SkipHead(head: string, x: string)
    ensures Skip(head, head + x) == Some(x)
  {}

  /** What follows a member is a comma or the end of the object, never a digit. */
  lemma TailEndsNumeral(t: Type, v: Value, i: nat, rest: string)
    requires Writable(t, v) && t.Aggregate? && 0 < i <= |t.fields| && EndsNumeral(rest)
    ensures EndsNumeral(JsonFrom(t, v, i) + rest)
  {
    if i < |t.fields| {
      JsonUnfolds(t, v, i);
      assert JsonFrom(t, v, i)[0] == ',';
    } else {
      assert JsonFrom(t, v, i) + rest == rest;
    }
  }

  lemma {:induction false} DecodableFrom(t: Type, v: Value, i: nat, rest: string)
    requires Writable(t, v) && t.Aggregate? && i <= |t.fields| && EndsNumeral(rest)
    ensures |v.members| == |t.fields|
    ensures ParseFrom(t.fields, i, JsonFrom(t, v, i) + rest) == Some((v.members[i..], rest))
    decreases t, 0, |t.fields| - i
  {
    assert FitAll(t.fields, v.members);
    if i == |t.fields| {
      assert JsonFrom(t, v, i) + rest == rest && v.members[i..] == [];
    } else {
      MemberWritable(t, v, i);
      TailEndsNumeral(t, v, i + 1, rest);
      Decodable(t.fields[i].ty, v.members[i], JsonFrom(t, v, i + 1) + rest);
      DecodableFrom(t, v, i + 1, rest);
      DecodableMember(t, v, i, rest);
    }
  }

  lemma DecodableMember(t: Type, v: Value, i: nat, rest: string)
    requires Writable(t, v) && t.Aggregate? && i < |t.fields| && |v.members| == |t.fields|
    requires Writable(t.fields[i].ty, v.members[i])
    requires
      var more := JsonFrom(t, v, i + 1) + rest;
      && Parse(t.fields[i].ty, Json(t.fields[i].ty, v.members[i]) + more) == Some((v.members[i], more))
      && ParseFrom(t.fields, i + 1, more) == Some((v.members[i + 1..], rest))
    ensures ParseFrom(t.fields, i, JsonFrom(t, v, i) + rest) == Some((v.members[i..], rest))
  {
    var head, text, more := Comma(i) + Key(t.fields[i].name), Json(t.fields[i].ty, v.members[i]), JsonFrom(t, v, i + 1);
    assert JsonFrom(t, v, i) == head + text + more by { JsonUnfolds(t, v, i); }
    ParseStep(t.fields, i, head, text, more, rest, v.members[i], v.members[i + 1..]);
    FirstAndRest(v.members, i);
  }

  lemma FirstAndRest<T>(s: seq<T>, i: nat)
    requires i < |s|
    ensures s[i..] == [s[i]] + s[i + 1..]
  {}

  lemma RightNested<T>(a: seq<T>, b: seq<T>, c: seq<T>, d: seq<T>)
    ensures a + b + c + d == a + (b + (c + d))
  {}

  /** One member parsed, then the others. */
  lemma ParseStep(
      fs: seq<Field>, i: nat, head: string, text: string, more: string, rest: string, m: Value, ms: seq<Value>)
    requires i < |fs| && head == Comma(i) + Key(fs[i].name)
    requires Parse(fs[i].ty, text + (more + rest)) == Some((m, more + rest))
    requires ParseFrom(fs, i + 1, more + rest) == Some((ms, rest))
    ensures ParseFrom(fs, i, head + text + more + rest) == Some(([m] + ms, rest))
  {
    RightNested(head, text, more, rest);
    SkipHead(head, text + (more + rest));
  }

  /** So two outputs of one aggregate type never extend one another, and equal
      outputs come from equal objects. */
  lemma JsonIsPrefixFree(t: Type, v: Value, w: Value, x: string, y: string)
    requires t.Aggregate? && Writable(t, v) && Writable(t, w)
    requires Json(t, v) + x == Json(t, w) + y
    ensures v == w && x == y
  {
    Decodable(t, v, x);
    Decodable(t, w, y);
  }

  /** One text starts with an output for v and with an output for w. */
  ghost predicate Clash(t: Type, v: Value, w: Value, x: string, y: string) {
    Writable(t, v) && Writable(t, w) && Json(t, v) + x == Json(t, w) + y
  }

  /** Whoever knows the type can tell from the start of a text which value it shows
      and where the value ends. */
  ghost predicate Unambiguous(t: Type) {
    forall v, w, x, y :: Clash(t, v, w, x, y) ==> v == w && x == y
  }

  lemma BoolsDoNotClash(v: Value, w: Value, x: string, y: string)
    requires Clash(Scalar(BoolKind), v, w, x, y)
    ensures v == w && x == y
  {
    var s := Json(Scalar(BoolKind), v) + x;
    assert v.rep == [v.rep[0]] && w.rep == [w.rep[0]];
    assert v.rep[0] == 0 <==> s[0] == 'f';
    assert w.rep[0] == 0 <==> s[0] == 'f';
    var n := |Json(Scalar(BoolKind), v)|;
    assert x == s[n..] && y == s[n..];
  }

  lemma {:induction false} Power256Grows(n: nat)
    requires n > 0
    ensures Power256(n) >= 256
  {
    if n > 1 { Power256Grows(n - 1); }
  }

  /** A small number in an integer of any width. */
  lemma SmallInteger(k: Kind, n: nat) returns (v: Value)
    requires k.IntKind? && n < 128
    ensures Writable(Scalar(k), v) && Json(Scalar(k), v) == Numeral(n)
  {
    Power256Grows(k.width);
    BytesInverse(n, k.width);
    v := Cell(UnsignedBytes(n, k.width));
  }

  /** 1 begins 12. */
  lemma IntegersClash(k: Kind)
    requires k.IntKind?
    ensures !Unambiguous(Scalar(k))
  {
    var v := SmallInteger(k, 1);
    var w := SmallInteger(k, 12);
    assert Numeral(12) == Numeral(1) + [Digit(2)];
    assert Numeral(12) + [] == Numeral(12);
    assert Clash(Scalar(k), v, w, [Digit(2)], []);
  }

  /** The text shows its value and its end for every type but a bare integer. */
  lemma UnambiguousIffNotBareInteger(t: Type)
    requires FloatFree(t)
    ensures Unambiguous(t) <==> !(t.Scalar? && t.kind.IntKind?)
  {
    if t.Scalar? && t.kind.IntKind? {
      IntegersClash(t.kind);
    } else {
      forall v, w, x, y | Clash(t, v, w, x, y) ensures v == w && x == y {
        if t.Scalar? { BoolsDoNotClash(v, w, x, y); } else { JsonIsPrefixFree(t, v, w, x, y); }
      }
    }
  }
}
