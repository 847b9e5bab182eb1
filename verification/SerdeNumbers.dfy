/** What the cells of the serializer mean as numbers, and that the comparison of
    objects is the comparison of those numbers. */
module SerdeNumbers {
  import opened Common
  import opened Serde
  import opened SerdeEqual

  // ---- Integers ----

  /** The byte at place i weighs 256 to the power of i. */
  lemma {:induction false} LastByteWeighsMost(front: seq<byte>, last: byte)
    ensures Unsigned(front + [last]) == Unsigned(front) + last * Power256(|front|)
    decreases |front|
  {
    var rep := front + [last];
    if front == [] {
      assert rep[1..] == [];
    } else {
      assert rep[1..] == front[1..] + [last];
      LastByteWeighsMost(front[1..], last);
      assert 256 * (last * Power256(|front| - 1)) == last * Power256(|front|);
    }
  }

  /** Two's complement: the value lies in the range of its width and is congruent to
      the bits. */
  lemma IntegersAreTwosComplement(rep: seq<byte>, signed: bool)
    ensures
      var (n, range) := (IntOf(rep, signed), Power256(|rep|));
      && (if signed then -range <= 2 * n < range else 0 <= n < range)
      && (n == Unsigned(rep) || n == Unsigned(rep) - range)
  {}

  // ---- Floating point, section 3.4 of IEEE 754-2019 ----

  const TWO_TO_THE_23: nat := 0x80_0000
  const TWO_TO_THE_52: nat := 0x10_0000_0000_0000

  function FractionSize(width: nat): nat {
    if width == 4 then TWO_TO_THE_23 else TWO_TO_THE_52
  }

  function MaxExponent(width: nat): nat {
    if width == 4 then 255 else 2047
  }

  function Exponent(rep: seq<byte>): nat {
    Magnitude(rep) / FractionSize(|rep|)
  }

  function Fraction(rep: seq<byte>): nat {
    Magnitude(rep) % FractionSize(|rep|)
  }

  predicate Negative(rep: seq<byte>) {
    Unsigned(rep) >= SignWeight(|rep|)
  }

  /** NaNs have the greatest exponent and a fraction, zeros neither exponent nor fraction. */
  lemma SpecialValues(rep: seq<byte>)
    requires |rep| == 4 || |rep| == 8
    ensures Exponent(rep) <= MaxExponent(|rep|)
    ensures IsNaN(rep) <==> Exponent(rep) == MaxExponent(|rep|) && Fraction(rep) != 0
    ensures IsZero(rep) <==> Exponent(rep) == 0 && Fraction(rep) == 0
  {}

  /** n, doubled e times. */
  function Doubled(n: nat, e: nat): nat {
    if e == 0 then n else 2 * Doubled(n, e - 1)
  }

  /** An absolute value, in units of the least positive number: subnormals have
      exponent 0 and no leading one, and each further exponent doubles the unit. */
  function Units(exponent: nat, fraction: nat, size: nat): nat {
    if exponent == 0 then fraction else Doubled(size + fraction, exponent - 1)
  }

  lemma {:induction false} DoubledRises(less: nat, more: nat, e: nat)
    requires less < more
    ensures Doubled(less, e) < Doubled(more, e)
    decreases e
  {
    if e > 0 { DoubledRises(less, more, e - 1); }
  }

  lemma {:induction false} DoubledOnce(n: nat, e: nat)
    ensures Doubled(2 * n, e) == Doubled(n, e + 1)
    decreases e
  {
    if e > 0 { DoubledOnce(n, e - 1); }
  }

  lemma {:induction false} DoubledMore(n: nat, less: nat, more: nat)
    requires less <= more
    ensures Doubled(n, less) <= Doubled(n, more)
    decreases more - less
  {
    if less < more { DoubledMore(n, less, more - 1); }
  }

  /** A greater exponent means a greater number, whatever the fractions. */
  lemma ExponentDecides(e: nat, f: nat, e': nat, f': nat, size: nat)
    requires e < e' && f < size
    ensures Units(e, f, size) < Units(e', f', size)
  {
    DoubledMore(size, e, e' - 1);
    if f' > 0 { DoubledRises(size, size + f', e' - 1); }
    if e > 0 {
      DoubledRises(size + f, 2 * size, e - 1);
      DoubledOnce(size, e - 1);
    }
  }

  /** Distinct exponents or fractions make distinct numbers, and only zero is zero. */
  lemma UnitsDecide(e: nat, f: nat, e': nat, f': nat, size: nat)
    requires f < size && f' < size
    ensures Units(e, f, size) == Units(e', f', size) <==> e == e' && f == f'
    ensures Units(e, f, size) == 0 <==> e == 0 && f == 0
  {
    if e < e' { ExponentDecides(e, f, e', f', size); }
    if e' < e { ExponentDecides(e', f', e, f, size); }
    if e == e' && e > 0 {
      if f < f' { DoubledRises(size + f, size + f', e - 1); }
      if f' < f { DoubledRises(size + f', size + f, e - 1); }
    }
    if e > 0 { ExponentDecides(0, 0, e, f, size); }
  }

  /** The number a float stands for, in those units; the infinities are one step
      beyond the greatest finite numbers. */
  function FloatValue(rep: seq<byte>): int
    requires |rep| == 4 || |rep| == 8
  {
    var units: int := Units(Exponent(rep), Fraction(rep), FractionSize(|rep|));
    if Negative(rep) then -units else units
  }

  lemma SignSplitsFloat(u: nat)
    requires u < 0x1_0000_0000
    ensures u == u % 0x8000_0000 + if u >= 0x8000_0000 then 0x8000_0000 else 0
  {}

  lemma SignSplitsDouble(u: nat)
    requires u < 0x1_0000_0000_0000_0000
    ensures u == u % 0x8000_0000_0000_0000 + if u >= 0x8000_0000_0000_0000 then 0x8000_0000_0000_0000 else 0
  {}

  lemma SignSplits(rep: seq<byte>)
    requires |rep| == 4 || |rep| == 8
    ensures Unsigned(rep) == Magnitude(rep) + if Negative(rep) then SignWeight(|rep|) else 0
  {
    assert Power256(4) == 0x1_0000_0000 && Power256(8) == 0x1_0000_0000_0000_0000;
    if |rep| == 4 { SignSplitsFloat(Unsigned(rep)); } else { SignSplitsDouble(Unsigned(rep)); }
  }

  /** Exponent and fraction make up the magnitude. */
  lemma MagnitudeSplits(x: seq<byte>, y: seq<byte>)
    requires |x| == |y| && (|x| == 4 || |x| == 8)
    ensures Fraction(x) < FractionSize(|x|)
    ensures Exponent(x) == Exponent(y) && Fraction(x) == Fraction(y) <==> Magnitude(x) == Magnitude(y)
  {
    var m, n := Magnitude(x), Magnitude(y);
    if |x| == 4 {
      assert m == TWO_TO_THE_23 * (m / TWO_TO_THE_23) + m % TWO_TO_THE_23;
      assert n == TWO_TO_THE_23 * (n / TWO_TO_THE_23) + n % TWO_TO_THE_23;
    } else {
      assert m == TWO_TO_THE_52 * (m / TWO_TO_THE_52) + m % TWO_TO_THE_52;
      assert n == TWO_TO_THE_52 * (n / TWO_TO_THE_52) + n % TWO_TO_THE_52;
    }
  }

  /** Floats are equal iff neither is a NaN and they stand for one number. */
  lemma FloatsEqualIffSameNumber(k: Kind, x: seq<byte>, y: seq<byte>)
    requires IsFloat(k) && |x| == |y| == Width(k)
    ensures ScalarEqual(k, x, y) <==> !IsNaN(x) && !IsNaN(y) && FloatValue(x) == FloatValue(y)
  {
    MagnitudeSplits(x, y);
    MagnitudeSplits(y, x);
    UnitsDecide(Exponent(x), Fraction(x), Exponent(y), Fraction(y), FractionSize(|x|));
    UnitsDecide(Exponent(y), Fraction(y), Exponent(x), Fraction(x), FractionSize(|x|));
    SpecialValues(x);
    SpecialValues(y);
    SignSplits(x);
    SignSplits(y);
  }

  /** So equal floats have the same bytes or are both zero. */
  lemma EqualFloatsAreSameOrZero(k: Kind, x: seq<byte>, y: seq<byte>)
    requires IsFloat(k) && |x| == |y| == Width(k) && ScalarEqual(k, x, y)
    ensures x == y || (IsZero(x) && IsZero(y))
  {
    UnsignedInverse(x);
    UnsignedInverse(y);
  }

  /** Bools are equal iff both are false or both true, integers iff they are one number. */
  lemma BoolsAndIntegersEqualIff(k: Kind, x: seq<byte>, y: seq<byte>)
    requires !IsFloat(k) && |x| == |y| == Width(k)
    ensures ScalarEqual(k, x, y) <==>
      match k case BoolKind => x == [0] <==> y == [0] case IntKind(_, signed) => IntOf(x, signed) == IntOf(y, signed)
  {
    if k.BoolKind? { assert x == [x[0]] && y == [y[0]]; }
  }

  // ---- Objects, leaf by leaf ----

  /** The leaf at the end of a path of member numbers. */
  function LeafAt(t: Type, v: Value, path: seq<nat>): Option<(Kind, seq<byte>)>
    requires Fits(t, v)
    decreases |path|
  {
    match t
    case Scalar(k) => if path == [] then Some((k, v.rep)) else None
    case Aggregate(fs) =>
      if path != [] && path[0] < |fs| then
        assert FitAll(fs, v.members);
        LeafAt(fs[path[0]].ty, v.members[path[0]], path[1..])
      else None
  }

  /** Two objects of a type have the same leaves, and these are equal one by one. */
  ghost predicate LeavesEqual(t: Type, v: Value, w: Value)
    requires Fits(t, v) && Fits(t, w)
  {
    forall path :: LeafEqual(t, v, w, path)
  }

  ghost predicate LeafEqual(t: Type, v: Value, w: Value, path: seq<nat>)
    requires Fits(t, v) && Fits(t, w)
  {
    match (LeafAt(t, v, path), LeafAt(t, w, path))
    case (Some((k, x)), Some((l, y))) => k == l && |x| == |y| == Width(k) && ScalarEqual(k, x, y)
    case (None, None) => true
    case _ => false
  }

  lemma MembersFit(t: Type, v: Value, i: nat)
    requires t.Aggregate? && Fits(t, v) && i < |t.fields|
    ensures |v.members| == |t.fields| && Fits(t.fields[i].ty, v.members[i])
  {
    assert FitAll(t.fields, v.members);
  }

  /** `equal` holds iff all leaves are equal, whatever the nesting. */
  lemma {:induction false} EqualIffLeavesEqual(t: Type, v: Value, w: Value)
    requires Fits(t, v) && Fits(t, w)
    ensures Equal(t, v, w) <==> LeavesEqual(t, v, w)
    decreases t
  {
    match t
    case Scalar(k) =>
      assert LeafEqual(t, v, w, []) <==> ScalarEqual(k, v.rep, w.rep);
    case Aggregate(fs) =>
      forall i | 0 <= i < |fs|
        ensures Fits(fs[i].ty, v.members[i]) && Fits(fs[i].ty, w.members[i])
        ensures Equal(fs[i].ty, v.members[i], w.members[i]) <==> LeavesEqual(fs[i].ty, v.members[i], w.members[i])
      {
        MembersFit(t, v, i);
        MembersFit(t, w, i);
        EqualIffLeavesEqual(fs[i].ty, v.members[i], w.members[i]);
      }
      if Equal(t, v, w) {
        forall path ensures LeafEqual(t, v, w, path) {
          if path != [] && path[0] < |fs| {
            assert LeafEqual(fs[path[0]].ty, v.members[path[0]], w.members[path[0]], path[1..]);
          }
        }
      }
      if LeavesEqual(t, v, w) {
        forall i | 0 <= i < |fs| ensures LeavesEqual(fs[i].ty, v.members[i], w.members[i]) {
          forall path ensures LeafEqual(fs[i].ty, v.members[i], w.members[i], path) {
            assert ([i] + path)[1..] == path;
            assert LeafEqual(t, v, w, [i] + path);
          }
        }
      }
  }

  lemma {:induction false} EqualIsSymmetric(t: Type, v: Value, w: Value)
    requires Fits(t, v) && Fits(t, w)
    ensures Equal(t, v, w) <==> Equal(t, w, v)
    decreases t
  {
    if t.Aggregate? {
      forall i | 0 <= i < |t.fields|
        ensures Fits(t.fields[i].ty, v.members[i]) && Fits(t.fields[i].ty, w.members[i])
        ensures Equal(t.fields[i].ty, v.members[i], w.members[i]) <==> Equal(t.fields[i].ty, w.members[i], v.members[i])
      {
        MembersFit(t, v, i);
        MembersFit(t, w, i);
        EqualIsSymmetric(t.fields[i].ty, v.members[i], w.members[i]);
      }
    }
  }

  // ---- Bytes ----

  /** All cells of an object, in declaration order. */
  function AllBytes(v: Value): seq<byte> {
    match v
    case Cell(rep) => rep
    case Record(ms) => AllBytesOf(ms)
  }

  function AllBytesOf(vs: seq<Value>): seq<byte> {
    if vs == [] then [] else AllBytes(vs[0]) + AllBytesOf(vs[1..])
  }

  /** What is written are the cells, one after the other, and nothing else. */
  lemma {:induction false} CellsAreWritten(t: Type, v: Value)
    requires Fits(t, v)
    ensures Encode(t, v) == AllBytes(v)
    decreases t, 0
  {
    if t.Aggregate? {
      CellsAreWrittenFrom(t.fields, v.members, 0);
      assert v.members[0..] == v.members;
    }
  }

  lemma {:induction false} CellsAreWrittenFrom(fs: seq<Field>, vs: seq<Value>, i: nat)
    requires FitAll(fs, vs) && i <= |fs|
    ensures EncodeFrom(fs, vs, i) == AllBytesOf(vs[i..])
    decreases fs, |fs| - i
  {
    if i < |fs| {
      CellsAreWritten(fs[i].ty, vs[i]);
      CellsAreWrittenFrom(fs, vs, i + 1);
      assert vs[i..][0] == vs[i] && vs[i..][1..] == vs[i + 1..];
    }
  }

  /** The sizes of the scalar types. */
  lemma ScalarSizes(width: size, signed: bool)
    ensures SizeOf(Scalar(BoolKind)) == 1 && SizeOf(Scalar(IntKind(width, signed))) == width
    ensures SizeOf(Scalar(Float32)) == 4 && SizeOf(Scalar(Float64)) == 8
  {}
}
