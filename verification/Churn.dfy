/** The allocation stress: a decimal printer, the total it drives, and the same
    total split into chunks. */
module Churn {
  import opened Decimal

  // ---- int_str ----

  /** C++ `/` and `%` truncate toward zero. */
  function DivTrunc(v: int, d: int): int
    requires d > 0
  {
    if v >= 0 then v / d else -((-v) / d)
  }

  function ModTrunc(v: int, d: int): int
    requires d > 0
  {
    if v >= 0 then v % d else -((-v) % d)
  }

  /** The quotient is rounded toward zero and the remainder has the sign of v. */
  lemma DivisionTruncates(v: int, d: int)
    requires d > 0
    ensures v == d * DivTrunc(v, d) + ModTrunc(v, d) && -d < ModTrunc(v, d) < d
    ensures if v >= 0 then ModTrunc(v, d) >= 0 else ModTrunc(v, d) <= 0
  {
    if v < 0 { assert -v == d * (-v / d) + -v % d; }
  }

  /** What the printer yields: below zero it counts down from '0' digit by digit. */
  function Printed(v: int): (s: string)
    ensures s != ""
    decreases if v < 0 then -v else v
  {
    var last := [('0' as int + ModTrunc(v, 10)) as char];
    if DivTrunc(v, 10) == 0 then last else Printed(DivTrunc(v, 10)) + last
  }

  method IntStr(v: int) returns (out: string)
    ensures out == Printed(v)
  {
    out := "";
    var rest := v;
    while true
      invariant Printed(rest) + out == Printed(v)
      decreases if rest < 0 then -rest else rest
    {
      var next := [('0' as int + ModTrunc(rest, 10)) as char];
      ghost var before := rest;
      rest := DivTrunc(rest, 10);
      assert rest != 0 ==> Printed(rest) + (next + out) == (Printed(rest) + next) + out;
      out := next + out;
      if rest == 0 {
        break;
      }
    }
  }

  lemma {:induction false} PrintedIsNumeral(v: nat)
    ensures Printed(v) == Numeral(v)
    decreases v
  {
    if v >= 10 {
      PrintedIsNumeral(v / 10);
    }
  }

  lemma {:induction false} PrintedBelowZero(v: int)
    requires v < 0
    ensures Printed(v)[0] < '0'
    decreases -v
  {
    if DivTrunc(v, 10) != 0 {
      PrintedBelowZero(DivTrunc(v, 10));
    }
  }

  /** Below zero the text mirrors the numeral of the absolute value at '0'. */
  lemma {:induction false} PrintedMirrors(v: int, i: nat)
    requires v < 0 && i < |Numeral(-v)|
    ensures |Printed(v)| == |Numeral(-v)| && Printed(v)[i] as int + Numeral(-v)[i] as int == 2 * '0' as int
    decreases -v
  {
    if -v >= 10 {
      PrintedMirrors(-(-v / 10), if i < |Numeral(-v / 10)| then i else 0);
    }
  }

  /** The printer writes a canonical numeral of its argument iff that is not negative. */
  lemma {:induction false} PrintedFaithfulIffNonNegative(v: int)
    ensures (Canonical(Printed(v)) && Read(Printed(v)) == v) <==> v >= 0
  {
    if v >= 0 {
      PrintedIsNumeral(v);
      NumeralReadsBack(v);
    } else {
      PrintedBelowZero(v);
    }
  }

  // ---- churn, churn_range ----

  function ItemSize(i: int): (n: nat)
    ensures n > 0
  {
    |"chunk_" + Printed(i) + "_0123456789abcdef"|
  }

  function Power10(n: nat): nat {
    if n == 0 then 1 else 10 * Power10(n - 1)
  }

  lemma {:induction false} NumeralLength(n: nat)
    ensures n < Power10(|Numeral(n)|)
    ensures n > 0 ==> Power10(|Numeral(n)| - 1) <= n
    decreases n
  {
    if n < 10 {
      assert Power10(1) == 10 * Power10(0);
    } else {
      NumeralLength(n / 10);
      assert |Numeral(n)| == |Numeral(n / 10)| + 1;
    }
  }

  /** An item is 23 characters and the decimal digits of its number. */
  lemma ItemSizeCountsDigits(i: nat)
    ensures ItemSize(i) > 23 && i < Power10(ItemSize(i) - 23)
    ensures i > 0 ==> Power10(ItemSize(i) - 24) <= i
    ensures i == 0 ==> ItemSize(i) == 24
  {
    PrintedIsNumeral(i);
    NumeralLength(i);
  }

  /** The sum of a size over the integers from lo up to, not including, hi. */
  function Sum(f: int -> nat, lo: int, hi: int): nat
    decreases hi - lo
  {
    if hi <= lo then 0 else Sum(f, lo, hi - 1) + f(hi - 1)
  }

  lemma {:induction false} SumFromFront(f: int -> nat, lo: int, hi: int)
    requires lo < hi
    ensures Sum(f, lo, hi) == f(lo) + Sum(f, lo + 1, hi)
    decreases hi - lo
  {
    if lo + 1 < hi { SumFromFront(f, lo, hi - 1); }
  }

  /** `churn()` is the range from 0 to N. */
  method ChurnRange(lo: int, hi: int) returns (total: nat)
    ensures total == Sum(ItemSize, lo, hi)
  {
    total := 0;
    var i := lo;
    while i < hi
      invariant lo <= i && (i <= hi || i == lo)
      invariant total == Sum(ItemSize, lo, i)
      decreases hi - i
    {
      var digits := IntStr(i);
      var s := "chunk_" + digits + "_0123456789abcdef";
      total := total + |s|;
      i := i + 1;
    }
    assert i == hi || (i == lo && hi <= lo);
  }

  // ---- The split into chunks, for any positive item size ----

  /** Where chunk k of size q begins: k * q, as `StartIsProduct` says. */
  function Start(k: nat, q: int): int {
    if k == 0 then 0 else Start(k - 1, q) + q
  }

  lemma {:induction false} StartIsProduct(k: nat, q: int)
    ensures Start(k, q) == k * q
  {
    if k > 0 {
      StartIsProduct(k - 1, q);
      assert k * q == (k - 1) * q + q;
    }
  }

  lemma {:induction false} StartSign(k: nat, q: int)
    ensures if q >= 0 then Start(k, q) >= 0 else Start(k, q) <= 0
  {
    if k > 0 {
      StartSign(k - 1, q);
    }
  }

  /** The sum over the first `chunks` chunks of size q. */
  function ChunkTotals(f: int -> nat, q: int, chunks: nat): nat {
    if chunks == 0 then 0
    else ChunkTotals(f, q, chunks - 1) + Sum(f, Start(chunks - 1, q), Start(chunks, q))
  }

  lemma {:induction false} SumSplits(f: int -> nat, lo: int, mid: int, hi: int)
    requires lo <= mid <= hi
    ensures Sum(f, lo, hi) == Sum(f, lo, mid) + Sum(f, mid, hi)
    decreases hi - mid
  {
    if mid < hi {
      SumSplits(f, lo, mid, hi - 1);
    }
  }

  ghost predicate Positive(f: int -> nat) {
    forall i :: f(i) > 0
  }

  lemma SumPositive(f: int -> nat, lo: int, hi: int)
    requires Positive(f)
    ensures lo < hi <==> Sum(f, lo, hi) > 0
  {
    if lo < hi { assert f(hi - 1) > 0; }
  }

  /** The chunks tile what lies before the next one. */
  lemma {:induction false} ChunksTile(f: int -> nat, q: int, chunks: nat)
    ensures ChunkTotals(f, q, chunks) == Sum(f, 0, Start(chunks, q))
    decreases chunks
  {
    if chunks > 0 {
      ChunksTile(f, q, chunks - 1);
      StartSign(chunks - 1, q);
      if q >= 0 {
        SumSplits(f, 0, Start(chunks - 1, q), Start(chunks, q));
      }
    }
  }

  /** The items the chunks reach, and the remainder they leave out. */
  lemma Reached(n: int, d: nat)
    requires d > 0
    ensures
      var whole := Start(d, DivTrunc(n, d));
      if n <= 0 then whole <= 0 else 0 <= whole && n == whole + n % d
  {
    StartSign(d, DivTrunc(n, d));
    StartIsProduct(d, DivTrunc(n, d));
  }

  lemma SameTotalAt(f: int -> nat, n: int, chunks: nat, q: int, rest: nat)
    requires Positive(f)
    requires if n <= 0 then Start(chunks, q) <= 0 else 0 <= Start(chunks, q) && n == Start(chunks, q) + rest
    ensures ChunkTotals(f, q, chunks) == Sum(f, 0, n) <==> n <= 0 || rest == 0
  {
    ChunksTile(f, q, chunks);
    if n > 0 {
      SumSplits(f, 0, Start(chunks, q), n);
      SumPositive(f, Start(chunks, q), n);
    }
  }

  /** "Same total churn" holds iff CHUNKS divides N (or there is nothing to do). */
  lemma SameTotalIffDivides(n: int, chunks: nat)
    requires chunks > 0
    ensures ChunkTotals(ItemSize, DivTrunc(n, chunks), chunks) == Sum(ItemSize, 0, n)
      <==> n <= 0 || n % chunks == 0
  {
    Reached(n, chunks);
    SameTotalAt(ItemSize, n, chunks, DivTrunc(n, chunks), n % chunks);
  }

  /** The translation unit compiles: every chunk's assertion holds. */
  predicate RunAll(n: int, chunks: nat) {
    forall k :: 0 <= k < chunks ==> ChunkOk(k, DivTrunc(n, chunks))
  }

  predicate ChunkOk(k: nat, q: int) {
    Sum(ItemSize, Start(k, q), Start(k + 1, q)) > 0
  }

  lemma QuotientPositive(n: int, d: nat)
    requires d > 0
    ensures DivTrunc(n, d) > 0 <==> n >= d
  {}

  /** It does iff every chunk has at least one item. */
  lemma RunAllIffEnoughItems(n: int, chunks: nat)
    ensures RunAll(n, chunks) <==> chunks == 0 || n >= chunks
  {
    if chunks > 0 {
      var q := DivTrunc(n, chunks);
      QuotientPositive(n, chunks);
      forall k | 0 <= k < chunks ensures ChunkOk(k, q) <==> q > 0 {
        SumPositive(ItemSize, Start(k, q), Start(k + 1, q));
      }
      assert ChunkOk(0, q) <==> q > 0;
    }
  }
}
