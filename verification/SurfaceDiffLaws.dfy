/** What the surface report means: which entries it holds, that it is a patch from
    one surface to the other, and what the ignore patterns remove from it. */
module SurfaceDiffLaws {
  import opened Common
  import opened Keys
  import opened SurfaceDiff

  // ---- The report, independently of how it is computed ----

  /** The subtree at a path. */
  function Lookup(t: Tree, q: Path): Option<Tree>
    decreases |q|
  {
    if q == [] then Some(t)
    else if t.Dict? && q[0] in t.kids then Lookup(t.kids[q[0]], q[1..])
    else None
  }

  function DictAt(t: Tree, q: Path): map<string, Tree> {
    match Lookup(t, q)
    case Some(Dict(m)) => m
    case _ => map[]
  }

  predicate HasDict(t: Tree, q: Path) {
    Lookup(t, q).Some? && Lookup(t, q).value.Dict?
  }

  /** Neither the place at q below `path` nor any place on the way is silenced. */
  ghost predicate Visible(ignore: seq<Pattern>, path: Path, q: Path) {
    forall n :: 0 <= n <= |q| ==> !Silenced(ignore, path + q[..n])
  }

  /** The two trees differ at q, and e is the entry that says how. */
  ghost predicate Differs(a: Tree, b: Tree, q: Path, e: Entry) {
    match e
    case Mismatch(_, x, y) =>
      && Lookup(a, q) == Some(x) && Lookup(b, q) == Some(y)
      && !(x.Dict? && y.Dict?) && !(x.Leaf? && y.Leaf? && Same(x.v, y.v))
    case OnlyInEmit(_) =>
      q != [] && var (up, k) := (q[..|q| - 1], q[|q| - 1]);
      HasDict(a, up) && HasDict(b, up) && k !in DictAt(a, up) && k in DictAt(b, up)
    case OnlyInConstexpr(_) =>
      q != [] && var (up, k) := (q[..|q| - 1], q[|q| - 1]);
      HasDict(a, up) && HasDict(b, up) && k in DictAt(a, up) && k !in DictAt(b, up)
  }

  // ---- Membership ----

  lemma HeadAndTail<T>(s: seq<T>)
    requires s != []
    ensures forall x :: x in s <==> x == s[0] || x in s[1..]
  {
    assert s == [s[0]] + s[1..];
  }

  /** An entry of the loop over the keys comes from one of its rounds. */
  lemma {:induction false} FromSomeKey(a: Tree, b: Tree, path: Path, ignore: seq<Pattern>, keys: seq<string>, e: Entry)
    returns (k: string)
    requires a.Dict? && b.Dict? && (forall k :: k in keys ==> k in a.kids || k in b.kids)
    requires e in DiffKeys(a, b, path, ignore, keys)
    ensures k in keys && e in DiffKey(a, b, path, ignore, k)
    decreases |keys|
  {
    HeadAndTail(keys);
    if e in DiffKey(a, b, path, ignore, keys[0]) {
      k := keys[0];
    } else {
      k := FromSomeKey(a, b, path, ignore, keys[1..], e);
    }
  }

  lemma {:induction false} OfKey(
      a: Tree, b: Tree, path: Path, ignore: seq<Pattern>, keys: seq<string>, k: string, e: Entry)
    requires a.Dict? && b.Dict? && (forall k :: k in keys ==> k in a.kids || k in b.kids)
    requires k in keys && e in DiffKey(a, b, path, ignore, k)
    ensures e in DiffKeys(a, b, path, ignore, keys)
    decreases |keys|
  {
    HeadAndTail(keys);
    if k != keys[0] {
      OfKey(a, b, path, ignore, keys[1..], k, e);
    }
  }

  lemma InDiffKeys(a: Tree, b: Tree, path: Path, ignore: seq<Pattern>, keys: seq<string>, e: Entry)
    requires a.Dict? && b.Dict? && forall k :: k in keys ==> k in a.kids || k in b.kids
    ensures e in DiffKeys(a, b, path, ignore, keys) <==>
      exists k :: k in keys && e in DiffKey(a, b, path, ignore, k)
  {
    if e in DiffKeys(a, b, path, ignore, keys) {
      var k := FromSomeKey(a, b, path, ignore, keys, e);
    }
    if k :| k in keys && e in DiffKey(a, b, path, ignore, k) {
      OfKey(a, b, path, ignore, keys, k, e);
    }
  }

  /** Every entry lies below the place where the comparison started. */
  lemma {:induction false} EntriesLieBelow(a: Tree, b: Tree, path: Path, ignore: seq<Pattern>, e: Entry)
    requires e in Diff(a, b, path, ignore)
    ensures path <= e.path
    decreases a
  {
    if a.Dict? && b.Dict? {
      var k := FromSomeKey(a, b, path, ignore, Sorted(a.kids.Keys + b.kids.Keys), e);
      EntriesLieBelowKey(a, b, path, ignore, k, e);
    }
  }

  lemma {:induction false} EntriesLieBelowKey(a: Tree, b: Tree, path: Path, ignore: seq<Pattern>, k: string, e: Entry)
    requires a.Dict? && b.Dict? && (k in a.kids || k in b.kids) && e in DiffKey(a, b, path, ignore, k)
    ensures path + [k] <= e.path
    decreases a, 0
  {
    if k in a.kids && k in b.kids {
      EntriesLieBelow(a.kids[k], b.kids[k], path + [k], ignore, e);
    }
  }

  lemma VisibleHere(ignore: seq<Pattern>, path: Path)
    ensures Visible(ignore, path, []) <==> !Silenced(ignore, path)
  {
    var q: Path := [];
    assert path + q[..0] == path;
  }

  lemma VisibleStep(ignore: seq<Pattern>, path: Path, q: Path)
    requires q != []
    ensures Visible(ignore, path, q) <==>
      !Silenced(ignore, path) && Visible(ignore, path + [q[0]], q[1..])
  {
    assert path + q[..0] == path;
    forall n | 0 <= n <= |q[1..]| ensures path + q[..n + 1] == path + [q[0]] + q[1..][..n] {}
    if !Silenced(ignore, path) && Visible(ignore, path + [q[0]], q[1..]) {
      forall n | 0 <= n <= |q| ensures !Silenced(ignore, path + q[..n]) {
        if n > 0 { assert path + q[..n] == path + [q[0]] + q[1..][..n - 1]; }
      }
    }
    if Visible(ignore, path, q) {
      assert !Silenced(ignore, path + q[..0]);
      forall n | 0 <= n <= |q[1..]| ensures !Silenced(ignore, path + [q[0]] + q[1..][..n]) {
        assert !Silenced(ignore, path + q[..n + 1]);
      }
    }
  }

  lemma DiffersStep(a: Tree, b: Tree, q: Path, e: Entry)
    requires |q| > 1 || (q != [] && e.Mismatch?)
    ensures Differs(a, b, q, e) <==>
      && a.Dict? && b.Dict? && q[0] in a.kids && q[0] in b.kids
      && Differs(a.kids[q[0]], b.kids[q[0]], q[1..], e)
  {
    if |q| > 1 {
      assert q[1..][..|q[1..]| - 1] == q[..|q| - 1][1..];
    }
  }

  /** The report holds exactly the visible differences, at any start path and
      under any patterns, although a pattern may match a place and not what lies below. */
  lemma {:induction false} ReportIsExact(a: Tree, b: Tree, path: Path, ignore: seq<Pattern>, q: Path, e: Entry)
    requires e.path == path + q
    ensures e in Diff(a, b, path, ignore) <==> Differs(a, b, q, e) && Visible(ignore, path, q)
    decreases a
  {
    if Silenced(ignore, path) {
      assert path + q[..0] == path;
      assert !Visible(ignore, path, q);
    } else if a.Dict? && b.Dict? {
      InDiffKeys(a, b, path, ignore, Sorted(a.kids.Keys + b.kids.Keys), e);
      forall k | k in a.kids.Keys + b.kids.Keys && e in DiffKey(a, b, path, ignore, k)
        ensures q != [] && k == q[0]
      {
        EntriesLieBelowKey(a, b, path, ignore, k, e);
        assert e.path[|path|] == k;
      }
      if q != [] {
        VisibleStep(ignore, path, q);
        ReportIsExactAtKey(a, b, path, ignore, q, e);
      }
    } else if q == [] {
      VisibleHere(ignore, path);
      assert path + q == path;
    } else {
      assert e.path != path;
      var up := q[..|q| - 1];
      assert !HasDict(a, up) || !HasDict(b, up);
    }
  }

  /** Two leaves that differ at the same place are reported, unless a pattern hides them. */
  lemma LeafMismatchIsReported(a: Tree, b: Tree, q: Path, x: Scalar, y: Scalar)
    requires Lookup(a, q) == Some(Leaf(x)) && Lookup(b, q) == Some(Leaf(y)) && !Same(x, y)
    ensures Mismatch(q, Leaf(x), Leaf(y)) in Diff(a, b, [], [])
  {
    assert [] + q == q;
    ReportIsExact(a, b, [], [], q, Mismatch(q, Leaf(x), Leaf(y)));
  }

  lemma {:induction false} ReportIsExactAtKey(a: Tree, b: Tree, path: Path, ignore: seq<Pattern>, q: Path, e: Entry)
    requires a.Dict? && b.Dict? && q != [] && e.path == path + q
    ensures q[0] in a.kids || q[0] in b.kids ==>
      (e in DiffKey(a, b, path, ignore, q[0]) <==>
       Differs(a, b, q, e) && Visible(ignore, path + [q[0]], q[1..]))
    ensures q[0] !in a.kids && q[0] !in b.kids ==> !Differs(a, b, q, e)
    decreases a, 0
  {
    var k, rest := q[0], q[1..];
    var p := path + [k];
    assert p + rest == path + q;
    assert p + rest[..0] == p;
    if k in a.kids && k in b.kids {
      ReportIsExact(a.kids[k], b.kids[k], p, ignore, rest, e);
      if |q| > 1 || e.Mismatch? {
        DiffersStep(a, b, q, e);
      } else {
        assert q[..0] == [];
      }
    } else {
      if |q| > 1 || e.Mismatch? {
        DiffersStep(a, b, q, e);
      } else {
        assert q[..0] == [] && q == [k];
        assert forall n :: 0 <= n <= |rest| ==> p + rest[..n] == p;
      }
      if k in a.kids || k in b.kids {
        if e in DiffKey(a, b, path, ignore, k) {
          assert e.path == p;
          assert |q| == 1;
        }
      }
    }
  }

  /** The comparison comes out clean iff the patterns hide every difference there is. */
  lemma CleanIffAllHidden(a: Tree, b: Tree, ignore: seq<Pattern>)
    ensures Diff(a, b, [], ignore) == [] <==>
      forall e: Entry :: Differs(a, b, e.path, e) ==> !Visible(ignore, [], e.path)
  {
    var report := Diff(a, b, [], ignore);
    forall e: Entry ensures e in report <==> Differs(a, b, e.path, e) && Visible(ignore, [], e.path) {
      assert [] + e.path == e.path;
      ReportIsExact(a, b, [], ignore, e.path, e);
    }
    if report != [] {
      assert report[0] in report;
    }
  }

  // ---- Consequences: no two entries overlap, and order does not matter to content ----

  /** No reported place lies at or below another one: each difference is told once. */
  ghost predicate PrefixFree(report: seq<Entry>) {
    forall i, j :: 0 <= i < |report| && 0 <= j < |report| && i != j ==>
      !(report[i].path <= report[j].path)
  }

  lemma {:induction false} ReportIsPrefixFree(a: Tree, b: Tree, path: Path, ignore: seq<Pattern>)
    ensures PrefixFree(Diff(a, b, path, ignore))
    decreases a, 1, 0
  {
    if a.Dict? && b.Dict? && !Silenced(ignore, path) {
      KeysArePrefixFree(a, b, path, ignore, Sorted(a.kids.Keys + b.kids.Keys));
    }
  }

  lemma {:induction false} KeysArePrefixFree(a: Tree, b: Tree, path: Path, ignore: seq<Pattern>, keys: seq<string>)
    requires a.Dict? && b.Dict? && (forall k :: k in keys ==> k in a.kids || k in b.kids) && NoRepeats(keys)
    ensures PrefixFree(DiffKeys(a, b, path, ignore, keys))
    decreases a, 0, |keys|
  {
    if keys != [] {
      var k, rest := keys[0], keys[1..];
      var here, later := DiffKey(a, b, path, ignore, k), DiffKeys(a, b, path, ignore, rest);
      if k in a.kids && k in b.kids {
        ReportIsPrefixFree(a.kids[k], b.kids[k], path + [k], ignore);
      }
      KeysArePrefixFree(a, b, path, ignore, rest);
      forall x, y | x in here && y in later ensures !(x.path <= y.path) && !(y.path <= x.path) {
        EntriesLieBelowKey(a, b, path, ignore, k, x);
        InDiffKeys(a, b, path, ignore, rest, y);
        var l :| l in rest && y in DiffKey(a, b, path, ignore, l);
        EntriesLieBelowKey(a, b, path, ignore, l, y);
        assert x.path[|path|] == k && y.path[|path|] == l && k != l;
      }
    }
  }

  /** The shared keys of two dicts decide for themselves. */
  ghost predicate KeysDecide(a: Tree, b: Tree, path: Path)
    requires a.Dict? && b.Dict?
  {
    forall k :: k in a.kids && k in b.kids ==> (DiffKey(a, b, path, [], k) == [] <==> Equal(a.kids[k], b.kids[k]))
  }

  lemma EqualDictsAreClean(a: Tree, b: Tree, path: Path, keys: seq<string>)
    requires a.Dict? && b.Dict? && KeysDecide(a, b, path) && Equal(a, b)
    requires forall k :: k in keys <==> k in a.kids.Keys + b.kids.Keys
    ensures DiffKeys(a, b, path, [], keys) == []
  {
    EmptyKeys(a, b, path, keys);
  }

  lemma CleanDictsAreEqual(a: Tree, b: Tree, path: Path, keys: seq<string>)
    requires a.Dict? && b.Dict? && KeysDecide(a, b, path)
    requires forall k :: k in keys <==> k in a.kids.Keys + b.kids.Keys
    requires DiffKeys(a, b, path, [], keys) == []
    ensures Equal(a, b)
  {
    EmptyKeys(a, b, path, keys);
    forall k | k in a.kids.Keys + b.kids.Keys ensures k in a.kids && k in b.kids && Equal(a.kids[k], b.kids[k]) {
      assert k in keys;
      assert DiffKey(a, b, path, [], k) == [];
    }
    assert a.kids.Keys == b.kids.Keys;
  }

  /** Deep equality holds exactly when nothing is reported. */
  lemma {:induction false} EmptyIffEqual(a: Tree, b: Tree, path: Path)
    ensures Diff(a, b, path, []) == [] <==> Equal(a, b)
    decreases a
  {
    if a.Dict? && b.Dict? {
      forall k | k in a.kids && k in b.kids ensures DiffKey(a, b, path, [], k) == [] <==> Equal(a.kids[k], b.kids[k]) {
        EmptyIffEqual(a.kids[k], b.kids[k], path + [k]);
      }
      var keys := Sorted(a.kids.Keys + b.kids.Keys);
      if Equal(a, b) {
        EqualDictsAreClean(a, b, path, keys);
      } else if DiffKeys(a, b, path, [], keys) == [] {
        CleanDictsAreEqual(a, b, path, keys);
      }
    }
  }

  lemma {:induction false} EmptyKeys(a: Tree, b: Tree, path: Path, keys: seq<string>)
    requires a.Dict? && b.Dict? && forall k :: k in keys ==> k in a.kids || k in b.kids
    ensures DiffKeys(a, b, path, [], keys) == [] <==> forall k :: k in keys ==> DiffKey(a, b, path, [], k) == []
    decreases |keys|
  {
    if keys != [] {
      var here, later := DiffKey(a, b, path, [], keys[0]), DiffKeys(a, b, path, [], keys[1..]);
      EmptyKeys(a, b, path, keys[1..]);
      HeadAndTail(keys);
      assert DiffKeys(a, b, path, [], keys) == here + later;
      assert here + later == [] <==> here == [] && later == [];
    }
  }

  ghost predicate NaNFree(t: Tree) {
    match t
    case Leaf(v) => v != NaN
    case Dict(m) => forall k :: k in m ==> NaNFree(m[k])
  }

  /** A surface agrees with itself iff no attribute value is a NaN. */
  lemma {:induction false} SelfEqualIffNaNFree(t: Tree)
    ensures Equal(t, t) <==> NaNFree(t)
    decreases t
  {
    if t.Dict? {
      forall k | k in t.kids ensures Equal(t.kids[k], t.kids[k]) <==> NaNFree(t.kids[k]) {
        SelfEqualIffNaNFree(t.kids[k]);
      }
    }
  }

  /** Two dumps of the same surface are reported as identical iff it holds no NaN. */
  lemma CleanSelfReportIffNaNFree(t: Tree)
    ensures Diff(t, t, [], []) == [] <==> NaNFree(t)
  {
    EmptyIffEqual(t, t, []);
    SelfEqualIffNaNFree(t);
  }

  // ---- Swapping the two surfaces ----

  function Swap(e: Entry): Entry {
    match e
    case OnlyInEmit(p) => OnlyInConstexpr(p)
    case OnlyInConstexpr(p) => OnlyInEmit(p)
    case Mismatch(p, x, y) => Mismatch(p, y, x)
  }

  function SwapAll(es: seq<Entry>): (r: seq<Entry>)
    ensures |r| == |es| && forall i :: 0 <= i < |es| ==> r[i] == Swap(es[i])
  {
    seq(|es|, i requires 0 <= i < |es| => Swap(es[i]))
  }

  /** Swapping the arguments swaps the sides of every entry and nothing else. */
  lemma {:induction false} SwapSwapsSides(a: Tree, b: Tree, path: Path, ignore: seq<Pattern>)
    ensures Diff(b, a, path, ignore) == SwapAll(Diff(a, b, path, ignore))
    decreases a, 1, 0
  {
    if a.Dict? && b.Dict? && !Silenced(ignore, path) {
      assert a.kids.Keys + b.kids.Keys == b.kids.Keys + a.kids.Keys;
      SwapKeys(a, b, path, ignore, Sorted(a.kids.Keys + b.kids.Keys));
    }
  }

  lemma {:induction false} SwapKeys(a: Tree, b: Tree, path: Path, ignore: seq<Pattern>, keys: seq<string>)
    requires a.Dict? && b.Dict? && forall k :: k in keys ==> k in a.kids || k in b.kids
    ensures DiffKeys(b, a, path, ignore, keys) == SwapAll(DiffKeys(a, b, path, ignore, keys))
    decreases a, 0, |keys|
  {
    if keys != [] {
      SwapKey(a, b, path, ignore, keys[0]);
      SwapKeys(a, b, path, ignore, keys[1..]);
      SwapAllConcat(DiffKey(a, b, path, ignore, keys[0]), DiffKeys(a, b, path, ignore, keys[1..]));
    }
  }

  lemma {:induction false} SwapKey(a: Tree, b: Tree, path: Path, ignore: seq<Pattern>, k: string)
    requires a.Dict? && b.Dict? && (k in a.kids || k in b.kids)
    ensures DiffKey(b, a, path, ignore, k) == SwapAll(DiffKey(a, b, path, ignore, k))
    decreases a, 0, 0
  {
    if k in a.kids && k in b.kids {
      SwapSwapsSides(a.kids[k], b.kids[k], path + [k], ignore);
    }
  }

  lemma SwapAllConcat(xs: seq<Entry>, ys: seq<Entry>)
    ensures SwapAll(xs + ys) == SwapAll(xs) + SwapAll(ys)
  {}

  // ---- What the patterns remove ----

  /** The entries that no pattern hides, each judged by its own path and every
      ancestor from the starting place on. */
  function Unsilenced(es: seq<Entry>, path: Path, ignore: seq<Pattern>): seq<Entry>
    requires forall e :: e in es ==> path <= e.path
  {
    if es == [] then []
    else (if Hidden(es[0], |path|, ignore) then [] else [es[0]]) + Unsilenced(es[1..], path, ignore)
  }

  predicate Hidden(e: Entry, from: nat, ignore: seq<Pattern>) {
    exists n :: from <= n <= |e.path| && Silenced(ignore, e.path[..n])
  }

  lemma {:induction false} UnsilencedConcat(xs: seq<Entry>, ys: seq<Entry>, path: Path, ignore: seq<Pattern>)
    requires forall e :: e in xs + ys ==> path <= e.path
    ensures (forall e :: e in xs ==> path <= e.path) && (forall e :: e in ys ==> path <= e.path)
    ensures Unsilenced(xs + ys, path, ignore) == Unsilenced(xs, path, ignore) + Unsilenced(ys, path, ignore)
    decreases |xs|
  {
    forall e | e in xs ensures path <= e.path { assert e in xs + ys; }
    forall e | e in ys ensures path <= e.path { assert e in xs + ys; }
    if xs == [] {
      assert xs + ys == ys;
    } else {
      assert (xs + ys)[1..] == xs[1..] + ys;
      forall e | e in xs[1..] + ys ensures path <= e.path {}
      UnsilencedConcat(xs[1..], ys, path, ignore);
    }
  }

  /** Starting the judgement one key further down changes nothing when the place
      above is not silenced, and hides everything when it is. */
  lemma {:induction false} UnsilencedBelow(es: seq<Entry>, path: Path, k: string, ignore: seq<Pattern>)
    requires forall e :: e in es ==> path + [k] <= e.path
    ensures forall e :: e in es ==> path <= e.path
    ensures Unsilenced(es, path, ignore) ==
      if Silenced(ignore, path) then [] else Unsilenced(es, path + [k], ignore)
    decreases |es|
  {
    if es != [] {
      UnsilencedBelow(es[1..], path, k, ignore);
      var e := es[0];
      assert e.path[..|path|] == path;
      assert Hidden(e, |path|, ignore) <==> Silenced(ignore, path) || Hidden(e, |path| + 1, ignore);
    }
  }

  /** A silenced starting place hides every entry. */
  lemma {:induction false} SilencedHidesAll(es: seq<Entry>, path: Path, ignore: seq<Pattern>)
    requires Silenced(ignore, path) && forall e :: e in es ==> path <= e.path
    ensures Unsilenced(es, path, ignore) == []
    decreases |es|
  {
    if es != [] {
      assert es[0].path[..|path|] == path;
      SilencedHidesAll(es[1..], path, ignore);
    }
  }

  lemma NotHiddenHere(e: Entry, path: Path, ignore: seq<Pattern>)
    requires e.path == path && !Silenced(ignore, path)
    ensures !Hidden(e, |path|, ignore)
  {
    assert path[..|path|] == path;
  }

  /** With patterns the report is the plain report, in the same order, less the
      hidden entries. */
  lemma {:induction false} PatternsFilter(a: Tree, b: Tree, path: Path, ignore: seq<Pattern>)
    ensures forall e :: e in Diff(a, b, path, []) ==> path <= e.path
    ensures Diff(a, b, path, ignore) == Unsilenced(Diff(a, b, path, []), path, ignore)
    decreases a, 1, 0
  {
    var plain := Diff(a, b, path, []);
    forall e | e in plain ensures path <= e.path { EntriesLieBelow(a, b, path, [], e); }
    if Silenced(ignore, path) {
      SilencedHidesAll(plain, path, ignore);
    } else if a.Dict? && b.Dict? {
      PatternsFilterKeys(a, b, path, ignore, Sorted(a.kids.Keys + b.kids.Keys));
    } else if plain != [] {
      NotHiddenHere(plain[0], path, ignore);
    }
  }

  lemma {:induction false} PatternsFilterKeys(a: Tree, b: Tree, path: Path, ignore: seq<Pattern>, keys: seq<string>)
    requires a.Dict? && b.Dict? && !Silenced(ignore, path)
    requires forall k :: k in keys ==> k in a.kids || k in b.kids
    ensures forall e :: e in DiffKeys(a, b, path, [], keys) ==> path <= e.path
    ensures DiffKeys(a, b, path, ignore, keys) == Unsilenced(DiffKeys(a, b, path, [], keys), path, ignore)
    decreases a, 0, |keys|
  {
    if keys != [] {
      var k := keys[0];
      PatternsFilterKey(a, b, path, ignore, k);
      PatternsFilterKeys(a, b, path, ignore, keys[1..]);
      UnsilencedConcat(DiffKey(a, b, path, [], k), DiffKeys(a, b, path, [], keys[1..]), path, ignore);
    }
  }

  lemma {:induction false} PatternsFilterKey(a: Tree, b: Tree, path: Path, ignore: seq<Pattern>, k: string)
    requires a.Dict? && b.Dict? && !Silenced(ignore, path) && (k in a.kids || k in b.kids)
    ensures forall e :: e in DiffKey(a, b, path, [], k) ==> path <= e.path
    ensures DiffKey(a, b, path, ignore, k) == Unsilenced(DiffKey(a, b, path, [], k), path, ignore)
    decreases a, 0, 0
  {
    var p, plain := path + [k], DiffKey(a, b, path, [], k);
    forall e | e in plain ensures p <= e.path { EntriesLieBelowKey(a, b, path, [], k, e); }
    UnsilencedBelow(plain, path, k, ignore);
    if Silenced(ignore, p) {
      SilencedHidesAll(plain, p, ignore);
    } else if k in a.kids && k in b.kids {
      PatternsFilter(a.kids[k], b.kids[k], p, ignore);
    } else {
      NotHiddenHere(plain[0], p, ignore);
    }
  }
}
