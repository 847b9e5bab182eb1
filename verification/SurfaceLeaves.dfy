/** What the comparison of surfaces takes for equal, and what its patterns read,
    said without the differ. */
module SurfaceLeaves {
  import opened Common
  import opened Keys
  import opened SurfaceDiff
  import opened SurfaceDiffLaws

  // ---- Leaves ----

  /** The number a leaf stands for: in Python True is 1 and False is 0. */
  function Quantity(v: Scalar): Option<real> {
    match v
    case Bool(b) => Some(if b then 1.0 else 0.0)
    case Int(n) => Some(n as real)
    case Float(x) => Some(x)
    case _ => None
  }

  /** Two leaves are reported unless they are one number or one and the same text,
      list, infinity or null. */
  lemma LeafCleanIff(v: Scalar, w: Scalar, path: Path)
    ensures Diff(Leaf(v), Leaf(w), path, []) == [] <==>
      if Quantity(v).Some? && Quantity(w).Some? then Quantity(v) == Quantity(w) else v == w && v != NaN
    ensures Diff(Leaf(v), Leaf(w), path, []) in {[], [Mismatch(path, Leaf(v), Leaf(w))]}
  {}

  lemma IntegersCleanIff(m: int, n: int, b: bool, path: Path)
    ensures Diff(Leaf(Int(m)), Leaf(Int(n)), path, []) == [] <==> m == n
    ensures Diff(Leaf(Bool(b)), Leaf(Int(n)), path, []) == [] <==> n == if b then 1 else 0
  {
    LeafCleanIff(Int(m), Int(n), path);
    LeafCleanIff(Bool(b), Int(n), path);
  }

  /** No leaf is a number, a bool or a NaN. */
  ghost predicate Wordy(t: Tree) {
    match t
    case Leaf(v) => Quantity(v).None? && v != NaN
    case Dict(m) => forall k :: k in m ==> Wordy(m[k])
  }

  lemma {:induction false} WordyEqualIffSame(a: Tree, b: Tree)
    requires Wordy(a)
    ensures Equal(a, b) <==> a == b
    decreases a
  {
    if a.Dict? && b.Dict? {
      forall k | k in a.kids && k in b.kids ensures Equal(a.kids[k], b.kids[k]) <==> a.kids[k] == b.kids[k] {
        WordyEqualIffSame(a.kids[k], b.kids[k]);
      }
      if Equal(a, b) { assert a.kids == b.kids; }
    }
  }

  /** Without numbers on one side nothing is reported iff the surfaces are the same. */
  lemma WordyCleanIffSame(a: Tree, b: Tree)
    requires Wordy(a)
    ensures Diff(a, b, [], []) == [] <==> a == b
  {
    EmptyIffEqual(a, b, []);
    WordyEqualIffSame(a, b);
  }

  // ---- What the patterns read ----

  /** The text of a path is a dot and a key for each step. */
  lemma {:induction false} TextConcat(p: Path, q: Path)
    ensures Text(p + q) == Text(p) + Text(q)
    decreases |q|
  {
    if q == [] {
      assert p + q == p;
    } else {
      var front, last := q[..|q| - 1], q[|q| - 1];
      assert (p + q)[..|p + q| - 1] == p + front;
      TextConcat(p, front);
      assert Text(p) + (Text(front) + "." + last) == Text(p) + Text(front) + "." + last;
    }
  }

  lemma TextOfKey(k: string)
    ensures Text([k]) == "." + k && Text([]) == ""
  {
    assert [k][..0] == [];
  }

  /** The last dot of a text stands before its last key. */
  lemma LastDot(x: string, k: string)
    requires '.' !in k
    ensures
      var s := x + "." + k;
      && s[|x|] == '.' && (forall i :: |x| < i < |s| ==> s[i] != '.')
      && s[..|x|] == x && s[|x| + 1..] == k
  {
    var s := x + "." + k;
    forall i | |x| < i < |s| ensures s[i] != '.' {
      assert s[i] == k[i - |x| - 1] && s[i] in k;
    }
  }

  ghost predicate DotFree(p: Path) {
    forall k :: k in p ==> '.' !in k
  }

  /** Where no key holds a dot, the text tells any two places apart. */
  lemma {:induction false} TextTellsApart(p: Path, q: Path)
    requires DotFree(p) && DotFree(q) && Text(p) == Text(q)
    ensures p == q
    decreases |p|
  {
    if p != [] && q != [] {
      var (pf, pl, qf, ql) := (p[..|p| - 1], p[|p| - 1], q[..|q| - 1], q[|q| - 1]);
      LastDot(Text(pf), pl);
      LastDot(Text(qf), ql);
      TextTellsApart(pf, qf);
      assert p == pf + [pl] && q == qf + [ql];
    }
  }

  /** A path is silenced by any one of the patterns. */
  lemma SilencedByAny(xs: seq<Pattern>, ys: seq<Pattern>, p: Pattern, path: Path)
    ensures Silenced(xs + ys, path) <==> Silenced(xs, path) || Silenced(ys, path)
    ensures Silenced([p], path) <==> p.search(Text(path))
    ensures !Silenced([], path)
  {
    if Silenced(xs, path) {
      var i :| 0 <= i < |xs| && xs[i].search(Text(path));
      assert (xs + ys)[i] == xs[i];
    }
    if Silenced(ys, path) {
      var i :| 0 <= i < |ys| && ys[i].search(Text(path));
      assert (xs + ys)[|xs| + i] == ys[i];
    }
    if p.search(Text(path)) { assert [p][0].search(Text(path)); }
  }
}
