/** The surface report is a patch: bringing exactly the reported places of the
    first surface in line with the second turns it into the second. */
module SurfacePatch {
  import opened Common
  import opened Keys
  import opened SurfaceDiff
  import opened SurfaceDiffLaws

  /** a, with the place q overwritten, added or deleted as b has it. */
  function Graft(a: Tree, b: Tree, q: Path): Tree
    decreases |q|
  {
    if q == [] then b
    else if !a.Dict? || !b.Dict? then a
    else
      var k := q[0];
      if k in a.kids && k in b.kids then Dict(a.kids[k := Graft(a.kids[k], b.kids[k], q[1..])])
      else if |q| > 1 then a
      else if k in b.kids then Dict(a.kids[k := b.kids[k]])
      else Dict(a.kids - {k})
  }

  function GraftAll(a: Tree, b: Tree, places: seq<Path>): Tree
    decreases |places|
  {
    if places == [] then a else GraftAll(Graft(a, b, places[0]), b, places[1..])
  }

  /** The reported places, relative to where the comparison started. */
  function Places(es: seq<Entry>, from: nat): (r: seq<Path>)
    requires forall e :: e in es ==> from <= |e.path|
    ensures |r| == |es|
    ensures forall i :: 0 <= i < |es| ==> es[i] in es && r[i] == es[i].path[from..]
  {
    seq(|es|, i requires 0 <= i < |es| => assert es[i] in es; es[i].path[from..])
  }

  /** Equal, except that an untouched NaN counts as equal to itself. */
  ghost predicate Alike(x: Tree, y: Tree) {
    || x == y
    || (x.Leaf? && y.Leaf? && Same(x.v, y.v))
    || (x.Dict? && y.Dict? && x.kids.Keys == y.kids.Keys &&
        forall k :: k in x.kids.Keys ==> k in y.kids && Alike(x.kids[k], y.kids[k]))
  }

  lemma {:induction false} GraftAllConcat(a: Tree, b: Tree, xs: seq<Path>, ys: seq<Path>)
    ensures GraftAll(a, b, xs + ys) == GraftAll(GraftAll(a, b, xs), b, ys)
    decreases |xs|
  {
    if xs == [] {
      assert xs + ys == ys;
    } else {
      assert (xs + ys)[1..] == xs[1..] + ys;
      GraftAllConcat(Graft(a, b, xs[0]), b, xs[1..], ys);
    }
  }

  /** Places that all lie below one shared key change that key's subtree alone. */
  lemma {:induction false} GraftBelowKey(m: map<string, Tree>, b: Tree, k: string, places: seq<Path>, below: seq<Path>)
    requires b.Dict? && k in m && k in b.kids
    requires |places| == |below| && forall i :: 0 <= i < |places| ==> places[i] == [k] + below[i]
    ensures GraftAll(Dict(m), b, places) == Dict(m[k := GraftAll(m[k], b.kids[k], below)])
    decreases |places|
  {
    if places == [] {
      assert m[k := m[k]] == m;
    } else {
      var first := Graft(m[k], b.kids[k], below[0]);
      assert places[0][1..] == below[0];
      GraftBelowKey(m[k := first], b, k, places[1..], below[1..]);
      assert m[k := first][k := GraftAll(first, b.kids[k], below[1..])] ==
        m[k := GraftAll(m[k], b.kids[k], below)];
    }
  }

  lemma DeepEntries(a: Tree, b: Tree, path: Path)
    ensures forall e :: e in Diff(a, b, path, []) ==> |path| <= |e.path|
  {
    forall e | e in Diff(a, b, path, []) ensures |path| <= |e.path| {
      EntriesLieBelow(a, b, path, [], e);
    }
  }

  lemma DeepKeyEntries(a: Tree, b: Tree, path: Path, keys: seq<string>)
    requires a.Dict? && b.Dict? && forall k :: k in keys ==> k in a.kids || k in b.kids
    ensures forall e :: e in DiffKeys(a, b, path, [], keys) ==> |path| < |e.path|
  {
    forall e | e in DiffKeys(a, b, path, [], keys) ensures |path| < |e.path| {
      InDiffKeys(a, b, path, [], keys, e);
      var k :| k in keys && e in DiffKey(a, b, path, [], k);
      EntriesLieBelowKey(a, b, path, [], k, e);
    }
  }

  /** m after the entries of key k have been applied: b's verdict on k, nothing else. */
  ghost predicate Patched(r: Tree, m: map<string, Tree>, b: Tree, k: string)
    requires b.Dict?
  {
    && r.Dict? && r.kids - {k} == m - {k}
    && (k in r.kids <==> k in b.kids) && (k in b.kids ==> Alike(r.kids[k], b.kids[k]))
  }

  lemma GraftOne(a: Tree, b: Tree, q: Path)
    ensures GraftAll(a, b, [q]) == Graft(a, b, q)
  {
    assert [q][1..] == [];
  }

  /** A key that only one side has. */
  lemma PatchOneSided(a: Tree, b: Tree, path: Path, k: string, m: map<string, Tree>)
    requires a.Dict? && b.Dict? && (k in a.kids <==> k !in b.kids)
    requires k in m <==> k in a.kids
    ensures forall e :: e in DiffKey(a, b, path, [], k) ==> |path| <= |e.path|
    ensures Patched(GraftAll(Dict(m), b, Places(DiffKey(a, b, path, [], k), |path|)), m, b, k)
  {
    var es := DiffKey(a, b, path, [], k);
    assert |es| == 1 && es[0].path == path + [k];
    var places := Places(es, |path|);
    assert places[0] == [k];
    assert places == [[k]];
    GraftOne(Dict(m), b, [k]);
    assert Graft(Dict(m), b, [k]) == if k in b.kids then Dict(m[k := b.kids[k]]) else Dict(m - {k});
  }

  /** A key that both sides have. */
  lemma {:induction false} PatchShared(a: Tree, b: Tree, path: Path, k: string, m: map<string, Tree>)
    requires a.Dict? && b.Dict? && k in a.kids && k in b.kids
    requires k in m && m[k] == a.kids[k]
    ensures forall e :: e in DiffKey(a, b, path, [], k) ==> |path| <= |e.path|
    ensures Patched(GraftAll(Dict(m), b, Places(DiffKey(a, b, path, [], k), |path|)), m, b, k)
    decreases a, 0, 0
  {
    var es := DiffKey(a, b, path, [], k);
    forall e | e in es ensures |path| <= |e.path| { EntriesLieBelowKey(a, b, path, [], k, e); }
    PatchWorks(a.kids[k], b.kids[k], path + [k]);
    forall e | e in es ensures path + [k] <= e.path { EntriesLieBelowKey(a, b, path, [], k, e); }
    PlacesBelowKey(es, path, k);
    GraftBelowKey(m, b, k, Places(es, |path|), Places(es, |path| + 1));
  }

  lemma PlacesBelowKey(es: seq<Entry>, path: Path, k: string)
    requires forall e :: e in es ==> path + [k] <= e.path
    ensures forall e :: e in es ==> |path| < |e.path|
    ensures forall i :: 0 <= i < |es| ==> Places(es, |path|)[i] == [k] + Places(es, |path| + 1)[i]
  {
    forall e | e in es ensures e.path[|path|..] == [k] + e.path[|path| + 1..] {
      assert e.path[|path|] == (path + [k])[|path|] == k;
    }
  }

  /** m after the entries of all `keys` have been applied. */
  ghost predicate AllPatched(r: Tree, m: map<string, Tree>, b: Tree, keys: seq<string>)
    requires b.Dict?
  {
    && r.Dict?
    && (forall k :: k in keys ==> (k in r.kids <==> k in b.kids) && (k in b.kids ==> Alike(r.kids[k], b.kids[k])))
    && (forall k :: k !in keys ==> (k in r.kids <==> k in m) && (k in m ==> r.kids[k] == m[k]))
  }

  lemma PatchedThenAll(m: map<string, Tree>, one: Tree, r: Tree, b: Tree, keys: seq<string>)
    requires b.Dict? && keys != [] && NoRepeats(keys)
    requires Patched(one, m, b, keys[0]) && AllPatched(r, one.kids, b, keys[1..])
    ensures AllPatched(r, m, b, keys)
  {
    var k := keys[0];
    assert keys == [k] + keys[1..];
    assert k !in keys[1..];
    OthersUntouched(m, one.kids, k);
  }

  lemma OthersUntouched(m: map<string, Tree>, n: map<string, Tree>, k: string)
    requires n - {k} == m - {k}
    ensures forall l :: l != k ==> (l in n <==> l in m) && (l in m ==> n[l] == m[l])
  {
    forall l | l != k ensures (l in n <==> l in m) && (l in m ==> n[l] == m[l]) {
      assert l in n <==> l in n - {k};
      assert l in m <==> l in m - {k};
      if l in m { assert (n - {k})[l] == (m - {k})[l]; }
    }
  }

  lemma PlacesSplit(xs: seq<Entry>, ys: seq<Entry>, from: nat)
    requires forall e :: e in xs + ys ==> from <= |e.path|
    ensures (forall e :: e in xs ==> from <= |e.path|) && (forall e :: e in ys ==> from <= |e.path|)
    ensures Places(xs + ys, from) == Places(xs, from) + Places(ys, from)
  {
    forall e | e in xs ensures e in xs + ys {}
    forall e | e in ys ensures e in xs + ys {}
  }

  lemma {:induction false} PatchKeys(a: Tree, b: Tree, path: Path, keys: seq<string>, m: map<string, Tree>)
    requires a.Dict? && b.Dict? && NoRepeats(keys) && forall k :: k in keys ==> k in a.kids || k in b.kids
    requires forall k :: k in keys ==> (k in m <==> k in a.kids) && (k in m ==> m[k] == a.kids[k])
    ensures forall e :: e in DiffKeys(a, b, path, [], keys) ==> |path| <= |e.path|
    ensures AllPatched(GraftAll(Dict(m), b, Places(DiffKeys(a, b, path, [], keys), |path|)), m, b, keys)
    decreases a, 0, |keys|
  {
    DeepKeyEntries(a, b, path, keys);
    if keys != [] {
      var k, rest := keys[0], keys[1..];
      if k in a.kids && k in b.kids {
        PatchShared(a, b, path, k, m);
      } else {
        PatchOneSided(a, b, path, k, m);
      }
      var here, later := DiffKey(a, b, path, [], k), DiffKeys(a, b, path, [], rest);
      PlacesSplit(here, later, |path|);
      GraftAllConcat(Dict(m), b, Places(here, |path|), Places(later, |path|));
      var one := GraftAll(Dict(m), b, Places(here, |path|));
      OthersUntouched(m, one.kids, k);
      PatchKeys(a, b, path, rest, one.kids);
      PatchedThenAll(m, one, GraftAll(one, b, Places(later, |path|)), b, keys);
    }
  }

  /** Grafting the reported places, in report order, turns a into b. */
  lemma {:induction false} PatchWorks(a: Tree, b: Tree, path: Path)
    ensures forall e :: e in Diff(a, b, path, []) ==> |path| <= |e.path|
    ensures Alike(GraftAll(a, b, Places(Diff(a, b, path, []), |path|)), b)
    decreases a, 1, 0
  {
    DeepEntries(a, b, path);
    var places := Places(Diff(a, b, path, []), |path|);
    if a.Dict? && b.Dict? {
      PatchKeys(a, b, path, Sorted(a.kids.Keys + b.kids.Keys), a.kids);
      var r := GraftAll(a, b, places);
      assert r.kids.Keys == b.kids.Keys;
    } else if places != [] {
      assert places == [[]];
      assert GraftAll(Graft(a, b, []), b, []) == b;
    }
  }
}
