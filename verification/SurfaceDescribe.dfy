/** The description of a module's surface: the class graph of a loaded module,
    possibly cyclic, unfolded into a tree and cut where an attribute name repeats. */
module SurfaceDescribe {
  import opened Common
  import opened Keys
  import opened SurfaceDiff
  import opened SurfaceDiffLaws

  type ClassId = nat

  /** An attribute is a nested class or something described on the spot. */
  datatype Attr = Nested(cls: ClassId) | Described(info: Tree)

  datatype Class = Class(bases: seq<string>, doc: Scalar, dict: map<string, Attr>)

  /** The classes of a loaded interpreter, by identity. */
  type Heap = map<ClassId, Class>

  ghost predicate Closed(h: Heap) {
    forall c, a :: c in h && a in h[c].dict && h[c].dict[a].Nested? ==> h[c].dict[a].cls in h
  }

  const SYNTH_DUNDERS: set<string> := {
    "__init__", "__eq__", "__ne__", "__lt__", "__gt__", "__le__", "__ge__",
    "__add__", "__radd__", "__sub__", "__rsub__", "__mul__", "__rmul__",
    "__truediv__", "__rtruediv__", "__mod__", "__rmod__", "__xor__",
    "__rxor__", "__and__", "__rand__", "__or__", "__ror__", "__lshift__",
    "__rlshift__", "__rshift__", "__rrshift__", "__iadd__", "__isub__",
    "__imul__", "__itruediv__", "__imod__", "__ixor__", "__iand__",
    "__ior__", "__ilshift__", "__irshift__", "__neg__", "__pos__",
    "__invert__", "__call__", "__getitem__", "__bool__", "__int__",
    "__float__", "__str__", "__hash__", "__iter__"
  }

  predicate Interesting(name: string) {
    if |name| >= 2 && name[..2] == "__" && name[|name| - 2..] == "__" then name in SYNTH_DUNDERS else true
  }

  predicate Kept(name: string) {
    Interesting(name) && name != "__doc__"
  }

  /** Every attribute name that occurs in some class. */
  function Names(h: Heap): set<string> {
    set c, a | c in h && a in h[c].dict :: a
  }

  const RECURSIVE: Tree := Dict(map["recursive" := Leaf(Bool(true))])

  function ClassTree(cls: Class, attrs: map<string, Tree>): Tree {
    Dict(map["bases" := Leaf(List(cls.bases)), "doc" := Leaf(cls.doc), "attrs" := Dict(attrs)])
  }

  /** The names not yet seen shrink along every descent, cyclic graph or not. */
  function Unseen(h: Heap, name: string, seen: set<string>): nat {
    |Names(h) + {name} - seen|
  }

  lemma UnseenShrinks(h: Heap, name: string, c: ClassId, aname: string, seen: set<string>)
    requires name !in seen && c in h && aname in h[c].dict
    ensures Unseen(h, aname, seen + {name}) < Unseen(h, name, seen)
  {
    assert aname in Names(h);
    var before, after := Names(h) + {name} - seen, Names(h) + {aname} - (seen + {name});
    assert after <= before - {name};
    SubsetSize(after, before - {name});
  }

  /** The description, as a function. */
  function Describe(h: Heap, name: string, c: ClassId, seen: set<string>): Tree
    requires Closed(h) && c in h
    decreases Unseen(h, name, seen)
  {
    if name in seen then RECURSIVE else ClassTree(h[c], DescribeAttrs(h, name, c, seen))
  }

  function DescribeAttrs(h: Heap, name: string, c: ClassId, seen: set<string>): map<string, Tree>
    requires Closed(h) && c in h && name !in seen
    decreases Unseen(h, name, seen), 1
  {
    map a | a in h[c].dict && Kept(a) :: DescribeAttr(h, name, c, seen, a)
  }

  function DescribeAttr(h: Heap, name: string, c: ClassId, seen: set<string>, a: string): Tree
    requires Closed(h) && c in h && name !in seen && a in h[c].dict
    decreases Unseen(h, name, seen), 0
  {
    match h[c].dict[a]
    case Nested(d) => UnseenShrinks(h, name, c, a, seen); Describe(h, a, d, seen + {name})
    case Described(info) => info
  }

  /** The part of the description that covers some of the attributes. */
  function AttrsAmong(h: Heap, name: string, c: ClassId, seen: set<string>, keys: seq<string>): map<string, Tree>
    requires Closed(h) && c in h && name !in seen && forall a :: a in keys ==> a in h[c].dict
  {
    map a | a in keys && Kept(a) :: DescribeAttr(h, name, c, seen, a)
  }

  lemma AttrsGrow(h: Heap, name: string, c: ClassId, seen: set<string>, keys: seq<string>, i: nat)
    requires Closed(h) && c in h && name !in seen && forall a :: a in keys ==> a in h[c].dict
    requires i < |keys|
    ensures
      var (done, a) := (AttrsAmong(h, name, c, seen, keys[..i]), keys[i]);
      AttrsAmong(h, name, c, seen, keys[..i + 1]) ==
        if Kept(a) then done[a := DescribeAttr(h, name, c, seen, a)] else done
  {
    assert keys[..i + 1] == keys[..i] + [keys[i]];
  }

  lemma AttrsComplete(h: Heap, name: string, c: ClassId, seen: set<string>, keys: seq<string>)
    requires Closed(h) && c in h && name !in seen && forall a :: a in keys <==> a in h[c].dict.Keys
    ensures Describe(h, name, c, seen) == ClassTree(h[c], AttrsAmong(h, name, c, seen, keys[..|keys|]))
  {
    assert keys[..|keys|] == keys;
    assert AttrsAmong(h, name, c, seen, keys) == DescribeAttrs(h, name, c, seen);
  }

  /** The description, as the source computes it: a dict filled in a loop. */
  method DescribeClass(h: Heap, name: string, c: ClassId, seen: set<string>) returns (desc: Tree)
    requires Closed(h) && c in h
    ensures desc == Describe(h, name, c, seen)
    decreases Unseen(h, name, seen)
  {
    if name in seen {
      return RECURSIVE;
    }
    var items := Sorted(h[c].dict.Keys);
    var attrs: map<string, Tree> := map[];
    for i := 0 to |items|
      invariant attrs == AttrsAmong(h, name, c, seen, items[..i])
    {
      var a := items[i];
      AttrsGrow(h, name, c, seen, items, i);
      if !Kept(a) {
        continue;
      }
      match h[c].dict[a] {
        case Nested(d) =>
          UnseenShrinks(h, name, c, a, seen);
          var nested := DescribeClass(h, a, d, seen + {name});
          attrs := attrs[a := nested];
        case Described(info) =>
          attrs := attrs[a := info];
      }
    }
    AttrsComplete(h, name, c, seen, items);
    desc := ClassTree(h[c], attrs);
  }

  // ---- The module ----

  predicate Listed(name: string) {
    !(|name| >= 2 && name[..2] == "__")
  }

  ghost predicate Loaded(h: Heap, m: map<string, Attr>) {
    Closed(h) && forall n :: n in m && m[n].Nested? ==> m[n].cls in h
  }

  function DescribeEntry(h: Heap, m: map<string, Attr>, n: string): Tree
    requires Loaded(h, m) && n in m
  {
    match m[n]
    case Nested(c) => Describe(h, n, c, {})
    case Described(info) => info
  }

  /** The entries of some of the module's names. */
  function EntriesAmong(h: Heap, m: map<string, Attr>, names: seq<string>): map<string, Tree>
    requires Loaded(h, m) && forall n :: n in names ==> n in m
  {
    map n | n in names && Listed(n) :: DescribeEntry(h, m, n)
  }

  function Entries(h: Heap, m: map<string, Attr>): map<string, Tree>
    requires Loaded(h, m)
  {
    map n | n in m && Listed(n) :: DescribeEntry(h, m, n)
  }

  function ModuleTree(h: Heap, m: map<string, Attr>): Tree
    requires Loaded(h, m)
  {
    Dict(Entries(h, m))
  }

  lemma EntriesGrow(h: Heap, m: map<string, Attr>, names: seq<string>, i: nat)
    requires Loaded(h, m) && (forall n :: n in names ==> n in m) && i < |names|
    ensures
      var (done, n) := (EntriesAmong(h, m, names[..i]), names[i]);
      EntriesAmong(h, m, names[..i + 1]) == if Listed(n) then done[n := DescribeEntry(h, m, n)] else done
  {
    assert names[..i + 1] == names[..i] + [names[i]];
  }

  lemma EntriesComplete(h: Heap, m: map<string, Attr>, names: seq<string>)
    requires Loaded(h, m) && forall n :: n in names <==> n in m.Keys
    ensures ModuleTree(h, m) == Dict(EntriesAmong(h, m, names[..|names|]))
  {
    assert names[..|names|] == names;
    assert EntriesAmong(h, m, names) == Entries(h, m);
  }

  method DescribeName(h: Heap, m: map<string, Attr>, n: string) returns (tree: Tree)
    requires Loaded(h, m) && n in m
    ensures tree == DescribeEntry(h, m, n)
  {
    match m[n] {
      case Nested(c) => tree := DescribeClass(h, n, c, {});
      case Described(info) => tree := info;
    }
  }

  /** One round of the loop over the module's names. */
  method DescribeRound(h: Heap, m: map<string, Attr>, names: seq<string>, i: nat, out: map<string, Tree>)
    returns (more: map<string, Tree>)
    requires Loaded(h, m) && (forall n :: n in names ==> n in m) && i < |names|
    requires out == EntriesAmong(h, m, names[..i])
    ensures more == EntriesAmong(h, m, names[..i + 1])
  {
    EntriesGrow(h, m, names, i);
    more := out;
    if Listed(names[i]) {
      var tree := DescribeName(h, m, names[i]);
      more := out[names[i] := tree];
    }
  }

  /** The module's description, a dict filled in a loop. */
  method DescribeModule(h: Heap, m: map<string, Attr>) returns (desc: Tree)
    requires Loaded(h, m)
    ensures desc == ModuleTree(h, m)
  {
    var names := Sorted(m.Keys);
    var out: map<string, Tree> := map[];
    for i := 0 to |names|
      invariant out == EntriesAmong(h, m, names[..i])
    {
      out := DescribeRound(h, m, names, i, out);
    }
    EntriesComplete(h, m, names);
    desc := Dict(out);
  }

  // ---- What a description shows ----

  /** The class reached from c by following nested classes. */
  function Reach(h: Heap, c: ClassId, names: seq<string>): (r: Option<ClassId>)
    requires Closed(h) && c in h
    ensures r.Some? ==> r.value in h
    decreases |names|
  {
    if names == [] then Some(c)
    else if names[0] in h[c].dict && h[c].dict[names[0]].Nested? && Kept(names[0]) then
      Reach(h, h[c].dict[names[0]].cls, names[1..])
    else None
  }

  /** Where a description keeps the class reached by following `names`. */
  function AttrPath(names: seq<string>): Path {
    if names == [] then [] else ["attrs", names[0]] + AttrPath(names[1..])
  }

  /** None of the descents before the last one repeats a name. */
  ghost predicate SimpleBefore(trail: seq<string>, seen: set<string>) {
    trail != [] && NoRepeats(trail[..|trail| - 1]) && forall n :: n in trail[..|trail| - 1] ==> n !in seen
  }

  lemma SimpleBeforeStep(name: string, names: seq<string>, seen: set<string>)
    requires names != []
    ensures SimpleBefore([name] + names, seen) <==> name !in seen && SimpleBefore(names, seen + {name})
  {
    var all, rest := ([name] + names)[..|names|], names[..|names| - 1];
    assert all == [name] + rest;
    if SimpleBefore([name] + names, seen) {
      assert name in all;
      forall n | n in rest ensures n !in seen + {name} {
        assert n in all;
        var i :| 0 <= i < |rest| && rest[i] == n;
        assert all[0] == name && all[i + 1] == n;
      }
      forall i, j | 0 <= i < j < |rest| ensures rest[i] != rest[j] {
        assert all[i + 1] == rest[i] && all[j + 1] == rest[j];
      }
    }
    if name !in seen && SimpleBefore(names, seen + {name}) {
      forall i, j | 0 <= i < j < |all| ensures all[i] != all[j] {
        assert all[j] == rest[j - 1] && rest[j - 1] in rest;
      }
    }
  }

  /** Below a class described in full, a descent goes on from the nested class. */
  lemma LookupBelow(h: Heap, name: string, c: ClassId, seen: set<string>, a: string, rest: seq<string>)
    requires Closed(h) && c in h && name !in seen && a in h[c].dict && h[c].dict[a].Nested? && Kept(a)
    ensures Lookup(Describe(h, name, c, seen), AttrPath([a] + rest)) ==
      Lookup(Describe(h, a, h[c].dict[a].cls, seen + {name}), AttrPath(rest))
  {
    var attrs := DescribeAttrs(h, name, c, seen);
    assert attrs[a] == DescribeAttr(h, name, c, seen, a);
    assert ([a] + rest)[1..] == rest;
    var q := AttrPath([a] + rest);
    assert q[0] == "attrs" && q[1..][0] == a && q[1..][1..] == AttrPath(rest);
    assert Lookup(ClassTree(h[c], attrs), q) == Lookup(Dict(attrs), q[1..]) == Lookup(attrs[a], AttrPath(rest));
  }

  lemma NothingBelowMarker(names: seq<string>)
    requires names != []
    ensures Lookup(RECURSIVE, AttrPath(names)) == None
  {
    assert AttrPath(names)[0] == "attrs";
  }

  lemma TrailStep(name: string, names: seq<string>, seen: set<string>)
    requires names != []
    ensures
      var n := |names|;
      && ([name] + names)[n] == names[n - 1]
      && seen + {name} + Elements(names[..n - 1]) == seen + Elements(([name] + names)[..n])
  {
    assert ([name] + names)[..|names|] == [name] + names[..|names| - 1];
  }

  /** What stands where a nested class belongs: exactly the descents without an
      earlier repeat are shown, and each shows the class with its trail as `seen`. */
  lemma {:induction false} ShownExactlyWhereSimple(
      h: Heap, name: string, c: ClassId, seen: set<string>, names: seq<string>)
    requires Closed(h) && c in h && Reach(h, c, names).Some?
    ensures Lookup(Describe(h, name, c, seen), AttrPath(names)) ==
      (var trail := [name] + names;
       if SimpleBefore(trail, seen) then
         Some(Describe(h, trail[|names|], Reach(h, c, names).value, seen + Elements(trail[..|names|])))
       else None)
    decreases |names|
  {
    if names == [] {
      assert ([name] + names)[..0] == [];
      assert seen + Elements([]) == seen;
    } else {
      SimpleBeforeStep(name, names, seen);
      TrailStep(name, names, seen);
      if name in seen {
        NothingBelowMarker(names);
      } else {
        var a, rest := names[0], names[1..];
        assert names == [a] + rest;
        LookupBelow(h, name, c, seen, a, rest);
        ShownExactlyWhereSimple(h, a, h[c].dict[a].cls, seen + {name}, rest);
      }
    }
  }

  lemma NoRepeatsSnoc<T>(before: seq<T>, last: T)
    ensures NoRepeats(before + [last]) <==> NoRepeats(before) && last !in Elements(before)
  {
    var all := before + [last];
    assert forall i :: 0 <= i < |before| ==> all[i] == before[i];
    if NoRepeats(before) && last !in Elements(before) {
      forall i, j | 0 <= i < j < |all| ensures all[i] != all[j] {
        if j == |before| { assert before[i] in Elements(before); }
      }
    }
    if last in Elements(before) {
      var i :| 0 <= i < |before| && before[i] == last;
      assert all[i] == all[|before|];
    }
  }

  /** A trail repeats no name iff no descent before the last one does and the last
      name is not seen by then. */
  lemma SimpleTrail(name: string, names: seq<string>)
    ensures
      var (trail, n) := ([name] + names, |names|);
      NoRepeats(trail) <==> SimpleBefore(trail, {}) && trail[n] !in {} + Elements(trail[..n])
  {
    var trail := [name] + names;
    assert trail == trail[..|names|] + [trail[|names|]];
    NoRepeatsSnoc(trail[..|names|], trail[|names|]);
  }

  ghost predicate InFull(t: Tree, cls: Class) {
    exists attrs :: t == ClassTree(cls, attrs)
  }

  lemma FullUnlessSeen(h: Heap, name: string, c: ClassId, seen: set<string>)
    requires Closed(h) && c in h
    ensures if name in seen then Describe(h, name, c, seen) == RECURSIVE else InFull(Describe(h, name, c, seen), h[c])
  {
    if name !in seen {
      assert Describe(h, name, c, seen) == ClassTree(h[c], DescribeAttrs(h, name, c, seen));
    }
  }

  /** A reached class is described in full iff no name repeats on the way to it;
      otherwise its place holds the recursion marker or is not there at all. */
  lemma FullyDescribedIffSimple(h: Heap, name: string, c: ClassId, names: seq<string>)
    requires Closed(h) && c in h && Reach(h, c, names).Some?
    ensures
      var shown := Lookup(Describe(h, name, c, {}), AttrPath(names));
      if NoRepeats([name] + names) then shown.Some? && InFull(shown.value, h[Reach(h, c, names).value])
      else shown == None || shown == Some(RECURSIVE)
  {
    var trail, n := [name] + names, |names|;
    SimpleTrail(name, names);
    ShownExactlyWhereSimple(h, name, c, {}, names);
    FullUnlessSeen(h, trail[n], Reach(h, c, names).value, {} + Elements(trail[..n]));
  }

  /** Nesting depth is bounded by the number of distinct names. */
  lemma {:induction false} NestingIsBounded(h: Heap, name: string, c: ClassId, seen: set<string>, names: seq<string>)
    requires Closed(h) && c in h && Reach(h, c, names).Some?
    requires Lookup(Describe(h, name, c, seen), AttrPath(names)).Some?
    ensures |names| <= Unseen(h, name, seen)
    decreases |names|
  {
    if names != [] {
      ShownExactlyWhereSimple(h, name, c, seen, names);
      SimpleBeforeStep(name, names, seen);
      UnseenShrinks(h, name, c, names[0], seen);
      ShownExactlyWhereSimple(h, names[0], h[c].dict[names[0]].cls, seen + {name}, names[1..]);
      assert names == [names[0]] + names[1..];
      NestingIsBounded(h, names[0], h[c].dict[names[0]].cls, seen + {name}, names[1..]);
    }
  }

  lemma {:induction false} LookupConcat(t: Tree, p: Path, q: Path)
    ensures Lookup(t, p + q) == if Lookup(t, p).Some? then Lookup(Lookup(t, p).value, q) else None
    decreases |p|
  {
    if p == [] {
      assert p + q == q;
    } else if t.Dict? && p[0] in t.kids {
      assert (p + q)[1..] == p[1..] + q;
      LookupConcat(t.kids[p[0]], p[1..], q);
    }
  }

  lemma BasesAreShown(h: Heap, c: ClassId, name: string, names: seq<string>)
    requires Closed(h) && c in h && Reach(h, c, names).Some? && NoRepeats([name] + names)
    ensures Lookup(Describe(h, name, c, {}), AttrPath(names) + ["bases"]) ==
      Some(Leaf(List(h[Reach(h, c, names).value].bases)))
  {
    FullyDescribedIffSimple(h, name, c, names);
    LookupConcat(Describe(h, name, c, {}), AttrPath(names), ["bases"]);
    assert ["bases"][1..] == [];
  }

  /** The bases of a class in a module's description. */
  lemma BasesInModule(h: Heap, m: map<string, Attr>, name: string, names: seq<string>)
    requires Loaded(h, m) && name in m && m[name].Nested? && Listed(name)
    requires Reach(h, m[name].cls, names).Some? && NoRepeats([name] + names)
    ensures Lookup(ModuleTree(h, m), [name] + (AttrPath(names) + ["bases"])) ==
      Some(Leaf(List(h[Reach(h, m[name].cls, names).value].bases)))
  {
    BasesAreShown(h, m[name].cls, name, names);
    var p := AttrPath(names) + ["bases"];
    assert ([name] + p)[1..] == p;
    assert ModuleTree(h, m).kids[name] == DescribeEntry(h, m, name) == Describe(h, name, m[name].cls, {});
  }

  // ---- Which differences of bases the comparison sees ----

  /** The two modules have classes with different bases at the end of this descent. */
  ghost predicate BasesDiffer(
      h1: Heap, m1: map<string, Attr>, h2: Heap, m2: map<string, Attr>, name: string, names: seq<string>)
  {
    && Loaded(h1, m1) && name in m1 && m1[name].Nested? && Reach(h1, m1[name].cls, names).Some?
    && Loaded(h2, m2) && name in m2 && m2[name].Nested? && Reach(h2, m2[name].cls, names).Some?
    && h1[Reach(h1, m1[name].cls, names).value].bases != h2[Reach(h2, m2[name].cls, names).value].bases
  }

  /** End to end: two modules whose classes at the end of the same repeat-free
      descent have different bases are told apart by the report. */
  lemma BaseDifferenceIsReported(
      h1: Heap, m1: map<string, Attr>, h2: Heap, m2: map<string, Attr>, name: string, names: seq<string>)
    requires BasesDiffer(h1, m1, h2, m2, name, names) && Listed(name) && NoRepeats([name] + names)
    ensures
      var (b1, b2) := (h1[Reach(h1, m1[name].cls, names).value].bases, h2[Reach(h2, m2[name].cls, names).value].bases);
      Mismatch([name] + (AttrPath(names) + ["bases"]), Leaf(List(b1)), Leaf(List(b2))) in
        Diff(ModuleTree(h1, m1), ModuleTree(h2, m2), [], [])
  {
    BasesInModule(h1, m1, name, names);
    BasesInModule(h2, m2, name, names);
    LeafMismatchIsReported(
      ModuleTree(h1, m1), ModuleTree(h2, m2), [name] + (AttrPath(names) + ["bases"]),
      List(h1[Reach(h1, m1[name].cls, names).value].bases), List(h2[Reach(h2, m2[name].cls, names).value].bases));
  }

  /** The same classes, but for the bases of one. */
  function Rebased(h: Heap, x: ClassId, bases: seq<string>): (h': Heap)
    requires x in h
    ensures Closed(h) ==> Closed(h')
  {
    h[x := h[x].(bases := bases)]
  }

  /** The descents below a class `name`, with names seen before it, that reach x. */
  ghost predicate Descends(h: Heap, name: string, c: ClassId, seen: set<string>, x: ClassId, names: seq<string>)
    requires Closed(h) && c in h
  {
    Reach(h, c, names) == Some(x) && NoRepeats([name] + names) && forall n :: n in [name] + names ==> n !in seen
  }

  lemma {:induction false} ReachIgnoresBases(h: Heap, x: ClassId, bases: seq<string>, c: ClassId, names: seq<string>)
    requires Closed(h) && c in h && x in h
    ensures Reach(Rebased(h, x, bases), c, names) == Reach(h, c, names)
    decreases |names|
  {
    if names != [] && names[0] in h[c].dict && h[c].dict[names[0]].Nested? {
      ReachIgnoresBases(h, x, bases, h[c].dict[names[0]].cls, names[1..]);
    }
  }

  /** One step up: a descent from a nested class is a descent from its owner. */
  lemma DescendsFromOwner(
      h: Heap, name: string, c: ClassId, seen: set<string>, a: string, x: ClassId, names: seq<string>)
    requires Closed(h) && c in h && name !in seen && a in h[c].dict && h[c].dict[a].Nested? && Kept(a)
    requires Descends(h, a, h[c].dict[a].cls, seen + {name}, x, names)
    ensures Descends(h, name, c, seen, x, [a] + names)
  {
    var inner, all := [a] + names, [name] + ([a] + names);
    assert inner[0] == a && inner[1..] == names;
    forall i, j | 0 <= i < j < |all| ensures all[i] != all[j] {
      assert all[j] == inner[j - 1] && inner[j - 1] in inner;
    }
  }

  /** A class that no repeat-free descent reaches does not enter the description. */
  lemma {:induction false} UnreachedIsUnseen(
      h: Heap, name: string, c: ClassId, seen: set<string>, x: ClassId, bases: seq<string>)
    requires Closed(h) && c in h && x in h
    requires forall names :: !Descends(h, name, c, seen, x, names)
    ensures Describe(Rebased(h, x, bases), name, c, seen) == Describe(h, name, c, seen)
    decreases Unseen(h, name, seen)
  {
    if name !in seen {
      assert !Descends(h, name, c, seen, x, []);
      var h' := Rebased(h, x, bases);
      forall a | a in h[c].dict && Kept(a)
        ensures DescribeAttr(h', name, c, seen, a) == DescribeAttr(h, name, c, seen, a)
      {
        if h[c].dict[a].Nested? {
          forall names ensures !Descends(h, a, h[c].dict[a].cls, seen + {name}, x, names) {
            if Descends(h, a, h[c].dict[a].cls, seen + {name}, x, names) {
              DescendsFromOwner(h, name, c, seen, a, x, names);
            }
          }
          UnseenShrinks(h, name, c, a, seen);
          UnreachedIsUnseen(h, a, h[c].dict[a].cls, seen + {name}, x, bases);
        }
      }
      assert DescribeAttrs(h', name, c, seen) == DescribeAttrs(h, name, c, seen);
    }
  }

  /** Some repeat-free descent from a name of the module reaches x. */
  ghost predicate SimplyReached(h: Heap, m: map<string, Attr>, x: ClassId)
    requires Loaded(h, m)
  {
    exists name, names :: name in m && Listed(name) && m[name].Nested? && Descends(h, name, m[name].cls, {}, x, names)
  }

  /** If none does, another choice of bases for x leaves no trace, cycle or not: the
      marker is keyed by name, not by class. */
  lemma ShadowedDifferenceIsMissed(h: Heap, m: map<string, Attr>, x: ClassId, bases: seq<string>)
    requires Loaded(h, m) && x in h && !SimplyReached(h, m, x)
    ensures ModuleTree(Rebased(h, x, bases), m) == ModuleTree(h, m)
  {
    var h' := Rebased(h, x, bases);
    forall n | n in m && Listed(n) ensures DescribeEntry(h', m, n) == DescribeEntry(h, m, n) {
      if m[n].Nested? {
        UnreachedIsUnseen(h, n, m[n].cls, {}, x, bases);
      }
    }
    assert Entries(h', m) == Entries(h, m);
  }

  /** The report tells the old bases of x from the new ones at p. */
  ghost predicate ReportedAt(h: Heap, m: map<string, Attr>, x: ClassId, bases: seq<string>, p: Path)
    requires Loaded(h, m) && x in h
  {
    Mismatch(p, Leaf(List(h[x].bases)), Leaf(List(bases))) in
      Diff(ModuleTree(h, m), ModuleTree(Rebased(h, x, bases), m), [], [])
  }

  /** A tree does not differ from itself in lists. */
  lemma NoListMismatch(t: Tree, p: Path, x: seq<string>, y: seq<string>)
    requires Mismatch(p, Leaf(List(x)), Leaf(List(y))) in Diff(t, t, [], [])
    ensures x == y
  {
    assert [] + p == p;
    ReportIsExact(t, t, [], [], p, Mismatch(p, Leaf(List(x)), Leaf(List(y))));
  }

  /** A change of the bases of one class is reported iff a repeat-free descent
      reaches that class. */
  lemma BaseChangeReportedIff(h: Heap, m: map<string, Attr>, x: ClassId, bases: seq<string>)
    requires Loaded(h, m) && x in h && bases != h[x].bases
    ensures (exists p :: ReportedAt(h, m, x, bases, p)) <==> SimplyReached(h, m, x)
  {
    var h' := Rebased(h, x, bases);
    if SimplyReached(h, m, x) {
      var name, names :| name in m && Listed(name) && m[name].Nested? && Descends(h, name, m[name].cls, {}, x, names);
      ReachIgnoresBases(h, x, bases, m[name].cls, names);
      BaseDifferenceIsReported(h, m, h', m, name, names);
      assert ReportedAt(h, m, x, bases, [name] + (AttrPath(names) + ["bases"]));
    } else {
      ShadowedDifferenceIsMissed(h, m, x, bases);
      forall p ensures !ReportedAt(h, m, x, bases, p) {
        if ReportedAt(h, m, x, bases, p) { NoListMismatch(ModuleTree(h, m), p, h[x].bases, bases); }
      }
    }
  }

  // ---- Which descents the comparison sees to the end ----

  ghost predicate AlwaysSeen(name: string, names: seq<string>) {
    forall h1, m1, h2, m2 :: BasesDiffer(h1, m1, h2, m2, name, names) ==>
      Diff(ModuleTree(h1, m1), ModuleTree(h2, m2), [], []) != []
  }

  /** Classes nested in one another under the given names, and nothing else. */
  function Chain(names: seq<string>): (h: Heap)
    ensures Closed(h)
  {
    map i: nat | 0 <= i <= |names| ::
      Class([], Null, if i == |names| then map[] else map[names[i] := Nested(i + 1)])
  }

  lemma {:induction false} ChainIsOneDescent(names: seq<string>, i: nat, down: seq<string>)
    requires i <= |names| && forall n :: n in names ==> Kept(n)
    ensures Reach(Chain(names), i, down) == Some(|names|) <==> down == names[i..]
    decreases |names| - i
  {
    if i < |names| {
      assert names[i..] == [names[i]] + names[i + 1..];
      if down != [] {
        assert down == [down[0]] + down[1..];
        ChainIsOneDescent(names, i + 1, down[1..]);
      }
    } else if down != [] {
      assert Chain(names)[i].dict == map[];
    }
  }

  /** No NaN among what is described. */
  ghost predicate PlainHeap(h: Heap) {
    forall c :: c in h ==> h[c].doc != NaN && forall a :: a in h[c].dict ==> h[c].dict[a].Nested?
  }

  lemma {:induction false} DescribeIsNaNFree(h: Heap, name: string, c: ClassId, seen: set<string>)
    requires Closed(h) && c in h && PlainHeap(h)
    ensures NaNFree(Describe(h, name, c, seen))
    decreases Unseen(h, name, seen)
  {
    if name !in seen {
      var attrs := DescribeAttrs(h, name, c, seen);
      forall a | a in attrs ensures NaNFree(attrs[a]) {
        UnseenShrinks(h, name, c, a, seen);
        DescribeIsNaNFree(h, a, h[c].dict[a].cls, seen + {name});
        assert attrs[a] == DescribeAttr(h, name, c, seen, a);
      }
      assert NaNFree(Dict(attrs));
    }
  }

  lemma ChainIsNotSimplyReached(name: string, names: seq<string>)
    requires (forall n :: n in names ==> Kept(n)) && !NoRepeats([name] + names)
    ensures !SimplyReached(Chain(names), map[name := Nested(0)], |names|)
  {
    forall down ensures !Descends(Chain(names), name, 0, {}, |names|, down) {
      ChainIsOneDescent(names, 0, down);
    }
  }

  lemma ChainIsNaNFree(name: string, names: seq<string>)
    ensures NaNFree(ModuleTree(Chain(names), map[name := Nested(0)]))
  {
    DescribeIsNaNFree(Chain(names), name, 0, {});
  }

  /** Along a descent with a repeat two modules can differ in bases and yet be
      reported as the same. */
  lemma RepeatHidesDifference(name: string, names: seq<string>)
    requires Listed(name) && (forall n :: n in names ==> Kept(n)) && !NoRepeats([name] + names)
    ensures !AlwaysSeen(name, names)
  {
    var h, m, x := Chain(names), map[name := Nested(0)], |names|;
    ChainIsOneDescent(names, 0, names);
    ChainIsNotSimplyReached(name, names);
    ShadowedDifferenceIsMissed(h, m, x, ["Base"]);
    ReachIgnoresBases(h, x, ["Base"], 0, names);
    ChainIsNaNFree(name, names);
    CleanSelfReportIffNaNFree(ModuleTree(h, m));
    assert BasesDiffer(h, m, Rebased(h, x, ["Base"]), m, name, names);
  }

  /** Different bases at the end of a descent always show in the report iff no name
      repeats along the descent. */
  lemma AlwaysSeenIffSimple(name: string, names: seq<string>)
    requires Listed(name) && forall n :: n in names ==> Kept(n)
    ensures AlwaysSeen(name, names) <==> NoRepeats([name] + names)
  {
    if NoRepeats([name] + names) {
      forall h1, m1, h2, m2 | BasesDiffer(h1, m1, h2, m2, name, names)
        ensures Diff(ModuleTree(h1, m1), ModuleTree(h2, m2), [], []) != []
      {
        BaseDifferenceIsReported(h1, m1, h2, m2, name, names);
      }
    } else {
      RepeatHidesDifference(name, names);
    }
  }
}
