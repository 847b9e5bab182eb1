/** What a description holds, place by place, and which differences between two
    modules the comparison therefore tells. */
module SurfaceContent {
  import opened Common
  import opened Keys
  import opened SurfaceDiff
  import opened SurfaceDiffLaws
  import opened SurfaceLeaves
  import opened SurfaceDescribe

  // ---- Names ----

  ghost predicate Starts(name: string, prefix: string) {
    exists rest :: name == prefix + rest
  }

  ghost predicate Ends(name: string, suffix: string) {
    exists rest :: name == rest + suffix
  }

  lemma StartsIff(name: string)
    ensures Starts(name, "__") <==> |name| >= 2 && name[..2] == "__"
  {
    if |name| >= 2 { assert name == name[..2] + name[2..]; }
  }

  lemma EndsIff(name: string)
    ensures Ends(name, "__") <==> |name| >= 2 && name[|name| - 2..] == "__"
  {
    if |name| >= 2 { assert name == name[..|name| - 2] + name[|name| - 2..]; }
  }

  /** A class attribute is kept iff it is one of the synthesized methods or its name
      does not both start and end with two underscores; the doc is told elsewhere. */
  lemma KeptIff(name: string)
    ensures Kept(name) <==>
      name != "__doc__" && (name in SYNTH_DUNDERS || !(Starts(name, "__") && Ends(name, "__")))
  {
    StartsIff(name);
    EndsIff(name);
  }

  /** A name of the module is listed iff it does not start with two underscores. */
  lemma ListedIff(name: string)
    ensures Listed(name) <==> !Starts(name, "__")
  {
    StartsIff(name);
  }

  // ---- Content ----

  /** The description of a class at the end of a repeat-free descent: its bases, its
      doc, and an entry for exactly the kept attributes. */
  ghost predicate ShowsClass(t: Tree, cls: Class) {
    && t.Dict? && t.kids.Keys == {"bases", "doc", "attrs"}
    && t.kids["bases"] == Leaf(List(cls.bases))
    && t.kids["doc"] == Leaf(cls.doc)
    && t.kids["attrs"].Dict?
    && (forall a :: a in t.kids["attrs"].kids <==> a in cls.dict && Kept(a))
    && (forall a :: a in t.kids["attrs"].kids && cls.dict[a].Described? ==>
          t.kids["attrs"].kids[a] == cls.dict[a].info)
  }

  lemma FullTreeShows(h: Heap, name: string, c: ClassId, seen: set<string>)
    requires Closed(h) && c in h && name !in seen
    ensures ShowsClass(Describe(h, name, c, seen), h[c])
  {
    var attrs := DescribeAttrs(h, name, c, seen);
    assert Describe(h, name, c, seen) == ClassTree(h[c], attrs);
    assert |"doc"| == 3 && "bases"[0] == 'b' && "attrs"[0] == 'a';
    forall a | a in attrs && h[c].dict[a].Described? ensures attrs[a] == h[c].dict[a].info {
      assert attrs[a] == DescribeAttr(h, name, c, seen, a);
    }
  }

  lemma ClassIsShown(h: Heap, c: ClassId, name: string, names: seq<string>)
    requires Closed(h) && c in h && Reach(h, c, names).Some? && NoRepeats([name] + names)
    ensures
      var shown := Lookup(Describe(h, name, c, {}), AttrPath(names));
      shown.Some? && ShowsClass(shown.value, h[Reach(h, c, names).value])
  {
    var trail, n := [name] + names, |names|;
    SimpleTrail(name, names);
    ShownExactlyWhereSimple(h, name, c, {}, names);
    FullTreeShows(h, trail[n], Reach(h, c, names).value, {} + Elements(trail[..n]));
  }

  /** Where the last name of a descent is the first to repeat there is only the marker. */
  lemma MarkerIsShown(h: Heap, c: ClassId, name: string, names: seq<string>)
    requires Closed(h) && c in h && Reach(h, c, names).Some?
    requires names != [] && NoRepeats([name] + names[..|names| - 1])
    requires names[|names| - 1] in [name] + names[..|names| - 1]
    ensures
      var shown := Lookup(Describe(h, name, c, {}), AttrPath(names));
      shown.Some? && shown.value.Dict? && shown.value.kids.Keys == {"recursive"}
      && shown.value.kids["recursive"] == Leaf(Bool(true))
  {
    var trail, n := [name] + names, |names|;
    assert trail[..n] == [name] + names[..n - 1] && trail[n] == names[n - 1];
    assert trail[n] in {} + Elements(trail[..n]);
    ShownExactlyWhereSimple(h, name, c, {}, names);
  }

  /** The description of a module has an entry for exactly the listed names. */
  lemma ModuleIsShown(h: Heap, m: map<string, Attr>)
    requires Loaded(h, m)
    ensures
      var t := ModuleTree(h, m);
      && t.Dict? && (forall n :: n in t.kids <==> n in m && Listed(n))
      && (forall n :: n in t.kids && m[n].Described? ==> t.kids[n] == m[n].info)
      && (forall n :: n in t.kids && m[n].Nested? ==> t.kids[n] == Describe(h, n, m[n].cls, {}))
  {
    var t := ModuleTree(h, m);
    forall n | n in t.kids ensures t.kids[n] == DescribeEntry(h, m, n) {}
  }

  // ---- Where the classes of a module are described ----

  /** A class of the module is reached by a descent without a repeated name. */
  ghost predicate Simply(h: Heap, m: map<string, Attr>, name: string, names: seq<string>) {
    && Loaded(h, m) && name in m && m[name].Nested? && Listed(name)
    && Reach(h, m[name].cls, names).Some? && NoRepeats([name] + names)
  }

  function ClassAt(h: Heap, m: map<string, Attr>, name: string, names: seq<string>): Class
    requires Simply(h, m, name, names)
  {
    h[Reach(h, m[name].cls, names).value]
  }

  function PlaceOf(name: string, names: seq<string>): Path {
    [name] + AttrPath(names)
  }

  lemma ClassInModule(h: Heap, m: map<string, Attr>, name: string, names: seq<string>) returns (t: Tree)
    requires Simply(h, m, name, names)
    ensures Lookup(ModuleTree(h, m), PlaceOf(name, names)) == Some(t) && ShowsClass(t, ClassAt(h, m, name, names))
  {
    ModuleIsShown(h, m);
    ClassIsShown(h, m[name].cls, name, names);
    assert PlaceOf(name, names)[1..] == AttrPath(names);
    t := Lookup(Describe(h, name, m[name].cls, {}), AttrPath(names)).value;
  }

  lemma LookupKey(t: Tree, p: Path, k: string)
    requires Lookup(t, p).Some? && Lookup(t, p).value.Dict?
    ensures Lookup(t, p + [k]) ==
      if k in Lookup(t, p).value.kids then Some(Lookup(t, p).value.kids[k]) else None
  {
    LookupConcat(t, p, [k]);
    assert [k][1..] == [];
  }

  /** What stands at the bases, the doc and the attributes of such a class. */
  lemma ContentInModule(h: Heap, m: map<string, Attr>, name: string, names: seq<string>, a: string)
    requires Simply(h, m, name, names)
    ensures
      var (t, p, cls) := (ModuleTree(h, m), PlaceOf(name, names), ClassAt(h, m, name, names));
      && Lookup(t, p + ["bases"]) == Some(Leaf(List(cls.bases)))
      && Lookup(t, p + ["doc"]) == Some(Leaf(cls.doc))
      && HasDict(t, p + ["attrs"]) && (a in DictAt(t, p + ["attrs"]) <==> a in cls.dict && Kept(a))
      && (a in cls.dict && Kept(a) && cls.dict[a].Described? ==>
            Lookup(t, p + ["attrs"] + [a]) == Some(cls.dict[a].info))
  {
    var t, p := ModuleTree(h, m), PlaceOf(name, names);
    var d := ClassInModule(h, m, name, names);
    LookupKey(t, p, "bases");
    LookupKey(t, p, "doc");
    LookupKey(t, p, "attrs");
    LookupKey(t, p + ["attrs"], a);
  }

  // ---- Which differences are told ----

  lemma {:induction false} EqualBelow(a: Tree, b: Tree, q: Path)
    requires Equal(a, b) && Lookup(a, q).Some? && Lookup(b, q).Some?
    ensures Equal(Lookup(a, q).value, Lookup(b, q).value)
    decreases |q|
  {
    if q != [] {
      EqualBelow(a.kids[q[0]], b.kids[q[0]], q[1..]);
    }
  }

  lemma UnequalIsReported(a: Tree, b: Tree, q: Path)
    requires Lookup(a, q).Some? && Lookup(b, q).Some? && !Equal(Lookup(a, q).value, Lookup(b, q).value)
    ensures Diff(a, b, [], []) != []
  {
    EmptyIffEqual(a, b, []);
    if Equal(a, b) { EqualBelow(a, b, q); }
  }

  /** Different docs of classes at the end of one repeat-free descent are reported as such. */
  lemma DocDifferenceIsReported(
      h1: Heap, m1: map<string, Attr>, h2: Heap, m2: map<string, Attr>, name: string, names: seq<string>)
    requires Simply(h1, m1, name, names) && Simply(h2, m2, name, names)
    requires ClassAt(h1, m1, name, names).doc != ClassAt(h2, m2, name, names).doc
    requires ClassAt(h1, m1, name, names).doc.Null? || ClassAt(h1, m1, name, names).doc.Str?
    ensures
      var (d1, d2) := (ClassAt(h1, m1, name, names).doc, ClassAt(h2, m2, name, names).doc);
      Mismatch(PlaceOf(name, names) + ["doc"], Leaf(d1), Leaf(d2)) in
        Diff(ModuleTree(h1, m1), ModuleTree(h2, m2), [], [])
  {
    ContentInModule(h1, m1, name, names, "");
    ContentInModule(h2, m2, name, names, "");
    LeafMismatchIsReported(
      ModuleTree(h1, m1), ModuleTree(h2, m2), PlaceOf(name, names) + ["doc"],
      ClassAt(h1, m1, name, names).doc, ClassAt(h2, m2, name, names).doc);
  }

  /** Different descriptions of one attribute of such classes never go unreported. */
  lemma AttributeDifferenceIsReported(
      h1: Heap, m1: map<string, Attr>, h2: Heap, m2: map<string, Attr>, name: string, names: seq<string>, a: string)
    requires Simply(h1, m1, name, names) && Simply(h2, m2, name, names) && Kept(a)
    requires a in ClassAt(h1, m1, name, names).dict && ClassAt(h1, m1, name, names).dict[a].Described?
    requires a in ClassAt(h2, m2, name, names).dict && ClassAt(h2, m2, name, names).dict[a].Described?
    requires !Equal(ClassAt(h1, m1, name, names).dict[a].info, ClassAt(h2, m2, name, names).dict[a].info)
    ensures Diff(ModuleTree(h1, m1), ModuleTree(h2, m2), [], []) != []
  {
    ContentInModule(h1, m1, name, names, a);
    ContentInModule(h2, m2, name, names, a);
    UnequalIsReported(ModuleTree(h1, m1), ModuleTree(h2, m2), PlaceOf(name, names) + ["attrs"] + [a]);
  }

  /** A kept attribute that only one of the two classes has is reported as such. */
  lemma MissingAttributeIsReported(
      h1: Heap, m1: map<string, Attr>, h2: Heap, m2: map<string, Attr>, name: string, names: seq<string>, a: string)
    requires Simply(h1, m1, name, names) && Simply(h2, m2, name, names) && Kept(a)
    requires a in ClassAt(h1, m1, name, names).dict && a !in ClassAt(h2, m2, name, names).dict
    ensures
      OnlyInConstexpr(PlaceOf(name, names) + ["attrs"] + [a]) in
        Diff(ModuleTree(h1, m1), ModuleTree(h2, m2), [], [])
  {
    ContentInModule(h1, m1, name, names, a);
    ContentInModule(h2, m2, name, names, a);
    MissingKeyIsReported(ModuleTree(h1, m1), ModuleTree(h2, m2), PlaceOf(name, names) + ["attrs"], a);
  }

  lemma MissingKeyIsReported(t1: Tree, t2: Tree, up: Path, k: string)
    requires HasDict(t1, up) && HasDict(t2, up) && k in DictAt(t1, up) && k !in DictAt(t2, up)
    ensures OnlyInConstexpr(up + [k]) in Diff(t1, t2, [], [])
  {
    var q := up + [k];
    assert [] + q == q && q[..|q| - 1] == up;
    assert Visible([], [], q);
    ReportIsExact(t1, t2, [], [], q, OnlyInConstexpr(q));
  }

  /** The same for the names of the module itself. */
  lemma MissingNameIsReported(h1: Heap, m1: map<string, Attr>, h2: Heap, m2: map<string, Attr>, n: string)
    requires Loaded(h1, m1) && Loaded(h2, m2) && Listed(n) && n in m1 && n !in m2
    ensures OnlyInConstexpr([n]) in Diff(ModuleTree(h1, m1), ModuleTree(h2, m2), [], [])
  {
    ModuleIsShown(h1, m1);
    ModuleIsShown(h2, m2);
    MissingKeyIsReported(ModuleTree(h1, m1), ModuleTree(h2, m2), [], n);
    assert [] + [n] == [n];
  }

  lemma EntryDifferenceIsReported(h1: Heap, m1: map<string, Attr>, h2: Heap, m2: map<string, Attr>, n: string)
    requires Loaded(h1, m1) && Loaded(h2, m2) && Listed(n) && n in m1 && n in m2
    requires m1[n].Described? && m2[n].Described? && !Equal(m1[n].info, m2[n].info)
    ensures Diff(ModuleTree(h1, m1), ModuleTree(h2, m2), [], []) != []
  {
    ModuleIsShown(h1, m1);
    ModuleIsShown(h2, m2);
    assert [n][1..] == [];
    UnequalIsReported(ModuleTree(h1, m1), ModuleTree(h2, m2), [n]);
  }
}
