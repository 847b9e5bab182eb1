/** The registration protocol of a generated binding module: every bound type has
    one function that returns at once when the type is registered, binds the bases,
    picks an attribute name and registers the type. */
module Registration {
  import opened Common

  /** A C++ type as the generator sees it.  Bases are complete types, so the base
      relation cannot be cyclic; a base shared by several types is the same value. */
  datatype Type = Type(id: string, plain: string, qualified: string, bases: seq<Type>)

  /** What a module attribute refers to. */
  datatype Object = Other(what: string) | Bound(t: Type)

  /** The registry, in order of registration, and the attributes of the module. */
  datatype State = State(order: seq<Type>, attrs: map<string, Object>)

  // ---- The protocol, as functions ----

  function PyName(s: State, t: Type): string {
    if t.plain in s.attrs then t.qualified else t.plain
  }

  function Register(s: State, t: Type): State {
    State(s.order + [t], s.attrs[PyName(s, t) := Bound(t)])
  }

  function Bind(s: State, t: Type): State
    decreases t, 0
  {
    if t in s.order then s else Register(BindAll(s, t.bases), t)
  }

  function BindAll(s: State, ts: seq<Type>): State
    decreases ts
  {
    if ts == [] then s else BindAll(Bind(s, ts[0]), ts[1..])
  }

  // ---- The protocol, as the generated code has it ----

  class Module {
    var order: seq<Type>
    var attrs: map<string, Object>

    ghost function Abs(): State
      reads this
    {
      State(order, attrs)
    }

    /** A module before its first binding: it may already have attributes. */
    constructor (attrs: map<string, Object>)
      ensures Abs() == State([], attrs)
    {
      this.attrs := attrs;
      order := [];
    }

    /** `nbgen_bind_T`. */
    method BindType(t: Type)
      modifies this
      ensures Abs() == Bind(old(Abs()), t)
      decreases t, 0
    {
      if t in order {
        return;
      }
      ghost var s := Abs();
      for i := 0 to |t.bases|
        invariant BindAll(Abs(), t.bases[i..]) == BindAll(s, t.bases)
      {
        assert t.bases[i..][1..] == t.bases[i + 1..];
        assert t.bases[i] in t.bases;
        BindType(t.bases[i]);
      }
      var pyName := if t.plain in attrs then t.qualified else t.plain;
      attrs := attrs[pyName := Bound(t)];
      order := order + [t];
    }

    /** `NB_MODULE`: the listed calls, in order, repeats included. */
    method Populate(calls: seq<Type>)
      modifies this
      ensures Abs() == BindAll(old(Abs()), calls)
    {
      ghost var s := Abs();
      for i := 0 to |calls|
        invariant BindAll(Abs(), calls[i..]) == BindAll(s, calls)
      {
        assert calls[i..][1..] == calls[i + 1..];
        BindType(calls[i]);
      }
    }
  }

  // ---- What gets registered, and in which order ----

  /** A type with its bases, their bases and so on. */
  function Lineage(t: Type): set<Type>
    decreases t, 0
  {
    {t} + LineageAll(t.bases)
  }

  function LineageAll(ts: seq<Type>): set<Type>
    decreases ts
  {
    if ts == [] then {} else Lineage(ts[0]) + LineageAll(ts[1..])
  }

  /** Every registered type comes after all its bases, and only once. */
  ghost predicate Topological(order: seq<Type>) {
    && (forall i, b :: 0 <= i < |order| && b in order[i].bases ==> b in order[..i])
    && NoRepeats(order)
  }

  lemma {:induction false} LineageIsSmaller(t: Type)
    ensures forall a :: a in Lineage(t) ==> a == t || a < t
    decreases t, 0
  {
    LineageAllIsSmaller(t, t.bases);
  }

  lemma {:induction false} LineageAllIsSmaller(t: Type, ts: seq<Type>)
    requires forall b :: b in ts ==> b < t
    ensures forall a :: a in LineageAll(ts) ==> a < t
    decreases t, 0, |ts|
  {
    if ts != [] {
      assert ts[0] in ts && forall b :: b in ts[1..] ==> b in ts;
      LineageIsSmaller(ts[0]);
      LineageAllIsSmaller(t, ts[1..]);
    }
  }

  /** No type is its own ancestor. */
  lemma NotItsOwnAncestor(t: Type)
    ensures t !in LineageAll(t.bases)
  {
    LineageAllIsSmaller(t, t.bases);
  }

  /** Registered types are closed under bases. */
  ghost predicate Closed(order: seq<Type>) {
    forall t :: t in order ==> Lineage(t) <= Elements(order)
  }

  lemma {:induction false} BindRegistersLineage(s: State, t: Type)
    requires Closed(s.order)
    ensures s.order <= Bind(s, t).order && Closed(Bind(s, t).order)
    ensures Elements(Bind(s, t).order) == Elements(s.order) + Lineage(t)
    decreases t, 0
  {
    if t in s.order {
      assert Lineage(t) <= Elements(s.order);
    } else {
      BindAllRegistersLineage(s, t.bases);
      var mid, end := BindAll(s, t.bases).order, Bind(s, t).order;
      assert end == mid + [t];
      assert Elements(end) == Elements(mid) + {t};
      forall u | u in end ensures Lineage(u) <= Elements(end) {
        if u in mid { assert Lineage(u) <= Elements(mid); }
      }
    }
  }

  /** After a list of calls exactly the called types and their ancestors are
      registered besides what was there. */
  lemma {:induction false} BindAllRegistersLineage(s: State, ts: seq<Type>)
    requires Closed(s.order)
    ensures s.order <= BindAll(s, ts).order && Closed(BindAll(s, ts).order)
    ensures Elements(BindAll(s, ts).order) == Elements(s.order) + LineageAll(ts)
    decreases ts
  {
    if ts != [] {
      BindRegistersLineage(s, ts[0]);
      BindAllRegistersLineage(Bind(s, ts[0]), ts[1..]);
    }
  }

  lemma {:induction false} BindKeepsTopological(s: State, t: Type)
    requires Closed(s.order) && Topological(s.order)
    ensures Topological(Bind(s, t).order)
    decreases t, 0
  {
    if t !in s.order {
      BindAllKeepsTopological(s, t.bases);
      BindAllRegistersLineage(s, t.bases);
      NotItsOwnAncestor(t);
      var mid := BindAll(s, t.bases).order;
      assert t !in mid by { assert t !in Elements(mid); }
      forall b | b in t.bases ensures b in mid {
        BaseInLineage(t.bases, b);
        assert b in Elements(mid);
      }
      AppendKeepsTopological(mid, t);
    }
  }

  lemma {:induction false} BaseInLineage(ts: seq<Type>, b: Type)
    requires b in ts
    ensures b in LineageAll(ts)
    decreases |ts|
  {
    if b != ts[0] {
      assert ts == [ts[0]] + ts[1..];
      BaseInLineage(ts[1..], b);
    }
  }

  lemma AppendKeepsTopological(order: seq<Type>, t: Type)
    requires Topological(order) && t !in order && forall b :: b in t.bases ==> b in order
    ensures Topological(order + [t])
  {
    var end := order + [t];
    forall i, b | 0 <= i < |end| && b in end[i].bases ensures b in end[..i] {
      assert end[..i] == order[..i];
      if i == |order| { assert order[..i] == order; }
    }
  }

  /** Registration order is topological after any list of calls. */
  lemma {:induction false} BindAllKeepsTopological(s: State, ts: seq<Type>)
    requires Closed(s.order) && Topological(s.order)
    ensures Topological(BindAll(s, ts).order)
    decreases ts
  {
    if ts != [] {
      BindKeepsTopological(s, ts[0]);
      BindRegistersLineage(s, ts[0]);
      BindAllKeepsTopological(Bind(s, ts[0]), ts[1..]);
    }
  }

  // ---- Calls that do nothing ----

  /** The calls that are not already covered by an earlier call, itself or as an
      ancestor of the called type. */
  function Needed(calls: seq<Type>, covered: set<Type>): seq<Type>
    decreases |calls|
  {
    if calls == [] then []
    else if calls[0] in covered then Needed(calls[1..], covered)
    else [calls[0]] + Needed(calls[1..], covered + Lineage(calls[0]))
  }

  /** Dropping every covered call, later repeats among them, changes neither the
      registry, nor its order, nor the module. */
  lemma {:induction false} CoveredCallsDoNothing(s: State, calls: seq<Type>)
    requires Closed(s.order)
    ensures BindAll(s, Needed(calls, Elements(s.order))) == BindAll(s, calls)
    decreases |calls|
  {
    if calls != [] {
      var t := calls[0];
      BindRegistersLineage(s, t);
      CoveredCallsDoNothing(Bind(s, t), calls[1..]);
      if t !in s.order {
        assert ([t] + Needed(calls[1..], Elements(s.order) + Lineage(t)))[1..] ==
          Needed(calls[1..], Elements(s.order) + Lineage(t));
      }
    }
  }

  lemma {:induction false} BindAllConcat(s: State, xs: seq<Type>, ys: seq<Type>)
    ensures BindAll(s, xs + ys) == BindAll(BindAll(s, xs), ys)
    decreases |xs|
  {
    if xs == [] {
      assert xs + ys == ys;
    } else {
      assert (xs + ys)[1..] == xs[1..] + ys;
      BindAllConcat(Bind(s, xs[0]), xs[1..], ys);
    }
  }

  lemma BindAllNext(s: State, ts: seq<Type>, t: Type)
    ensures BindAll(s, ts + [t]) == Bind(BindAll(s, ts), t)
  {
    BindAllConcat(s, ts, [t]);
    assert [t][1..] == [];
  }

  /** A call list does what it does without its later repeats. */
  lemma {:induction false} RepeatsDoNothing(s: State, calls: seq<Type>)
    requires Closed(s.order)
    ensures BindAll(s, Distinct(calls)) == BindAll(s, calls)
    decreases |calls|
  {
    if calls != [] {
      var front, last := calls[..|calls| - 1], calls[|calls| - 1];
      assert calls == front + [last];
      RepeatsDoNothing(s, front);
      BindAllNext(s, front, last);
      BindAllNext(s, Distinct(front), last);
      if last in Distinct(front) {
        DistinctHasAll(front);
        BindAllRegistersLineage(s, front);
        BaseInLineage(front, last);
        assert last in Elements(BindAll(s, front).order);
      }
    }
  }

  // ---- Names ----

  /** The calls that bind find both names of a type taken and clobber one attribute. */
  function Clobbers(s: State, t: Type): nat
    decreases t, 0
  {
    if t in s.order then 0
    else
      var mid := BindAll(s, t.bases);
      ClobbersAll(s, t.bases) + (if t.plain in mid.attrs && t.qualified in mid.attrs then 1 else 0)
  }

  function ClobbersAll(s: State, ts: seq<Type>): nat
    decreases ts
  {
    if ts == [] then 0 else Clobbers(s, ts[0]) + ClobbersAll(Bind(s, ts[0]), ts[1..])
  }

  /** Conservation: each registration adds one attribute, unless both names of the
      type were taken, when it replaces one. */
  lemma {:induction false} AttributesBalance(s: State, t: Type)
    ensures |Bind(s, t).attrs| + Clobbers(s, t) + |s.order| == |s.attrs| + |Bind(s, t).order|
    decreases t, 0
  {
    if t !in s.order {
      AttributesBalanceAll(s, t.bases);
    }
  }

  lemma {:induction false} AttributesBalanceAll(s: State, ts: seq<Type>)
    ensures |BindAll(s, ts).attrs| + ClobbersAll(s, ts) + |s.order| == |s.attrs| + |BindAll(s, ts).order|
    decreases ts
  {
    if ts != [] {
      AttributesBalance(s, ts[0]);
      AttributesBalanceAll(Bind(s, ts[0]), ts[1..]);
    }
  }

  /** No attribute that was there has changed. */
  ghost predicate Preserved(before: map<string, Object>, after: map<string, Object>) {
    forall n :: n in before ==> n in after && after[n] == before[n]
  }

  ghost predicate Owns(attrs: map<string, Object>, t: Type, n: string) {
    n in attrs && attrs[n] == Bound(t)
  }

  ghost predicate Reachable(attrs: map<string, Object>, t: Type) {
    exists n :: Owns(attrs, t, n)
  }

  /** A class attribute belongs to a registered type, and to it alone. */
  ghost predicate Consistent(s: State) {
    && (forall n :: n in s.attrs && s.attrs[n].Bound? ==> s.attrs[n].t in s.order)
    && (forall t, n, m :: Owns(s.attrs, t, n) && Owns(s.attrs, t, m) ==> n == m)
  }

  /** ... and every registered type has one. */
  ghost predicate WellNamed(s: State) {
    Consistent(s) && forall t :: t in s.order ==> Reachable(s.attrs, t)
  }

  lemma {:induction false} BindConsistent(s: State, t: Type)
    requires Closed(s.order) && Consistent(s)
    ensures Consistent(Bind(s, t))
    decreases t, 0
  {
    if t !in s.order {
      BindAllConsistent(s, t.bases);
      FreshAfterBases(s, t);
      RegisterConsistent(BindAll(s, t.bases), t);
    }
  }

  lemma RegisterConsistent(mid: State, t: Type)
    requires Consistent(mid) && t !in mid.order
    ensures Consistent(Register(mid, t))
  {
    var end := Register(mid, t);
    forall u, n, m | Owns(end.attrs, u, n) && Owns(end.attrs, u, m) ensures n == m {
      if u != t {
        assert Owns(mid.attrs, u, n) && Owns(mid.attrs, u, m);
      }
    }
  }

  lemma {:induction false} BindAllConsistent(s: State, ts: seq<Type>)
    requires Closed(s.order) && Consistent(s)
    ensures Consistent(BindAll(s, ts))
    decreases ts
  {
    if ts != [] {
      BindConsistent(s, ts[0]);
      BindRegistersLineage(s, ts[0]);
      BindAllConsistent(Bind(s, ts[0]), ts[1..]);
    }
  }

  /** Binding the bases does not register the type itself. */
  lemma FreshAfterBases(s: State, t: Type)
    requires Closed(s.order) && t !in s.order
    ensures t !in BindAll(s, t.bases).order
  {
    BindAllRegistersLineage(s, t.bases);
    NotItsOwnAncestor(t);
    assert t !in Elements(BindAll(s, t.bases).order);
  }

  lemma {:induction false} NoClobberKeepsNames(s: State, t: Type)
    requires Closed(s.order) && WellNamed(s) && Clobbers(s, t) == 0
    ensures Preserved(s.attrs, Bind(s, t).attrs) && WellNamed(Bind(s, t))
    decreases t, 0
  {
    BindConsistent(s, t);
    if t !in s.order {
      var mid, end := BindAll(s, t.bases), Bind(s, t);
      NoClobberKeepsNamesAll(s, t.bases);
      assert PyName(mid, t) !in mid.attrs;
      forall u | u in end.order ensures Reachable(end.attrs, u) {
        if u == t {
          assert Owns(end.attrs, t, PyName(mid, t));
        } else {
          assert u in mid.order;
          var n :| Owns(mid.attrs, u, n);
          assert Owns(end.attrs, u, n);
        }
      }
    }
  }

  lemma {:induction false} NoClobberKeepsNamesAll(s: State, ts: seq<Type>)
    requires Closed(s.order) && WellNamed(s) && ClobbersAll(s, ts) == 0
    ensures Preserved(s.attrs, BindAll(s, ts).attrs) && WellNamed(BindAll(s, ts))
    decreases ts
  {
    if ts != [] {
      NoClobberKeepsNames(s, ts[0]);
      BindRegistersLineage(s, ts[0]);
      NoClobberKeepsNamesAll(Bind(s, ts[0]), ts[1..]);
    }
  }

  /** Distinct reachable types need as many attributes. */
  lemma {:induction false} NamesOf(attrs: map<string, Object>, ts: seq<Type>) returns (names: set<string>)
    requires NoRepeats(ts)
    requires forall t :: t in ts ==> Reachable(attrs, t)
    ensures |names| == |ts| && names <= attrs.Keys
    ensures forall n :: n in names ==> attrs[n].Bound? && attrs[n].t in ts
    decreases |ts|
  {
    if ts == [] {
      names := {};
    } else {
      var rest := NamesOf(attrs, ts[1..]);
      assert ts[0] in ts && forall t :: t in ts[1..] ==> t in ts;
      var n :| Owns(attrs, ts[0], n);
      assert ts[0] !in ts[1..];
      names := rest + {n};
    }
  }

  lemma NoneTwice(earlier: seq<Type>, added: seq<Type>, t: Type)
    requires Topological(earlier + added) && t in added
    ensures t !in earlier
  {
    forall i | 0 <= i < |earlier| ensures earlier[i] != t {
      var j :| 0 <= j < |added| && added[j] == t;
      assert (earlier + added)[i] == earlier[i] && (earlier + added)[|earlier| + j] == t;
    }
  }

  /** If everything old survived and every type is reachable, nothing was clobbered. */
  lemma NamesKeptMeansNoClobber(s: State, ts: seq<Type>)
    requires Closed(s.order) && Topological(s.order) && Consistent(s)
    requires Preserved(s.attrs, BindAll(s, ts).attrs)
    requires forall t :: t in BindAll(s, ts).order ==> Reachable(BindAll(s, ts).attrs, t)
    ensures ClobbersAll(s, ts) == 0
  {
    var end := BindAll(s, ts);
    BindAllRegistersLineage(s, ts);
    BindAllKeepsTopological(s, ts);
    AttributesBalanceAll(s, ts);
    EnoughNames(s, end);
  }

  lemma EnoughNames(s: State, end: State)
    requires s.order <= end.order && Topological(end.order) && Preserved(s.attrs, end.attrs)
    requires forall n :: n in s.attrs && s.attrs[n].Bound? ==> s.attrs[n].t in s.order
    requires forall t :: t in end.order ==> Reachable(end.attrs, t)
    ensures |end.attrs| >= |s.attrs| + (|end.order| - |s.order|)
  {
    var added := end.order[|s.order|..];
    assert end.order == s.order + added;
    forall i, j | 0 <= i < j < |added| ensures added[i] != added[j] {
      assert end.order[|s.order| + i] == added[i] && end.order[|s.order| + j] == added[j];
    }
    var names := NamesOf(end.attrs, added);
    forall n | n in names ensures n !in s.attrs {
      NoneTwice(s.order, added, end.attrs[n].t);
    }
    assert names !! s.attrs.Keys;
    assert |names + s.attrs.Keys| == |names| + |s.attrs.Keys|;
    SubsetSize(names + s.attrs.Keys, end.attrs.Keys);
  }

  /** The module as it is before the first call. */
  ghost predicate Initial(s: State) {
    s.order == [] && forall n :: n in s.attrs ==> s.attrs[n].Other?
  }

  /** The calls leave every attribute they found alone and each registered type
      under exactly one attribute. */
  ghost predicate KeepsNames(s: State, calls: seq<Type>) {
    Preserved(s.attrs, BindAll(s, calls).attrs) && WellNamed(BindAll(s, calls))
  }

  /** Names are kept iff no bind found both names of its type taken; the earlier
      attributes may be those of types bound before. */
  lemma NamesKeptIffNoClobber(s: State, calls: seq<Type>)
    requires Closed(s.order) && Topological(s.order) && WellNamed(s)
    ensures KeepsNames(s, calls) <==> ClobbersAll(s, calls) == 0
  {
    if ClobbersAll(s, calls) == 0 {
      NoClobberKeepsNamesAll(s, calls);
    } else if KeepsNames(s, calls) {
      NamesKeptMeansNoClobber(s, calls);
    }
  }
}
