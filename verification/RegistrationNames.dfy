/** Which runs of a generated module keep all names: the registration order decides. */
module RegistrationNames {
  import opened Common
  import opened Registration

  // ---- The module is a matter of the registration order ----

  function RegisterAll(s: State, ts: seq<Type>): State
    decreases |ts|
  {
    if ts == [] then s else Register(RegisterAll(s, ts[..|ts| - 1]), ts[|ts| - 1])
  }

  lemma {:induction false} RegisterAllConcat(s: State, xs: seq<Type>, ys: seq<Type>)
    ensures RegisterAll(RegisterAll(s, xs), ys) == RegisterAll(s, xs + ys)
    decreases |ys|
  {
    if ys == [] {
      assert xs + ys == xs;
    } else {
      assert (xs + ys)[..|xs + ys| - 1] == xs + ys[..|ys| - 1];
      RegisterAllConcat(s, xs, ys[..|ys| - 1]);
    }
  }

  lemma RegistrationJoins(s: State, mid: State, end: State, first: seq<Type>, rest: seq<Type>)
    requires mid.order == s.order + first && mid == RegisterAll(s, first)
    requires end.order == mid.order + rest && end == RegisterAll(mid, rest)
    ensures end.order == s.order + (first + rest) && end == RegisterAll(s, first + rest)
  {
    RegisterAllConcat(s, first, rest);
    assert s.order + first + rest == s.order + (first + rest);
  }

  lemma {:induction false} BindIsRegistration(s: State, t: Type) returns (added: seq<Type>)
    ensures Bind(s, t).order == s.order + added && Bind(s, t) == RegisterAll(s, added)
    decreases t, 0
  {
    added := [];
    if t !in s.order {
      var above := BindAllIsRegistration(s, t.bases);
      added := above + [t];
      assert added[..|above|] == above;
    }
  }

  /** Whatever the calls, the attributes come from registering in the final order. */
  lemma {:induction false} BindAllIsRegistration(s: State, ts: seq<Type>) returns (added: seq<Type>)
    ensures BindAll(s, ts).order == s.order + added && BindAll(s, ts) == RegisterAll(s, added)
    decreases ts
  {
    added := [];
    if ts != [] {
      var first := BindIsRegistration(s, ts[0]);
      var rest := BindAllIsRegistration(Bind(s, ts[0]), ts[1..]);
      RegistrationJoins(s, Bind(s, ts[0]), BindAll(s, ts), first, rest);
      added := first + rest;
    }
  }

  // ---- The first binder ----

  /** No earlier type has the plain name of the i-th. */
  ghost predicate FirstOfItsName(order: seq<Type>, i: nat) {
    i < |order| && forall j :: 0 <= j < i ==> order[j].plain != order[i].plain
  }

  /** While types are registered in turn, a plain name is free until its first binder
      comes and belongs to that binder ever after. */
  lemma {:induction false} PlainNameHistory(s: State, order: seq<Type>, i: nat, k: nat)
    requires FirstOfItsName(order, i) && k <= |order| && order[i].plain !in s.attrs
    requires forall t :: t in order ==> t.qualified != order[i].plain
    ensures
      var attrs := RegisterAll(s, order[..k]).attrs;
      if k <= i then order[i].plain !in attrs else Owns(attrs, order[i], order[i].plain)
    decreases k
  {
    if k > 0 {
      PlainNameHistory(s, order, i, k - 1);
      assert order[..k][..k - 1] == order[..k - 1];
    }
  }

  /** A run registers exactly what is called and its ancestors, bases first. */
  lemma RunRegisters(s: State, calls: seq<Type>)
    requires s.order == []
    ensures
      var order := BindAll(s, calls).order;
      Topological(order) && forall t :: t in order <==> t in LineageAll(calls)
  {
    BindAllRegistersLineage(s, calls);
    BindAllKeepsTopological(s, calls);
    forall t ensures t in BindAll(s, calls).order <==> t in Elements(BindAll(s, calls).order) {}
  }

  /** The first binder of a plain name that was free keeps it to the end of the run,
      if that name is nobody's fallback. */
  lemma FirstBinderKeepsPlainName(s: State, calls: seq<Type>, i: nat)
    requires s.order == [] && FirstOfItsName(BindAll(s, calls).order, i)
    requires BindAll(s, calls).order[i].plain !in s.attrs
    requires forall t :: t in LineageAll(calls) ==> t.qualified != BindAll(s, calls).order[i].plain
    ensures
      var end := BindAll(s, calls);
      Owns(end.attrs, end.order[i], end.order[i].plain)
  {
    var order := BindAllIsRegistration(s, calls);
    assert BindAll(s, calls).order == order == order[..|order|];
    RunRegisters(s, calls);
    PlainNameHistory(s, order, i, |order|);
  }

  lemma {:induction false} BindKeepsOwner(s: State, t: Type, u: Type)
    requires Owns(s.attrs, u, u.plain) && forall x :: x in Lineage(t) ==> x.qualified != u.plain
    ensures Owns(Bind(s, t).attrs, u, u.plain)
    decreases t, 0
  {
    if t !in s.order {
      OwnerKeepsPlainName(s, t.bases, u);
      assert t in Lineage(t);
    }
  }

  /** An owner of its plain name keeps it through any further calls for types that
      do not fall back to that name. */
  lemma {:induction false} OwnerKeepsPlainName(s: State, ts: seq<Type>, u: Type)
    requires Owns(s.attrs, u, u.plain) && forall x :: x in LineageAll(ts) ==> x.qualified != u.plain
    ensures Owns(BindAll(s, ts).attrs, u, u.plain)
    decreases ts
  {
    if ts != [] {
      BindKeepsOwner(s, ts[0], u);
      OwnerKeepsPlainName(Bind(s, ts[0]), ts[1..], u);
    }
  }

  // ---- The names of one run ----

  /** The names taken before the i-th type: those from the start, the plain names of
      the earlier types, and the fallbacks of those that found their plain name taken. */
  function TakenNames(order: seq<Type>, taken: set<string>, i: nat): set<string>
    requires i <= |order|
  {
    if i == 0 then taken
    else
      var before, t := TakenNames(order, taken, i - 1), order[i - 1];
      before + (if t.plain in before then {t.qualified} else {t.plain})
  }

  /** The i-th type finds its plain name taken. */
  predicate Late(order: seq<Type>, taken: set<string>, i: nat)
    requires i < |order|
  {
    order[i].plain in TakenNames(order, taken, i)
  }

  /** The attribute that the i-th type gets. */
  function NameAt(order: seq<Type>, taken: set<string>, i: nat): string
    requires i < |order|
  {
    if Late(order, taken, i) then order[i].qualified else order[i].plain
  }

  /** If it comes late, the i-th type finds its fallback free. */
  predicate FindsName(order: seq<Type>, taken: set<string>, i: nat)
    requires i < |order|
  {
    Late(order, taken, i) ==> order[i].qualified !in TakenNames(order, taken, i)
  }

  /** The name is the plain name of the j-th type, or its fallback if it came late. */
  predicate Occupies(order: seq<Type>, taken: set<string>, j: nat, name: string)
    requires j < |order|
  {
    order[j].plain == name || (Late(order, taken, j) && order[j].qualified == name)
  }

  lemma {:induction false} TakenIffOccupied(order: seq<Type>, taken: set<string>, i: nat, name: string)
    requires i <= |order|
    ensures name in TakenNames(order, taken, i) <==>
      name in taken || exists j :: 0 <= j < i && Occupies(order, taken, j, name)
    decreases i
  {
    if i > 0 {
      TakenIffOccupied(order, taken, i - 1, name);
      assert name in TakenNames(order, taken, i) <==>
        name in TakenNames(order, taken, i - 1) || Occupies(order, taken, i - 1, name);
    }
  }

  lemma RegisterNext(s: State, order: seq<Type>, k: nat)
    requires k < |order|
    ensures RegisterAll(s, order[..k + 1]) == Register(RegisterAll(s, order[..k]), order[k])
  {
    assert order[..k + 1][..k] == order[..k];
  }

  lemma {:induction false} NamesSoFar(s: State, order: seq<Type>, k: nat)
    requires k <= |order|
    ensures RegisterAll(s, order[..k]).attrs.Keys == TakenNames(order, s.attrs.Keys, k)
    decreases k
  {
    if k == 0 {
      assert order[..0] == [];
    } else {
      NamesSoFar(s, order, k - 1);
      RegisterNext(s, order, k - 1);
    }
  }

  /** Every registration adds an attribute, but for the types that find no name. */
  lemma {:induction false} SizeOfRun(order: seq<Type>, taken: set<string>, k: nat)
    requires k <= |order|
    ensures |TakenNames(order, taken, k)| <= |taken| + k
    ensures |TakenNames(order, taken, k)| == |taken| + k <==> forall i :: 0 <= i < k ==> FindsName(order, taken, i)
    decreases k
  {
    if k > 0 {
      SizeOfRun(order, taken, k - 1);
      var before := TakenNames(order, taken, k - 1);
      var name := NameAt(order, taken, k - 1);
      assert TakenNames(order, taken, k) == before + {name};
      assert name !in before <==> FindsName(order, taken, k - 1);
      assert |before + {name}| == |before| + (if name in before then 0 else 1) by {
        if name in before { assert before + {name} == before; }
      }
    }
  }

  lemma NamesOfRun(s: State, calls: seq<Type>)
    requires s.order == []
    ensures
      var end := BindAll(s, calls);
      end.attrs.Keys == TakenNames(end.order, s.attrs.Keys, |end.order|)
  {
    var order := BindAllIsRegistration(s, calls);
    assert BindAll(s, calls).order == order == order[..|order|];
    NamesSoFar(s, order, |order|);
  }

  /** A run keeps all names iff every type that comes late finds its fallback free,
      which the registration order decides. */
  lemma KeepsNamesIffAllFind(s: State, calls: seq<Type>)
    requires Initial(s)
    ensures
      var order := BindAll(s, calls).order;
      KeepsNames(s, calls) <==> forall i :: 0 <= i < |order| ==> FindsName(order, s.attrs.Keys, i)
  {
    var end := BindAll(s, calls);
    NamesOfRun(s, calls);
    SizeOfRun(end.order, s.attrs.Keys, |end.order|);
    assert |end.attrs| == |end.attrs.Keys| && |s.attrs| == |s.attrs.Keys|;
    AttributesBalanceAll(s, calls);
    NamesKeptIffNoClobber(s, calls);
  }

  lemma {:induction false} LayoutSoFar(s: State, order: seq<Type>, k: nat, i: nat)
    requires i < k <= |order| && forall j :: 0 <= j < k ==> FindsName(order, s.attrs.Keys, j)
    ensures Owns(RegisterAll(s, order[..k]).attrs, order[i], NameAt(order, s.attrs.Keys, i))
    decreases k
  {
    NamesSoFar(s, order, k - 1);
    RegisterNext(s, order, k - 1);
    assert FindsName(order, s.attrs.Keys, k - 1);
    if i < k - 1 {
      LayoutSoFar(s, order, k - 1, i);
    }
  }

  /** Then the final attributes can be read off the order: each type has its plain
      name, or its fallback if it came late. */
  lemma KeptNamesLayOut(s: State, calls: seq<Type>, i: nat)
    requires Initial(s) && KeepsNames(s, calls) && i < |BindAll(s, calls).order|
    ensures
      var end := BindAll(s, calls);
      Owns(end.attrs, end.order[i], NameAt(end.order, s.attrs.Keys, i))
  {
    KeepsNamesIffAllFind(s, calls);
    var order := BindAllIsRegistration(s, calls);
    assert BindAll(s, calls).order == order == order[..|order|];
    LayoutSoFar(s, order, |order|, i);
  }

  // ---- ... when no fallback is a plain name ----

  ghost predicate FallbacksApart(order: seq<Type>) {
    forall t, u :: t in order && u in order ==> t.qualified != u.plain
  }

  /** The i-th type has the plain name of an earlier one, or one taken at the start. */
  predicate LateNamesake(order: seq<Type>, taken: set<string>, i: nat)
    requires i < |order|
  {
    order[i].plain in taken || exists j :: 0 <= j < i && order[j].plain == order[i].plain
  }

  lemma LateMeansNamesake(order: seq<Type>, taken: set<string>, i: nat)
    requires i < |order| && FallbacksApart(order)
    ensures Late(order, taken, i) <==> LateNamesake(order, taken, i)
  {
    TakenIffOccupied(order, taken, i, order[i].plain);
    forall j | 0 <= j < i ensures Occupies(order, taken, j, order[i].plain) <==> order[j].plain == order[i].plain {
      assert order[j] in order && order[i] in order;
    }
  }

  /** The late namesakes have different fallbacks, and none that is taken at the start. */
  ghost predicate FallbacksDiffer(order: seq<Type>, taken: set<string>) {
    && (forall i :: 0 <= i < |order| && LateNamesake(order, taken, i) ==> order[i].qualified !in taken)
    && (forall i, j :: 0 <= j < i < |order| && LateNamesake(order, taken, i) && LateNamesake(order, taken, j) ==>
          order[i].qualified != order[j].qualified)
  }

  lemma FindsIffFallbackIsNew(order: seq<Type>, taken: set<string>, i: nat)
    requires i < |order| && FallbacksApart(order)
    ensures FindsName(order, taken, i) <==>
      (LateNamesake(order, taken, i) ==>
         && order[i].qualified !in taken
         && forall j :: 0 <= j < i && LateNamesake(order, taken, j) ==> order[i].qualified != order[j].qualified)
  {
    LateMeansNamesake(order, taken, i);
    TakenIffOccupied(order, taken, i, order[i].qualified);
    forall j | 0 <= j < i
      ensures Occupies(order, taken, j, order[i].qualified) <==>
        LateNamesake(order, taken, j) && order[j].qualified == order[i].qualified
    {
      LateMeansNamesake(order, taken, j);
      assert order[j] in order && order[i] in order;
    }
  }

  /** A run keeps all names iff its late namesakes have different fallbacks. */
  lemma KeepsNamesIffFallbacksDiffer(s: State, calls: seq<Type>)
    requires Initial(s) && FallbacksApart(BindAll(s, calls).order)
    ensures KeepsNames(s, calls) <==> FallbacksDiffer(BindAll(s, calls).order, s.attrs.Keys)
  {
    var order := BindAll(s, calls).order;
    KeepsNamesIffAllFind(s, calls);
    forall i | 0 <= i < |order|
      ensures FindsName(order, s.attrs.Keys, i) <==>
        (LateNamesake(order, s.attrs.Keys, i) ==>
           && order[i].qualified !in s.attrs.Keys
           && forall j :: 0 <= j < i && LateNamesake(order, s.attrs.Keys, j) ==>
                order[i].qualified != order[j].qualified)
    {
      FindsIffFallbackIsNew(order, s.attrs.Keys, i);
    }
  }

  // ---- Stages of one run ----

  lemma {:induction false} ClobbersAllConcat(s: State, xs: seq<Type>, ys: seq<Type>)
    ensures ClobbersAll(s, xs + ys) == ClobbersAll(s, xs) + ClobbersAll(BindAll(s, xs), ys)
    decreases |xs|
  {
    if xs == [] {
      assert xs + ys == ys;
    } else {
      assert (xs + ys)[1..] == xs[1..] + ys;
      ClobbersAllConcat(Bind(s, xs[0]), xs[1..], ys);
    }
  }

  /** t has one attribute, the same before and after. */
  ghost predicate OneNameThroughout(before: State, after: State, t: Type) {
    exists n :: Owns(before.attrs, t, n) && Owns(after.attrs, t, n) && forall m :: Owns(after.attrs, t, m) ==> m == n
  }

  /** In a run that keeps all names no later call ever changes an attribute, and each
      registered type owns exactly one from then on. */
  lemma KeptNamesAreForever(s: State, xs: seq<Type>, ys: seq<Type>)
    requires Initial(s) && KeepsNames(s, xs + ys)
    ensures
      var (mid, end) := (BindAll(s, xs), BindAll(s, xs + ys));
      Preserved(mid.attrs, end.attrs) && forall t :: t in mid.order ==> OneNameThroughout(mid, end, t)
  {
    var mid := BindAll(s, xs);
    BindAllConcat(s, xs, ys);
    ClobbersAllConcat(s, xs, ys);
    NamesKeptIffNoClobber(s, xs + ys);
    NamesKeptIffNoClobber(s, xs);
    BindAllRegistersLineage(s, xs);
    BindAllKeepsTopological(s, xs);
    NamesKeptIffNoClobber(mid, ys);
    forall t | t in mid.order ensures OneNameThroughout(mid, BindAll(s, xs + ys), t) {
      var n :| Owns(mid.attrs, t, n);
      assert Owns(BindAll(s, xs + ys).attrs, t, n);
    }
  }
}
