/** Which types share a module without losing names, whatever is called and in
    whatever order: a condition on the types and the names at the start. */
module NameSafety {
  import opened Common
  import opened Registration
  import opened RegistrationNames

  // ---- Names at risk ----

  /** u can be registered while v is not: v is neither u nor an ancestor of u. */
  predicate CanPrecede(u: Type, v: Type) {
    v !in Lineage(u)
  }

  /** Who takes the plain name of r before r comes displaces t as well: t is r, or t is
      named like the fallback of an ancestor that is displaced with r. */
  ghost predicate DisplacedWith(t: Type, r: Type)
    decreases t
  {
    LineageAllIsSmaller(t, t.bases);
    r == t || exists b :: b in LineageAll(t.bases) && b.qualified == t.plain && DisplacedWith(b, r)
  }

  /** u, or the start of the module if there is no u, can take the plain name of r
      before r comes. */
  ghost predicate Rivals(types: set<Type>, taken: set<string>, r: Type, u: Option<Type>) {
    match u
    case None => r.plain in taken
    case Some(x) => x in types && x.plain == r.plain && CanPrecede(x, r)
  }

  /** What is registered once u is. */
  function Needs(u: Option<Type>): set<Type> {
    if u.Some? then Lineage(u.value) else {}
  }

  /** t falls back if u comes before r. */
  ghost predicate FallsBack(types: set<Type>, taken: set<string>, t: Type, r: Type, u: Option<Type>) {
    DisplacedWith(t, r) && Rivals(types, taken, r, u)
  }

  /** t falls back to the fallback of v, in some order in which v falls back as well and
      comes later: w before q, t before v, and u before r can be had together. */
  ghost predicate SharesFallback(
      types: set<Type>, taken: set<string>, v: Type, r: Type, u: Option<Type>, t: Type, q: Type, w: Option<Type>)
  {
    && t in types && t.qualified == v.qualified && CanPrecede(t, v)
    && FallsBack(types, taken, t, q, w) && v !in Needs(w)
    && !(r in Needs(w) && q in Needs(u))
  }

  /** The fallback of v can be taken before v comes, with u before r: from the start,
      as a plain name, or as the fallback of another type. */
  ghost predicate FallbackContested(types: set<Type>, taken: set<string>, v: Type, r: Type, u: Option<Type>) {
    || v.qualified in taken
    || (exists x :: x in types && CanPrecede(x, v) && x.plain == v.qualified)
    || (exists t, q, w :: SharesFallback(types, taken, v, r, u, t, q, w))
  }

  /** No type can find both of its names taken. */
  ghost predicate SafeNames(types: set<Type>, taken: set<string>) {
    forall v, r, u :: v in types && FallsBack(types, taken, v, r, u) ==> !FallbackContested(types, taken, v, r, u)
  }

  ghost predicate BaseClosed(types: set<Type>) {
    forall t :: t in types ==> Lineage(t) <= types
  }

  /** Whatever is called, and in whatever order, all names are kept. */
  ghost predicate AlwaysKept(s: State, types: set<Type>) {
    forall calls :: Elements(calls) <= types ==> KeepsNames(s, calls)
  }

  // ---- Lineages and orders ----

  lemma {:induction false} LineageIsClosed(a: Type, b: Type, c: Type)
    requires a in Lineage(b) && b in Lineage(c)
    ensures a in Lineage(c)
    decreases c
  {
    if b != c {
      var d := BaseAbove(c.bases, b);
      LineageIsClosed(a, b, d);
      LineageOfBase(c.bases, d, a);
    }
  }

  lemma {:induction false} LineageOfBase(ts: seq<Type>, d: Type, a: Type)
    requires d in ts && a in Lineage(d)
    ensures a in LineageAll(ts)
    decreases |ts|
  {
    if d != ts[0] {
      assert d in ts[1..];
      LineageOfBase(ts[1..], d, a);
    }
  }

  lemma {:induction false} BaseAbove(ts: seq<Type>, a: Type) returns (b: Type)
    requires a in LineageAll(ts)
    ensures b in ts && a in Lineage(b)
    decreases |ts|
  {
    if a in Lineage(ts[0]) {
      b := ts[0];
    } else {
      b := BaseAbove(ts[1..], a);
    }
  }

  /** Whoever is displaced with r descends from r. */
  lemma {:induction false} DisplacedIsBelow(t: Type, r: Type)
    requires DisplacedWith(t, r)
    ensures r in Lineage(t)
    decreases t
  {
    if r != t {
      LineageAllIsSmaller(t, t.bases);
      var b :| b in LineageAll(t.bases) && b.qualified == t.plain && DisplacedWith(b, r);
      DisplacedIsBelow(b, r);
      assert b in Lineage(t);
      LineageIsClosed(r, b, t);
    }
  }

  /** In a topological order every ancestor comes first. */
  lemma {:induction false} AncestorPlace(order: seq<Type>, j: nat, a: Type) returns (i: nat)
    requires Topological(order) && j < |order| && a in Lineage(order[j])
    ensures i <= j && order[i] == a
    decreases j
  {
    if a == order[j] {
      i := j;
    } else {
      var b := BaseAbove(order[j].bases, a);
      assert b in order[..j];
      var k :| 0 <= k < j && order[k] == b;
      i := AncestorPlace(order, k, a);
    }
  }

  lemma EarlierCanPrecede(order: seq<Type>, j: nat, i: nat)
    requires Topological(order) && j < i < |order|
    ensures CanPrecede(order[j], order[i])
  {
    if order[i] in Lineage(order[j]) {
      var k := AncestorPlace(order, j, order[i]);
      assert false;
    }
  }

  // ---- Safe names are kept ----

  /** The k-th type finds its plain name taken by the j-th, or at the start. */
  ghost predicate Forestalled(order: seq<Type>, taken: set<string>, k: nat, j: Option<nat>) {
    k < |order| && match j
      case None => order[k].plain in taken
      case Some(n) => n < k && order[n].plain == order[k].plain
  }

  function TypeAt(order: seq<Type>, j: Option<nat>): Option<Type>
    requires j.Some? ==> j.value < |order|
  {
    if j.Some? then Some(order[j.value]) else None
  }

  lemma ForestalledIsRivalry(order: seq<Type>, types: set<Type>, taken: set<string>, k: nat, j: Option<nat>)
    requires Topological(order) && Elements(order) <= types && Forestalled(order, taken, k, j)
    ensures Rivals(types, taken, order[k], TypeAt(order, j))
  {
    if j.Some? {
      assert order[j.value] in Elements(order);
      EarlierCanPrecede(order, j.value, k);
    }
  }

  /** With safe names a type that falls back is displaced with a namesake's victim. */
  lemma {:induction false} LateIsDisplaced(order: seq<Type>, types: set<Type>, taken: set<string>, i: nat)
    returns (k: nat, j: Option<nat>)
    requires Topological(order) && Elements(order) <= types && SafeNames(types, taken)
    requires i < |order| && Late(order, taken, i)
    ensures k <= i && Forestalled(order, taken, k, j) && DisplacedWith(order[i], order[k])
    decreases i
  {
    k, j := i, None;
    if order[i].plain !in taken {
      TakenIffOccupied(order, taken, i, order[i].plain);
      var n :| 0 <= n < i && Occupies(order, taken, n, order[i].plain);
      if order[n].plain == order[i].plain {
        j := Some(n);
      } else {
        k, j := LateIsDisplaced(order, types, taken, n);
        ForestalledIsRivalry(order, types, taken, k, j);
        PushedByFallback(order, types, taken, i, n, order[k], TypeAt(order, j));
      }
    }
  }

  /** The fallback of the n-th type is the plain name of the later i-th: with safe names
      the former is an ancestor of the latter. */
  lemma PushedByFallback(
      order: seq<Type>, types: set<Type>, taken: set<string>, i: nat, n: nat, r: Type, u: Option<Type>)
    requires Elements(order) <= types && SafeNames(types, taken) && NoRepeats(order)
    requires n < i < |order| && order[n].qualified == order[i].plain && FallsBack(types, taken, order[n], r, u)
    ensures DisplacedWith(order[i], r)
  {
    var x, v := order[n], order[i];
    assert x in Elements(order) && v in Elements(order);
    if CanPrecede(v, x) {
      assert false;
    }
    assert x in LineageAll(v.bases);
  }

  /** Two types that both fall back to one name, each displaced in the same order. */
  lemma TwoFallBacks(
      order: seq<Type>, types: set<Type>, taken: set<string>,
      i: nat, k: nat, j: Option<nat>, i': nat, k': nat, j': Option<nat>)
    requires Topological(order) && Elements(order) <= types && i' < i < |order| && k <= i && k' <= i'
    requires Forestalled(order, taken, k, j) && DisplacedWith(order[i], order[k])
    requires Forestalled(order, taken, k', j') && DisplacedWith(order[i'], order[k'])
    requires order[i'].qualified == order[i].qualified
    ensures
      SharesFallback(types, taken, order[i], order[k], TypeAt(order, j), order[i'], order[k'], TypeAt(order, j'))
  {
    ForestalledIsRivalry(order, types, taken, k', j');
    EarlierCanPrecede(order, i', i);
    assert order[i'] in Elements(order);
    if j'.Some? {
      EarlierCanPrecede(order, j'.value, i);
    }
    if order[k] in Needs(TypeAt(order, j')) && order[k'] in Needs(TypeAt(order, j)) {
      NotBothFirst(order, j.value, k, j'.value, k');
    }
  }

  lemma NotBothFirst(order: seq<Type>, j: nat, k: nat, j': nat, k': nat)
    requires Topological(order) && j < k < |order| && j' < k' < |order|
    ensures !(order[k] in Lineage(order[j']) && order[k'] in Lineage(order[j]))
  {
    if order[k] in Lineage(order[j']) && order[k'] in Lineage(order[j]) {
      var a := AncestorPlace(order, j', order[k]);
      var b := AncestorPlace(order, j, order[k']);
      assert false;
    }
  }

  /** With safe names every type finds a name, in any order. */
  lemma SafeNamesAreFound(order: seq<Type>, types: set<Type>, taken: set<string>, i: nat)
    requires Topological(order) && Elements(order) <= types && SafeNames(types, taken) && i < |order|
    ensures FindsName(order, taken, i)
  {
    if !FindsName(order, taken, i) {
      var v := order[i];
      assert v in Elements(order);
      var k, j := LateIsDisplaced(order, types, taken, i);
      ForestalledIsRivalry(order, types, taken, k, j);
      assert FallsBack(types, taken, v, order[k], TypeAt(order, j));
      TakenIffOccupied(order, taken, i, v.qualified);
      if v.qualified !in taken {
        var n :| 0 <= n < i && Occupies(order, taken, n, v.qualified);
        assert order[n] in Elements(order);
        EarlierCanPrecede(order, n, i);
        if order[n].plain != v.qualified {
          var k', j' := LateIsDisplaced(order, types, taken, n);
          TwoFallBacks(order, types, taken, i, k, j, n, k', j');
        }
      }
      assert false;
    }
  }

  lemma {:induction false} CallsStayInside(ts: seq<Type>, types: set<Type>)
    requires BaseClosed(types) && Elements(ts) <= types
    ensures LineageAll(ts) <= types
    decreases |ts|
  {
    if ts != [] {
      assert ts[0] in Elements(ts);
      assert Elements(ts[1..]) <= Elements(ts);
      CallsStayInside(ts[1..], types);
    }
  }

  lemma SafeNamesAreKept(s: State, types: set<Type>, calls: seq<Type>)
    requires Initial(s) && BaseClosed(types) && SafeNames(types, s.attrs.Keys) && Elements(calls) <= types
    ensures KeepsNames(s, calls)
  {
    var order := BindAll(s, calls).order;
    RunRegisters(s, calls);
    CallsStayInside(calls, types);
    forall i | 0 <= i < |order| ensures FindsName(order, s.attrs.Keys, i) {
      SafeNamesAreFound(order, types, s.attrs.Keys, i);
    }
    KeepsNamesIffAllFind(s, calls);
  }

  // ---- Unsafe names can be lost ----

  lemma {:induction false} LineageAllConcat(xs: seq<Type>, ys: seq<Type>)
    ensures LineageAll(xs + ys) == LineageAll(xs) + LineageAll(ys)
    decreases |xs|
  {
    if xs == [] {
      assert xs + ys == ys;
    } else {
      assert (xs + ys)[1..] == xs[1..] + ys;
      LineageAllConcat(xs[1..], ys);
    }
  }

  lemma LineageOfOne(t: Type)
    ensures LineageAll([t]) == Lineage(t)
  {
    assert [t][1..] == [];
  }

  /** What the first calls register comes before what only later calls register. */
  lemma CalledFirst(s: State, xs: seq<Type>, ys: seq<Type>, a: Type, b: Type) returns (j: nat, k: nat)
    requires s.order == [] && a in LineageAll(xs) && b !in LineageAll(xs) && b in LineageAll(ys)
    ensures
      var order := BindAll(s, xs + ys).order;
      j < k < |order| && order[j] == a && order[k] == b
  {
    var early, order := BindAll(s, xs).order, BindAll(s, xs + ys).order;
    BindAllConcat(s, xs, ys);
    LineageAllConcat(xs, ys);
    RunRegisters(s, xs);
    RunRegisters(s, xs + ys);
    var added := BindAllIsRegistration(BindAll(s, xs), ys);
    assert order == early + added;
    j :| 0 <= j < |early| && early[j] == a;
    assert b in added;
    var n :| 0 <= n < |added| && added[n] == b;
    k := |early| + n;
  }

  /** In such an order whoever is displaced with r comes late. */
  lemma {:induction false} DisplacedIsLate(order: seq<Type>, taken: set<string>, k: nat, i: nat)
    requires Topological(order) && k < |order| && i < |order| && Late(order, taken, k)
    requires DisplacedWith(order[i], order[k])
    ensures Late(order, taken, i)
    decreases i
  {
    var v, r := order[i], order[k];
    if v == r {
      assert i == k;
    } else {
      LineageAllIsSmaller(v, v.bases);
      var b :| b in LineageAll(v.bases) && b.qualified == v.plain && DisplacedWith(b, r);
      assert b in Lineage(v);
      var n := AncestorPlace(order, i, b);
      assert n != i by { NotItsOwnAncestor(v); }
      DisplacedIsLate(order, taken, k, n);
      assert Occupies(order, taken, n, v.plain);
      TakenIffOccupied(order, taken, i, v.plain);
    }
  }

  lemma AncestorsAreCalled(calls: seq<Type>, t: Type, a: Type)
    requires t in LineageAll(calls) && a in Lineage(t)
    ensures a in LineageAll(calls)
  {
    var d := BaseAbove(calls, t);
    LineageIsClosed(a, t, d);
    LineageOfBase(calls, d, a);
  }

  /** In the run of these calls t, if it is registered, finds its plain name taken. */
  ghost predicate ComesLate(s: State, calls: seq<Type>, t: Type) {
    var order := BindAll(s, calls).order;
    forall i :: 0 <= i < |order| && order[i] == t ==> Late(order, s.attrs.Keys, i)
  }

  lemma RivalMakesLate(s: State, types: set<Type>, xs: seq<Type>, ys: seq<Type>, t: Type, r: Type, u: Option<Type>)
    requires Initial(s) && FallsBack(types, s.attrs.Keys, t, r, u) && t in LineageAll(xs + ys)
    requires r !in LineageAll(xs) && (u.Some? ==> u.value in LineageAll(xs))
    ensures ComesLate(s, xs + ys, t)
  {
    var order, taken := BindAll(s, xs + ys).order, s.attrs.Keys;
    RunRegisters(s, xs + ys);
    DisplacedIsBelow(t, r);
    AncestorsAreCalled(xs + ys, t, r);
    LineageAllConcat(xs, ys);
    var k: nat;
    if u.Some? {
      var j;
      j, k := CalledFirst(s, xs, ys, u.value, r);
      assert Occupies(order, taken, j, r.plain);
    } else {
      k :| 0 <= k < |order| && order[k] == r;
    }
    TakenIffOccupied(order, taken, k, r.plain);
    forall i | 0 <= i < |order| && order[i] == t ensures Late(order, taken, i) {
      DisplacedIsLate(order, taken, k, i);
    }
  }

  /** v comes late and x has taken its fallback before. */
  lemma LosesName(s: State, xs: seq<Type>, ys: seq<Type>, x: Type, v: Type)
    requires Initial(s) && ComesLate(s, xs + ys, v)
    requires x in LineageAll(xs) && v !in LineageAll(xs) && v in LineageAll(ys)
    requires x.plain == v.qualified || (x.qualified == v.qualified && ComesLate(s, xs + ys, x))
    ensures !KeepsNames(s, xs + ys)
  {
    var order, taken := BindAll(s, xs + ys).order, s.attrs.Keys;
    var j, i := CalledFirst(s, xs, ys, x, v);
    assert Occupies(order, taken, j, v.qualified);
    TakenIffOccupied(order, taken, i, v.qualified);
    assert !FindsName(order, taken, i);
    KeepsNamesIffAllFind(s, xs + ys);
  }

  function CallsFor(u: Option<Type>): seq<Type> {
    if u.Some? then [u.value] else []
  }

  lemma CallsForNeeds(u: Option<Type>)
    ensures LineageAll(CallsFor(u)) == Needs(u) && (u.Some? ==> u.value in Needs(u))
  {
    if u.Some? { LineageOfOne(u.value); }
  }

  /** What u needs does not include what is displaced with r. */
  lemma RivalNeedsNone(types: set<Type>, taken: set<string>, v: Type, r: Type, u: Option<Type>)
    requires FallsBack(types, taken, v, r, u)
    ensures r !in Needs(u) && v !in Needs(u)
  {
    DisplacedIsBelow(v, r);
    if u.Some? && v in Lineage(u.value) {
      LineageIsClosed(r, v, u.value);
    }
  }

  lemma LostToStart(s: State, types: set<Type>, v: Type, r: Type, u: Option<Type>)
    requires Initial(s) && FallsBack(types, s.attrs.Keys, v, r, u) && v.qualified in s.attrs
    ensures !KeepsNames(s, CallsFor(u) + [v])
  {
    var calls := CallsFor(u) + [v];
    var order, taken := BindAll(s, calls).order, s.attrs.Keys;
    CallsForNeeds(u);
    LineageOfOne(v);
    LineageAllConcat(CallsFor(u), [v]);
    RivalNeedsNone(types, taken, v, r, u);
    RivalMakesLate(s, types, CallsFor(u), [v], v, r, u);
    RunRegisters(s, calls);
    var i :| 0 <= i < |order| && order[i] == v;
    TakenIffOccupied(order, taken, i, v.qualified);
    assert !FindsName(order, taken, i);
    KeepsNamesIffAllFind(s, calls);
  }

  lemma LostToPlain(s: State, types: set<Type>, v: Type, r: Type, u: Option<Type>, x: Type)
    requires Initial(s) && FallsBack(types, s.attrs.Keys, v, r, u) && CanPrecede(x, v) && x.plain == v.qualified
    ensures !KeepsNames(s, CallsFor(u) + [x, v])
  {
    CallsForNeeds(u);
    LineageOfOne(v);
    LineageOfOne(x);
    LineageAllConcat([x], [v]);
    assert [x] + [v] == [x, v];
    LineageAllConcat(CallsFor(u), [x, v]);
    LineageAllConcat(CallsFor(u), [x]);
    RivalNeedsNone(types, s.attrs.Keys, v, r, u);
    RivalMakesLate(s, types, CallsFor(u), [x, v], v, r, u);
    assert CallsFor(u) + [x] + [v] == CallsFor(u) + [x, v];
    LosesName(s, CallsFor(u) + [x], [v], x, v);
  }

  lemma FallbackTaken(s: State, a: seq<Type>, b: seq<Type>, t: Type, v: Type)
    requires Initial(s) && ComesLate(s, a + b + [t, v], v) && ComesLate(s, a + b + [t, v], t)
    requires v !in LineageAll(a) && v !in LineageAll(b) && CanPrecede(t, v) && t.qualified == v.qualified
    ensures !KeepsNames(s, a + b + [t, v])
  {
    LineageOfOne(t);
    LineageOfOne(v);
    LineageAllConcat(a, b);
    LineageAllConcat(a + b, [t]);
    assert a + b + [t] + [v] == a + b + [t, v];
    LosesName(s, a + b + [t], [v], t, v);
  }

  lemma LineageOfTwo(t: Type, v: Type)
    ensures LineageAll([t, v]) == Lineage(t) + Lineage(v)
    ensures t in LineageAll([t, v]) && v in LineageAll([t, v])
  {
    LineageOfOne(t);
    LineageOfOne(v);
    assert [t] + [v] == [t, v];
    LineageAllConcat([t], [v]);
  }

  lemma AllAreCalled(a: seq<Type>, b: seq<Type>, t: Type, v: Type)
    ensures LineageAll(a + b) == LineageAll(a) + LineageAll(b)
    ensures t in LineageAll(a + b + [t, v]) && v in LineageAll(a + b + [t, v])
    ensures a + (b + [t, v]) == a + b + [t, v]
  {
    LineageOfTwo(t, v);
    LineageAllConcat(a, b);
    LineageAllConcat(a + b, [t, v]);
  }

  lemma LostToFallback(
      s: State, types: set<Type>, v: Type, r: Type, u: Option<Type>, t: Type, q: Type, w: Option<Type>)
    returns (calls: seq<Type>)
    requires Initial(s) && FallsBack(types, s.attrs.Keys, v, r, u)
    requires SharesFallback(types, s.attrs.Keys, v, r, u, t, q, w)
    ensures !KeepsNames(s, calls)
    ensures calls == CallsFor(w) + CallsFor(u) + [t, v] || calls == CallsFor(u) + CallsFor(w) + [t, v]
  {
    CallsForNeeds(u);
    CallsForNeeds(w);
    RivalNeedsNone(types, s.attrs.Keys, v, r, u);
    RivalNeedsNone(types, s.attrs.Keys, t, q, w);
    if r !in Needs(w) {
      var a, b := CallsFor(w), CallsFor(u);
      calls := a + b + [t, v];
      AllAreCalled(a, b, t, v);
      RivalMakesLate(s, types, a + b, [t, v], v, r, u);
      RivalMakesLate(s, types, a, b + [t, v], t, q, w);
      FallbackTaken(s, a, b, t, v);
    } else {
      var a, b := CallsFor(u), CallsFor(w);
      calls := a + b + [t, v];
      AllAreCalled(a, b, t, v);
      RivalMakesLate(s, types, a, b + [t, v], v, r, u);
      RivalMakesLate(s, types, a + b, [t, v], t, q, w);
      FallbackTaken(s, a, b, t, v);
    }
  }

  /** Where names are not safe, some list of calls loses one. */
  lemma UnsafeNamesCanBeLost(s: State, types: set<Type>) returns (calls: seq<Type>)
    requires Initial(s) && !SafeNames(types, s.attrs.Keys)
    ensures Elements(calls) <= types && !KeepsNames(s, calls)
  {
    var taken := s.attrs.Keys;
    var v, r, u :| v in types && FallsBack(types, taken, v, r, u) && FallbackContested(types, taken, v, r, u);
    if v.qualified in taken {
      LostToStart(s, types, v, r, u);
      calls := CallsFor(u) + [v];
    } else if x :| x in types && CanPrecede(x, v) && x.plain == v.qualified {
      LostToPlain(s, types, v, r, u, x);
      calls := CallsFor(u) + [x, v];
    } else {
      var t, q, w :| SharesFallback(types, taken, v, r, u, t, q, w);
      calls := LostToFallback(s, types, v, r, u, t, q, w);
    }
  }

  /** All lists of calls keep all names iff no type can find both of its names taken,
      which the types and the names taken at the start decide. */
  lemma AlwaysKeptIffSafe(s: State, types: set<Type>)
    requires Initial(s) && BaseClosed(types)
    ensures AlwaysKept(s, types) <==> SafeNames(types, s.attrs.Keys)
  {
    if SafeNames(types, s.attrs.Keys) {
      forall calls | Elements(calls) <= types ensures KeepsNames(s, calls) {
        SafeNamesAreKept(s, types, calls);
      }
    } else {
      var calls := UnsafeNamesCanBeLost(s, types);
      assert !KeepsNames(s, calls);
    }
  }

  // ---- Namesakes ----

  /** Base-free types of one plain name and one fallback. */
  ghost predicate Namesakes(types: set<Type>) {
    && (forall t :: t in types ==> t.bases == [])
    && (forall t, u :: t in types && u in types ==> t.plain == u.plain && t.qualified == u.qualified != u.plain)
  }

  lemma LeafLineage(t: Type)
    requires t.bases == []
    ensures Lineage(t) == {t} && LineageAll(t.bases) == {}
  {}

  /** For a fallback to be taken there must be a third type. */
  lemma TwoNamesakesAreSafe(types: set<Type>, v: Type, r: Type, u: Option<Type>)
    requires Namesakes(types) && |types| <= 2 && v in types && FallsBack(types, {}, v, r, u)
    ensures !FallbackContested(types, {}, v, r, u)
  {
    if t, q, w :| SharesFallback(types, {}, v, r, u, t, q, w) {
      LeafLineage(t);
      assert q == t && w.Some?;
      LeafLineage(w.value);
      SubsetSize({t, w.value, v}, types);
      assert false;
    }
  }

  lemma ThreeNamesakesAreNot(types: set<Type>, a: Type, b: Type, c: Type)
    requires Namesakes(types) && {a, b, c} <= types && a != b && a != c && b != c
    ensures !SafeNames(types, {})
  {
    LeafLineage(a);
    LeafLineage(b);
    LeafLineage(c);
    assert FallsBack(types, {}, c, c, Some(a));
    assert SharesFallback(types, {}, c, c, Some(a), b, b, Some(a));
    assert FallbackContested(types, {}, c, c, Some(a));
  }

  /** The fallback names only the immediate parent, so it tells two namesakes apart
      and no more: of three, one can take the attribute of another. */
  lemma NamesakesKeptIffTwo(s: State, types: set<Type>)
    requires Initial(s) && s.attrs == map[] && Namesakes(types)
    ensures AlwaysKept(s, types) <==> |types| <= 2
  {
    forall t | t in types ensures Lineage(t) == {t} { LeafLineage(t); }
    AlwaysKeptIffSafe(s, types);
    assert s.attrs.Keys == {};
    if |types| <= 2 {
      forall v, r, u | v in types && FallsBack(types, {}, v, r, u) ensures !FallbackContested(types, {}, v, r, u) {
        TwoNamesakesAreSafe(types, v, r, u);
      }
    } else {
      var a, b, c := ThreeOf(types);
      ThreeNamesakesAreNot(types, a, b, c);
    }
  }

  lemma ThreeOf<T>(s: set<T>) returns (a: T, b: T, c: T)
    requires |s| > 2
    ensures {a, b, c} <= s && a != b && a != c && b != c
  {
    a :| a in s;
    var more := s - {a};
    assert |more| == |s| - 1;
    b :| b in more;
    var rest := more - {b};
    assert |rest| == |s| - 2;
    c :| c in rest;
  }

  lemma BindLeaf(s: State, t: Type)
    requires t.bases == [] && t !in s.order
    ensures Bind(s, t) == Register(s, t)
  {
    assert BindAll(s, t.bases) == s;
  }

  /** What it comes to: the second of three loses its attribute to the third. */
  lemma ThirdNamesakeClobbers(a: Type, b: Type, c: Type)
    requires a != b && a != c && b != c && a.bases == b.bases == c.bases == []
    requires a.plain == b.plain == c.plain && a.qualified == b.qualified == c.qualified != a.plain
    ensures
      var end := BindAll(State([], map[]), [a, b, c]);
      && end.order == [a, b, c]
      && end.attrs == map[a.plain := Bound(a), a.qualified := Bound(c)]
      && !Reachable(end.attrs, b)
  {
    var s0 := State([], map[]);
    assert [a, b, c][1..] == [b, c] && [b, c][1..] == [c] && [c][1..] == [];
    var s1 := Register(s0, a);
    var s2 := Register(s1, b);
    var s3 := Register(s2, c);
    BindLeaf(s0, a);
    BindLeaf(s1, b);
    BindLeaf(s2, c);
    assert s1.order == [a] && s1.attrs == map[a.plain := Bound(a)];
    assert s2.order == [a, b] && s2.attrs == map[a.plain := Bound(a), a.qualified := Bound(b)];
    assert s3.order == [a, b, c] && s3.attrs == map[a.plain := Bound(a), a.qualified := Bound(c)];
    assert BindAll(s2, [c]) == BindAll(s3, []) == s3;
    assert BindAll(s1, [b, c]) == s3;
  }
}
