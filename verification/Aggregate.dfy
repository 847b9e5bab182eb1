/** The roll-up of all runs: counts by outcome and tier, and the toolchain bugs
    grouped and ranked. */
module Aggregate {
  import opened Common

  /** The status field of a recorded bug: not there, a JSON null, or a text. */
  datatype BugStatus = Missing | Null | Text(s: string)

  /** A recorded bug; of the other fields a missing one, a null and an empty text are alike. */
  datatype Bug = Bug(status: BugStatus, finding: string, signature: string, kind: string)

  datatype Run = Run(slug: string, tier: Option<int>, outcome: string, bug: Option<Bug>)

  const CODES: seq<string> := ["E", "E-weak", "D", "C", "B", "A"]

  type Counter = map<string, nat>

  /** A Python counter answers 0 for what it has not seen. */
  function At(c: Counter, o: string): nat {
    if o in c then c[o] else 0
  }

  function Outcomes(runs: seq<Run>): (r: seq<string>)
    ensures |r| == |runs| && forall i :: 0 <= i < |r| ==> r[i] == runs[i].outcome
  {
    seq(|runs|, i requires 0 <= i < |runs| => runs[i].outcome)
  }

  function OfTier(runs: seq<Run>, t: Option<int>): seq<Run> {
    if runs == [] then []
    else
      var (before, last) := (OfTier(runs[..|runs| - 1], t), runs[|runs| - 1]);
      if last.tier == t then before + [last] else before
  }

  /** How often an outcome occurs. */
  function Count(runs: seq<Run>, o: string): nat {
    multiset(Outcomes(runs))[o]
  }

  lemma OneMore(runs: seq<Run>, r: Run)
    ensures Outcomes(runs + [r]) == Outcomes(runs) + [r.outcome]
    ensures forall o :: Count(runs + [r], o) == Count(runs, o) + (if o == r.outcome then 1 else 0)
    ensures forall t :: OfTier(runs + [r], t) == if r.tier == t then OfTier(runs, t) + [r] else OfTier(runs, t)
  {
    assert Outcomes(runs + [r]) == Outcomes(runs) + [r.outcome];
    assert (runs + [r])[..|runs|] == runs;
  }

  ghost predicate Counts(c: Counter, runs: seq<Run>) {
    forall o :: At(c, o) == Count(runs, o)
  }

  /** A tier has a counter iff some run is of that tier, and it counts those runs. */
  ghost predicate CountsByTier(byTier: map<Option<int>, Counter>, runs: seq<Run>) {
    forall t :: CountsTier(byTier, runs, t)
  }

  function Increment(c: Counter, o: string): Counter {
    c[o := At(c, o) + 1]
  }

  lemma IncrementCounts(c: Counter, runs: seq<Run>, r: Run)
    requires Counts(c, runs)
    ensures Counts(Increment(c, r.outcome), runs + [r])
  {
    OneMore(runs, r);
  }

  ghost predicate CountsTier(byTier: map<Option<int>, Counter>, runs: seq<Run>, t: Option<int>) {
    (t in byTier <==> OfTier(runs, t) != []) && (t in byTier ==> Counts(byTier[t], OfTier(runs, t)))
  }

  lemma TierStep(byTier: map<Option<int>, Counter>, runs: seq<Run>, r: Run)
    requires CountsByTier(byTier, runs)
    ensures
      var c := if r.tier in byTier then byTier[r.tier] else map[];
      CountsByTier(byTier[r.tier := Increment(c, r.outcome)], runs + [r])
  {
    var c := if r.tier in byTier then byTier[r.tier] else map[];
    var more := byTier[r.tier := Increment(c, r.outcome)];
    assert CountsTier(byTier, runs, r.tier);
    assert Counts(c, OfTier(runs, r.tier));
    IncrementCounts(c, OfTier(runs, r.tier), r);
    OneMore(runs, r);
    forall t ensures CountsTier(more, runs + [r], t) {
      assert CountsTier(byTier, runs, t);
    }
  }

  method Tally(runs: seq<Run>) returns (overall: Counter, byTier: map<Option<int>, Counter>)
    ensures Counts(overall, runs) && CountsByTier(byTier, runs)
  {
    overall, byTier := map[], map[];
    for i := 0 to |runs|
      invariant Counts(overall, runs[..i]) && CountsByTier(byTier, runs[..i])
    {
      var r := runs[i];
      assert runs[..i + 1] == runs[..i] + [r];
      TierStep(byTier, runs[..i], r);
      IncrementCounts(overall, runs[..i], r);
      var c := if r.tier in byTier then byTier[r.tier] else map[];
      byTier := byTier[r.tier := Increment(c, r.outcome)];
      overall := Increment(overall, r.outcome);
    }
    assert runs[..|runs|] == runs;
  }

  // ---- Counting by labels ----

  /** The occurrences of all the keys together. */
  function Total<K(==)>(labels: seq<K>, keys: seq<K>): nat {
    if keys == [] then 0 else multiset(labels)[keys[0]] + Total(labels, keys[1..])
  }

  lemma {:induction false} TotalGrows<K>(labels: seq<K>, l: K, keys: seq<K>)
    requires NoRepeats(keys)
    ensures Total(labels + [l], keys) == Total(labels, keys) + (if l in keys then 1 else 0)
    decreases |keys|
  {
    if keys != [] {
      TotalGrows(labels, l, keys[1..]);
      assert keys == [keys[0]] + keys[1..];
    }
  }

  /** Distinct keys account for every label iff every label is a key. */
  lemma {:induction false} TotalIsSizeIff<K>(labels: seq<K>, keys: seq<K>)
    requires NoRepeats(keys)
    ensures Total(labels, keys) <= |labels|
    ensures Total(labels, keys) == |labels| <==> forall l :: l in labels ==> l in keys
    decreases |labels|
  {
    if labels == [] {
      TotalOfNothing(labels, keys);
    } else {
      var front, last := labels[..|labels| - 1], labels[|labels| - 1];
      assert labels == front + [last];
      TotalIsSizeIff(front, keys);
      TotalGrows(front, last, keys);
    }
  }

  lemma {:induction false} TotalOfNothing<K>(labels: seq<K>, keys: seq<K>)
    requires labels == []
    ensures Total(labels, keys) == 0
    decreases |keys|
  {
    if keys != [] { TotalOfNothing(labels, keys[1..]); }
  }

  /** The six printed counts add up to the number of runs iff every outcome is one
      of the six codes. */
  lemma PrintedCountsCompleteIff(runs: seq<Run>)
    ensures Total(Outcomes(runs), CODES) == |runs| <==> forall i :: 0 <= i < |runs| ==> runs[i].outcome in CODES
  {
    assert NoRepeats(CODES) by { CodesDiffer(); }
    TotalIsSizeIff(Outcomes(runs), CODES);
    assert forall i :: 0 <= i < |runs| ==> Outcomes(runs)[i] == runs[i].outcome;
    forall i | 0 <= i < |runs| ensures runs[i].outcome in Outcomes(runs) {
      assert Outcomes(runs)[i] == runs[i].outcome;
    }
  }

  lemma CodesDiffer()
    ensures NoRepeats(CODES)
  {
    assert |CODES[1]| == 6 && forall i :: 0 <= i < 6 && i != 1 ==> |CODES[i]| == 1;
    assert CODES[0][0] == 'E' && CODES[2][0] == 'D' && CODES[3][0] == 'C' && CODES[4][0] == 'B' && CODES[5][0] == 'A';
  }

  function SumOver<K>(f: K -> nat, keys: seq<K>): nat {
    if keys == [] then 0 else f(keys[0]) + SumOver(f, keys[1..])
  }

  lemma {:induction false} SumGains<K>(f: K -> nat, g: K -> nat, keys: seq<K>, at: K, gain: nat)
    requires NoRepeats(keys) && forall k :: k in keys ==> g(k) == f(k) + (if k == at then gain else 0)
    ensures SumOver(g, keys) == SumOver(f, keys) + (if at in keys then gain else 0)
    decreases |keys|
  {
    if keys != [] {
      assert keys == [keys[0]] + keys[1..];
      SumGains(f, g, keys[1..], at, gain);
    }
  }

  /** How often an outcome occurs in each tier. */
  function TierCount(runs: seq<Run>, o: string): Option<int> -> nat {
    t => Count(OfTier(runs, t), o)
  }

  lemma TierGain(runs: seq<Run>, r: Run, t: Option<int>, o: string)
    ensures TierCount(runs + [r], o)(t) ==
      TierCount(runs, o)(t) + (if t == r.tier then (if r.outcome == o then 1 else 0) else 0)
  {
    OneMore(runs, r);
    OneMore(OfTier(runs, t), r);
  }

  lemma TiersGain(runs: seq<Run>, r: Run, tiers: seq<Option<int>>, o: string)
    requires NoRepeats(tiers) && r.tier in tiers
    ensures SumOver(TierCount(runs + [r], o), tiers) ==
      SumOver(TierCount(runs, o), tiers) + (if r.outcome == o then 1 else 0)
  {
    forall t ensures TierCount(runs + [r], o)(t) ==
      TierCount(runs, o)(t) + (if t == r.tier then (if r.outcome == o then 1 else 0) else 0)
    {
      TierGain(runs, r, t, o);
    }
    SumGains(TierCount(runs, o), TierCount(runs + [r], o), tiers, r.tier, if r.outcome == o then 1 else 0);
  }

  /** Per-tier counts add up to the overall count, for every outcome. */
  lemma {:induction false} TiersAddUp(runs: seq<Run>, tiers: seq<Option<int>>, o: string)
    requires NoRepeats(tiers) && forall i :: 0 <= i < |runs| ==> runs[i].tier in tiers
    ensures SumOver(TierCount(runs, o), tiers) == Count(runs, o)
    decreases |runs|
  {
    if runs == [] {
      NoRunsNoCounts(runs, tiers, o);
    } else {
      var front, last := runs[..|runs| - 1], runs[|runs| - 1];
      assert runs == front + [last];
      TiersAddUp(front, tiers, o);
      TiersGain(front, last, tiers, o);
      OneMore(front, last);
    }
  }

  lemma {:induction false} NoRunsNoCounts(runs: seq<Run>, tiers: seq<Option<int>>, o: string)
    requires runs == []
    ensures SumOver(TierCount(runs, o), tiers) == 0 == Count(runs, o)
    decreases |tiers|
  {
    if tiers != [] { NoRunsNoCounts(runs, tiers[1..], o); }
  }

  // ---- Toolchain bugs ----

  /** A missing status reads as "none"; a null does not. */
  predicate Affected(r: Run) {
    r.bug.Some? && r.bug.value.status != Missing && r.bug.value.status != Text("none")
  }

  /** Finding, else signature, else kind, else "unknown". */
  function BugKey(r: Run): string
    requires Affected(r)
  {
    var b := r.bug.value;
    if b.finding != "" then b.finding else if b.signature != "" then b.signature
    else if b.kind != "" then b.kind else "unknown"
  }

  /** A run is affected iff its bug has a status, be it null, other than "none". */
  lemma AffectedIff(r: Run)
    ensures Affected(r) <==>
      exists b :: r.bug == Some(b) && (b.status == Null || exists s :: b.status == Text(s) && s != "none")
  {
    if Affected(r) && r.bug.value.status.Text? {
      assert r.bug.value.status == Text(r.bug.value.status.s);
    }
  }

  /** Two affected runs fall into one group if they name one finding; without findings
      if they show one signature; without either if they are of one kind, or of none. */
  lemma GroupedAlike(r: Run, q: Run)
    requires Affected(r) && Affected(q)
    ensures
      var (b, c) := (r.bug.value, q.bug.value);
      && (b.finding != "" && c.finding != "" ==> (BugKey(r) == BugKey(q) <==> b.finding == c.finding))
      && (b.finding == c.finding == "" && b.signature != "" && c.signature != "" ==>
            (BugKey(r) == BugKey(q) <==> b.signature == c.signature))
      && (b.finding == c.finding == b.signature == c.signature == "" && b.kind != "" && c.kind != "" ==>
            (BugKey(r) == BugKey(q) <==> b.kind == c.kind))
      && (b.finding == b.signature == b.kind == "" ==> BugKey(r) == "unknown")
  {}

  /** A dict in insertion order. */
  datatype Group = Group(key: string, hits: seq<string>)

  /** The keys of the affected runs, in order. */
  function BugKeys(runs: seq<Run>): seq<string> {
    if runs == [] then []
    else
      var (before, last) := (BugKeys(runs[..|runs| - 1]), runs[|runs| - 1]);
      if Affected(last) then before + [BugKey(last)] else before
  }

  /** The affected runs of one key, in order. */
  function HitsOf(runs: seq<Run>, key: string): seq<string> {
    if runs == [] then []
    else
      var (before, last) := (HitsOf(runs[..|runs| - 1], key), runs[|runs| - 1]);
      if Affected(last) && BugKey(last) == key then before + [last.slug] else before
  }

  /** Hits are listed run by run. */
  lemma {:induction false} HitsConcat(xs: seq<Run>, ys: seq<Run>, key: string)
    ensures HitsOf(xs + ys, key) == HitsOf(xs, key) + HitsOf(ys, key)
    ensures BugKeys(xs + ys) == BugKeys(xs) + BugKeys(ys)
    decreases |ys|
  {
    if ys == [] {
      assert xs + ys == xs;
    } else {
      assert (xs + ys)[..|xs + ys| - 1] == xs + ys[..|ys| - 1];
      HitsConcat(xs, ys[..|ys| - 1], key);
    }
  }

  function KeysOf(groups: seq<Group>): (ks: seq<string>)
    ensures |ks| == |groups| && forall i :: 0 <= i < |ks| ==> ks[i] == groups[i].key
  {
    seq(|groups|, i requires 0 <= i < |groups| => groups[i].key)
  }

  /** Each key that occurs has one group, which holds exactly its runs; the groups
      stand in the order in which their keys first occur. */
  ghost predicate Grouped(runs: seq<Run>, groups: seq<Group>) {
    && KeysOf(groups) == Distinct(BugKeys(runs))
    && (forall i :: 0 <= i < |groups| ==> groups[i].hits == HitsOf(runs, groups[i].key))
  }

  lemma GroupedKeys(runs: seq<Run>, groups: seq<Group>)
    requires Grouped(runs, groups)
    ensures NoRepeats(KeysOf(groups)) && forall k :: k in KeysOf(groups) <==> k in BugKeys(runs)
  {
    DistinctHasAll(BugKeys(runs));
  }

  method GroupBugs(runs: seq<Run>) returns (groups: seq<Group>)
    ensures Grouped(runs, groups)
  {
    groups := [];
    for n := 0 to |runs|
      invariant Grouped(runs[..n], groups)
    {
      assert runs[..n + 1] == runs[..n] + [runs[n]];
      groups := AddRun(runs[..n], groups, runs[n]);
    }
    assert runs[..|runs|] == runs;
  }

  /** One round of the loop over the runs. */
  method AddRun(ghost runs: seq<Run>, groups: seq<Group>, r: Run) returns (more: seq<Group>)
    requires Grouped(runs, groups)
    ensures Grouped(runs + [r], more)
  {
    assert (runs + [r])[..|runs|] == runs;
    more := groups;
    if Affected(r) {
      more := AddHit(runs, groups, r);
    }
  }

  /** `groups[key].append(...)` on a dict that starts each key with an empty list. */
  method AddHit(ghost runs: seq<Run>, groups: seq<Group>, r: Run) returns (more: seq<Group>)
    requires Grouped(runs, groups) && Affected(r)
    ensures Grouped(runs + [r], more)
  {
    var key := BugKey(r);
    ghost var all := runs + [r];
    assert all[..|runs|] == runs;
    GroupedKeys(runs, groups);
    assert BugKeys(all)[..|BugKeys(runs)|] == BugKeys(runs);
    var i := 0;
    while i < |groups| && groups[i].key != key
      invariant i <= |groups| && forall j :: 0 <= j < i ==> groups[j].key != key
    {
      i := i + 1;
    }
    if i < |groups| {
      more := groups[i := Group(key, groups[i].hits + [r.slug])];
      assert KeysOf(more) == KeysOf(groups);
      assert KeysOf(groups)[i] == key;
    } else {
      more := groups + [Group(key, [r.slug])];
      assert key !in KeysOf(groups);
      NoHits(runs, key);
      assert KeysOf(more) == KeysOf(groups) + [key];
    }
  }

  lemma {:induction false} NoHits(runs: seq<Run>, key: string)
    requires key !in BugKeys(runs)
    ensures HitsOf(runs, key) == []
    decreases |runs|
  {
    if runs != [] { NoHits(runs[..|runs| - 1], key); }
  }

  lemma {:induction false} HitsCount(runs: seq<Run>, key: string)
    ensures |HitsOf(runs, key)| == multiset(BugKeys(runs))[key]
    decreases |runs|
  {
    if runs != [] { HitsCount(runs[..|runs| - 1], key); }
  }

  function Sizes(groups: seq<Group>): nat {
    if groups == [] then 0 else |groups[0].hits| + Sizes(groups[1..])
  }

  /** Group sizes add up to the number of affected runs. */
  lemma GroupSizesAddUp(runs: seq<Run>, groups: seq<Group>)
    requires Grouped(runs, groups)
    ensures Sizes(groups) == |BugKeys(runs)|
  {
    GroupedKeys(runs, groups);
    SizesAreTotals(runs, groups);
    TotalIsSizeIff(BugKeys(runs), KeysOf(groups));
  }

  lemma {:induction false} SizesAreTotals(runs: seq<Run>, groups: seq<Group>)
    requires forall i :: 0 <= i < |groups| ==> groups[i].hits == HitsOf(runs, groups[i].key)
    ensures Sizes(groups) == Total(BugKeys(runs), KeysOf(groups))
    decreases |groups|
  {
    if groups != [] {
      HitsCount(runs, groups[0].key);
      SizesAreTotals(runs, groups[1..]);
      assert KeysOf(groups)[1..] == KeysOf(groups[1..]);
    }
  }

  /** `sorted(..., key=-len)`: a stable sort by falling size. */
  function Place(g: Group, ranked: seq<Group>): seq<Group> {
    if ranked == [] then [g]
    else if |ranked[|ranked| - 1].hits| >= |g.hits| then ranked + [g]
    else Place(g, ranked[..|ranked| - 1]) + [ranked[|ranked| - 1]]
  }

  function Ranked(groups: seq<Group>): seq<Group> {
    if groups == [] then [] else Place(groups[|groups| - 1], Ranked(groups[..|groups| - 1]))
  }

  ghost predicate Falling(groups: seq<Group>) {
    forall i, j :: 0 <= i < j < |groups| ==> |groups[i].hits| >= |groups[j].hits|
  }

  lemma {:induction false} PlaceAdds(g: Group, ranked: seq<Group>)
    ensures multiset(Place(g, ranked)) == multiset(ranked) + multiset{g}
    ensures forall x :: x in Place(g, ranked) ==> x in ranked || x == g
    decreases |ranked|
  {
    if ranked != [] {
      var front, last := ranked[..|ranked| - 1], ranked[|ranked| - 1];
      assert ranked == front + [last];
      PlaceAdds(g, front);
    }
  }

  lemma {:induction false} PlaceKeepsFalling(g: Group, ranked: seq<Group>)
    requires Falling(ranked)
    ensures Falling(Place(g, ranked))
    decreases |ranked|
  {
    if ranked != [] {
      var front, last := ranked[..|ranked| - 1], ranked[|ranked| - 1];
      if |last.hits| < |g.hits| {
        PlaceKeepsFalling(g, front);
        PlaceAdds(g, front);
        var placed := Place(g, front);
        forall i | 0 <= i < |placed| ensures |placed[i].hits| >= |last.hits| {
          assert placed[i] in placed;
        }
      }
    }
  }

  /** The groups of one size, in order. */
  function OfSize(groups: seq<Group>, n: nat): seq<Group> {
    if groups == [] then []
    else
      var (before, last) := (OfSize(groups[..|groups| - 1], n), groups[|groups| - 1]);
      if |last.hits| == n then before + [last] else before
  }

  lemma {:induction false} PlaceIsStable(g: Group, ranked: seq<Group>, n: nat)
    ensures OfSize(Place(g, ranked), n) == OfSize(ranked, n) + (if |g.hits| == n then [g] else [])
    decreases |ranked|
  {
    if ranked != [] {
      var front, last := ranked[..|ranked| - 1], ranked[|ranked| - 1];
      if |last.hits| >= |g.hits| {
        assert (ranked + [g])[..|ranked|] == ranked;
      } else {
        PlaceIsStable(g, front, n);
        assert (Place(g, front) + [last])[..|Place(g, front)|] == Place(g, front);
      }
    }
  }

  /** The listing shows the same groups in non-increasing size, and groups of one
      size in their old order. */
  lemma {:induction false} RankedIsSorted(groups: seq<Group>)
    ensures Falling(Ranked(groups)) && multiset(Ranked(groups)) == multiset(groups)
    ensures forall n :: OfSize(Ranked(groups), n) == OfSize(groups, n)
    decreases |groups|
  {
    if groups != [] {
      var front, last := groups[..|groups| - 1], groups[|groups| - 1];
      assert groups == front + [last];
      RankedIsSorted(front);
      PlaceKeepsFalling(last, Ranked(front));
      PlaceAdds(last, Ranked(front));
      forall n ensures OfSize(Ranked(groups), n) == OfSize(groups, n) {
        PlaceIsStable(last, Ranked(front), n);
      }
    }
  }
}
