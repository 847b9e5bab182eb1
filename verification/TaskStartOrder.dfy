/** The log is described as listing the tasks in the order their bodies started.
    A body bumps the counter when it starts and takes the mutex later, so this holds
    in every run of a graph iff the graph leaves no two tasks free to overlap. */
module TaskStartOrder {
  import opened Common
  import opened TaskLog
  import TaskRun

  // ---- Precedence through any number of edges ----

  ghost predicate IsPath(g: Graph, path: seq<Task>) {
    && |path| >= 2
    && (forall i :: 0 <= i < |path| ==> path[i] in g.preds)
    && (forall i :: 0 < i < |path| ==> Edge(g, path[i - 1], path[i]))
  }

  ghost predicate Edge(g: Graph, p: Task, t: Task) {
    t in g.preds && p in g.preds[t]
  }

  ghost predicate Precedes(g: Graph, a: Task, b: Task) {
    exists path :: IsPath(g, path) && path[0] == a && path[|path| - 1] == b
  }

  /** Any two tasks are ordered, directly or not. */
  ghost predicate IsChain(g: Graph) {
    forall u, v :: u in g.tasks && v in g.tasks && u != v ==> Precedes(g, u, v) || Precedes(g, v, u)
  }

  /** So far the log lists the tasks in the order they started. */
  ghost predicate InStartOrder(s: State) {
    s.order <= s.started
  }

  ghost predicate AlwaysInStartOrder(g: Graph, readers: set<nat>) {
    forall s :: Reachable(g, readers, s) && s.driver.Running? ==> InStartOrder(s)
  }

  // ---- In a chain the bodies cannot overlap ----

  /** All that precedes a begun task is done. */
  lemma {:induction false} AncestorsDone(g: Graph, s: State, path: seq<Task>)
    requires Busy(g, s) && IsPath(g, path) && path[|path| - 1] in Begun(s)
    ensures Is(s, path[0], Done)
    decreases |path|
  {
    var last := |path| - 1;
    assert Edge(g, path[last - 1], path[last]);
    assert PredsDone(g, s, path[last]);
    if last > 1 {
      var shorter := path[..last];
      assert forall i :: 0 < i < |shorter| ==> Edge(g, path[i - 1], path[i]);
      AncestorsDone(g, s, shorter);
    }
  }

  /** At most one body is between its two actions, and it is the last that started. */
  ghost predicate OneAtATime(s: State) {
    || s.started == s.order
    || (s.started != [] && s.started[..|s.started| - 1] == s.order
        && var t := s.started[|s.started| - 1]; Is(s, t, Counted) || Is(s, t, Holding))
  }

  lemma CountInChain(g: Graph, s: State, t: Task)
    requires IsGraph(g) && IsChain(g) && Inv(g, s) && Enabled(g, s, Count(t)) && OneAtATime(s)
    ensures s.started == s.order
  {
    if s.started != s.order {
      var u := s.started[|s.started| - 1];
      assert u in Elements(s.started);
      if Precedes(g, u, t) {
        var path :| IsPath(g, path) && path[0] == u && path[|path| - 1] == t;
        assert Edge(g, path[|path| - 2], t);
        if |path| > 2 {
          var shorter := path[..|path| - 1];
          assert forall i :: 0 < i < |shorter| ==> Edge(g, path[i - 1], path[i]);
          AncestorsDone(g, s, shorter);
        }
      } else {
        var path :| IsPath(g, path) && path[0] == t && path[|path| - 1] == u;
        AncestorsDone(g, s, path);
      }
    }
  }

  lemma AppendInChain(g: Graph, s: State, t: Task)
    requires Inv(g, s) && Busy(g, s) && Enabled(g, s, Append(t)) && OneAtATime(s)
    ensures Step(g, s, Append(t)).order == s.started
  {
    assert t in Begun(s) && t in Elements(s.started);
    assert t !in s.order;
  }

  lemma OtherStepInChain(g: Graph, s: State, e: Event)
    requires Enabled(g, s, e) && s.driver.Running? && OneAtATime(s) && !e.Count? && !e.Append?
    ensures OneAtATime(Step(g, s, e))
  {}

  lemma StepInChain(g: Graph, s: State, e: Event)
    requires IsDag(g) && IsChain(g) && Inv(g, s) && Enabled(g, s, e)
    requires s.driver.Running? ==> OneAtATime(s)
    ensures Step(g, s, e).driver.Running? ==> OneAtATime(Step(g, s, e))
  {
    if e.Count? {
      CountInChain(g, s, e.t);
      assert Step(g, s, e).started[..|s.started|] == s.order;
    } else if s.driver.Running? {
      if e.Append? {
        AppendInChain(g, s, e.t);
      } else {
        OtherStepInChain(g, s, e);
      }
    } else if e.Launch? {
      assert s.order == [];
    }
  }

  lemma {:induction false} RunInChain(g: Graph, s: State, es: seq<Event>)
    requires IsDag(g) && IsChain(g) && Inv(g, s) && Run(g, s, es).Some?
    requires s.driver.Running? ==> OneAtATime(s)
    ensures
      var end := Run(g, s, es).value;
      end.driver.Running? ==> OneAtATime(end) && InStartOrder(end)
    decreases |es|
  {
    if es != [] {
      StepKeepsInv(g, s, es[0]);
      StepInChain(g, s, es[0]);
      RunInChain(g, Step(g, s, es[0]), es[1..]);
    }
  }

  // ---- Two free tasks can be logged the other way round ----

  lemma ReachableStep(g: Graph, readers: set<nat>, s: State, e: Event)
    requires Reachable(g, readers, s) && Enabled(g, s, e)
    ensures Reachable(g, readers, Step(g, s, e))
  {
    var es :| Run(g, Init(g, readers), es) == Some(s);
    RunAppend(g, Init(g, readers), es, e);
  }

  /** The tasks of `done` are done, the others have not begun, and nobody is inside. */
  ghost predicate Settled(g: Graph, s: State, done: set<Task>) {
    && s.driver.Running? && s.mutex.None? && s.status.Keys == g.tasks
    && forall t :: t in g.tasks ==> s.status[t] == if t in done then Done else Waiting
  }

  ghost predicate PredecessorClosed(g: Graph, ts: set<Task>) {
    forall t, p :: t in ts && t in g.preds && p in g.preds[t] ==> p in ts
  }

  lemma LaunchReachable(g: Graph, readers: set<nat>) returns (s: State)
    requires IsDag(g)
    ensures Reachable(g, readers, s) && Settled(g, s, {})
  {
    var s0 := Init(g, readers);
    assert Run(g, s0, []) == Some(s0);
    var s1 := Step(g, s0, DriverLock);   ReachableStep(g, readers, s0, DriverLock);
    var s2 := Step(g, s1, DriverClear);  ReachableStep(g, readers, s1, DriverClear);
    var s3 := Step(g, s2, DriverUnlock); ReachableStep(g, readers, s2, DriverUnlock);
    var s4 := Step(g, s3, DriverZero);   ReachableStep(g, readers, s3, DriverZero);
    s := Step(g, s4, Launch);            ReachableStep(g, readers, s4, Launch);
  }

  /** One task run from start to finish, alone. */
  lemma RunAlone(g: Graph, readers: set<nat>, s: State, done: set<Task>, t: Task) returns (s': State)
    requires IsGraph(g) && Reachable(g, readers, s) && Settled(g, s, done)
    requires t in g.tasks && t !in done && g.preds[t] <= done
    ensures Reachable(g, readers, s') && Settled(g, s', done + {t})
  {
    var s1 := Step(g, s, Count(t));   ReachableStep(g, readers, s, Count(t));
    var s2 := Step(g, s1, Lock(t));   ReachableStep(g, readers, s1, Lock(t));
    var s3 := Step(g, s2, Append(t)); ReachableStep(g, readers, s2, Append(t));
    s' := Step(g, s3, Unlock(t));     ReachableStep(g, readers, s3, Unlock(t));
  }

  /** A member of greatest rank. */
  lemma {:induction false} Greatest(ts: set<Task>, rank: map<Task, nat>) returns (top: Task)
    requires ts != {} && ts <= rank.Keys
    ensures top in ts && forall t :: t in ts ==> rank[t] <= rank[top]
    decreases ts
  {
    top :| top in ts;
    if ts != {top} {
      var other := Greatest(ts - {top}, rank);
      if rank[other] > rank[top] { top := other; }
    }
  }

  /** Any predecessor-closed set can be run first, alone. */
  lemma {:induction false} SettledReachable(g: Graph, readers: set<nat>, rank: map<Task, nat>, done: set<Task>)
    returns (s: State)
    requires IsDag(g) && IsRank(g, rank) && done <= g.tasks && PredecessorClosed(g, done)
    ensures Reachable(g, readers, s) && Settled(g, s, done)
    decreases done
  {
    if done == {} {
      s := LaunchReachable(g, readers);
    } else {
      var top := Greatest(done, rank);
      assert g.preds[top] <= done - {top};
      var s0 := SettledReachable(g, readers, rank, done - {top});
      s := RunAlone(g, readers, s0, done - {top}, top);
      assert done - {top} + {top} == done;
    }
  }

  ghost function Before(g: Graph, u: Task, v: Task): set<Task> {
    set t | t in g.tasks && (Precedes(g, t, u) || Precedes(g, t, v))
  }

  lemma PrecedesTrans(g: Graph, p: Task, t: Task, u: Task)
    requires IsGraph(g) && Edge(g, p, t) && p in g.tasks && (t == u || Precedes(g, t, u))
    ensures Precedes(g, p, u)
  {
    if t == u {
      assert IsPath(g, [p, t]);
    } else {
      var path :| IsPath(g, path) && path[0] == t && path[|path| - 1] == u;
      var longer := [p] + path;
      forall i | 0 < i < |longer| ensures Edge(g, longer[i - 1], longer[i]) {
        if i > 1 { assert Edge(g, path[i - 2], path[i - 1]); }
      }
      assert IsPath(g, longer);
    }
  }

  /** Two overlapping bodies can append in the other order. */
  lemma OvertakingReachable(g: Graph, readers: set<nat>, u: Task, v: Task) returns (s: State)
    requires IsDag(g) && u in g.tasks && v in g.tasks && u != v
    requires !Precedes(g, u, v) && !Precedes(g, v, u)
    ensures Reachable(g, readers, s) && s.driver.Running? && !InStartOrder(s)
  {
    var rank :| IsRank(g, rank);
    var done := Before(g, u, v);
    forall t, p | t in done && t in g.preds && p in g.preds[t] ensures p in done {
      if Precedes(g, t, u) { PrecedesTrans(g, p, t, u); } else { PrecedesTrans(g, p, t, v); }
    }
    forall p | p in g.preds[u] ensures p in done { PrecedesTrans(g, p, u, u); }
    forall p | p in g.preds[v] ensures p in done { PrecedesTrans(g, p, v, v); }
    NotBeforeItself(g, rank, u);
    NotBeforeItself(g, rank, v);
    var s0 := SettledReachable(g, readers, rank, done);
    s := Overtake(g, readers, s0, done, u, v);
  }

  lemma {:induction false} RanksRise(g: Graph, rank: map<Task, nat>, path: seq<Task>)
    requires IsGraph(g) && IsRank(g, rank) && IsPath(g, path)
    ensures rank[path[0]] < rank[path[|path| - 1]]
    decreases |path|
  {
    var last := |path| - 1;
    assert Edge(g, path[last - 1], path[last]);
    if last > 1 {
      var shorter := path[..last];
      assert forall i :: 0 < i < |shorter| ==> Edge(g, path[i - 1], path[i]);
      RanksRise(g, rank, shorter);
    }
  }

  lemma NotBeforeItself(g: Graph, rank: map<Task, nat>, t: Task)
    requires IsGraph(g) && IsRank(g, rank)
    ensures !Precedes(g, t, t)
  {
    if Precedes(g, t, t) {
      var path :| IsPath(g, path) && path[0] == t && path[|path| - 1] == t;
      RanksRise(g, rank, path);
    }
  }

  /** u starts, v starts, v logs. */
  lemma Overtake(g: Graph, readers: set<nat>, s: State, done: set<Task>, u: Task, v: Task) returns (s': State)
    requires IsDag(g) && Reachable(g, readers, s) && Settled(g, s, done) && done <= g.tasks
    requires u in g.tasks - done && v in g.tasks - done && u != v
    requires g.preds[u] <= done && g.preds[v] <= done
    ensures Reachable(g, readers, s') && s'.driver.Running? && !InStartOrder(s')
  {
    var s2 := BothStart(g, readers, s, done, u, v);
    var s3 := Step(g, s2, Lock(v));
    ReachableStep(g, readers, s2, Lock(v));
    s' := Step(g, s3, Append(v));
    ReachableStep(g, readers, s3, Append(v));
    SettledLengths(g, readers, s, done);
    assert s'.order[|s.order|] == v && s'.started[|s.started|] == u;
  }

  lemma BothStart(g: Graph, readers: set<nat>, s: State, done: set<Task>, u: Task, v: Task) returns (s': State)
    requires IsGraph(g) && Reachable(g, readers, s) && Settled(g, s, done)
    requires u in g.tasks - done && v in g.tasks - done && u != v
    requires g.preds[u] <= done && g.preds[v] <= done
    ensures Reachable(g, readers, s') && s'.driver.Running? && s'.mutex.None? && Is(s', v, Counted)
    ensures s'.order == s.order && s'.started == s.started + [u] + [v]
  {
    var s1 := Step(g, s, Count(u));
    ReachableStep(g, readers, s, Count(u));
    assert Enabled(g, s1, Count(v));
    s' := Step(g, s1, Count(v));
    ReachableStep(g, readers, s1, Count(v));
  }

  lemma SettledLengths(g: Graph, readers: set<nat>, s: State, done: set<Task>)
    requires IsDag(g) && Reachable(g, readers, s) && Settled(g, s, done) && done <= g.tasks
    ensures |s.order| == |s.started|
  {
    var es :| Run(g, Init(g, readers), es) == Some(s);
    InitInv(g, readers);
    RunKeepsInv(g, Init(g, readers), es);
    assert Elements(s.order) == done;
    assert Elements(s.started) == done by { assert Begun(s) == done; }
    NoRepeatsSize(s.order);
    NoRepeatsSize(s.started);
  }

  /** The documented reading of the log holds in all runs iff any two tasks are ordered. */
  lemma StartOrderIffChain(g: Graph, readers: set<nat>)
    requires IsDag(g)
    ensures AlwaysInStartOrder(g, readers) <==> IsChain(g)
  {
    if IsChain(g) {
      InitInv(g, readers);
      forall s | Reachable(g, readers, s) && s.driver.Running? ensures InStartOrder(s) {
        var es :| Run(g, Init(g, readers), es) == Some(s);
        RunInChain(g, Init(g, readers), es);
      }
    } else {
      var u, v :| u in g.tasks && v in g.tasks && u != v && !Precedes(g, u, v) && !Precedes(g, v, u);
      var s := OvertakingReachable(g, readers, u, v);
    }
  }

  /** The diamond has two free tasks, B and C, so its log need not be in start order. */
  lemma DiamondCanOvertake(readers: set<nat>)
    ensures !AlwaysInStartOrder(TaskRun.DIAMOND, readers)
  {
    TaskRun.DiamondIsDag();
    SameRankIsFree(TaskRun.DIAMOND, TaskRun.DIAMOND_RANK, "B", "C");
    SameRankIsFree(TaskRun.DIAMOND, TaskRun.DIAMOND_RANK, "C", "B");
    assert "B"[0] != "C"[0];
    StartOrderIffChain(TaskRun.DIAMOND, readers);
  }

  lemma SameRankIsFree(g: Graph, rank: map<Task, nat>, u: Task, v: Task)
    requires IsGraph(g) && IsRank(g, rank) && u in rank && v in rank && rank[u] == rank[v]
    ensures !Precedes(g, u, v)
  {
    if Precedes(g, u, v) {
      var path :| IsPath(g, path) && path[0] == u && path[|path| - 1] == v;
      RanksRise(g, rank, path);
    }
  }
}
