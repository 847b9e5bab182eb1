/** A task graph whose bodies bump an atomic counter and then append to a log under
    a mutex, run again and again by one driver while readers look on.  Every atomic
    action of every thread is one event; any interleaving of events is a run. */
module TaskLog {
  import opened Common

  type Task = string

  /** The tasks, and for each the tasks that must finish before it starts. */
  datatype Graph = Graph(tasks: set<Task>, preds: map<Task, set<Task>>)

  ghost predicate IsRank(g: Graph, rank: map<Task, nat>) {
    g.tasks <= rank.Keys &&
    forall t, p :: t in g.tasks && t in g.preds && p in g.preds[t] && p in rank ==> rank[p] < rank[t]
  }

  /** Every task has predecessors among the tasks. */
  ghost predicate IsGraph(g: Graph) {
    g.preds.Keys == g.tasks && forall t :: t in g.tasks ==> g.preds[t] <= g.tasks
  }

  ghost predicate IsDag(g: Graph) {
    IsGraph(g) && exists rank :: IsRank(g, rank)
  }

  // ---- States ----

  datatype Agent = TheDriver | TheTask(t: Task) | TheReader(r: nat)

  /** Where the driver is in `run`. */
  datatype Driver = Idle | Locked | Cleared | Unlocked | Zeroed | Running | Returned(bodies: nat)

  /** Where a task body is in `record`. */
  datatype Status = Waiting | Counted | Holding | Logged | Done

  /** Where a reader is in `order`. */
  datatype Reader = Away | Entered | Copied(log: seq<Task>)

  datatype State = State(
    counter: nat,
    order: seq<Task>,
    mutex: Option<Agent>,
    driver: Driver,
    status: map<Task, Status>,
    readers: map<nat, Reader>,
    started: seq<Task>)   // the tasks of the current run, as their bodies started

  function Init(g: Graph, readers: set<nat>): State {
    State(0, [], None, Idle, map t | t in g.tasks :: Waiting, map r | r in readers :: Away, [])
  }

  // ---- Events ----

  datatype Event =
    | DriverLock | DriverClear | DriverUnlock | DriverZero | Launch | Return
    | Count(t: Task) | Lock(t: Task) | Append(t: Task) | Unlock(t: Task)
    | ReaderLock(r: nat) | ReaderCopy(r: nat) | ReaderUnlock(r: nat)

  predicate Is(s: State, t: Task, st: Status) {
    t in s.status && s.status[t] == st
  }

  predicate Enabled(g: Graph, s: State, e: Event) {
    match e
    case DriverLock => (s.driver.Idle? || s.driver.Returned?) && s.mutex.None?
    case DriverClear => s.driver.Locked?
    case DriverUnlock => s.driver.Cleared?
    case DriverZero => s.driver.Unlocked?
    case Launch => s.driver.Zeroed?
    case Return => s.driver.Running? && forall t :: t in g.tasks ==> Is(s, t, Done)
    case Count(t) =>
      s.driver.Running? && Is(s, t, Waiting) && t in g.preds && forall p :: p in g.preds[t] ==> Is(s, p, Done)
    case Lock(t) => Is(s, t, Counted) && s.mutex.None?
    case Append(t) => Is(s, t, Holding)
    case Unlock(t) => Is(s, t, Logged)
    case ReaderLock(r) => r in s.readers && s.readers[r].Away? && s.mutex.None?
    case ReaderCopy(r) => r in s.readers && s.readers[r].Entered?
    case ReaderUnlock(r) => r in s.readers && s.readers[r].Copied?
  }

  /** The thread of the event has come to the point where the event is next. */
  predicate AtEvent(g: Graph, s: State, e: Event) {
    match e
    case DriverLock => s.driver.Idle? || s.driver.Returned?
    case DriverClear => s.driver == Locked
    case DriverUnlock => s.driver == Cleared
    case DriverZero => s.driver == Unlocked
    case Launch => s.driver == Zeroed
    case Return => s.driver == Running
    case Count(t) => s.driver == Running && t in g.preds && Is(s, t, Waiting)
    case Lock(t) => Is(s, t, Counted)
    case Append(t) => Is(s, t, Holding)
    case Unlock(t) => Is(s, t, Logged)
    case ReaderLock(r) => r in s.readers && s.readers[r] == Away
    case ReaderCopy(r) => r in s.readers && s.readers[r] == Entered
    case ReaderUnlock(r) => r in s.readers && s.readers[r].Copied?
  }

  /** A thread waits for nothing but the mutex, its predecessors, or the whole graph. */
  lemma WhatThreadsWaitFor(g: Graph, s: State, e: Event)
    requires AtEvent(g, s, e)
    ensures Enabled(g, s, e) <==>
      && (e.DriverLock? || e.Lock? || e.ReaderLock? ==> s.mutex == None)
      && (e.Count? ==> forall p :: p in g.preds[e.t] ==> Is(s, p, Done))
      && (e.Return? ==> forall t :: t in g.tasks ==> Is(s, t, Done))
  {}

  function Step(g: Graph, s: State, e: Event): State
    requires Enabled(g, s, e)
  {
    match e
    case DriverLock => s.(driver := Locked, mutex := Some(TheDriver))
    case DriverClear => s.(driver := Cleared, order := [])
    case DriverUnlock => s.(driver := Unlocked, mutex := None)
    case DriverZero => s.(driver := Zeroed, counter := 0)
    case Launch => s.(driver := Running, status := map t | t in g.tasks :: Waiting, started := [])
    case Return => s.(driver := Returned(s.counter))
    case Count(t) => s.(status := s.status[t := Counted], counter := s.counter + 1, started := s.started + [t])
    case Lock(t) => s.(status := s.status[t := Holding], mutex := Some(TheTask(t)))
    case Append(t) => s.(status := s.status[t := Logged], order := s.order + [t])
    case Unlock(t) => s.(status := s.status[t := Done], mutex := None)
    case ReaderLock(r) => s.(readers := s.readers[r := Entered], mutex := Some(TheReader(r)))
    case ReaderCopy(r) => s.(readers := s.readers[r := Copied(s.order)])
    case ReaderUnlock(r) => s.(readers := s.readers[r := Away], mutex := None)
  }

  /** The state after a list of events, if each was enabled in its turn. */
  function Run(g: Graph, s: State, es: seq<Event>): Option<State>
    decreases |es|
  {
    if es == [] then Some(s)
    else if Enabled(g, s, es[0]) then Run(g, Step(g, s, es[0]), es[1..])
    else None
  }

  lemma {:induction false} RunConcat(g: Graph, s: State, xs: seq<Event>, ys: seq<Event>)
    requires Run(g, s, xs).Some?
    ensures Run(g, s, xs + ys) == Run(g, Run(g, s, xs).value, ys)
    decreases |xs|
  {
    if xs == [] {
      assert xs + ys == ys;
    } else {
      assert (xs + ys)[1..] == xs[1..] + ys;
      RunConcat(g, Step(g, s, xs[0]), xs[1..], ys);
    }
  }

  /** One more event after a run. */
  lemma RunAppend(g: Graph, s: State, es: seq<Event>, e: Event)
    requires Run(g, s, es).Some? && Enabled(g, Run(g, s, es).value, e)
    ensures Run(g, s, es + [e]) == Some(Step(g, Run(g, s, es).value, e))
  {
    var mid := Run(g, s, es).value;
    RunConcat(g, s, es, [e]);
    assert Run(g, mid, [e]) == Run(g, Step(g, mid, e), [e][1..]);
  }

  ghost predicate Reachable(g: Graph, readers: set<nat>, s: State) {
    exists es :: Run(g, Init(g, readers), es) == Some(s)
  }

  // ---- What every reachable state keeps ----

  /** A log of tasks, each once and each after all its predecessors. */
  ghost predicate GoodLog(g: Graph, log: seq<Task>) {
    && (forall t :: t in log ==> t in g.preds)
    && NoRepeats(log)
    && (forall i, p :: 0 <= i < |log| && p in g.preds[log[i]] ==> p in log[..i])
  }

  function Begun(s: State): set<Task> {
    set t | t in s.status && s.status[t] != Waiting
  }

  /** The mutex is held by exactly the thread that is inside a critical section. */
  ghost predicate MutexOk(s: State) {
    && (s.mutex == Some(TheDriver) <==> s.driver.Locked? || s.driver.Cleared?)
    && (forall t :: s.mutex == Some(TheTask(t)) <==> Is(s, t, Holding) || Is(s, t, Logged))
    && (forall r :: s.mutex == Some(TheReader(r)) <==> r in s.readers && !s.readers[r].Away?)
  }

  /** Between runs nothing is in flight and, once cleared, the log stays empty. */
  ghost predicate Quiet(g: Graph, s: State) {
    && (forall t :: t in s.status ==> s.status[t] == Waiting || s.status[t] == Done)
    && (s.driver.Cleared? || s.driver.Unlocked? || s.driver.Zeroed? ==> s.order == [])
    && (s.driver.Zeroed? ==> s.counter == 0)
    && (s.driver.Returned? ==> s.driver.bodies == s.counter == |g.tasks| && Elements(s.order) == g.tasks)
  }

  ghost predicate LogMirrors(s: State) {
    forall t :: t in s.order <==> Is(s, t, Logged) || Is(s, t, Done)
  }

  ghost predicate StartsMirror(s: State) {
    NoRepeats(s.started) && Elements(s.started) == Begun(s)
  }

  ghost predicate PredsDone(g: Graph, s: State, t: Task) {
    t in g.preds && forall p :: p in g.preds[t] ==> Is(s, p, Done)
  }

  /** During a run the counter, the log and the start order mirror the statuses. */
  ghost predicate Busy(g: Graph, s: State) {
    && s.counter == |Begun(s)|
    && LogMirrors(s)
    && StartsMirror(s)
    && forall t :: t in Begun(s) ==> PredsDone(g, s, t)
  }

  ghost predicate Inv(g: Graph, s: State) {
    && s.status.Keys == g.tasks
    && MutexOk(s)
    && |s.order| <= s.counter <= |g.tasks|
    && GoodLog(g, s.order)
    && (forall r :: r in s.readers && s.readers[r].Copied? ==> s.readers[r].log == s.order)
    && if s.driver.Running? then Busy(g, s) else Quiet(g, s)
  }

  /** Appending a task whose predecessors are all in the log. */
  lemma GoodLogGrows(g: Graph, log: seq<Task>, t: Task)
    requires GoodLog(g, log) && t in g.preds && t !in log && forall p :: p in g.preds[t] ==> p in log
    ensures GoodLog(g, log + [t])
  {
    var end := log + [t];
    forall i, p | 0 <= i < |end| && p in g.preds[end[i]] ensures p in end[..i] {
      assert end[..i] == log[..i];
      if i == |log| { assert log[..i] == log; }
    }
  }

  lemma InitInv(g: Graph, readers: set<nat>)
    requires IsDag(g)
    ensures Inv(g, Init(g, readers))
  {}

  /** The part of the invariant that bounds the log by the counter during a run. */
  lemma BusyBounds(g: Graph, s: State)
    requires s.status.Keys == g.tasks && GoodLog(g, s.order) && Busy(g, s)
    ensures |s.order| <= s.counter <= |g.tasks|
  {
    NoRepeatsSize(s.order);
    SubsetSize(Elements(s.order), Begun(s));
    SubsetSize(Begun(s), g.tasks);
  }

  /** Only a waiting task changes to Counted, so what was done stays done. */
  lemma PredsStayDone(g: Graph, s: State, s': State, t: Task)
    requires PredsDone(g, s, t) && forall p :: Is(s, p, Done) ==> Is(s', p, Done)
    ensures PredsDone(g, s', t)
  {}

  lemma LogGrows(log: seq<Task>, t: Task)
    requires NoRepeats(log) && t !in Elements(log)
    ensures NoRepeats(log + [t]) && Elements(log + [t]) == Elements(log) + {t}
  {}

  lemma BegunGrows(s: State, t: Task)
    requires Is(s, t, Waiting)
    ensures
      var s' := s.(status := s.status[t := Counted]);
      t !in Begun(s) && Begun(s') == Begun(s) + {t} && |Begun(s')| == |Begun(s)| + 1
  {
    var s' := s.(status := s.status[t := Counted]);
    assert Begun(s') == Begun(s) + {t};
  }

  lemma CountKeepsPreds(g: Graph, s: State, t: Task, u: Task)
    requires Enabled(g, s, Count(t)) && (u == t || PredsDone(g, s, u))
    ensures PredsDone(g, Step(g, s, Count(t)), u)
  {
    PredsStayDone(g, s, Step(g, s, Count(t)), u);
  }

  lemma CountKeepsMirrors(g: Graph, s: State, t: Task)
    requires Enabled(g, s, Count(t)) && LogMirrors(s) && StartsMirror(s)
    ensures
      var s' := Step(g, s, Count(t));
      LogMirrors(s') && StartsMirror(s') && Begun(s') == Begun(s) + {t} && |Begun(s')| == |Begun(s)| + 1
  {
    BegunGrows(s, t);
    assert Begun(Step(g, s, Count(t))) == Begun(s.(status := s.status[t := Counted]));
    LogGrows(s.started, t);
  }

  lemma CountKeepsBusy(g: Graph, s: State, t: Task)
    requires Busy(g, s) && Enabled(g, s, Count(t))
    ensures Busy(g, Step(g, s, Count(t)))
  {
    CountKeepsMirrors(g, s, t);
    forall u | u in Begun(Step(g, s, Count(t))) ensures PredsDone(g, Step(g, s, Count(t)), u) {
      CountKeepsPreds(g, s, t, u);
    }
  }

  lemma LaterKeepsBusy(g: Graph, s: State, e: Event)
    requires Busy(g, s) && Enabled(g, s, e) && (e.Lock? || e.Append? || e.Unlock?)
    ensures Busy(g, Step(g, s, e))
  {
    var s' := Step(g, s, e);
    assert Begun(s') == Begun(s);
    forall u | u in Begun(s') ensures PredsDone(g, s', u) {
      PredsStayDone(g, s, s', u);
    }
  }

  lemma StepKeepsMutex(g: Graph, s: State, e: Event)
    requires MutexOk(s) && Enabled(g, s, e)
    requires s.driver.Running? || forall t :: t in s.status ==> s.status[t] == Waiting || s.status[t] == Done
    ensures MutexOk(Step(g, s, e))
  {}

  lemma TaskStep(g: Graph, s: State, e: Event)
    requires IsGraph(g) && Inv(g, s) && Enabled(g, s, e) && (e.Count? || e.Lock? || e.Append? || e.Unlock?)
    ensures Inv(g, Step(g, s, e))
  {
    var s' := Step(g, s, e);
    StepKeepsMutex(g, s, e);
    if e.Count? {
      CountKeepsBusy(g, s, e.t);
    } else {
      LaterKeepsBusy(g, s, e);
    }
    if e.Append? {
      assert e.t in Begun(s);
      assert PredsDone(g, s, e.t);
      GoodLogGrows(g, s.order, e.t);
    }
    BusyBounds(g, s');
  }

  lemma ReaderStep(g: Graph, s: State, e: Event)
    requires Inv(g, s) && Enabled(g, s, e) && (e.ReaderLock? || e.ReaderCopy? || e.ReaderUnlock?)
    ensures Inv(g, Step(g, s, e))
  {
    var s' := Step(g, s, e);
    StepKeepsMutex(g, s, e);
    assert Begun(s') == Begun(s);
    if s.driver.Running? {
      forall u | u in Begun(s') ensures PredsDone(g, s', u) {
        PredsStayDone(g, s, s', u);
      }
    }
  }

  /** Until the tasks are launched again, the driver only clears what is there. */
  lemma QuietStep(g: Graph, s: State, e: Event)
    requires Inv(g, s) && Enabled(g, s, e)
    requires e.DriverLock? || e.DriverClear? || e.DriverUnlock? || e.DriverZero?
    ensures Inv(g, Step(g, s, e))
  {
    StepKeepsMutex(g, s, e);
  }

  lemma DriverStep(g: Graph, s: State, e: Event)
    requires IsGraph(g) && Inv(g, s) && Enabled(g, s, e) && (e.Launch? || e.Return?)
    ensures Inv(g, Step(g, s, e))
  {
    StepKeepsMutex(g, s, e);
    if e.Launch? {
      assert Begun(Step(g, s, e)) == {};
    } else {
      assert Begun(s) == g.tasks;
      assert Elements(s.order) == g.tasks;
    }
  }

  /** One event of one thread keeps it all. */
  lemma StepKeepsInv(g: Graph, s: State, e: Event)
    requires IsDag(g) && Inv(g, s) && Enabled(g, s, e)
    ensures Inv(g, Step(g, s, e))
  {
    match e
    case Count(_) => TaskStep(g, s, e);
    case Append(_) => TaskStep(g, s, e);
    case Lock(_) => TaskStep(g, s, e);
    case Unlock(_) => TaskStep(g, s, e);
    case ReaderLock(_) => ReaderStep(g, s, e);
    case ReaderCopy(_) => ReaderStep(g, s, e);
    case ReaderUnlock(_) => ReaderStep(g, s, e);
    case Launch => DriverStep(g, s, e);
    case Return => DriverStep(g, s, e);
    case _ => QuietStep(g, s, e);
  }

  lemma {:induction false} RunKeepsInv(g: Graph, s: State, es: seq<Event>)
    requires IsDag(g) && Inv(g, s) && Run(g, s, es).Some?
    ensures Inv(g, Run(g, s, es).value)
    decreases |es|
  {
    if es != [] {
      StepKeepsInv(g, s, es[0]);
      RunKeepsInv(g, Step(g, s, es[0]), es[1..]);
    }
  }

  /** Safety, over every interleaving of any number of runs and readers. */
  lemma ReachableIsSafe(g: Graph, readers: set<nat>, s: State)
    requires IsDag(g) && Reachable(g, readers, s)
    ensures |s.order| <= s.counter <= |g.tasks| && GoodLog(g, s.order) && MutexOk(s)
    ensures forall r :: r in s.readers && s.readers[r].Copied? ==> s.readers[r].log == s.order
    ensures s.driver.Returned? ==> s.driver.bodies == |g.tasks| && Elements(s.order) == g.tasks
  {
    var es :| Run(g, Init(g, readers), es) == Some(s);
    InitInv(g, readers);
    RunKeepsInv(g, Init(g, readers), es);
  }

  /** A call of `order` while the mutex is free answers the log as it stands, and
      leaves no trace. */
  lemma OrderAnswersTheLog(g: Graph, s: State, r: nat)
    requires s.mutex.None? && r in s.readers && s.readers[r].Away?
    ensures
      var asked := Run(g, s, [ReaderLock(r), ReaderCopy(r)]);
      asked.Some? && asked.value == s.(mutex := Some(TheReader(r)), readers := s.readers[r := Copied(s.order)])
    ensures Run(g, s, [ReaderLock(r), ReaderCopy(r)] + [ReaderUnlock(r)]) == Some(s)
  {
    var s1 := Step(g, s, ReaderLock(r));
    var s2 := Step(g, s1, ReaderCopy(r));
    RunAppend(g, s, [], ReaderLock(r));
    assert [] + [ReaderLock(r)] == [ReaderLock(r)];
    RunAppend(g, s, [ReaderLock(r)], ReaderCopy(r));
    assert [ReaderLock(r)] + [ReaderCopy(r)] == [ReaderLock(r), ReaderCopy(r)];
    assert s2.readers == s.readers[r := Copied(s.order)];
    RunAppend(g, s, [ReaderLock(r), ReaderCopy(r)], ReaderUnlock(r));
    assert Step(g, s2, ReaderUnlock(r)).readers == s.readers;
  }

  /** What a reader is given is the log of that moment: a good log, and one of all
      tasks if no run is under way. */
  lemma AnswerIsTheLog(g: Graph, readers: set<nat>, s: State, r: nat)
    requires IsDag(g) && Reachable(g, readers, s) && r in s.readers && s.readers[r].Copied?
    ensures s.readers[r].log == s.order && GoodLog(g, s.readers[r].log)
    ensures s.driver.Returned? ==> Elements(s.readers[r].log) == g.tasks
  {
    ReachableIsSafe(g, readers, s);
  }
}
