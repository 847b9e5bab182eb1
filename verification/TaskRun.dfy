/** Liveness of the task log, and `Diamond.run` as a loop over arbitrary interleavings. */
module TaskRun {
  import opened Common
  import opened TaskLog

  // ---- Progress ----

  function Level(st: Status): nat {
    match st
    case Waiting => 0
    case Counted => 1
    case Holding => 2
    case Logged => 3
    case Done => 4
  }

  function Below(s: State, level: nat): set<Task> {
    set t | t in s.status && Level(s.status[t]) < level
  }

  /** What the thread inside a reader's critical section has yet to do. */
  function ReaderLeft(s: State): nat {
    match s.mutex
    case Some(TheReader(r)) => if r !in s.readers || s.readers[r].Away? then 0
      else if s.readers[r].Entered? then 2 else 1
    case _ => 0
  }

  /** The steps left to the tasks of the run and to the reader inside. */
  function Work(s: State): nat {
    |Below(s, 1)| + |Below(s, 2)| + |Below(s, 3)| + |Below(s, 4)| + ReaderLeft(s)
  }

  predicate OfTask(e: Event) {
    e.Count? || e.Lock? || e.Append? || e.Unlock?
  }

  predicate OfReader(e: Event) {
    e.ReaderLock? || e.ReaderCopy? || e.ReaderUnlock?
  }

  lemma LevelUp(s: State, s': State, t: Task)
    requires t in s.status && t in s'.status && s'.status == s.status[t := s'.status[t]]
    requires Level(s'.status[t]) == Level(s.status[t]) + 1
    ensures |Below(s', 1)| + |Below(s', 2)| + |Below(s', 3)| + |Below(s', 4)| + 1 ==
            |Below(s, 1)| + |Below(s, 2)| + |Below(s, 3)| + |Below(s, 4)|
  {
    var k := Level(s'.status[t]);
    forall l: nat ensures l != k ==> Below(s', l) == Below(s, l) {}
    assert Below(s, k) == Below(s', k) + {t};
  }

  lemma TaskWorks(g: Graph, s: State, e: Event)
    requires Inv(g, s) && Enabled(g, s, e) && OfTask(e)
    ensures Work(Step(g, s, e)) < Work(s)
  {
    LevelUp(s, Step(g, s, e), e.t);
  }

  lemma ReaderWorks(g: Graph, s: State, e: Event)
    requires Inv(g, s) && Enabled(g, s, e) && (e.ReaderCopy? || e.ReaderUnlock?)
    ensures Work(Step(g, s, e)) < Work(s)
  {
    forall l: nat ensures Below(Step(g, s, e), l) == Below(s, l) {}
  }

  /** Every event of a task, or of the reader inside, uses up work. */
  lemma WorkShrinks(g: Graph, s: State, e: Event)
    requires Inv(g, s) && Enabled(g, s, e) && (OfTask(e) || OfReader(e)) && !e.ReaderLock?
    ensures Work(Step(g, s, e)) < Work(s)
  {
    if OfTask(e) {
      TaskWorks(g, s, e);
    } else {
      ReaderWorks(g, s, e);
    }
  }

  /** A waiting task of least rank has all its predecessors done. */
  lemma {:induction false} LeastWaiting(g: Graph, s: State, rank: map<Task, nat>, t: Task) returns (least: Task)
    requires IsGraph(g) && IsRank(g, rank) && s.status.Keys == g.tasks
    requires forall u :: u in g.tasks ==> Is(s, u, Waiting) || Is(s, u, Done)
    requires Is(s, t, Waiting)
    ensures Is(s, least, Waiting) && PredsDone(g, s, least)
    decreases rank[t]
  {
    if PredsDone(g, s, t) {
      least := t;
    } else {
      var p :| p in g.preds[t] && !Is(s, p, Done);
      least := LeastWaiting(g, s, rank, p);
    }
  }

  /** No deadlock: in every state some thread that is not just arriving can move. */
  lemma SomethingEnabled(g: Graph, s: State) returns (e: Event)
    requires IsDag(g) && Inv(g, s)
    ensures Enabled(g, s, e) && !e.ReaderLock?
    ensures s.driver.Running? ==> OfTask(e) || OfReader(e) || e.Return?
  {
    match s.mutex
    case Some(TheReader(r)) => e := if s.readers[r].Entered? then ReaderCopy(r) else ReaderUnlock(r);
    case Some(TheDriver) => e := if s.driver.Locked? then DriverClear else DriverUnlock;
    case Some(TheTask(t)) => e := if Is(s, t, Holding) then Append(t) else Unlock(t);
    case None =>
      match s.driver
      case Idle => e := DriverLock;
      case Returned(_) => e := DriverLock;
      case Unlocked => e := DriverZero;
      case Zeroed => e := Launch;
      case Running => e := TaskEnabled(g, s);
  }

  lemma TaskEnabled(g: Graph, s: State) returns (e: Event)
    requires IsDag(g) && Inv(g, s) && s.driver.Running? && s.mutex.None?
    ensures Enabled(g, s, e) && (OfTask(e) || e.Return?)
  {
    if t :| Is(s, t, Counted) {
      e := Lock(t);
    } else if t :| Is(s, t, Waiting) {
      forall u | u in g.tasks ensures Is(s, u, Waiting) || Is(s, u, Done) {
        assert !Is(s, u, Counted) && !Is(s, u, Holding) && !Is(s, u, Logged);
      }
      var rank :| IsRank(g, rank);
      var least := LeastWaiting(g, s, rank, t);
      e := Count(least);
    } else {
      forall u | u in g.tasks ensures Is(s, u, Done) {
        assert !Is(s, u, Waiting) && !Is(s, u, Counted) && !Is(s, u, Holding) && !Is(s, u, Logged);
      }
      e := Return;
    }
  }

  // ---- run ----

  function Stage(d: Driver): nat {
    match d
    case Running => 1
    case Zeroed => 2
    case Unlocked => 3
    case Cleared => 4
    case Locked => 5
    case _ => 6
  }

  /** From s to s' the driver got on, a reader arrived, or work was done. */
  predicate Advances(s: State, s': State, e: Event) {
    || e.Return?
    || Stage(s'.driver) < Stage(s.driver)
    || (s'.driver == s.driver && (e.ReaderLock? || Work(s') < Work(s)))
  }

  lemma DriverAdvances(g: Graph, s: State, e: Event)
    requires Enabled(g, s, e) && !OfTask(e) && !OfReader(e)
    ensures e.Return? || Stage(Step(g, s, e).driver) < Stage(s.driver)
  {}

  lemma OthersLeaveDriver(g: Graph, s: State, e: Event)
    requires Enabled(g, s, e) && (OfTask(e) || OfReader(e))
    ensures Step(g, s, e).driver == s.driver
  {}

  /** What makes `run` end: every event gets something on. */
  lemma StepAdvances(g: Graph, s: State, e: Event)
    requires Inv(g, s) && Enabled(g, s, e)
    ensures Advances(s, Step(g, s, e), e)
  {
    if OfTask(e) || OfReader(e) {
      OthersLeaveDriver(g, s, e);
      if !e.ReaderLock? { WorkShrinks(g, s, e); }
    } else {
      DriverAdvances(g, s, e);
    }
  }

  function Candidates(g: Graph, s: State): set<Event> {
    {DriverLock, DriverClear, DriverUnlock, DriverZero, Launch, Return}
    + (set t | t in g.tasks :: Count(t)) + (set t | t in s.status :: Lock(t))
    + (set t | t in s.status :: Append(t)) + (set t | t in s.status :: Unlock(t))
    + (set r | r in s.readers :: ReaderLock(r)) + (set r | r in s.readers :: ReaderCopy(r))
    + (set r | r in s.readers :: ReaderUnlock(r))
  }

  lemma EnabledIsCandidate(g: Graph, s: State, e: Event)
    requires IsGraph(g) && Enabled(g, s, e)
    ensures e in Candidates(g, s)
  {}

  ghost predicate LinearExtension(g: Graph, log: seq<Task>) {
    GoodLog(g, log) && Elements(log) == g.tasks
  }

  lemma ReturnedIsComplete(g: Graph, s: State)
    requires Inv(g, s) && s.driver.Returned?
    ensures s.driver.bodies == |g.tasks| && LinearExtension(g, s.order)
  {}

  class Diamond {
    const g: Graph
    var counter: nat
    var order: seq<Task>
    var mutex: Option<Agent>
    var driver: Driver
    var status: map<Task, Status>
    var readers: map<nat, Reader>
    var started: seq<Task>

    ghost function Abs(): State
      reads this
    {
      State(counter, order, mutex, driver, status, readers, started)
    }

    constructor (g: Graph, readers: set<nat>)
      ensures this.g == g && Abs() == Init(g, readers)
    {
      this.g := g;
      counter, order, mutex, driver, started := 0, [], None, Idle, [];
      status := map t | t in g.tasks :: Waiting;
      this.readers := map r | r in readers :: Away;
    }

    /** One atomic action of one thread. */
    method Do(e: Event)
      requires Enabled(g, Abs(), e)
      modifies this
      ensures Abs() == Step(g, old(Abs()), e)
    {
      match e
      case DriverLock => driver, mutex := Locked, Some(TheDriver);
      case DriverClear => driver, order := Cleared, [];
      case DriverUnlock => driver, mutex := Unlocked, None;
      case DriverZero => driver, counter := Zeroed, 0;
      case Launch => driver, status, started := Running, (map t | t in g.tasks :: Waiting), [];
      case Return => driver := Returned(counter);
      case Count(t) => status, counter, started := status[t := Counted], counter + 1, started + [t];
      case Lock(t) => status, mutex := status[t := Holding], Some(TheTask(t));
      case Append(t) => status, order := status[t := Logged], order + [t];
      case Unlock(t) => status, mutex := status[t := Done], None;
      case ReaderLock(r) => readers, mutex := readers[r := Entered], Some(TheReader(r));
      case ReaderCopy(r) => readers := readers[r := Copied(order)];
      case ReaderUnlock(r) => readers, mutex := readers[r := Away], None;
    }

    /** The scheduler's choice: any enabled action, a reader's arrival only while
        `left` of them may still come. */
    method Pick(left: nat) returns (e: Event)
      requires IsDag(g) && Inv(g, Abs())
      ensures Enabled(g, Abs(), e) && (e.ReaderLock? ==> left > 0)
    {
      var now := State(counter, order, mutex, driver, status, readers, started);
      ghost var some := SomethingEnabled(g, now);
      EnabledIsCandidate(g, now, some);
      e :| e in Candidates(g, now) && Enabled(g, now, e) && (e.ReaderLock? ==> left > 0);
    }

    /** One action: the scheduler picks it and its thread takes it.  `done` is what
        happened since s, and `more` what has happened now. */
    method Round(left: nat, ghost s: State, ghost done: seq<Event>) returns (e: Event, ghost more: seq<Event>)
      requires IsDag(g) && Inv(g, Abs()) && TaskLog.Run(g, s, done) == Some(Abs())
      modifies this
      ensures Inv(g, Abs()) && TaskLog.Run(g, s, more) == Some(Abs())
      ensures e.ReaderLock? ==> left > 0
      ensures e.Return? ==> driver == Returned(counter)
      ensures Advances(old(Abs()), Abs(), e)
    {
      e := Pick(left);
      StepKeepsInv(g, Abs(), e);
      StepAdvances(g, Abs(), e);
      RunAppend(g, s, done, e);
      more := done + [e];
      Do(e);
    }

    /** One whole `run`, however its threads and at most `visits` calls of `order`
        by other threads interleave; `trace` is what happened. */
    method Run(visits: nat) returns (bodies: nat, ghost trace: seq<Event>)
      requires IsDag(g) && Inv(g, Abs()) && (driver.Idle? || driver.Returned?)
      modifies this
      ensures Inv(g, Abs()) && driver == Returned(bodies)
      ensures bodies == |g.tasks| && LinearExtension(g, order)
      ensures TaskLog.Run(g, old(Abs()), trace) == Some(Abs())
    {
      var left := visits;
      trace := [];
      ghost var s := Abs();
      while true
        invariant Inv(g, Abs()) && TaskLog.Run(g, s, trace) == Some(Abs())
        decreases Stage(driver), left, Work(Abs())
      {
        var e;
        e, trace := Round(left, s, trace);
        if e.Return? {
          ReturnedIsComplete(g, Abs());
          bodies := counter;
          return;
        }
        if e.ReaderLock? {
          left := left - 1;
        }
      }
    }
  }

  // ---- The diamond ----

  const DIAMOND: Graph := Graph(
    {"A", "B", "C", "D"},
    map["A" := {}, "B" := {"A"}, "C" := {"A"}, "D" := {"B", "C"}])

  const DIAMOND_RANK: map<Task, nat> := map["A" := 0, "B" := 1, "C" := 1, "D" := 2]

  lemma DiamondIsDag()
    ensures IsDag(DIAMOND) && IsRank(DIAMOND, DIAMOND_RANK)
  {
    assert IsRank(DIAMOND, DIAMOND_RANK);
  }

  lemma DiamondFacts()
    ensures |DIAMOND.tasks| == 4
    ensures "A" in DIAMOND.preds["B"] && "A" in DIAMOND.preds["C"]
    ensures "B" in DIAMOND.preds["D"] && "C" in DIAMOND.preds["D"]
  {}

  lemma PlaceOf(g: Graph, log: seq<Task>, t: Task) returns (i: nat)
    requires LinearExtension(g, log) && t in g.tasks
    ensures i < |log| && log[i] == t
  {
    assert t in Elements(log);
    i :| 0 <= i < |log| && log[i] == t;
  }

  /** A predecessor stands before its successor. */
  lemma Precedence(g: Graph, log: seq<Task>, p: Task, t: Task, i: nat, j: nat)
    requires GoodLog(g, log) && t in g.preds && p in g.preds[t]
    requires i < |log| && j < |log| && log[i] == p && log[j] == t
    ensures i < j
  {
    assert p in log[..j];
    var k :| 0 <= k < j && log[k] == p;
  }

  lemma FourInOrder(log: seq<Task>, a: nat, b: nat, c: nat, d: nat)
    requires |log| == 4 && a < b < d < 4 && a < c < d && b != c
    requires log[a] == "A" && log[b] == "B" && log[c] == "C" && log[d] == "D"
    ensures log == ["A", "B", "C", "D"] || log == ["A", "C", "B", "D"]
  {
    assert a == 0 && d == 3 && ((b == 1 && c == 2) || (b == 2 && c == 1));
  }

  /** After a run its log reads ABCD or ACBD. */
  lemma DiamondLog(log: seq<Task>)
    requires LinearExtension(DIAMOND, log)
    ensures log == ["A", "B", "C", "D"] || log == ["A", "C", "B", "D"]
  {
    NoRepeatsSize(log);
    DiamondFacts();
    var a := PlaceOf(DIAMOND, log, "A");
    var b := PlaceOf(DIAMOND, log, "B");
    var c := PlaceOf(DIAMOND, log, "C");
    var d := PlaceOf(DIAMOND, log, "D");
    Precedence(DIAMOND, log, "A", "B", a, b);
    Precedence(DIAMOND, log, "A", "C", a, c);
    Precedence(DIAMOND, log, "B", "D", b, d);
    Precedence(DIAMOND, log, "C", "D", c, d);
    assert "B"[0] != "C"[0];
    FourInOrder(log, a, b, c, d);
  }
}
