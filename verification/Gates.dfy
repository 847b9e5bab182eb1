/** The gate orchestrator: probe, native oracle, one or two lanes of gates, a
    surface diff, and the verdict.  The results of the external commands are the
    input; nothing else about the machine matters to the verdict. */
module Gates {
  import opened Common

  datatype Outcome = E | EWeak | D | C | B | A

  function Rank(o: Outcome): nat {
    match o case E => 0 case EWeak => 1 case D => 2 case C => 3 case B => 4 case A => 5
  }

  predicate Good(o: Outcome) {
    o == E || o == EWeak
  }

  datatype LaneName = Constexpr | Emit
  datatype Gate = Probe | Compile | Import | Correct
  datatype Status = Pass | Fail | Skip

  /** A failure code: its letter names the outcome it explains. */
  datatype Code = ACompile | BStage(stage: string) | CSignal(signal: string) | DValue | DSurface

  function Letter(c: Code): Outcome {
    match c case ACompile => A case BStage(_) => B case CSignal(_) => C case DValue => D case DSurface => D
  }

  /** The verdict of the diagnostics classifier, which is not modelled. */
  datatype Bug = NoBug | Suspected(kind: string)

  // ---- Inputs ----

  /** What the commands of one lane answer, should they be run. */
  datatype LaneWorld = LaneWorld(
    compileRc: int, stage: Option<string>, bug: Bug,
    importRc: int, importSaysError: bool, importRcText: string,
    pytestRc: int)

  datatype World = World(
    probeRc: int, probeBug: Bug,
    oracleExists: bool, oracleBuildRc: int, oracleRunRc: int, oraclePrints: bool,
    testsExist: bool,
    constexpr: LaneWorld, emit: LaneWorld,
    surfaceRc: int)

  function LaneInput(w: World, lane: LaneName): LaneWorld {
    if lane == Emit then w.emit else w.constexpr
  }

  datatype Mode = OnlyConstexpr | OnlyEmit | Both
  datatype Meta = Meta(emitTable: bool, emitEnabled: bool, gccBackend: bool, gccEmitEnabled: bool)

  predicate IsPlan(lanes: seq<LaneName>) {
    lanes == [Constexpr] || lanes == [Emit] || lanes == [Constexpr, Emit]
  }

  function LanesToRun(meta: Meta, mode: Option<Mode>): (lanes: seq<LaneName>)
    ensures IsPlan(lanes)
  {
    var hasEmit := meta.emitTable && meta.emitEnabled && !(meta.gccBackend && !meta.gccEmitEnabled);
    match mode
    case None => if hasEmit then [Constexpr, Emit] else [Constexpr]
    case Some(Both) => [Constexpr, Emit]
    case Some(OnlyConstexpr) => [Constexpr]
    case Some(OnlyEmit) => [Emit]
  }

  // ---- Records ----

  datatype Lane = Lane(
    outcome: Option<Outcome>, furthest: nat, gates: map<Gate, Status>, code: Option<Code>, oracleUsed: bool)

  datatype Result = Result(
    outcome: Option<Outcome>, furthest: nat, gates: map<Gate, Status>,
    lanes: map<LaneName, Lane>, surface: Status, code: Option<Code>, oracleUsed: bool)

  predicate LaneImported(L: Lane) {
    Import in L.gates && L.gates[Import] == Pass
  }

  /** What the orchestrator does to the outside world, in order. */
  datatype Action =
    | RunProbe | BuildOracle | RunOracle | WriteExpected
    | CompileLane(lane: LaneName) | ImportLane(lane: LaneName) | TestLane(lane: LaneName)
    | DiffSurfaces | WriteResult

  // ---- The verdicts in terms of the inputs ----

  predicate OracleOk(w: World) {
    w.oracleExists && w.oracleBuildRc == 0 && w.oracleRunRc == 0 && w.oraclePrints
  }

  predicate Imported(w: World, lane: LaneName) {
    LaneInput(w, lane).compileRc == 0 && LaneInput(w, lane).importRc == 0
  }

  /** The lane built, imported and, where there are tests, passed them. */
  predicate LanePasses(w: World, lane: LaneName) {
    Imported(w, lane) && (w.testsExist ==> LaneInput(w, lane).pytestRc == 0)
  }

  function ImportSignal(i: LaneWorld): string {
    if i.importRc == -11 || i.importRc == 139 then "sigsegv"
    else if i.importSaysError then "import"
    else i.importRcText
  }

  function LaneOutcome(w: World, lane: LaneName): Outcome {
    var i := LaneInput(w, lane);
    if i.compileRc != 0 then B
    else if i.importRc != 0 then C
    else if w.testsExist && i.pytestRc != 0 then D
    else if w.testsExist && OracleOk(w) then E
    else EWeak
  }

  function LaneCode(w: World, lane: LaneName): Option<Code> {
    var i := LaneInput(w, lane);
    if i.compileRc != 0 then Some(BStage(if i.stage.Some? then i.stage.value else "module"))
    else if i.importRc != 0 then Some(CSignal(ImportSignal(i)))
    else if w.testsExist && i.pytestRc != 0 then Some(DValue)
    else None
  }

  function LaneFurthest(w: World, lane: LaneName): nat {
    var i := LaneInput(w, lane);
    if i.compileRc != 0 then 1 else if i.importRc != 0 then 4 else 6
  }

  /** Every executed lane passes, and the surfaces agree where both could be loaded. */
  predicate Clean(w: World, lanes: seq<LaneName>) {
    && w.probeRc == 0
    && (forall l :: l in lanes ==> LanePasses(w, l))
    && (|lanes| == 2 ==> w.surfaceRc == 0)
  }

  predicate SurfaceRuns(w: World, lanes: seq<LaneName>) {
    w.probeRc == 0 && |lanes| == 2 && Imported(w, Constexpr) && Imported(w, Emit)
  }

  // ---- The orchestrator ----

  class Orchestrator {
    const w: World
    var log: seq<Action>
    var bug: Bug

    constructor (w: World)
      ensures this.w == w && log == [] && bug == NoBug
    {
      this.w := w;
      log, bug := [], NoBug;
    }

    /** Only the first suspicion is kept. */
    method Classify(verdict: Bug)
      modifies `bug
      ensures bug == if old(bug) == NoBug then verdict else old(bug)
    {
      if bug == NoBug {
        bug := verdict;
      }
    }

    /** Gates 4, 5 and 6 of one lane.  A lane that passes gate 6 has no outcome yet. */
    method RunLane(lane: LaneName) returns (L: Lane)
      modifies this
      ensures L == FinalRecord(w, lane).(oracleUsed := false, outcome := OpenOutcome(w, lane))
      ensures log == old(log) + LaneActions(w, lane)
      ensures bug == if old(bug) == NoBug then LaneBug(w, lane) else old(bug)
    {
      var i := LaneInput(w, lane);
      L := Lane(None, 1, map[], None, false);
      // gate 4
      log := log + [CompileLane(lane)];
      if i.compileRc != 0 {
        var stage := if i.stage.Some? then i.stage.value else "module";
        L := L.(gates := L.gates[Compile := Fail], outcome := Some(B), code := Some(BStage(stage)));
        if lane != Emit || stage == "emit_gen_compile" || stage == "emit_gen_run" {
          Classify(i.bug);
        }
        return;
      }
      L := L.(gates := L.gates[Compile := Pass], furthest := 4);
      // gate 5
      log := log + [ImportLane(lane)];
      if i.importRc != 0 {
        L := L.(gates := L.gates[Import := Fail], outcome := Some(C), code := Some(CSignal(ImportSignal(i))));
        return;
      }
      L := L.(gates := L.gates[Import := Pass], furthest := 5);
      // gate 6
      if !w.testsExist {
        L := L.(outcome := Some(EWeak), gates := L.gates[Correct := Skip], furthest := 6);
        return;
      }
      log := log + [TestLane(lane)];
      L := L.(gates := L.gates[Correct := if i.pytestRc == 0 then Pass else Fail], furthest := 6);
      if i.pytestRc != 0 {
        L := L.(outcome := Some(D), code := Some(DValue));
      }
    }

    /** Leg 1: build and run the native oracle; on success rewrite the expectations. */
    method RunOracleLeg() returns (hasDiff: bool)
      modifies `log
      ensures hasDiff <==> OracleOk(w)
      ensures log == old(log) + OracleActions(w)
    {
      hasDiff := w.oracleExists;
      if hasDiff {
        log := log + [BuildOracle];
        if w.oracleBuildRc == 0 {
          log := log + [RunOracle];
          if w.oracleRunRc == 0 && w.oraclePrints {
            log := log + [WriteExpected];
          } else {
            hasDiff := false;
          }
        } else {
          hasDiff := false;
        }
      }
    }

    /** One lane to its final record: E and E-weak are told apart by the oracle. */
    method FinishLane(lane: LaneName, hasDiff: bool) returns (L: Lane)
      requires hasDiff <==> OracleOk(w)
      modifies this
      ensures Finished(w, lane, L)
      ensures log == old(log) + LaneActions(w, lane)
      ensures bug == if old(bug) == NoBug then LaneBug(w, lane) else old(bug)
    {
      L := RunLane(lane);
      if L.outcome.None? {
        L := L.(outcome := Some(if hasDiff && w.testsExist then E else EWeak));
      }
      if hasDiff && L.furthest >= 6 {
        L := L.(oracleUsed := true);
      }
    }

    /** All lanes in turn. */
    method RunLanes(lanes: seq<LaneName>, hasDiff: bool) returns (records: map<LaneName, Lane>)
      requires hasDiff <==> OracleOk(w)
      modifies this
      ensures AllFinished(w, lanes, records)
      ensures log == old(log) + LanesActions(w, lanes)
      ensures bug == if old(bug) == NoBug then FirstBug(w, lanes) else old(bug)
    {
      records := map[];
      ghost var goal, bugGoal := log + LanesActions(w, lanes), if bug == NoBug then FirstBug(w, lanes) else bug;
      for n := 0 to |lanes|
        invariant AllFinished(w, lanes[..n], records)
        invariant log + LanesActions(w, lanes[n..]) == goal
        invariant (if bug == NoBug then FirstBug(w, lanes[n..]) else bug) == bugGoal
      {
        NextLane(w, lanes, n, log);
        var L := FinishLane(lanes[n], hasDiff);
        AllFinishedGrows(w, lanes, n, records, L);
        records := records[lanes[n] := L];
      }
      assert lanes[..|lanes|] == lanes;
    }

    /** The whole orchestration and its exit code. */
    method Orchestrate(meta: Meta, mode: Option<Mode>) returns (r: Result, exit: int)
      requires log == [] && bug == NoBug
      modifies this
      ensures r == Summary(w, LanesToRun(meta, mode))
      ensures exit == if Clean(w, LanesToRun(meta, mode)) then 0 else 1
      ensures log == Actions(w, LanesToRun(meta, mode))
      ensures bug == RecordedBug(w, LanesToRun(meta, mode))
    {
      var lanes := LanesToRun(meta, mode);
      r := Result(None, 0, map[], map[], Skip, None, false);
      log := log + [RunProbe];
      if w.probeRc != 0 {
        r := r.(gates := r.gates[Probe := Fail], outcome := Some(A), code := Some(ACompile));
        bug := w.probeBug;
      } else {
        r := AfterProbe(lanes, r.(gates := r.gates[Probe := Pass], furthest := 1));
      }
      exit := Finish(r);
      ExitZeroIffClean(w, lanes);
    }

    method AfterProbe(lanes: seq<LaneName>, r0: Result) returns (r: Result)
      requires w.probeRc == 0 && IsPlan(lanes) && bug == NoBug
      requires r0 == Result(None, 1, map[Probe := Pass], map[], Skip, None, false)
      modifies this
      ensures r == Summary(w, lanes)
      ensures log == old(log) + OracleActions(w) + LanesActions(w, lanes) + SurfaceActions(w, lanes)
      ensures bug == FirstBug(w, lanes)
    {
      var hasDiff := RunOracleLeg();
      var records := RunLanes(lanes, hasDiff);
      var status := RunSurfaceDiff(lanes, records);
      r := Combine(lanes, r0.(oracleUsed := hasDiff, lanes := records, surface := status));
    }

    /** Gate 6b, only when both lanes imported. */
    method RunSurfaceDiff(lanes: seq<LaneName>, records: map<LaneName, Lane>) returns (status: Status)
      requires w.probeRc == 0 && IsPlan(lanes) && AllFinished(w, lanes, records)
      modifies `log
      ensures status == SurfaceStatus(w, lanes)
      ensures log == old(log) + SurfaceActions(w, lanes)
    {
      status := Skip;
      if |lanes| == 2 && LaneImported(records[Constexpr]) && LaneImported(records[Emit]) {
        log := log + [DiffSurfaces];
        status := if w.surfaceRc == 0 then Pass else Fail;
      }
    }

    /** The combined outcome: the worst lane, or D when only the surfaces differ. */
    method Combine(lanes: seq<LaneName>, r0: Result) returns (r: Result)
      requires IsPlan(lanes) && w.probeRc == 0 && AllFinished(w, lanes, r0.lanes)
      requires r0.code == None && r0.surface == SurfaceStatus(w, lanes)
      requires r0.furthest == 1 && r0.gates == map[Probe := Pass] && (r0.oracleUsed <==> OracleOk(w))
      ensures r == Summary(w, lanes)
    {
      r := r0;
      var worst := Worst(lanes, r.lanes);
      if r.surface == Fail && Rank(worst) < Rank(D) {
        worst := D;
        r := r.(code := Some(DSurface));
      }
      r := r.(outcome := Some(worst));
      r := Mirror(lanes, r);
      AllFinishedUnique(w, lanes, r.lanes);
    }

    /** The constexpr lane is mirrored at the top level; a failure not yet explained
        is explained by the constexpr lane, else by the emit lane. */
    method Mirror(lanes: seq<LaneName>, r0: Result) returns (r: Result)
      requires AllFinished(w, lanes, r0.lanes)
      ensures r == r0.(
        code := if r0.code.Some? then r0.code else LanesCode(w, lanes),
        furthest := if Constexpr in lanes then LaneFurthest(w, Constexpr) else r0.furthest,
        gates := r0.gates + (if Constexpr in lanes then LaneGates(w, Constexpr) else map[]))
    {
      r := r0;
      if Constexpr in r.lanes {
        var cx := r.lanes[Constexpr];
        r := r.(gates := r.gates + cx.gates, furthest := cx.furthest);
        if r.code == None && cx.code.Some? {
          r := r.(code := cx.code);
        }
      }
      if Emit in r.lanes {
        if r.code == None && r.lanes[Emit].code.Some? {
          r := r.(code := r.lanes[Emit].code);
        }
      }
    }

    method Worst(lanes: seq<LaneName>, records: map<LaneName, Lane>) returns (worst: Outcome)
      requires lanes != [] && AllFinished(w, lanes, records)
      ensures worst == WorstAmong(w, lanes)
    {
      worst := records[lanes[0]].outcome.value;
      assert lanes[..1] == [lanes[0]];
      for n := 1 to |lanes|
        invariant worst == WorstAmong(w, lanes[..n])
      {
        var o := records[lanes[n]].outcome.value;
        assert lanes[..n + 1][..n] == lanes[..n];
        if Rank(o) > Rank(worst) {
          worst := o;
        }
      }
      assert lanes[..|lanes|] == lanes;
    }

    method Finish(r: Result) returns (exit: int)
      requires r.outcome.Some?
      modifies `log
      ensures exit == if Good(r.outcome.value) && r.surface != Fail then 0 else 1
      ensures log == old(log) + [WriteResult]
    {
      log := log + [WriteResult];
      exit := if Good(r.outcome.value) && r.surface != Fail then 0 else 1;
    }
  }

  function OracleActions(w: World): seq<Action> {
    if !w.oracleExists then []
    else if w.oracleBuildRc != 0 then [BuildOracle]
    else if OracleOk(w) then [BuildOracle, RunOracle, WriteExpected]
    else [BuildOracle, RunOracle]
  }

  function LaneActions(w: World, lane: LaneName): seq<Action> {
    var i := LaneInput(w, lane);
    if i.compileRc != 0 then [CompileLane(lane)]
    else if i.importRc != 0 || !w.testsExist then [CompileLane(lane), ImportLane(lane)]
    else [CompileLane(lane), ImportLane(lane), TestLane(lane)]
  }

  /** The production compiler's diagnostics are never classified. */
  function LaneBug(w: World, lane: LaneName): Bug {
    var i := LaneInput(w, lane);
    if i.compileRc == 0 then NoBug
    else if lane == Emit && i.stage != Some("emit_gen_compile") && i.stage != Some("emit_gen_run") then NoBug
    else i.bug
  }

  function LanesActions(w: World, lanes: seq<LaneName>): seq<Action> {
    if lanes == [] then [] else LaneActions(w, lanes[0]) + LanesActions(w, lanes[1..])
  }

  function FirstBug(w: World, lanes: seq<LaneName>): Bug {
    if lanes == [] then NoBug
    else if LaneBug(w, lanes[0]) != NoBug then LaneBug(w, lanes[0])
    else FirstBug(w, lanes[1..])
  }

  function RecordedBug(w: World, lanes: seq<LaneName>): Bug {
    if w.probeRc != 0 then w.probeBug else FirstBug(w, lanes)
  }

  function LaneGates(w: World, lane: LaneName): map<Gate, Status> {
    var i := LaneInput(w, lane);
    if i.compileRc != 0 then map[Compile := Fail]
    else if i.importRc != 0 then map[Compile := Pass, Import := Fail]
    else if !w.testsExist then map[Compile := Pass, Import := Pass, Correct := Skip]
    else map[Compile := Pass, Import := Pass, Correct := if i.pytestRc == 0 then Pass else Fail]
  }

  /** The final record of a lane. */
  function FinalRecord(w: World, lane: LaneName): Lane {
    Lane(Some(LaneOutcome(w, lane)), LaneFurthest(w, lane), LaneGates(w, lane), LaneCode(w, lane),
         OracleOk(w) && Imported(w, lane))
  }

  /** A lane that passes gate 6 leaves E or E-weak to the caller. */
  function OpenOutcome(w: World, lane: LaneName): Option<Outcome> {
    if w.testsExist && LanePasses(w, lane) then None else Some(LaneOutcome(w, lane))
  }

  predicate Finished(w: World, lane: LaneName, L: Lane) {
    L == FinalRecord(w, lane)
  }

  function SurfaceStatus(w: World, lanes: seq<LaneName>): Status {
    if !SurfaceRuns(w, lanes) then Skip else if w.surfaceRc == 0 then Pass else Fail
  }

  ghost predicate AllFinished(w: World, lanes: seq<LaneName>, records: map<LaneName, Lane>) {
    forall l :: (l in records <==> l in lanes) && (l in lanes ==> Finished(w, l, records[l]))
  }

  lemma NextLane(w: World, lanes: seq<LaneName>, n: nat, log: seq<Action>)
    requires n < |lanes|
    ensures log + LanesActions(w, lanes[n..]) == log + LaneActions(w, lanes[n]) + LanesActions(w, lanes[n + 1..])
    ensures FirstBug(w, lanes[n..]) ==
      if LaneBug(w, lanes[n]) != NoBug then LaneBug(w, lanes[n]) else FirstBug(w, lanes[n + 1..])
  {
    assert lanes[n..][1..] == lanes[n + 1..];
  }

  lemma AllFinishedGrows(w: World, lanes: seq<LaneName>, n: nat, records: map<LaneName, Lane>, L: Lane)
    requires n < |lanes| && AllFinished(w, lanes[..n], records) && Finished(w, lanes[n], L)
    ensures AllFinished(w, lanes[..n + 1], records[lanes[n] := L])
  {
    assert lanes[..n + 1] == lanes[..n] + [lanes[n]];
  }

  lemma AllFinishedUnique(w: World, lanes: seq<LaneName>, records: map<LaneName, Lane>)
    requires AllFinished(w, lanes, records)
    ensures records == map l | l in lanes :: FinalRecord(w, l)
  {}

  function WorstAmong(w: World, lanes: seq<LaneName>): Outcome
    requires lanes != []
  {
    var last := LaneOutcome(w, lanes[|lanes| - 1]);
    if |lanes| == 1 then last
    else
      var before := WorstAmong(w, lanes[..|lanes| - 1]);
      if Rank(last) > Rank(before) then last else before
  }

  function Verdict(w: World, lanes: seq<LaneName>): Outcome
    requires lanes != []
  {
    if w.probeRc != 0 then A
    else if SurfaceStatus(w, lanes) == Fail && Rank(WorstAmong(w, lanes)) < Rank(D) then D
    else WorstAmong(w, lanes)
  }

  function LanesCode(w: World, lanes: seq<LaneName>): Option<Code> {
    if Constexpr in lanes && LaneCode(w, Constexpr).Some? then LaneCode(w, Constexpr)
    else if Emit in lanes then LaneCode(w, Emit)
    else None
  }

  function VerdictCode(w: World, lanes: seq<LaneName>): Option<Code>
    requires lanes != []
  {
    if w.probeRc != 0 then Some(ACompile)
    else if SurfaceStatus(w, lanes) == Fail && Rank(WorstAmong(w, lanes)) < Rank(D) then Some(DSurface)
    else LanesCode(w, lanes)
  }

  function Actions(w: World, lanes: seq<LaneName>): seq<Action> {
    if w.probeRc != 0 then [RunProbe, WriteResult]
    else
      [RunProbe] + OracleActions(w) + LanesActions(w, lanes) + SurfaceActions(w, lanes) + [WriteResult]
  }

  function SurfaceActions(w: World, lanes: seq<LaneName>): seq<Action> {
    if SurfaceRuns(w, lanes) then [DiffSurfaces] else []
  }

  /** The whole result. */
  function Summary(w: World, lanes: seq<LaneName>): Result
    requires IsPlan(lanes)
  {
    if w.probeRc != 0 then Result(Some(A), 0, map[Probe := Fail], map[], Skip, Some(ACompile), false)
    else
      var cx := Constexpr in lanes;
      Result(
        Some(Verdict(w, lanes)),
        if cx then LaneFurthest(w, Constexpr) else 1,
        map[Probe := Pass] + (if cx then LaneGates(w, Constexpr) else map[]),
        map l | l in lanes :: FinalRecord(w, l),
        SurfaceStatus(w, lanes), VerdictCode(w, lanes), OracleOk(w))
  }

  predicate ExitsZero(w: World, lanes: seq<LaneName>)
    requires lanes != []
  {
    Good(Verdict(w, lanes)) && SurfaceStatus(w, lanes) != Fail
  }

  // ---- The exit code in terms of the commands ----

  lemma LaneGoodIffPasses(w: World, lane: LaneName)
    ensures Good(LaneOutcome(w, lane)) <==> LanePasses(w, lane)
    ensures LaneCode(w, lane).Some? <==> !LanePasses(w, lane)
    ensures LaneCode(w, lane).Some? ==> Letter(LaneCode(w, lane).value) == LaneOutcome(w, lane)
    ensures LaneOutcome(w, lane) == E <==> LanePasses(w, lane) && w.testsExist && OracleOk(w)
  {}

  /** The worst lane is one of the executed lanes and none is worse. */
  lemma {:induction false} WorstIsWorst(w: World, lanes: seq<LaneName>)
    requires lanes != []
    ensures exists l :: l in lanes && LaneOutcome(w, l) == WorstAmong(w, lanes)
    ensures forall l :: l in lanes ==> Rank(LaneOutcome(w, l)) <= Rank(WorstAmong(w, lanes))
    decreases |lanes|
  {
    var front, last := lanes[..|lanes| - 1], lanes[|lanes| - 1];
    assert lanes == front + [last] && last in lanes;
    if |lanes| > 1 {
      WorstIsWorst(w, front);
      var l :| l in front && LaneOutcome(w, l) == WorstAmong(w, front);
      assert l in lanes;
    }
  }

  /** Exit code 0 iff the probe passed, every executed lane built, imported and
      passed its tests, and with two lanes the surface diff found nothing. */
  lemma ExitZeroIffClean(w: World, lanes: seq<LaneName>)
    requires IsPlan(lanes)
    ensures ExitsZero(w, lanes) <==> Clean(w, lanes)
  {
    LaneGoodIffPasses(w, Constexpr);
    LaneGoodIffPasses(w, Emit);
    WorstIsWorst(w, lanes);
    RankGood(WorstAmong(w, lanes));
    forall l | l in lanes ensures Good(LaneOutcome(w, l)) <==> Rank(LaneOutcome(w, l)) <= 1 {
      RankGood(LaneOutcome(w, l));
    }
  }

  lemma RankGood(o: Outcome)
    ensures Good(o) <==> Rank(o) <= 1
    ensures o == E <==> Rank(o) == 0
  {}
}
