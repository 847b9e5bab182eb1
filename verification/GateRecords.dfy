/** What the records of the orchestrator say, in terms of the commands that ran and
    of one another. */
module GateRecords {
  import opened Common
  import opened Gates
  import opened GateLaws

  // ---- Which lanes run ----

  /** A lane is compiled iff the probe passed and the mode asks for it; without a mode
      the constexpr lane always runs, and the emit lane iff the run has an enabled emit
      table that the gcc backend does not switch off. */
  lemma LanesCompiledIff(w: World, meta: Meta, mode: Option<Mode>)
    ensures
      var log := Actions(w, LanesToRun(meta, mode));
      var byDefault := meta.emitTable && meta.emitEnabled && (meta.gccBackend ==> meta.gccEmitEnabled);
      && (CompileLane(Constexpr) in log <==>
            w.probeRc == 0 && (mode == None || mode == Some(OnlyConstexpr) || mode == Some(Both)))
      && (CompileLane(Emit) in log <==>
            w.probeRc == 0 && (mode == Some(OnlyEmit) || mode == Some(Both) || (mode == None && byDefault)))
  {
    ActionsIff(w, LanesToRun(meta, mode), Constexpr);
    ActionsIff(w, LanesToRun(meta, mode), Emit);
  }

  // ---- Which commands run, and in which order ----

  lemma {:induction false} LaneActionsIff(w: World, lanes: seq<LaneName>, a: Action)
    ensures a in LanesActions(w, lanes) <==> exists l :: l in lanes && a in LaneActions(w, l)
    decreases |lanes|
  {
    if lanes != [] {
      LaneActionsIff(w, lanes[1..], a);
      assert lanes == [lanes[0]] + lanes[1..];
    }
  }

  lemma OneLaneIff(w: World, l: LaneName, lane: LaneName)
    ensures
      var (log, i) := (LaneActions(w, l), LaneInput(w, lane));
      && (CompileLane(lane) in log <==> l == lane)
      && (ImportLane(lane) in log <==> l == lane && i.compileRc == 0)
      && (TestLane(lane) in log <==> l == lane && i.compileRc == 0 && i.importRc == 0 && w.testsExist)
  {}

  lemma OnlyLanesCompile(w: World, lanes: seq<LaneName>, a: Action)
    requires a.CompileLane? || a.ImportLane? || a.TestLane?
    ensures a in Actions(w, lanes) <==> w.probeRc == 0 && a in LanesActions(w, lanes)
  {}

  /** Every lane that is to run is compiled if the probe passes; it is imported iff it
      compiled, and tested iff it was imported and there are tests. */
  lemma ActionsIff(w: World, lanes: seq<LaneName>, lane: LaneName)
    requires IsPlan(lanes)
    ensures
      var (log, i) := (Actions(w, lanes), LaneInput(w, lane));
      && (CompileLane(lane) in log <==> w.probeRc == 0 && lane in lanes)
      && (ImportLane(lane) in log <==> CompileLane(lane) in log && i.compileRc == 0)
      && (TestLane(lane) in log <==> ImportLane(lane) in log && i.importRc == 0 && w.testsExist)
  {
    forall a | a in {CompileLane(lane), ImportLane(lane), TestLane(lane)}
      ensures a in Actions(w, lanes) <==> w.probeRc == 0 && lane in lanes && a in LaneActions(w, lane)
    {
      OnlyLanesCompile(w, lanes, a);
      LaneActionsIff(w, lanes, a);
      forall l ensures a in LaneActions(w, l) ==> l == lane { OneLaneIff(w, l, lane); }
    }
    OneLaneIff(w, lane, lane);
  }

  lemma OnlyTheOracle(w: World, lanes: seq<LaneName>, a: Action)
    requires a in {BuildOracle, RunOracle, WriteExpected}
    ensures a in Actions(w, lanes) <==> w.probeRc == 0 && a in OracleActions(w)
  {
    LaneActionsIff(w, lanes, a);
    forall l ensures a !in LaneActions(w, l) {}
  }

  /** The oracle is built if there is one, run if it built, and its output kept if it
      succeeded and printed. */
  lemma OracleActionsIff(w: World, lanes: seq<LaneName>)
    ensures
      var log := Actions(w, lanes);
      && (BuildOracle in log <==> w.probeRc == 0 && w.oracleExists)
      && (RunOracle in log <==> BuildOracle in log && w.oracleBuildRc == 0)
      && (WriteExpected in log <==> RunOracle in log && w.oracleRunRc == 0 && w.oraclePrints)
  {
    OnlyTheOracle(w, lanes, BuildOracle);
    OnlyTheOracle(w, lanes, RunOracle);
    OnlyTheOracle(w, lanes, WriteExpected);
  }

  lemma OnlyTheDiff(w: World, lanes: seq<LaneName>)
    ensures DiffSurfaces in Actions(w, lanes) <==> SurfaceRuns(w, lanes)
  {
    LaneActionsIff(w, lanes, DiffSurfaces);
    forall l ensures DiffSurfaces !in LaneActions(w, l) {}
    assert DiffSurfaces !in OracleActions(w);
  }

  /** The surfaces are compared iff two lanes were imported. */
  lemma DiffIff(w: World, lanes: seq<LaneName>)
    requires IsPlan(lanes)
    ensures DiffSurfaces in Actions(w, lanes) <==>
      |lanes| == 2 && ImportLane(Constexpr) in Actions(w, lanes) && ImportLane(Emit) in Actions(w, lanes)
      && w.constexpr.importRc == 0 && w.emit.importRc == 0
  {
    OnlyTheDiff(w, lanes);
    ActionsIff(w, lanes, Constexpr);
    ActionsIff(w, lanes, Emit);
  }

  /** The stages of a run. */
  function Stage(a: Action): nat {
    match a
    case RunProbe => 0
    case BuildOracle => 1
    case RunOracle => 2
    case WriteExpected => 3
    case CompileLane(l) => if l == Constexpr then 4 else 7
    case ImportLane(l) => if l == Constexpr then 5 else 8
    case TestLane(l) => if l == Constexpr then 6 else 9
    case DiffSurfaces => 10
    case WriteResult => 11
  }

  ghost predicate Rising(log: seq<Action>) {
    forall i, j :: 0 <= i < j < |log| ==> Stage(log[i]) < Stage(log[j])
  }

  ghost predicate Within(log: seq<Action>, low: nat, high: nat) {
    forall i :: 0 <= i < |log| ==> low <= Stage(log[i]) <= high
  }

  lemma RisingJoin(xs: seq<Action>, ys: seq<Action>, a: nat, b: nat, c: nat, d: nat)
    requires Rising(xs) && Rising(ys) && Within(xs, a, b) && Within(ys, c, d) && a <= c && b < c && b <= d
    ensures Rising(xs + ys) && Within(xs + ys, a, d)
  {}

  lemma LanesRise(w: World, lanes: seq<LaneName>)
    requires IsPlan(lanes)
    ensures Rising(LanesActions(w, lanes)) && Within(LanesActions(w, lanes), 4, 9)
  {
    LaneRises(w, Constexpr);
    LaneRises(w, Emit);
    assert LanesActions(w, []) == [];
    if |lanes| == 2 {
      assert lanes[1..] == [Emit] && [Emit][1..] == [];
      RisingJoin(LaneActions(w, Constexpr), LaneActions(w, Emit), 4, 6, 7, 9);
      assert LanesActions(w, [Emit]) == LaneActions(w, Emit);
    } else {
      assert lanes[1..] == [];
      assert LanesActions(w, lanes) == LaneActions(w, lanes[0]);
    }
  }

  lemma LaneRises(w: World, lane: LaneName)
    ensures Rising(LaneActions(w, lane))
    ensures if lane == Constexpr then Within(LaneActions(w, lane), 4, 6) else Within(LaneActions(w, lane), 7, 9)
  {}

  lemma OracleRises(w: World)
    ensures Rising(OracleActions(w)) && Within(OracleActions(w), 1, 3)
  {}

  lemma SurfaceRises(w: World, lanes: seq<LaneName>)
    ensures Rising(SurfaceActions(w, lanes)) && Within(SurfaceActions(w, lanes), 10, 10)
  {}

  lemma FiveRise(a: seq<Action>, b: seq<Action>, c: seq<Action>, d: seq<Action>, e: seq<Action>)
    requires Rising(a) && Within(a, 0, 0) && Rising(b) && Within(b, 1, 3) && Rising(c) && Within(c, 4, 9)
    requires Rising(d) && Within(d, 10, 10) && Rising(e) && Within(e, 11, 11)
    ensures Rising(a + b + c + d + e)
  {
    RisingJoin(a, b, 0, 0, 1, 3);
    RisingJoin(a + b, c, 0, 3, 4, 9);
    RisingJoin(a + b + c, d, 0, 9, 10, 10);
    RisingJoin(a + b + c + d, e, 0, 10, 11, 11);
  }

  /** The stages come in order, each at most once: the probe first, the oracle before
      the lanes, the constexpr lane before the emit lane, the result last. */
  lemma ActionsRise(w: World, lanes: seq<LaneName>)
    requires IsPlan(lanes)
    ensures Rising(Actions(w, lanes))
    ensures Actions(w, lanes)[0] == RunProbe && Actions(w, lanes)[|Actions(w, lanes)| - 1] == WriteResult
  {
    if w.probeRc == 0 {
      var oracle, laneLog, diff := OracleActions(w), LanesActions(w, lanes), SurfaceActions(w, lanes);
      assert Rising(oracle) && Within(oracle, 1, 3) by { OracleRises(w); }
      assert Rising(laneLog) && Within(laneLog, 4, 9) by { LanesRise(w, lanes); }
      assert Rising(diff) && Within(diff, 10, 10) by { SurfaceRises(w, lanes); }
      FiveRise([RunProbe], oracle, laneLog, diff, [WriteResult]);
      assert Actions(w, lanes) == [RunProbe] + oracle + laneLog + diff + [WriteResult];
    } else {
      assert Actions(w, lanes) == [RunProbe, WriteResult];
    }
  }

  // ---- The record of one lane ----

  /** The gates of a lane are those it reached, each with its result; the outcome, the
      failure code and the furthest gate are those of the first gate that failed. */
  lemma LaneRecordAgrees(w: World, lane: LaneName)
    ensures
      var (L, i) := (FinalRecord(w, lane), LaneInput(w, lane));
      && Compile in L.gates && L.gates[Compile] == (if i.compileRc == 0 then Pass else Fail)
      && (Import in L.gates <==> L.gates[Compile] == Pass)
      && (Import in L.gates ==> L.gates[Import] == if i.importRc == 0 then Pass else Fail)
      && (Correct in L.gates <==> Import in L.gates && L.gates[Import] == Pass)
      && (Correct in L.gates ==>
            L.gates[Correct] == if !w.testsExist then Skip else if i.pytestRc == 0 then Pass else Fail)
      && Probe !in L.gates
      && (L.outcome == Some(B) <==> L.gates[Compile] == Fail)
      && (L.outcome == Some(C) <==> Import in L.gates && L.gates[Import] == Fail)
      && (L.outcome == Some(D) <==> Correct in L.gates && L.gates[Correct] == Fail)
      && (L.outcome == Some(E) <==> Correct in L.gates && L.gates[Correct] == Pass && OracleOk(w))
      && L.outcome.Some? && L.outcome != Some(A)
      && (L.furthest == 1 <==> L.outcome == Some(B)) && (L.furthest == 4 <==> L.outcome == Some(C))
      && (L.furthest == 6 <==> Correct in L.gates)
      && (L.code.Some? ==> L.outcome == Some(Letter(L.code.value)))
      && (L.code.None? <==> Good(L.outcome.value))
      && (L.oracleUsed <==> OracleOk(w) && Correct in L.gates)
  {}

  /** The signal of a failed import: a segmentation fault by its exit status, else an
      error that was named, else the status itself. */
  lemma SignalOfImport(w: World, lane: LaneName)
    requires LaneOutcome(w, lane) == C
    ensures
      var i := LaneInput(w, lane);
      exists signal :: LaneCode(w, lane) == Some(CSignal(signal))
        && (i.importRc in {-11, 139} ==> signal == "sigsegv")
        && (i.importRc !in {-11, 139} && i.importSaysError ==> signal == "import")
        && (i.importRc !in {-11, 139} && !i.importSaysError ==> signal == i.importRcText)
  {
    assert LaneCode(w, lane) == Some(CSignal(ImportSignal(LaneInput(w, lane))));
  }

  // ---- The outcome of the run ----

  /** The failure code of a run: that of the surface diff iff it alone failed, else that
      of the constexpr lane, else that of the emit lane. */
  lemma CodeIs(w: World, lanes: seq<LaneName>)
    requires IsPlan(lanes) && w.probeRc == 0
    ensures
      var code := VerdictCode(w, lanes);
      var passed := forall l :: l in lanes ==> LanePasses(w, l);
      && (code == Some(DSurface) <==> passed && |lanes| == 2 && w.surfaceRc != 0)
      && (!passed && Constexpr in lanes && !LanePasses(w, Constexpr) ==> code == LaneCode(w, Constexpr))
      && (!passed && (Constexpr in lanes ==> LanePasses(w, Constexpr)) ==> code == LaneCode(w, Emit))
  {
    LaneGoodIffPasses(w, Constexpr);
    LaneGoodIffPasses(w, Emit);
    WorstIsWorst(w, lanes);
    ExitZeroIffClean(w, lanes);
  }

  /** A failed build is filed under the stage it reports, or under the module as a whole. */
  lemma BuildCodeIs(w: World, lane: LaneName)
    requires LaneOutcome(w, lane) == B
    ensures
      var stage := LaneInput(w, lane).stage;
      exists s :: LaneCode(w, lane) == Some(BStage(s)) && if stage.None? then s == "module" else stage == Some(s)
  {
    var stage := LaneInput(w, lane).stage;
    var s := if stage.Some? then stage.value else "module";
    assert LaneCode(w, lane) == Some(BStage(s));
  }

  /** The top level repeats the constexpr lane, and the probe. */
  lemma SummaryMirrors(w: World, lanes: seq<LaneName>)
    requires IsPlan(lanes)
    ensures
      var r := Summary(w, lanes);
      && r.outcome == Some(Verdict(w, lanes)) && r.code == VerdictCode(w, lanes)
      && Probe in r.gates && r.gates[Probe] == (if w.probeRc == 0 then Pass else Fail)
      && (w.probeRc != 0 ==> r.lanes == map[] && r.furthest == 0 && r.surface == Skip && r.gates.Keys == {Probe})
      && (w.probeRc == 0 ==>
            && r.lanes.Keys == Elements(lanes)
            && (forall l :: l in r.lanes ==> r.lanes[l] == FinalRecord(w, l))
            && (Constexpr in lanes ==>
                  r.furthest == r.lanes[Constexpr].furthest
                  && forall g :: g != Probe ==>
                       (g in r.gates <==> g in r.lanes[Constexpr].gates)
                       && (g in r.gates ==> r.gates[g] == r.lanes[Constexpr].gates[g]))
            && (Constexpr !in lanes ==> r.furthest == 1 && r.gates.Keys == {Probe}))
  {
    assert forall l :: Probe !in LaneGates(w, l);
  }

  /** What it says of the surfaces and of the oracle is what was done. */
  lemma SummaryTellsActions(w: World, lanes: seq<LaneName>)
    requires IsPlan(lanes)
    ensures
      var (r, log) := (Summary(w, lanes), Actions(w, lanes));
      && (r.surface == Pass <==> DiffSurfaces in log && w.surfaceRc == 0)
      && (r.surface == Fail <==> DiffSurfaces in log && w.surfaceRc != 0)
      && (r.oracleUsed <==> WriteExpected in log)
  {
    OnlyTheDiff(w, lanes);
    OnlyTheOracle(w, lanes, WriteExpected);
  }
}
