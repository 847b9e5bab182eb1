/** What the verdict of the orchestrator certifies, for all results of all commands. */
module GateLaws {
  import opened Common
  import opened Gates

  // ---- Outcomes in terms of the commands ----

  /** Outcome E iff, besides, the oracle produced its expectations and there are tests. */
  lemma OutcomeEIff(w: World, lanes: seq<LaneName>)
    requires IsPlan(lanes)
    ensures Verdict(w, lanes) == E <==> Clean(w, lanes) && OracleOk(w) && w.testsExist
  {
    ExitZeroIffClean(w, lanes);
    LaneGoodIffPasses(w, Constexpr);
    LaneGoodIffPasses(w, Emit);
    WorstIsWorst(w, lanes);
    RankGood(WorstAmong(w, lanes));
    forall l | l in lanes ensures LaneOutcome(w, l) == E <==> Rank(LaneOutcome(w, l)) == 0 {
      RankGood(LaneOutcome(w, l));
    }
  }

  /** With two lanes exit code 0 means that the surfaces were compared and agreed. */
  lemma TwoLanesComparedWhenClean(w: World)
    requires Clean(w, [Constexpr, Emit])
    ensures SurfaceStatus(w, [Constexpr, Emit]) == Pass
    ensures DiffSurfaces in Actions(w, [Constexpr, Emit])
  {
    assert LanePasses(w, Constexpr) && LanePasses(w, Emit) by {
      assert Constexpr in [Constexpr, Emit] && Emit in [Constexpr, Emit];
    }
  }

  /** The documented reading: every executed lane good and the surface diff passed. */
  predicate DocumentedExit(w: World, lanes: seq<LaneName>) {
    (w.probeRc == 0 ==> forall l :: l in lanes ==> Good(LaneOutcome(w, l))) && SurfaceStatus(w, lanes) == Pass
  }

  ghost predicate DocumentedAlways(lanes: seq<LaneName>)
    requires lanes != []
  {
    forall w :: ExitsZero(w, lanes) <==> DocumentedExit(w, lanes)
  }

  const CLEAN_LANE: LaneWorld := LaneWorld(0, None, NoBug, 0, false, "0", 0)

  /** Every command succeeds. */
  const CLEAN_WORLD: World := World(0, NoBug, true, 0, 0, true, true, CLEAN_LANE, CLEAN_LANE, 0)

  /** It is right for every machine iff two lanes run: a single lane exits 0 with the
      surface diff skipped. */
  lemma DocumentedIffTwoLanes(lanes: seq<LaneName>)
    requires IsPlan(lanes)
    ensures DocumentedAlways(lanes) <==> |lanes| == 2
  {
    if |lanes| == 2 {
      forall w ensures ExitsZero(w, lanes) <==> DocumentedExit(w, lanes) {
        ExitZeroIffClean(w, lanes);
        LaneGoodIffPasses(w, Constexpr);
        LaneGoodIffPasses(w, Emit);
        if Clean(w, lanes) { TwoLanesComparedWhenClean(w); }
      }
    } else {
      ExitZeroIffClean(CLEAN_WORLD, lanes);
      assert Clean(CLEAN_WORLD, lanes);
      assert !DocumentedExit(CLEAN_WORLD, lanes);
    }
  }

  // ---- Failure codes ----

  /** A failure code is recorded iff the outcome is neither E nor E-weak. */
  lemma CodeIffBad(w: World, lanes: seq<LaneName>)
    requires IsPlan(lanes)
    ensures VerdictCode(w, lanes).Some? <==> !Good(Verdict(w, lanes))
  {
    LaneGoodIffPasses(w, Constexpr);
    LaneGoodIffPasses(w, Emit);
    WorstIsWorst(w, lanes);
    RankGood(WorstAmong(w, lanes));
    RankGood(LaneOutcome(w, Constexpr));
    RankGood(LaneOutcome(w, Emit));
  }

  /** The reported code explains the reported outcome, unless both lanes failed and
      the emit lane failed earlier: then the milder constexpr failure is reported. */
  lemma CodeExplainsOutcomeIff(w: World, lanes: seq<LaneName>)
    requires IsPlan(lanes) && VerdictCode(w, lanes).Some?
    ensures Letter(VerdictCode(w, lanes).value) == Verdict(w, lanes) <==>
      !(w.probeRc == 0 && |lanes| == 2 && !LanePasses(w, Constexpr)
        && Rank(LaneOutcome(w, Constexpr)) < Rank(LaneOutcome(w, Emit)))
  {
    LaneGoodIffPasses(w, Constexpr);
    LaneGoodIffPasses(w, Emit);
    RankGood(LaneOutcome(w, Constexpr));
    RankGood(LaneOutcome(w, Emit));
    if |lanes| == 2 {
      assert lanes[..1] == [Constexpr];
      assert WorstAmong(w, [Constexpr]) == LaneOutcome(w, Constexpr);
    }
  }

  /** Both lanes fail, the emit lane worse: the code names D, the outcome is B. */
  lemma MilderCodeReported(stage: string)
    ensures
      var cx, em := CLEAN_LANE.(pytestRc := 1), CLEAN_LANE.(compileRc := 1, stage := Some(stage));
      var (w, lanes) := (CLEAN_WORLD.(constexpr := cx, emit := em), [Constexpr, Emit]);
      VerdictCode(w, lanes) == Some(DValue) && Verdict(w, lanes) == B
  {
    var cx, em := CLEAN_LANE.(pytestRc := 1), CLEAN_LANE.(compileRc := 1, stage := Some(stage));
    var w, lanes := CLEAN_WORLD.(constexpr := cx, emit := em), [Constexpr, Emit];
    assert LaneOutcome(w, Constexpr) == D && LaneOutcome(w, Emit) == B;
    assert lanes[..1] == [Constexpr];
    assert WorstAmong(w, [Constexpr]) == D;
  }

  // ---- The outcome and the recorded bug in terms of the commands ----

  /** The outcome is that of the earliest gate that failed in any lane; a surface
      difference counts as wrong behaviour. */
  lemma VerdictIff(w: World, lanes: seq<LaneName>)
    requires IsPlan(lanes)
    ensures
      var v := Verdict(w, lanes);
      var ok := w.probeRc == 0;
      var built := forall l :: l in lanes ==> LaneInput(w, l).compileRc == 0;
      var loaded := forall l :: l in lanes ==> Imported(w, l);
      && (v == A <==> !ok)
      && (v == B <==> ok && !built)
      && (v == C <==> ok && built && !loaded)
      && (v == D <==> ok && loaded && !Clean(w, lanes))
      && (Good(v) <==> Clean(w, lanes))
  {
    WorstIsWorst(w, lanes);
    ExitZeroIffClean(w, lanes);
  }

  /** Only the first diagnostics that were taken for a toolchain bug are recorded, those
      of the probe or of a failed compile, and of the emit lane only its generator's. */
  lemma RecordedBugIs(w: World, lanes: seq<LaneName>)
    requires IsPlan(lanes)
    ensures RecordedBug(w, lanes) ==
      if w.probeRc != 0 then w.probeBug
      else if Constexpr in lanes && w.constexpr.compileRc != 0 && w.constexpr.bug != NoBug then w.constexpr.bug
      else if Emit in lanes && w.emit.compileRc != 0 && w.emit.stage in {Some("emit_gen_compile"), Some("emit_gen_run")}
        then w.emit.bug
      else NoBug
  {
    assert FirstBug(w, []) == NoBug;
    if |lanes| == 2 {
      assert lanes[1..] == [Emit] && [Emit][1..] == [];
      assert FirstBug(w, [Emit]) == LaneBug(w, Emit);
    } else {
      assert lanes[1..] == [];
      assert FirstBug(w, lanes) == LaneBug(w, lanes[0]);
    }
  }

  /** A toolchain bug is recorded only where something failed to compile, and then
      the outcome says so: A for the probe, B for a lane. */
  lemma BugMeansBuildFailure(w: World, lanes: seq<LaneName>)
    requires IsPlan(lanes) && RecordedBug(w, lanes) != NoBug
    ensures Verdict(w, lanes) == (if w.probeRc != 0 then A else B) && !Clean(w, lanes)
  {
    RecordedBugIs(w, lanes);
    VerdictIff(w, lanes);
  }

  // ---- Which expectations the tests ran against ----

  /** a happens, and b happens only after the first a. */
  ghost predicate FirstThen(log: seq<Action>, a: Action, b: Action) {
    exists i :: 0 <= i < |log| && log[i] == a && forall j :: 0 <= j < |log| && log[j] == b ==> i < j
  }

  /** Outcome E: the oracle rewrote the expectations in this very run, and after
      that every executed lane ran its tests against them. */
  lemma OutcomeEIsFresh(w: World, lanes: seq<LaneName>, lane: LaneName)
    requires IsPlan(lanes) && Verdict(w, lanes) == E && lane in lanes
    ensures TestLane(lane) in Actions(w, lanes)
    ensures FirstThen(Actions(w, lanes), WriteExpected, TestLane(lane))
  {
    OutcomeEIff(w, lanes);
    var log := Actions(w, lanes);
    var before := [RunProbe] + OracleActions(w);
    var rest := LanesActions(w, lanes) + SurfaceActions(w, lanes) + [WriteResult];
    assert log == before + rest;
    assert log[3] == before[3] == WriteExpected;
    LaneIsTested(w, lanes, lane);
    assert TestLane(lane) in rest;
  }

  lemma {:induction false} LaneIsTested(w: World, lanes: seq<LaneName>, lane: LaneName)
    requires lane in lanes && w.testsExist && LanePasses(w, lane)
    ensures TestLane(lane) in LanesActions(w, lanes)
    decreases |lanes|
  {
    if lanes[0] != lane {
      assert lanes == [lanes[0]] + lanes[1..];
      LaneIsTested(w, lanes[1..], lane);
    }
  }

  lemma {:induction false} LanesDoNotWrite(w: World, lanes: seq<LaneName>)
    ensures WriteExpected !in LanesActions(w, lanes)
    decreases |lanes|
  {
    if lanes != [] { LanesDoNotWrite(w, lanes[1..]); }
  }

  /** Exit code 0 alone does not say so: it does iff the oracle succeeded; without
      it the lanes were tested against whatever expectations were there before. */
  lemma CleanRunIsFreshIffOracleOk(w: World, lanes: seq<LaneName>)
    requires IsPlan(lanes) && Clean(w, lanes)
    ensures ExitsZero(w, lanes)
    ensures WriteExpected in Actions(w, lanes) <==> OracleOk(w)
    ensures !OracleOk(w) ==> Verdict(w, lanes) == EWeak
  {
    ExitZeroIffClean(w, lanes);
    OutcomeEIff(w, lanes);
    LanesDoNotWrite(w, lanes);
    if OracleOk(w) {
      assert OracleActions(w)[2] == WriteExpected;
    } else {
      assert WriteExpected !in OracleActions(w);
      assert WriteExpected !in SurfaceActions(w, lanes);
    }
  }

  /** The oracle fails to build: exit code 0, and the expectations are as they were. */
  lemma StaleRunExitsZero(lanes: seq<LaneName>)
    requires IsPlan(lanes)
    ensures
      var w := CLEAN_WORLD.(oracleBuildRc := 1);
      ExitsZero(w, lanes) && Verdict(w, lanes) == EWeak && WriteExpected !in Actions(w, lanes)
  {
    CleanRunIsFreshIffOracleOk(CLEAN_WORLD.(oracleBuildRc := 1), lanes);
  }
}
