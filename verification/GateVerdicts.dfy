/** When a NO-GO keeps the build stages from executing: over whole sessions, with the limit
  * on the steps of a call. */
module GateVerdicts {
  import opened Wrappers
  import opened Planning
  import opened WorkflowGraph
  import opened Engine
  import opened Ways
  import opened Sessions
  import opened Sequences

  // In this session, no build stage executes once the gate has said NO-GO.
  ghost predicate NoGoHolds(s: Session) {
    forall m: nat, k: nat :: Keeps(s, m) && k < |At(s, m).history| && At(s, m).history[k].gate == Some(NoGo) ==>
      At(s, m).history[k].stage !in BUILD_STAGES
  }

  // In every session of the stage list.
  ghost predicate NoGoAlwaysHolds(chosen: seq<string>, templates: map<string, Template>, maxRetries: nat) {
    forall s: Session :: LivesOn(s, chosen, templates, maxRetries) ==> NoGoHolds(s)
  }

  // No stage that is served on the way after the verdict is a build stage.
  ghost predicate NothingBuilt(r: Route)
    requires Drawn(r)
  {
    forall n: nat :: n < 2 * |r.chosen| && Served(CourseOf(r), n) && IsGated(r, n) ==>
      r.chosen[Way(CourseOf(r), n).value.place] !in BUILD_STAGES
  }

  lemma NothingBuiltHolds(s: Session, r: Route)
    requires Lives(s) && r == Route(s.chosen, s.templates, NoGo) && NothingBuilt(r)
    ensures NoGoHolds(s)
  {
    forall m: nat, k: nat | Keeps(s, m) && k < |At(s, m).history| && At(s, m).history[k].gate == Some(NoGo)
      ensures At(s, m).history[k].stage !in BUILD_STAGES
    {
      var _ := SessionStaysOnWay(s, r, m);
      var stage := At(s, m).history[k].stage;
      assert ServedAfterGate(r, stage);
      var n: nat :| Served(CourseOf(r), n) && Stands(r, n, stage) && IsGated(r, n);
      var _ := MetBeforeRepeating(CourseOf(r), n);
    }
  }

  lemma BuiltAfterNoGo(s: Session, r: Route, n: nat)
    requires Smooth(s, r) && r.verdict.NoGo? && Served(CourseOf(r), n) && IsGated(r, n)
    requires r.chosen[Way(CourseOf(r), n).value.place] in BUILD_STAGES
    ensures !NoGoHolds(s)
  {
    ServedIsExecuted(s, r, n);
    assert At(s, n).history[n].stage in BUILD_STAGES;
  }

  /** Exactly when a NO-GO holds, for every stage list: no run executes a build stage after
    * NO-GO if and only if none is met on the way behind the gate -- from the report if it is
    * planned -- before a call meets the limit. */
  lemma NoGoHoldsExactlyWhenNothingIsBuilt(chosen: seq<string>, templates: map<string, Template>, maxRetries: nat)
    requires Chosen(chosen, templates)
    ensures NoGoAlwaysHolds(chosen, templates, maxRetries) <==> NothingBuilt(Route(chosen, templates, NoGo))
  {
    var r := Route(chosen, templates, NoGo);
    if NothingBuilt(r) {
      forall s: Session | LivesOn(s, chosen, templates, maxRetries) ensures NoGoHolds(s) {
        NothingBuiltHolds(s, r);
      }
    } else {
      var n: nat :| n < 2 * |chosen| && Served(CourseOf(r), n) && IsGated(r, n)
        && r.chosen[Way(CourseOf(r), n).value.place] in BUILD_STAGES;
      SmoothSessionLives(r, maxRetries);
      BuiltAfterNoGo(SmoothSession(r, maxRetries), r, n);
    }
  }

  // ---- Distinct stages ----

  // The report is planned, and none of these stages comes after it.
  ghost predicate ReportAfter(chosen: seq<string>, build: set<string>) {
    "report" in chosen && forall k :: Find(chosen, "report") < k < |chosen| ==> chosen[k] !in build
  }

  /** With up to 100 distinct stages, and a gate somewhere: if and only if the report is
    * planned and every build stage comes before it. */
  lemma NoGoHoldsExactlyWhenReportComesAfterBuild(
    chosen: seq<string>, templates: map<string, Template>, g: nat, maxRetries: nat)
    requires Chosen(chosen, templates) && Distinct(chosen) && 2 * |chosen| <= RECURSION_LIMIT
    requires GateAt(Route(chosen, templates, NoGo), g)
    ensures NoGoAlwaysHolds(chosen, templates, maxRetries) <==> ReportAfter(chosen, BUILD_STAGES)
  {
    var r := Route(chosen, templates, NoGo);
    NoGoHoldsExactlyWhenNothingIsBuilt(chosen, templates, maxRetries);
    var h := DistinctWay(r, g);
    if ReportAfter(chosen, BUILD_STAGES) {
      ReportKeepsOut(r, h);
    } else {
      var p := if "report" in chosen
               then var p :| Find(chosen, "report") < p < |chosen| && chosen[p] in BUILD_STAGES; p else h + 1;
      BuiltBehindTurn(r, h, Turn(r, h), p);
    }
  }

  lemma ReportKeepsOut(r: Route, h: nat)
    requires Drawn(r) && Distinct(r.chosen) && ReportAfter(r.chosen, BUILD_STAGES)
    requires TurnsAt(CourseOf(r), h + 1, Find(r.chosen, "report"))
    requires forall n: nat :: n <= h ==> Way(CourseOf(r), n) == Some(Spot(n, false))
    ensures NothingBuilt(r)
  {
    ReportIsNoBuild();
    DistinctRises(r);
    forall n: nat | n < 2 * |r.chosen| && Served(CourseOf(r), n) && IsGated(r, n)
      ensures r.chosen[Way(CourseOf(r), n).value.place] !in BUILD_STAGES
    {
      NothingBeforeTurn(CourseOf(r), h + 1, Find(r.chosen, "report"), n);
    }
  }

  // A build stage that is planned at the turn or behind it is performed.
  lemma BuiltBehindTurn(r: Route, h: nat, turn: nat, p: nat)
    requires Drawn(r) && 2 * |r.chosen| <= RECURSION_LIMIT && TurnsAt(CourseOf(r), h + 1, turn)
    requires turn <= p < |r.chosen| && h + 1 < |r.chosen| && r.chosen[p] in BUILD_STAGES
    ensures !NothingBuilt(r)
  {
    var n := MetBehindTurn(CourseOf(r), h + 1, turn, p);
    BuiltAt(r, n, p);
  }

  lemma BuiltAt(r: Route, n: nat, p: nat)
    requires Drawn(r) && p < |r.chosen| && Way(CourseOf(r), n) == Some(Spot(p, true))
    requires n < 2 * |r.chosen| && Served(CourseOf(r), n) && r.chosen[p] in BUILD_STAGES
    ensures !NothingBuilt(r)
  {
    assert IsGated(r, n);
  }

  lemma ReportIsNoBuild()
    ensures "report" !in BUILD_STAGES
  {
  }

  /** A repeated stage can undo that: here every build stage comes before the report, but
    * the list goes back from behind the report to the research before them. */
  lemma RepeatsCanUndoNoGo(templates: map<string, Template>, maxRetries: nat)
    requires Chosen(["research", "design", "report", "research"], templates) && !templates["research"].requiresApproval
    ensures var chosen := ["research", "design", "report", "research"];
      ReportAfter(chosen, BUILD_STAGES) && !NoGoAlwaysHolds(chosen, templates, maxRetries)
  {
    var chosen := ["research", "design", "report", "research"];
    var r := Route(chosen, templates, NoGo);
    assert Find(chosen, "research") == 0 && Find(chosen, "design") == 1 && Find(chosen, "report") == 2;
    assert ReportAfter(chosen, BUILD_STAGES) by { assert "report" !in BUILD_STAGES && "research" !in BUILD_STAGES; }
    GoesBack(r);
    NoGoHoldsExactlyWhenNothingIsBuilt(chosen, templates, maxRetries);
  }

  lemma GoesBack(r: Route)
    requires Drawn(r) && r.verdict.NoGo? && |r.chosen| == 4 && r.chosen[2] == "report" && r.chosen[3] == r.chosen[0]
    requires GateAt(r, 0) && Find(r.chosen, r.chosen[0]) == 0 && Find(r.chosen, r.chosen[1]) == 1
    requires Find(r.chosen, "report") == 2
    ensures !NothingBuilt(r)
  {
    var c := CourseOf(r);
    assert Way(c, 1) == Some(Spot(2, true));
    assert Way(c, 2) == Some(Spot(0, true));
    assert Way(c, 3) == Some(Spot(1, true));
    SoonIsServed(c, 3);
    BuiltAt(r, 3, 1);
  }
}
