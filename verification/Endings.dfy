/** When a run always ends: over whole sessions, with the limit on the steps of a call. */
module Endings {
  import opened Wrappers
  import opened Planning
  import opened WorkflowGraph
  import opened Engine
  import opened EngineSafety
  import opened Ways
  import opened Sessions
  import opened Sequences

  ghost predicate EndsSometime(s: Session)
    requires Lives(s)
  {
    exists m: nat :: Keeps(s, m) && Ended(At(s, m))
  }

  // Every run of the stage list ends, whatever the world answers, if only its approvals are decided.
  ghost predicate AlwaysEnds(chosen: seq<string>, templates: map<string, Template>, maxRetries: nat) {
    forall s: Session :: LivesOn(s, chosen, templates, maxRetries) ==> EndsSometime(s)
  }

  ghost predicate AlwaysFits(s: Session, r: Route)
    requires Lives(s)
  {
    r.chosen == s.chosen && r.templates == s.templates
    && forall m: nat :: Keeps(s, m) ==> Fits(r, At(s, m).gate)
  }

  // A session that never ends has one verdict: NO-GO if that was ever given.
  lemma OneVerdictFits(s: Session) returns (r: Route)
    requires Lives(s) && !EndsSometime(s)
    ensures AlwaysFits(s, r)
  {
    r := Route(s.chosen, s.templates, Go);
    if m: nat :| Keeps(s, m) && At(s, m).gate == Some(NoGo) {
      r := Route(s.chosen, s.templates, NoGo);
      forall n: nat | Keeps(s, n) ensures Fits(r, At(s, n).gate) {
        if m <= n {
          VerdictStays(s, m, n);
        } else if At(s, n).gate.Some? {
          VerdictStays(s, n, m);
        }
      }
    } else {
      forall n: nat | Keeps(s, n) ensures Fits(r, At(s, n).gate) {
        assert At(s, n).gate != Some(NoGo);
        assert At(s, n).gate.Some? ==> At(s, n).gate.value.Go?;
      }
    }
  }

  lemma EndlessSessionGoesRound(s: Session, r: Route)
    requires Lives(s) && !EndsSometime(s) && AlwaysFits(s, r)
    ensures GoesRound(CourseOf(r))
  {
    forall n: nat ensures Served(CourseOf(r), n) {
      var a := SessionStaysOnWay(s, r, n);
      assert Served(CourseOf(r), a);
      ServedBefore(CourseOf(r), n, a);
    }
    ServedForEverExactlyWhenGoingRound(CourseOf(r));
  }

  // While all of the way is served a smooth session never ends: what it executes grows for ever.
  lemma GoingRoundIsEndless(s: Session, r: Route)
    requires Smooth(s, r) && GoesRound(CourseOf(r))
    ensures !EndsSometime(s)
  {
    ServedForEverExactlyWhenGoingRound(CourseOf(r));
    if m: nat :| Keeps(s, m) && Ended(At(s, m)) {
      var n := m + |At(s, m).history|;
      ServedIsExecuted(s, r, n);
      EndedStays(s, m, n);
    }
  }

  lemma {:induction false} EndedStays(s: Session, m: nat, n: nat)
    requires Lives(s) && m <= n && Keeps(s, m) && Ended(At(s, m))
    ensures Keeps(s, n) && At(s, n) == At(s, m)
  {
    if m < n {
      EndedStays(s, m, n - 1);
      var _ := NextRun(s, n - 1);
    }
  }

  lemma GoingRoundNeedNotEnd(r: Route, maxRetries: nat)
    requires Drawn(r) && GoesRound(CourseOf(r))
    ensures !AlwaysEnds(r.chosen, r.templates, maxRetries)
  {
    var s := SmoothSession(r, maxRetries);
    SmoothSessionLives(r, maxRetries);
    GoingRoundIsEndless(s, r);
    assert LivesOn(s, r.chosen, r.templates, maxRetries);
  }

  /** The stage list alone decides whether a run can be resumed for ever: with one of the two
    * verdicts its way must go round with approvals close enough together that no call meets
    * the limit. All other lists always end, at the limit if need be. */
  lemma EndsExactlyWithoutGoingRound(chosen: seq<string>, templates: map<string, Template>, maxRetries: nat)
    requires Chosen(chosen, templates)
    ensures AlwaysEnds(chosen, templates, maxRetries)
       <==> !GoesRound(CourseOf(Route(chosen, templates, Go))) && !GoesRound(CourseOf(Route(chosen, templates, NoGo)))
  {
    if !AlwaysEnds(chosen, templates, maxRetries) {
      var s: Session :| LivesOn(s, chosen, templates, maxRetries) && !EndsSometime(s);
      var r := OneVerdictFits(s);
      EndlessSessionGoesRound(s, r);
      assert r == Route(chosen, templates, if r.verdict.Go? then Go else NoGo);
    }
    forall verdict | GoesRound(CourseOf(Route(chosen, templates, verdict)))
      ensures !AlwaysEnds(chosen, templates, maxRetries)
    {
      GoingRoundNeedNotEnd(Route(chosen, templates, verdict), maxRetries);
    }
  }

  /** So a list in which no approval stage comes round again, on either verdict, always ends;
    * and a list of up to 99 stages always ends if and only if none does. */
  lemma EndsUnlessAnApprovalComesRound(chosen: seq<string>, templates: map<string, Template>, maxRetries: nat)
    requires Chosen(chosen, templates)
    ensures var rounds := exists verdict :: ApprovalComesRound(CourseOf(Route(chosen, templates, verdict)));
      (!rounds ==> AlwaysEnds(chosen, templates, maxRetries))
      && (2 * |chosen| < RECURSION_LIMIT ==> (AlwaysEnds(chosen, templates, maxRetries) <==> !rounds))
  {
    EndsExactlyWithoutGoingRound(chosen, templates, maxRetries);
    forall verdict
      ensures var c := CourseOf(Route(chosen, templates, verdict));
        (GoesRound(c) ==> ApprovalComesRound(c))
        && (2 * |chosen| < RECURSION_LIMIT ==> (GoesRound(c) <==> ApprovalComesRound(c)))
    {
      var c := CourseOf(Route(chosen, templates, verdict));
      if GoesRound(c) {
        GoingRoundMeetsAnApproval(c);
      }
      if 2 * |chosen| < RECURSION_LIMIT {
        ShortListGoesRoundExactlyWhenAnApprovalDoes(c);
      }
    }
  }

  /** With distinct stages, as the planner chooses them, every run ends. */
  lemma DistinctStagesAlwaysEnd(chosen: seq<string>, templates: map<string, Template>, maxRetries: nat)
    requires Chosen(chosen, templates) && Distinct(chosen)
    ensures AlwaysEnds(chosen, templates, maxRetries)
  {
    forall verdict ensures !ApprovalComesRound(CourseOf(Route(chosen, templates, verdict))) {
      DistinctDoesNotComeRound(Route(chosen, templates, verdict));
    }
    EndsUnlessAnApprovalComesRound(chosen, templates, maxRetries);
  }

  // ---- Lists without approval stages ----

  lemma {:induction false} MeetsTheLimit(
    r: Route, first: Run, run: Run, approvals: seq<Stored>, world: nat -> Input, i: nat, maxRetries: nat, n: nat)
    requires Performs(r, run, n) && AllWell(r, world) && i <= RECURSION_LIMIT
    requires forall k: nat :: Way(CourseOf(r), k).Some? && !Asks(CourseOf(r), k)
    ensures InvokeFrom(first, run, approvals, world, i, maxRetries).0.status.Failed?
    decreases RECURSION_LIMIT - i
  {
    if i < RECURSION_LIMIT {
      SmoothStep(r, run, n, |approvals|, maxRetries);
      var t := Step(run, world(i), |approvals|, maxRetries);
      InvokeUnfolds(first, run, approvals, world, i, maxRetries, t);
      assert Way(CourseOf(r), n + 1).Some?;
      MeetsTheLimit(r, first, t, Requested(approvals, t), world, i + 1, maxRetries, n + 1);
    }
  }

  /** Without approval stages the first call ends every run. If the list names a stage twice,
    * the run in which every stage succeeds and the verdict is GO fails, at the limit. */
  lemma WithoutApprovalsTheFirstCallEnds(s: Session)
    requires Lives(s) && forall x :: x in s.chosen ==> !s.templates[x].requiresApproval
    ensures Keeps(s, 0) && Ended(At(s, 0))
    ensures var r := Route(s.chosen, s.templates, Go);
      !Distinct(s.chosen) && Smooth(s, r) ==> At(s, 0).status.Failed?
  {
    var r := Route(s.chosen, s.templates, Go);
    FirstRun(s);
    if !Ended(At(s, 0)) {
      var t := OneVerdictSoFar(s);
      var _ := SessionStaysOnWay(s, t, 0);
    }
    if !Distinct(s.chosen) && Smooth(s, r) {
      var i, j :| 0 <= i < j < |s.chosen| && s.chosen[i] == s.chosen[j];
      forall n: nat ensures Way(CourseOf(r), n).Some? {
        RepeatsGoRound(r, i, j, n);
      }
      LaunchPerforms(r);
      var run := Launch(s.chosen, s.templates);
      MeetsTheLimit(r, run, run, s.before(0).approvals, s.worlds(0), 0, s.maxRetries, 0);
    }
  }

  lemma OneVerdictSoFar(s: Session) returns (r: Route)
    requires Lives(s) && Keeps(s, 0)
    ensures r.chosen == s.chosen && r.templates == s.templates && Fits(r, At(s, 0).gate)
  {
    var gate := At(s, 0).gate;
    r := Route(s.chosen, s.templates, if gate.Some? then gate.value else Go);
  }
}
