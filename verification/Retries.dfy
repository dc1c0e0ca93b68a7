/** Retries over the engine's calls: a run of distinct stages fails only by a rejection or by
  * one crash more than there are retries. */
module Retries {
  import opened Planning
  import opened WorkflowGraph
  import opened Engine
  import opened EngineSafety
  import opened Sessions
  import opened Sequences

  function Crashes(h: seq<Execution>): nat {
    if h == [] then 0 else Crashes(h[..|h| - 1]) + if h[|h| - 1].outcome.Crashed? then 1 else 0
  }

  lemma CrashesOneMore(h: seq<Execution>, e: Execution)
    ensures Crashes(h + [e]) == Crashes(h) + if e.outcome.Crashed? then 1 else 0
  {
    assert (h + [e])[..|h|] == h;
  }

  // The retries a run has used up are the crashes in its history.
  predicate Counts(run: Run, maxRetries: nat) {
    run.retryCount == Crashes(run.history) <= maxRetries
  }

  // A run that a call has left, unless it was rejected: what its history says of how it stopped.
  ghost predicate Stopped(run: Run, chosen: seq<string>, templates: map<string, Template>, maxRetries: nat) {
    match run.status
    case Running => false
    case AwaitingApproval => Underway(run, chosen, templates) && Counts(run, maxRetries)
    case Completed => Crashes(run.history) <= maxRetries
    case Failed => Crashes(run.history) == maxRetries + 1
  }

  lemma StepCounts(run: Run, chosen: seq<string>, templates: map<string, Template>, input: Input, approval: nat,
                   maxRetries: nat)
    requires Underway(run, chosen, templates) && run.status.Running? && Counts(run, maxRetries)
    ensures var t := Step(run, input, approval, maxRetries);
      if GoesOn(t) then Underway(t, chosen, templates) && t.status.Running? && Counts(t, maxRetries)
      else Stopped(t, chosen, templates, maxRetries)
  {
    StepExecutes(run, chosen, templates, input, approval, maxRetries);
    var t := Step(run, input, approval, maxRetries);
    CrashesOneMore(run.history, t.history[|run.history|]);
    UnderwayStays(run, chosen, templates, input, approval, maxRetries);
    if input.outcome.Crashed? {
      CrashedStep(run, chosen, templates, input, approval, maxRetries);
    } else {
      DoneStep(run, chosen, templates, input, approval, maxRetries);
    }
  }

  // Whatever is left of the measure, added to the steps of the call taken, fits in the limit.
  ghost predicate InTime(run: Run, chosen: seq<string>, maxRetries: nat, i: nat) {
    i + Measure(run, chosen, maxRetries) <= RECURSION_LIMIT
  }

  lemma {:induction false} InvocationCounts(
    first: Run, run: Run, chosen: seq<string>, templates: map<string, Template>, approvals: seq<Stored>,
    world: nat -> Input, i: nat, maxRetries: nat)
    requires Underway(run, chosen, templates) && run.status.Running? && Counts(run, maxRetries)
    requires Distinct(chosen) && InTime(run, chosen, maxRetries, i)
    ensures i <= RECURSION_LIMIT
    ensures Stopped(InvokeFrom(first, run, approvals, world, i, maxRetries).0, chosen, templates, maxRetries)
    decreases RECURSION_LIMIT - i
  {
    var t := RunningStep(run, chosen, templates, world(i), |approvals|, maxRetries);
    StepCounts(run, chosen, templates, world(i), |approvals|, maxRetries);
    InvokeUnfolds(first, run, approvals, world, i, maxRetries, t);
    if GoesOn(t) {
      InvocationCounts(first, t, chosen, templates, Requested(approvals, t), world, i + 1, maxRetries);
    }
  }

  // Every measure fits in one call.
  predicate FitsOneCall(chosen: seq<string>, maxRetries: nat) {
    4 * |chosen| + maxRetries + 1 <= RECURSION_LIMIT
  }

  lemma ResumeCounts(
    run: Run, chosen: seq<string>, templates: map<string, Template>, decision: Decision, approvals: seq<Stored>,
    world: nat -> Input, maxRetries: nat)
    requires Underway(run, chosen, templates) && run.status.AwaitingApproval? && Counts(run, maxRetries)
    requires Distinct(chosen) && FitsOneCall(chosen, maxRetries) && !decision.Undecided?
    ensures var t := Sessions.Resumed(run, decision, approvals, world, maxRetries);
      if decision.Rejected? then t.status.Failed? && t.history == run.history
      else Stopped(t, chosen, templates, maxRetries)
  {
    var resumed := Resume(run, decision);
    DecidedStep(run, chosen, templates, decision, world(0), |approvals|, maxRetries);
    var t := Step(resumed, world(0), |approvals|, maxRetries);
    InvokeUnfolds(resumed, resumed, approvals, world, 0, maxRetries, t);
    if GoesOn(t) {
      assert t.current in chosen;
      InvocationCounts(resumed, t, chosen, templates, Requested(approvals, t), world, 1, maxRetries);
    }
  }

  // Before the m-th call the run waited, and its approval was answered with no.
  ghost predicate RejectedBefore(s: Session, m: nat) {
    exists j: nat :: j < m && RejectedAfter(s, j)
  }

  ghost predicate RejectedAfter(s: Session, j: nat) {
    Keeps(s, j) && At(s, j).status.AwaitingApproval? && !s.answers(j + 1).Grant?
  }

  lemma RejectedOneLater(s: Session, m: nat)
    ensures RejectedBefore(s, m + 1) <==> RejectedBefore(s, m) || RejectedAfter(s, m)
  {
    if RejectedBefore(s, m) {
      var j: nat :| j < m && RejectedAfter(s, j);
      assert j < m + 1;
    }
  }

  ghost predicate AccountedFor(s: Session, m: nat)
    requires Keeps(s, m)
  {
    if RejectedBefore(s, m) then At(s, m).status.Failed? && Crashes(At(s, m).history) <= s.maxRetries
    else Stopped(At(s, m), s.chosen, s.templates, s.maxRetries)
  }

  lemma NextIsAccountedFor(s: Session, m: nat)
    requires Lives(s) && Distinct(s.chosen) && FitsOneCall(s.chosen, s.maxRetries) && Keeps(s, m) && AccountedFor(s, m)
    ensures Keeps(s, m + 1) && AccountedFor(s, m + 1)
  {
    var approvals := NextRun(s, m);
    var run := At(s, m);
    RejectedOneLater(s, m);
    if run.status.AwaitingApproval? {
      ResumeCounts(run, s.chosen, s.templates, Resumption(s.answers(m + 1)), approvals, s.worlds(m + 1), s.maxRetries);
    } else {
      assert At(s, m + 1) == run;
    }
  }

  lemma {:induction false} SessionIsAccountedFor(s: Session, m: nat)
    requires Lives(s) && Distinct(s.chosen) && FitsOneCall(s.chosen, s.maxRetries)
    ensures Keeps(s, m) && AccountedFor(s, m)
  {
    if m == 0 {
      FirstRun(s);
      assert s.chosen[0] in s.chosen;
      var run := Launch(s.chosen, s.templates);
      InvocationCounts(run, run, s.chosen, s.templates, s.before(0).approvals, s.worlds(0), 0, s.maxRetries);
    } else {
      SessionIsAccountedFor(s, m - 1);
      NextIsAccountedFor(s, m - 1);
    }
  }

  /** Over the engine's calls, for distinct stages well within the limit: a run that has ended
    * failed if and only if it was rejected or its history holds one crash more than there are
    * retries. With every approval given and no more crashes than retries it is completed. */
  lemma SessionFailsExactlyWhenRejectedOrCrashedTooOften(s: Session, m: nat)
    requires Lives(s) && Distinct(s.chosen) && FitsOneCall(s.chosen, s.maxRetries)
    requires Keeps(s, m) && Ended(At(s, m))
    ensures At(s, m).status.Failed? <==> RejectedBefore(s, m) || Crashes(At(s, m).history) == s.maxRetries + 1
    ensures !At(s, m).status.Failed? ==> At(s, m).status.Completed? && Crashes(At(s, m).history) <= s.maxRetries
  {
    SessionIsAccountedFor(s, m);
  }
}
