/** Whole runs of workflows built from a stage list, step by step: with distinct stages
  * they end by themselves, well before any limit; crashed stages are executed again while
  * retries are left, and a run fails only by a rejection or by one crash too many. */
module WorkflowRuns {
  import opened Wrappers
  import opened Planning
  import opened WorkflowGraph
  import opened Sequences

  // A stage list, what the world answers at each step, and the run after each step.
  datatype Life = Life(chosen: seq<string>, templates: map<string, Template>, inputs: nat -> Input,
    maxRetries: nat, at: nat -> Run)

  // Step k leads from the k-th to the next state; an approval it asks gets number k.
  ghost predicate Follows(w: Life, k: nat) {
    w.at(k + 1) == Tick(w.at(k), w.inputs(k), k, w.maxRetries)
  }

  ghost predicate Lives(w: Life) {
    Chosen(w.chosen, w.templates) && w.at(0) == Launch(w.chosen, w.templates) && forall k: nat :: Follows(w, k)
  }

  // ---- Termination ----

  // Steps a run can take at most.
  function StepBound(stages: nat, maxRetries: nat): nat {
    4 * stages + maxRetries + 1
  }

  // The run is under way, with at most so many steps left.
  ghost predicate HasLeft(w: Life, run: Run, steps: int) {
    Underway(run, w.chosen, w.templates) && run.retryCount <= w.maxRetries
    && 0 <= Measure(run, w.chosen, w.maxRetries) <= steps
  }

  lemma StepUsesUp(w: Life, k: nat, steps: int)
    requires Lives(w) && Distinct(w.chosen) && HasLeft(w, w.at(k), steps)
    ensures Ended(w.at(k + 1)) || HasLeft(w, w.at(k + 1), steps - 1)
  {
    assert Follows(w, k);
    TickMakesProgress(w.at(k), w.chosen, w.templates, w.inputs(k), k, w.maxRetries);
  }

  lemma {:induction false} StepsUseUpTheMeasure(w: Life, k: nat)
    requires Lives(w) && Distinct(w.chosen)
    ensures Ended(w.at(k)) || HasLeft(w, w.at(k), StepBound(|w.chosen|, w.maxRetries) - k)
  {
    if k == 0 {
      assert w.chosen[0] in w.chosen;
    } else {
      StepsUseUpTheMeasure(w, k - 1);
      if Ended(w.at(k - 1)) {
        assert Follows(w, k - 1);
      } else {
        StepUsesUp(w, k - 1, StepBound(|w.chosen|, w.maxRetries) - (k - 1));
      }
    }
  }

  /** With distinct stages every run ends within a number of steps linear in the
    * stages plus the retry budget, for all outcomes, verdicts and decisions, and
    * even when the NO-GO jump leads backwards. */
  lemma DistinctStagesEnd(w: Life)
    requires Lives(w) && Distinct(w.chosen)
    ensures Ended(w.at(StepBound(|w.chosen|, w.maxRetries)))
  {
    StepsUseUpTheMeasure(w, StepBound(|w.chosen|, w.maxRetries));
  }

  // ---- Retries ----

  // The run executes a stage in step k, and the stage crashes.
  ghost predicate CrashesAt(w: Life, k: nat) {
    w.at(k).status.Running? && w.inputs(k).outcome.Crashed?
  }

  // It waits at step k, and is given any answer but an approval.
  ghost predicate RejectedAt(w: Life, k: nat) {
    w.at(k).status.AwaitingApproval? && !w.inputs(k).decision.Approved?
  }

  // How many stages crashed in the first k steps.
  ghost function CrashCount(w: Life, k: nat): nat {
    if k == 0 then 0 else CrashCount(w, k - 1) + if CrashesAt(w, k - 1) then 1 else 0
  }

  // The retries a run under way has used up are the crashes, and nobody has rejected it.
  ghost predicate Unbroken(w: Life, k: nat) {
    Underway(w.at(k), w.chosen, w.templates) && w.at(k).retryCount == CrashCount(w, k) <= w.maxRetries
    && forall j: nat :: j < k ==> !RejectedAt(w, j)
  }

  // A run that has ended says why.
  ghost predicate Accounted(w: Life, k: nat) {
    if w.at(k).status.Failed? then CrashCount(w, k) == w.maxRetries + 1 || exists j: nat :: j < k && RejectedAt(w, j)
    else w.at(k).status.Completed? && CrashCount(w, k) <= w.maxRetries && forall j: nat :: j < k ==> !RejectedAt(w, j)
  }

  lemma StepIsAccounted(w: Life, k: nat)
    requires Lives(w) && Unbroken(w, k)
    ensures Unbroken(w, k + 1) || Accounted(w, k + 1)
  {
    var run, input := w.at(k), w.inputs(k);
    assert Follows(w, k);
    TickOutcomes(run, w.chosen, w.templates, input, k, w.maxRetries);
    var i := Find(w.chosen, run.current);
    assert i + 1 < |w.chosen| ==> w.chosen[i + 1] in w.chosen;
    if run.status.AwaitingApproval? {
      DecidedStep(run, w.chosen, w.templates, Answered(input.decision), input, k, w.maxRetries);
    } else if input.outcome.Crashed? {
      CrashedStep(run, w.chosen, w.templates, input, k, w.maxRetries);
    } else {
      DoneStep(run, w.chosen, w.templates, input, k, w.maxRetries);
    }
    assert RejectedAt(w, k) || forall j: nat :: j < k + 1 ==> !RejectedAt(w, j);
    assert CrashCount(w, k + 1) == CrashCount(w, k) + if CrashesAt(w, k) then 1 else 0;
  }

  lemma EndIsAccounted(w: Life, k: nat)
    requires Lives(w) && Ended(w.at(k)) && Accounted(w, k)
    ensures Ended(w.at(k + 1)) && Accounted(w, k + 1)
  {
    assert Follows(w, k);
    assert forall j: nat :: j < k + 1 && j >= k ==> !RejectedAt(w, j);
  }

  lemma {:induction false} RunsAreAccounted(w: Life, k: nat)
    requires Lives(w)
    ensures Unbroken(w, k) || (Ended(w.at(k)) && Accounted(w, k))
  {
    if k == 0 {
      assert w.chosen[0] in w.chosen;
    } else {
      RunsAreAccounted(w, k - 1);
      if Unbroken(w, k - 1) {
        StepIsAccounted(w, k - 1);
      } else {
        EndIsAccounted(w, k - 1);
      }
    }
  }

  /** A run that has ended failed if and only if someone rejected it or its stages crashed
    * one time more than there are retries; otherwise it is completed. */
  lemma FailsExactlyWhenRejectedOrCrashedTooOften(w: Life, k: nat)
    requires Lives(w) && Ended(w.at(k))
    ensures w.at(k).status.Failed?
       <==> CrashCount(w, k) == w.maxRetries + 1 || exists j: nat :: j < k && RejectedAt(w, j)
    ensures !w.at(k).status.Failed? ==> w.at(k).status.Completed? && CrashCount(w, k) <= w.maxRetries
  {
    RunsAreAccounted(w, k);
  }

  /** A crashed stage is executed again: while fewer stages have crashed than there are
    * retries, the run goes on where it stands, and that stage is what it executes next. */
  lemma CrashedStageIsExecutedAgain(w: Life, k: nat)
    requires Lives(w) && CrashesAt(w, k) && CrashCount(w, k) < w.maxRetries
    ensures var stage := w.at(k).current;
      w.at(k + 1).status.Running? && w.at(k + 1).current == stage
      && w.at(k + 1).history == w.at(k).history + [Execution(stage, Crashed, None, w.at(k).gate)]
      && |w.at(k + 2).history| == |w.at(k).history| + 2 && w.at(k + 2).history[|w.at(k).history| + 1].stage == stage
  {
    RunsAreAccounted(w, k);
    assert Follows(w, k) && Follows(w, k + 1);
    CrashedStep(w.at(k), w.chosen, w.templates, w.inputs(k), k, w.maxRetries);
    StepExecutes(w.at(k), w.chosen, w.templates, w.inputs(k), k, w.maxRetries);
    StepExecutes(w.at(k + 1), w.chosen, w.templates, w.inputs(k + 1), k + 1, w.maxRetries);
  }

  /** With distinct stages, no rejection and no more crashes than retries, a run is completed. */
  lemma DistinctStagesComplete(w: Life)
    requires Lives(w) && Distinct(w.chosen)
    requires var end := StepBound(|w.chosen|, w.maxRetries);
      CrashCount(w, end) <= w.maxRetries && forall j: nat :: j < end ==> !RejectedAt(w, j)
    ensures w.at(StepBound(|w.chosen|, w.maxRetries)).status.Completed?
  {
    DistinctStagesEnd(w);
    FailsExactlyWhenRejectedOrCrashedTooOften(w, StepBound(|w.chosen|, w.maxRetries));
  }
}
