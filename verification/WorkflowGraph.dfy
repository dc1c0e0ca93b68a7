/** The workflow state machine: one graph step executes a stage or applies a
  * human decision. The graph keeps exactly the keys a step returns, so a step is
  * a function on the run state. Stage outcomes, gate verdicts and decisions are
  * inputs. */
module WorkflowGraph {
  import opened Wrappers
  import opened Planning
  import opened Sequences

  datatype Outcome = Done | Crashed
  datatype Verdict = Go | NoGo
  datatype Decision = Undecided | Approved | Rejected
  datatype Action = Continue | Retry | Approval | Fail | Complete
  datatype Status = Running | AwaitingApproval | Completed | Failed

  // What the world answers when a step asks it.
  datatype Input = Input(outcome: Outcome, verdict: Verdict, decision: Decision)

  // One stage execution, with the approval it asked for and the verdict there was before it.
  datatype Execution = Execution(stage: string, outcome: Outcome, approval: Option<nat>, gate: Option<Verdict>)

  // results: the stored status per stage, true for "completed". history is a
  // record of every execution, kept for the statements below.
  datatype Run = Run(
    stages: seq<Stage>,
    current: string,
    results: map<string, bool>,
    action: Action,
    status: Status,
    retryCount: nat,
    pending: Option<nat>,
    decision: Decision,
    gate: Option<Verdict>,
    history: seq<Execution>
  )

  const RESEARCH_STAGES := {"research", "community", "requirements"}
  const BUILD_STAGES := {"design", "implement-frontend", "implement-backend", "testing", "security", "review", "deploy"}

  function NewRun(w: Workflow): Run {
    Run(w.stages, w.entry, map[], Continue, Running, 0, None, Undecided, None, [])
  }

  // From research to building.
  predicate Commits(stage: string, next: string) {
    stage in RESEARCH_STAGES && next in BUILD_STAGES
  }

  predicate GateDue(run: Run, stage: Stage) {
    stage.next.Some? && run.gate.None? && Commits(run.current, stage.next.value)
  }

  // The first stage with that id.
  function StageById(stages: seq<Stage>, id: string): (r: Option<Stage>)
    ensures r.Some? <==> exists i :: 0 <= i < |stages| && stages[i].id == id
    ensures r.Some? ==> r.value in stages && r.value.id == id
  {
    if stages == [] then None
    else if stages[0].id == id then Some(stages[0])
    else
      assert stages == [stages[0]] + stages[1..];
      StageById(stages[1..], id)
  }

  function AfterGate(run: Run, next: string, verdict: Verdict): string {
    if verdict.NoGo? && StageById(run.stages, "report").Some? then "report" else next
  }

  // The resume path: apply the decision to the paused stage.
  function Decide(run: Run, stage: Stage): Run {
    if run.decision.Rejected? then
      run.(results := run.results[run.current := false], decision := Undecided,
           action := Fail, status := Failed, pending := None)
    else
      var approved := run.(results := run.results[run.current := true], decision := Undecided, pending := None);
      if stage.next.Some? && stage.next.value != "" then approved.(action := Continue, current := stage.next.value)
      else approved.(action := Complete, status := Completed)
  }

  // The fresh path: execute the stage and decide what comes next. The last
  // argument says whether the executive gate is due before the next stage.
  function Perform(run: Run, stage: Stage, input: Input, freshApproval: nat, maxRetries: nat, gateDue: bool): Run {
    var asks := if input.outcome.Done? && stage.requiresApproval then Some(freshApproval) else None;
    var done := run.(results := run.results[run.current := input.outcome.Done?],
                     history := run.history + [Execution(run.current, input.outcome, asks, run.gate)]);
    if input.outcome.Crashed? then
      if run.retryCount + 1 <= maxRetries then done.(action := Retry, retryCount := run.retryCount + 1)
      else done.(action := Fail, status := Failed)
    else if stage.requiresApproval then
      done.(action := Approval, status := AwaitingApproval, pending := Some(freshApproval))
    else if stage.next.Some? && stage.next.value != "" then
      if gateDue then
        done.(action := Continue, gate := Some(input.verdict),
          current := AfterGate(run, stage.next.value, input.verdict))
      else done.(action := Continue, current := stage.next.value)
    else done.(action := Complete, status := Completed)
  }

  // One graph step. A current stage that is not in the workflow crashes the run.
  function Step(run: Run, input: Input, freshApproval: nat, maxRetries: nat): Run {
    match StageById(run.stages, run.current)
    case None => run.(status := Failed)
    case Some(stage) =>
      if run.decision != Undecided then Decide(run, stage)
      else Perform(run, stage, input, freshApproval, maxRetries, GateDue(run, stage))
  }

  // The graph goes round again (route), unless the step crashed the run.
  predicate GoesOn(run: Run) {
    run.status.Running? && (run.action.Continue? || run.action.Retry?)
  }

  predicate Ended(run: Run) {
    run.status.Completed? || run.status.Failed?
  }

  // What resuming a paused run puts into its state.
  function Resume(run: Run, decision: Decision): Run {
    run.(decision := decision, status := Running)
  }

  // Any answer other than "approved" counts as a rejection.
  function Answered(d: Decision): Decision {
    if d.Approved? then Approved else Rejected
  }

  // The run's next step, preceded by the human decision when it is paused.
  function Tick(run: Run, input: Input, freshApproval: nat, maxRetries: nat): Run {
    if Ended(run) then run
    else if run.status.AwaitingApproval? then
      Step(Resume(run, Answered(input.decision)), input, freshApproval, maxRetries)
    else Step(run, input, freshApproval, maxRetries)
  }

  // ---- Runs of planner-built workflows ----

  ghost predicate Chosen(chosen: seq<string>, templates: map<string, Template>) {
    chosen != [] && "" !in templates && forall x :: x in chosen ==> x in templates
  }

  function Launch(chosen: seq<string>, templates: map<string, Template>): Run
    requires Chosen(chosen, templates)
  {
    NewRun(Workflow(chosen[0], Chain(chosen, templates)))
  }

  // Position of the stage a lookup of the id finds.
  function Find(chosen: seq<string>, id: string): (i: nat)
    requires id in chosen
    ensures i < |chosen| && chosen[i] == id && forall k :: 0 <= k < i ==> chosen[k] != id
  {
    if chosen[0] == id then 0
    else
      assert chosen == [chosen[0]] + chosen[1..];
      1 + Find(chosen[1..], id)
  }

  lemma {:induction false} LookupFindsFirst(stages: seq<Stage>, chosen: seq<string>, id: string)
    requires |stages| == |chosen| && id in chosen
    requires forall i :: 0 <= i < |chosen| ==> stages[i].id == chosen[i]
    ensures StageById(stages, id) == Some(stages[Find(chosen, id)])
  {
    if chosen[0] != id {
      assert chosen == [chosen[0]] + chosen[1..];
      LookupFindsFirst(stages[1..], chosen[1..], id);
    }
  }

  // The state of a run that is still under way in a planner-built workflow.
  ghost predicate Underway(run: Run, chosen: seq<string>, templates: map<string, Template>) {
    Chosen(chosen, templates) && run.stages == Chain(chosen, templates) && run.current in chosen
    && ((run.status.Running? && run.decision.Undecided? && run.pending.None?)
        || (run.status.AwaitingApproval? && run.decision.Undecided? && run.pending.Some?))
  }

  /** Everything one step can do to a run in a planner-built workflow: end it,
    * repeat the stage, pause it, move to the next stage, or (once, when the gate
    * is decided) move to the report. */
  ghost predicate Outcomes(run: Run, t: Run, chosen: seq<string>, maxRetries: nat)
    requires run.current in chosen
  {
    var i := Find(chosen, run.current);
    t.stages == run.stages
    && (Ended(t)
        || (t.decision.Undecided? && (t.status.Running? ==> t.pending.None?)
            && (   (t.status.Running? && run.status.Running? && t.current == run.current && t.gate == run.gate
                    && t.retryCount == run.retryCount + 1 <= maxRetries)
                || (t.status.AwaitingApproval? && run.status.Running? && t.pending.Some?
                    && t.current == run.current && t.gate == run.gate && t.retryCount == run.retryCount)
                || (t.status.Running? && i + 1 < |chosen| && t.current == chosen[i + 1]
                    && (t.gate == run.gate || run.gate.None?) && t.retryCount == run.retryCount)
                || (t.status.Running? && run.status.Running? && run.gate.None? && t.gate == Some(NoGo)
                    && t.current == "report" && t.current in chosen && t.retryCount == run.retryCount))))
  }

  lemma PerformOutcomes(
    run: Run, chosen: seq<string>, templates: map<string, Template>, i: nat, input: Input, approval: nat,
    maxRetries: nat, gateDue: bool)
    requires Underway(run, chosen, templates) && run.status.Running?
    requires i == Find(chosen, run.current) && (gateDue ==> run.gate.None?)
    ensures Outcomes(run, Perform(run, run.stages[i], input, approval, maxRetries, gateDue), chosen, maxRetries)
  {
    assert run.stages[i] == ChainStage(chosen, templates, i);
    if StageById(run.stages, "report").Some? {
      var k :| 0 <= k < |run.stages| && run.stages[k].id == "report";
      assert chosen[k] == "report";
    }
  }

  lemma DecideOutcomes(
    run: Run, chosen: seq<string>, templates: map<string, Template>, i: nat, decision: Decision,
    maxRetries: nat)
    requires Underway(run, chosen, templates) && run.status.AwaitingApproval?
    requires i == Find(chosen, run.current) && !decision.Undecided?
    ensures Outcomes(run, Decide(Resume(run, decision), run.stages[i]), chosen, maxRetries)
  {
    assert run.stages[i] == ChainStage(chosen, templates, i);
  }

  // A tick is one of the two paths, on the stage the run stands at.
  lemma TickIsOnePath(
    run: Run, chosen: seq<string>, templates: map<string, Template>, input: Input, approval: nat,
    maxRetries: nat)
    requires Underway(run, chosen, templates)
    ensures var stage := run.stages[Find(chosen, run.current)];
      Tick(run, input, approval, maxRetries)
      == if run.status.Running? then Perform(run, stage, input, approval, maxRetries, GateDue(run, stage))
         else Decide(Resume(run, Answered(input.decision)), stage)
  {
    LookupFindsFirst(run.stages, chosen, run.current);
  }

  lemma TickOutcomes(
    run: Run, chosen: seq<string>, templates: map<string, Template>, input: Input, approval: nat,
    maxRetries: nat)
    requires Underway(run, chosen, templates)
    ensures var t := Tick(run, input, approval, maxRetries);
      Outcomes(run, t, chosen, maxRetries)
      && (t.status.Failed? <==> if run.status.Running? then input.outcome.Crashed? && maxRetries <= run.retryCount
                                else !input.decision.Approved?)
  {
    var i := Find(chosen, run.current);
    TickIsOnePath(run, chosen, templates, input, approval, maxRetries);
    if run.status.Running? {
      PerformOutcomes(run, chosen, templates, i, input, approval, maxRetries, GateDue(run, run.stages[i]));
    } else {
      DecideOutcomes(run, chosen, templates, i, Answered(input.decision), maxRetries);
    }
  }

  // The execution a stage leaves in the history.
  lemma PerformExecutes(run: Run, stage: Stage, input: Input, approval: nat, maxRetries: nat, gateDue: bool)
    ensures var t := Perform(run, stage, input, approval, maxRetries, gateDue);
      var asks := input.outcome.Done? && stage.requiresApproval;
      t.history
      == run.history + [Execution(run.current, input.outcome, if asks then Some(approval) else None, run.gate)]
      && t.stages == run.stages && t.decision == run.decision
  {
  }

  // Where a stage leads that succeeds.
  lemma PerformsOn(run: Run, stage: Stage, input: Input, approval: nat, maxRetries: nat, gateDue: bool)
    requires input.outcome.Done? && run.status.Running? && run.pending.None? && (gateDue ==> stage.next.Some?)
    ensures var t := Perform(run, stage, input, approval, maxRetries, gateDue);
      if stage.requiresApproval then
        t.status.AwaitingApproval? && t.action.Approval? && t.pending == Some(approval)
        && t.current == run.current && t.gate == run.gate
      else if stage.next.Some? && stage.next.value != "" then
        t.status.Running? && t.pending.None?
        && t.current == (if gateDue then AfterGate(run, stage.next.value, input.verdict) else stage.next.value)
        && t.gate == (if gateDue then Some(input.verdict) else run.gate)
      else t.status.Completed? && t.action.Complete? && t.gate == run.gate
  {
  }

  lemma PerformsDone(
    run: Run, chosen: seq<string>, templates: map<string, Template>, p: nat, input: Input, approval: nat,
    maxRetries: nat, gateDue: bool)
    requires Underway(run, chosen, templates) && run.status.Running? && input.outcome.Done?
    requires p == Find(chosen, run.current) && (gateDue ==> p + 1 < |chosen|)
    ensures var t := Perform(run, run.stages[p], input, approval, maxRetries, gateDue);
      var asks := templates[chosen[p]].requiresApproval;
      t.stages == run.stages && t.decision.Undecided? && t.retryCount == run.retryCount
      && t.results == run.results[run.current := true]
      && if asks then
           t.status.AwaitingApproval? && t.action.Approval? && t.pending == Some(approval)
           && t.current == run.current && t.gate == run.gate
         else if p + 1 < |chosen| then
           t.status.Running? && t.pending.None?
           && t.current == (if gateDue then AfterGate(run, chosen[p + 1], input.verdict) else chosen[p + 1])
           && t.gate == (if gateDue then Some(input.verdict) else run.gate)
         else t.status.Completed? && t.action.Complete?
  {
    assert run.stages[p] == ChainStage(chosen, templates, p);
    assert p + 1 < |chosen| ==> chosen[p + 1] in chosen;
    PerformExecutes(run, run.stages[p], input, approval, maxRetries, gateDue);
    PerformsOn(run, run.stages[p], input, approval, maxRetries, gateDue);
  }

  lemma GoAfterApproval(run: Run, chosen: seq<string>, templates: map<string, Template>, p: nat)
    requires Underway(run, chosen, templates) && run.status.AwaitingApproval?
    requires p == Find(chosen, run.current)
    ensures var t := Decide(Resume(run, Approved), run.stages[p]);
      t.stages == run.stages && t.decision.Undecided? && t.history == run.history && t.gate == run.gate
      && if p + 1 < |chosen| then t.status.Running? && t.pending.None? && t.current == chosen[p + 1]
         else t.status.Completed?
  {
    assert run.stages[p] == ChainStage(chosen, templates, p);
  }

  // ---- The cases of a step ----

  lemma ReportIsThere(run: Run, chosen: seq<string>, templates: map<string, Template>)
    requires Underway(run, chosen, templates)
    ensures StageById(run.stages, "report").Some? <==> "report" in chosen
  {
    if "report" in chosen {
      LookupFindsFirst(run.stages, chosen, "report");
    }
    if k :| 0 <= k < |run.stages| && run.stages[k].id == "report" {
      assert chosen[k] == "report";
    }
  }

  // The verdict is asked for when this run has performed the stage at p.
  predicate Gates(run: Run, chosen: seq<string>, p: nat) {
    run.gate.None? && p + 1 < |chosen| && Commits(chosen[p], chosen[p + 1])
  }

  lemma DoneStep(run: Run, chosen: seq<string>, templates: map<string, Template>, input: Input, approval: nat,
                 maxRetries: nat)
    requires Underway(run, chosen, templates) && run.status.Running? && input.outcome.Done?
    ensures var t := Step(run, input, approval, maxRetries);
      var p := Find(chosen, run.current);
      t.stages == run.stages && t.decision.Undecided? && t.retryCount == run.retryCount
      && t.results == run.results[run.current := true]
      && if templates[chosen[p]].requiresApproval then
           t.status.AwaitingApproval? && t.action.Approval? && t.pending.Some? && t.current == run.current
           && t.gate == run.gate
         else if p + 1 < |chosen| then
           GoesOn(t) && t.pending.None?
           && t.gate == (if Gates(run, chosen, p) then Some(input.verdict) else run.gate)
           && t.current == (if Gates(run, chosen, p) && input.verdict.NoGo? && "report" in chosen then "report"
                            else chosen[p + 1])
         else t.status.Completed? && t.action.Complete?
  {
    var p := Find(chosen, run.current);
    assert run.stages[p] == ChainStage(chosen, templates, p);
    ReportIsThere(run, chosen, templates);
    TickIsOnePath(run, chosen, templates, input, approval, maxRetries);
    PerformsDone(run, chosen, templates, p, input, approval, maxRetries, GateDue(run, run.stages[p]));
  }

  /** A crashed stage is tried again where the run stands while retries are left, and fails the
    * run when none is. */
  lemma CrashedStep(run: Run, chosen: seq<string>, templates: map<string, Template>, input: Input, approval: nat,
                    maxRetries: nat)
    requires Underway(run, chosen, templates) && run.status.Running? && input.outcome.Crashed?
    ensures var t := Step(run, input, approval, maxRetries);
      t.stages == run.stages && t.current == run.current && t.gate == run.gate
      && t.results == run.results[run.current := false]
      && if run.retryCount < maxRetries then
           GoesOn(t) && Underway(t, chosen, templates) && t.retryCount == run.retryCount + 1
         else t.status.Failed? && t.action.Fail?
  {
    TickIsOnePath(run, chosen, templates, input, approval, maxRetries);
  }

  // The execution that a step of a running run makes.
  lemma StepExecutes(run: Run, chosen: seq<string>, templates: map<string, Template>, input: Input, approval: nat,
                     maxRetries: nat)
    requires Underway(run, chosen, templates) && run.status.Running?
    ensures StageById(run.stages, run.current).Some?
    ensures var t := Step(run, input, approval, maxRetries);
      var asks := input.outcome.Done? && templates[run.current].requiresApproval;
      t.history
      == run.history + [Execution(run.current, input.outcome, if asks then Some(approval) else None, run.gate)]
  {
    var p := Find(chosen, run.current);
    LookupFindsFirst(run.stages, chosen, run.current);
    assert run.stages[p] == ChainStage(chosen, templates, p);
    TickIsOnePath(run, chosen, templates, input, approval, maxRetries);
    PerformExecutes(run, run.stages[p], input, approval, maxRetries, GateDue(run, run.stages[p]));
  }

  /** A decision settles the stage it is about: approved, the run goes on behind it or is
    * completed; with any other answer it fails. Nothing is executed. */
  lemma DecidedStep(run: Run, chosen: seq<string>, templates: map<string, Template>, decision: Decision, input: Input,
                    approval: nat, maxRetries: nat)
    requires Underway(run, chosen, templates) && run.status.AwaitingApproval? && !decision.Undecided?
    ensures var resumed := Resume(run, decision);
      var t := Step(resumed, input, approval, maxRetries);
      var p := Find(chosen, run.current);
      StageById(resumed.stages, resumed.current).Some?
      && t.stages == run.stages && t.history == run.history && t.gate == run.gate && t.retryCount == run.retryCount
      && t.pending.None? && t.decision.Undecided? && t.results == run.results[run.current := decision.Approved?]
      && if decision.Rejected? then t.status.Failed? && t.action.Fail?
         else if p + 1 < |chosen| then GoesOn(t) && t.current == chosen[p + 1]
         else t.status.Completed? && t.action.Complete?
  {
    var p := Find(chosen, run.current);
    LookupFindsFirst(run.stages, chosen, run.current);
    DecideSettles(Resume(run, decision), run.stages[p]);
    assert run.stages[p] == ChainStage(chosen, templates, p);
    assert p + 1 < |chosen| ==> chosen[p + 1] in chosen;
  }

  lemma DecideSettles(run: Run, stage: Stage)
    requires run.status.Running? && !run.decision.Undecided?
    ensures var t := Decide(run, stage);
      t.stages == run.stages && t.history == run.history && t.gate == run.gate && t.retryCount == run.retryCount
      && t.pending.None? && t.decision.Undecided? && t.results == run.results[run.current := run.decision.Approved?]
      && if run.decision.Rejected? then t.status.Failed? && t.action.Fail?
         else if stage.next.Some? && stage.next.value != "" then GoesOn(t) && t.current == stage.next.value
         else t.status.Completed? && t.action.Complete?
  {
  }

  // Visits of stages still possible: until the gate is decided, one backward jump may repeat all of them.
  function VisitsLeft(run: Run, chosen: seq<string>): nat
    requires run.current in chosen
  {
    (if run.gate.None? then |chosen| else 0) + (|chosen| - Find(chosen, run.current))
  }

  // Gate still undecided and stages left, retries left, pause flag: folded into one number.
  function Measure(run: Run, chosen: seq<string>, maxRetries: nat): int {
    if Ended(run) || run.current !in chosen then 0
    else 2 * VisitsLeft(run, chosen) + (maxRetries - run.retryCount) + (if run.status.Running? then 1 else 0)
  }

  lemma TickMakesProgress(
    run: Run, chosen: seq<string>, templates: map<string, Template>, input: Input, approval: nat,
    maxRetries: nat)
    requires Underway(run, chosen, templates) && Distinct(chosen) && run.retryCount <= maxRetries
    ensures var t := Tick(run, input, approval, maxRetries);
      Ended(t) || (Underway(t, chosen, templates) && t.retryCount <= maxRetries
                   && 0 <= Measure(t, chosen, maxRetries) < Measure(run, chosen, maxRetries))
  {
    TickOutcomes(run, chosen, templates, input, approval, maxRetries);
    var i := Find(chosen, run.current);
    if i + 1 < |chosen| {
      assert chosen[i + 1] in chosen && Find(chosen, chosen[i + 1]) == i + 1;
    }
  }
}
