/** The orchestration engine's part in a workflow run: invoking the graph until
  * it stops, and letting human decisions back into paused runs. Approvals are
  * numbered in the order they are requested. */
module Engine {
  import opened Wrappers
  import opened Planning
  import opened WorkflowGraph

  // The stored status of an approval request.
  datatype Stored = Pending | Granted | Refused | ChangesRequested

  // The decision string handed to approve; Unknown is any string that is no status.
  datatype Answer = Grant | Refuse | RequestChanges | Unknown

  datatype Reply = NoApproval | BadDecision | NoPausedRun | Resumed(run: Run)

  datatype State = State(runs: map<string, Run>, approvals: seq<Stored>)

  const RECURSION_LIMIT: nat := 200

  function Recorded(answer: Answer): Stored
    requires !answer.Unknown?
  {
    match answer case Grant => Granted case Refuse => Refused case RequestChanges => ChangesRequested
  }

  // The decision the run resumes with (decision_map.get(decision, "rejected")).
  function Resumption(answer: Answer): Decision {
    if answer.Grant? then Approved else Rejected
  }

  // A crash leaves the state the invocation started from, marked as failed.
  function CrashedFrom(first: Run, run: Run): Run {
    first.(status := Failed, history := run.history)
  }

  function Requested(approvals: seq<Stored>, t: Run): seq<Stored> {
    if t.status.AwaitingApproval? then approvals + [Pending] else approvals
  }

  /** Graph steps from the i-th on: until the route ends, a lookup fails or the
    * limit is reached. */
  function InvokeWithin(
    limit: nat, first: Run, run: Run, approvals: seq<Stored>, world: nat -> Input, i: nat,
      maxRetries: nat): (Run, seq<Stored>)
    requires i <= limit
    decreases limit - i
  {
    if i == limit || StageById(run.stages, run.current).None? then (CrashedFrom(first, run), approvals)
    else
      var t := Step(run, world(i), |approvals|, maxRetries);
      if GoesOn(t) then InvokeWithin(limit, first, t, Requested(approvals, t), world, i + 1, maxRetries)
      else (t, Requested(approvals, t))
  }

  // One invocation of the graph.
  function InvokeFrom(
    first: Run, run: Run, approvals: seq<Stored>, world: nat -> Input, i: nat, maxRetries: nat): (Run, seq<Stored>)
    requires i <= RECURSION_LIMIT
  {
    InvokeWithin(RECURSION_LIMIT, first, run, approvals, world, i, maxRetries)
  }

  predicate PausedOn(run: Run, id: nat) {
    run.status.AwaitingApproval? && run.pending == Some(id)
  }

  // The stored approvals after approve(id, answer) has recorded the decision.
  function Decided(approvals: seq<Stored>, id: nat, answer: Answer): seq<Stored> {
    if id < |approvals| && approvals[id].Pending? && !answer.Unknown? then approvals[id := Recorded(answer)]
      else approvals
  }

  // approve, for the run (if any) that is paused on the approval.
  function AfterApprove(
    e: State, id: nat, answer: Answer, paused: Option<string>, world: nat -> Input, maxRetries: nat): State
    requires paused.Some? ==> paused.value in e.runs
  {
    if id >= |e.approvals| || (e.approvals[id].Pending? && answer.Unknown?) then e
    else
      var approvals := Decided(e.approvals, id, answer);
      match paused
      case None => e.(approvals := approvals)
      case Some(r) =>
        var run := Resume(e.runs[r], Resumption(answer));
        var (final, more) := InvokeFrom(run, run, approvals, world, 0, maxRetries);
        State(e.runs[r := final], more)
  }

  function AfterStart(e: State, runId: string, workflow: Workflow, world: nat -> Input, maxRetries: nat): State {
    var run := NewRun(workflow);
    var (final, more) := InvokeFrom(run, run, e.approvals, world, 0, maxRetries);
    State(e.runs[runId := final], more)
  }

  // No two runs wait for the same approval.
  ghost predicate OneRunPerApproval(e: State) {
    forall r, q, id :: r in e.runs && q in e.runs && PausedOn(e.runs[r], id) && PausedOn(e.runs[q], id) ==> r == q
  }

  // The run that waits for the approval.
  ghost predicate Waits(e: State, id: nat, paused: Option<string>) {
    match paused
    case Some(r) => r in e.runs && PausedOn(e.runs[r], id)
    case None => forall r :: r in e.runs ==> !PausedOn(e.runs[r], id)
  }

  class OrchestratorEngine {
    var activeRuns: map<string, Run>
    var approvals: seq<Stored>
    const maxRetries: nat

    constructor (maxRetries: nat)
      ensures activeRuns == map[] && approvals == [] && this.maxRetries == maxRetries
    {
      activeRuns, approvals := map[], [];
      this.maxRetries := maxRetries;
    }

    function Now(): State
      reads this
    {
      State(activeRuns, approvals)
    }

    method Invoke(runId: string, first: Run, world: nat -> Input) returns (final: Run)
      modifies this
      ensures var (r, more) := InvokeFrom(first, first, old(approvals), world, 0, maxRetries);
        final == r && Now() == State(old(activeRuns)[runId := r], more)
    {
      var run := first;
      var i := 0;
      var going := true;
      while going && i < RECURSION_LIMIT && StageById(run.stages, run.current).Some?
        invariant 0 <= i <= RECURSION_LIMIT && activeRuns == old(activeRuns)
        invariant going ==>
          InvokeFrom(first, run, approvals, world, i, maxRetries)
            == InvokeFrom(first, first, old(approvals), world, 0, maxRetries)
        invariant !going ==> (run, approvals) == InvokeFrom(first, first, old(approvals), world, 0, maxRetries)
        decreases going, RECURSION_LIMIT - i
      {
        run := Step(run, world(i), |approvals|, maxRetries);
        if run.status.AwaitingApproval? {
          approvals := approvals + [Pending];
        }
        going := GoesOn(run);
        i := i + 1;
      }
      if going {
        run := CrashedFrom(first, run);
      }
      activeRuns := activeRuns[runId := run];
      final := run;
    }

    method RunWorkflow(runId: string, workflow: Workflow, world: nat -> Input) returns (final: Run)
      modifies this
      ensures Now() == AfterStart(old(Now()), runId, workflow, world, maxRetries)
      ensures runId in activeRuns && final == activeRuns[runId]
    {
      final := Invoke(runId, NewRun(workflow), world);
    }

    method ResumeRun(runId: string, decision: Decision, world: nat -> Input) returns (final: Run)
      requires runId in activeRuns
      modifies this
      ensures var run := Resume(old(activeRuns)[runId], decision);
        var (r, more) := InvokeFrom(run, run, old(approvals), world, 0, maxRetries);
        final == r && Now() == State(old(activeRuns)[runId := r], more)
    {
      final := Invoke(runId, Resume(activeRuns[runId], decision), world);
    }

    /** Records the decision unless one is stored already, then resumes the run
      * that waits for the approval with the decision just given. */
    method Approve(id: nat, answer: Answer, world: nat -> Input) returns (reply: Reply, ghost paused: Option<string>)
      requires OneRunPerApproval(Now())
      modifies this
      ensures Waits(old(Now()), id, paused)
      ensures Now() == AfterApprove(old(Now()), id, answer, paused, world, maxRetries)
      ensures reply.NoApproval? <==> id >= |old(approvals)|
      ensures reply.BadDecision? <==> id < |old(approvals)| && old(approvals)[id].Pending? && answer.Unknown?
      ensures reply.Resumed? ==> paused.Some? && reply.run == activeRuns[paused.value]
    {
      paused := if exists r :: r in activeRuns && PausedOn(activeRuns[r], id)
                then var r :| r in activeRuns && PausedOn(activeRuns[r], id); Some(r) else None;
      if id >= |approvals| {
        return NoApproval, paused;
      }
      if approvals[id].Pending? {
        if answer.Unknown? {
          return BadDecision, paused;
        }
        approvals := approvals[id := Recorded(answer)];
      }
      var rest := activeRuns.Keys;
      while rest != {}
        invariant rest <= activeRuns.Keys && activeRuns == old(activeRuns)
        invariant approvals == Decided(old(approvals), id, answer)
        invariant forall r :: r in activeRuns && r !in rest ==> !PausedOn(activeRuns[r], id)
      {
        var r :| r in rest;
        rest := rest - {r};
        if PausedOn(activeRuns[r], id) {
          var final := ResumeRun(r, Resumption(answer), world);
          return Resumed(final), paused;
        }
      }
      reply := NoPausedRun;
    }
  }
}
