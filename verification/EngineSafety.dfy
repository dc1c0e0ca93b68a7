/** What approvals guarantee over any sequence of engine calls. Decisions may
  * also be stored behind the engine's back; the statements say when that is
  * harmless. */
module EngineSafety {
  import opened Wrappers
  import opened Planning
  import opened WorkflowGraph
  import opened Engine
  import opened Sequences

  datatype Call =
    | Start(runId: string, workflow: Workflow, world: nat -> Input)
    | Approve(id: nat, answer: Answer, paused: Option<string>, world: nat -> Input)
    | DecideDirectly(id: nat, status: Stored)

  ghost predicate Possible(e: State, c: Call) {
    match c
    case Start(runId, _, _) => runId !in e.runs
    case Approve(id, _, paused, _) => Waits(e, id, paused)
    case DecideDirectly(id, status) => id < |e.approvals| && e.approvals[id].Pending? && !status.Pending?
  }

  function Serve(e: State, c: Call, maxRetries: nat): State
    requires c.Approve? && c.paused.Some? ==> c.paused.value in e.runs
  {
    match c
    case Start(runId, workflow, world) => AfterStart(e, runId, workflow, world, maxRetries)
    case Approve(id, answer, paused, world) => AfterApprove(e, id, answer, paused, world, maxRetries)
    case DecideDirectly(id, status) => if id < |e.approvals| then e.(approvals := e.approvals[id := status]) else e
  }

  // The approval that execution k asked for.
  predicate Asked(h: seq<Execution>, k: nat) {
    k < |h| && h[k].approval.Some?
  }

  predicate IsGranted(approvals: seq<Stored>, a: nat) {
    a < |approvals| && approvals[a].Granted?
  }

  // Every approval asked for before the last execution is granted.
  ghost predicate GatesHeld(run: Run, approvals: seq<Stored>) {
    forall k :: 0 <= k < |run.history| - 1 && Asked(run.history, k) ==>
      IsGranted(approvals, run.history[k].approval.value)
  }

  ghost predicate LastGranted(run: Run, approvals: seq<Stored>) {
    var h := run.history;
    h != [] && Asked(h, |h| - 1) ==> IsGranted(approvals, h[|h| - 1].approval.value)
  }

  // Every executed stage has a completed result; the current one may be exempt.
  ghost predicate ResultsKept(run: Run, exempt: bool) {
    forall k :: 0 <= k < |run.history| ==>
      run.history[k].stage in run.results
      && (run.results[run.history[k].stage] || (exempt && run.history[k].stage == run.current))
  }

  /** A run between two engine calls: it has stopped; no stage was executed behind
    * an approval that is not granted; a completed run holds only granted
    * approvals and completed results. */
  ghost predicate Sound(run: Run, approvals: seq<Stored>) {
    GatesHeld(run, approvals)
    && match run.status
       case Running => false
       case Failed => true
       case Completed => LastGranted(run, approvals) && ResultsKept(run, false)
       case AwaitingApproval =>
         ResultsKept(run, false) && run.decision.Undecided? && run.history != []
         && run.pending.Some? && run.pending.value < |approvals|
         && run.history[|run.history| - 1].approval == run.pending
  }

  // A run inside an invocation.
  ghost predicate Live(run: Run, approvals: seq<Stored>) {
    run.status.Running? && GatesHeld(run, approvals) && ResultsKept(run, true)
    && (run.decision.Rejected? || LastGranted(run, approvals))
  }

  ghost predicate AllSound(e: State) {
    (forall r :: r in e.runs ==> Sound(e.runs[r], e.approvals)) && OneRunPerApproval(e)
  }

  // Grants are never taken back.
  ghost predicate Grows(approvals: seq<Stored>, later: seq<Stored>) {
    |approvals| <= |later| && forall a :: 0 <= a < |approvals| && approvals[a].Granted? ==> later[a].Granted?
  }

  lemma SoundStays(run: Run, approvals: seq<Stored>, later: seq<Stored>)
    requires Sound(run, approvals) && Grows(approvals, later)
    ensures Sound(run, later)
  {
  }

  lemma PerformIsSound(run: Run, stage: Stage, input: Input, approvals: seq<Stored>, maxRetries: nat, gateDue: bool)
    requires Live(run, approvals) && run.decision.Undecided?
    ensures var t := Perform(run, stage, input, |approvals|, maxRetries, gateDue);
      var more := Requested(approvals, t);
      Grows(approvals, more) && (if GoesOn(t) then Live(t, more) else Sound(t, more))
      && (t.status.AwaitingApproval? ==> t.pending == Some(|approvals|))
  {
  }

  lemma DecideIsSound(run: Run, stage: Stage, approvals: seq<Stored>)
    requires Live(run, approvals) && !run.decision.Undecided?
    ensures var t := Decide(run, stage);
      !t.status.AwaitingApproval? && (if GoesOn(t) then Live(t, approvals) else Sound(t, approvals))
  {
  }

  lemma CrashIsSound(first: Run, run: Run, approvals: seq<Stored>)
    requires Live(run, approvals)
    ensures Sound(CrashedFrom(first, run), approvals)
  {
  }

  // What an invocation that began with these approvals may leave behind.
  ghost predicate Stops(approvals: seq<Stored>, result: (Run, seq<Stored>)) {
    Sound(result.0, result.1) && Grows(approvals, result.1)
    && (result.0.status.AwaitingApproval? && result.0.pending.Some? ==> |approvals| <= result.0.pending.value)
  }

  lemma StopsEarlier(approvals: seq<Stored>, later: seq<Stored>, result: (Run, seq<Stored>))
    requires Grows(approvals, later) && Stops(later, result)
    ensures Stops(approvals, result)
  {
  }

  lemma StepIsSound(run: Run, input: Input, approvals: seq<Stored>, maxRetries: nat)
    requires Live(run, approvals) && StageById(run.stages, run.current).Some?
    ensures var t := Step(run, input, |approvals|, maxRetries);
      var more := Requested(approvals, t);
      Grows(approvals, more) && (if GoesOn(t) then Live(t, more) else Stops(approvals, (t, more)))
  {
    var stage := StageById(run.stages, run.current).value;
    if run.decision.Undecided? {
      PerformIsSound(run, stage, input, approvals, maxRetries, GateDue(run, stage));
    } else {
      DecideIsSound(run, stage, approvals);
    }
  }

  // The rest of an invocation, seen from the state one step made.
  lemma InvokeUnfolds(
    first: Run, run: Run, approvals: seq<Stored>, world: nat -> Input, i: nat, maxRetries: nat, t: Run)
    requires i < RECURSION_LIMIT && StageById(run.stages, run.current).Some?
    requires t == Step(run, world(i), |approvals|, maxRetries)
    ensures InvokeFrom(first, run, approvals, world, i, maxRetries)
         == if GoesOn(t) then InvokeFrom(first, t, Requested(approvals, t), world, i + 1, maxRetries)
            else (t, Requested(approvals, t))
  {
  }

  lemma {:induction false} InvokeIsSound(
    first: Run, run: Run, approvals: seq<Stored>, world: nat -> Input, i: nat, maxRetries: nat)
    requires Live(run, approvals) && i <= RECURSION_LIMIT
    ensures Stops(approvals, InvokeFrom(first, run, approvals, world, i, maxRetries))
    decreases RECURSION_LIMIT - i
  {
    if i == RECURSION_LIMIT || StageById(run.stages, run.current).None? {
      CrashIsSound(first, run, approvals);
    } else {
      StepIsSound(run, world(i), approvals, maxRetries);
      var t := Step(run, world(i), |approvals|, maxRetries);
      var more := Requested(approvals, t);
      if GoesOn(t) {
        InvokeIsSound(first, t, more, world, i + 1, maxRetries);
        StopsEarlier(approvals, more, InvokeFrom(first, t, more, world, i + 1, maxRetries));
      }
      InvokeUnfolds(first, run, approvals, world, i, maxRetries, t);
    }
  }

  // Replacing one run by what an invocation made of it keeps all runs sound.
  lemma OneRunReplaced(e: State, runId: string, final: Run, more: seq<Stored>)
    requires AllSound(e) && Grows(e.approvals, more) && Sound(final, more)
    requires final.status.AwaitingApproval? && final.pending.Some? ==> |e.approvals| <= final.pending.value
    ensures AllSound(State(e.runs[runId := final], more))
  {
    var t := State(e.runs[runId := final], more);
    forall r | r in t.runs ensures Sound(t.runs[r], more) {
      if r != runId {
        SoundStays(e.runs[r], e.approvals, more);
      }
    }
    forall r | r in e.runs && e.runs[r].status.AwaitingApproval?
      ensures e.runs[r].pending.Some? && e.runs[r].pending.value < |e.approvals|
    {
      assert Sound(e.runs[r], e.approvals);
    }
  }

  /** A decision is safe to act on when the stored status does not contradict it:
    * the approval is still pending, or was granted, or the answer is no. */
  predicate Agrees(approvals: seq<Stored>, id: nat, answer: Answer) {
    id < |approvals| && answer.Grant? ==> approvals[id].Pending? || approvals[id].Granted?
  }

  lemma DecidedGrows(approvals: seq<Stored>, id: nat, answer: Answer)
    ensures Grows(approvals, Decided(approvals, id, answer))
  {
  }

  lemma ApproveIsSound(e: State, id: nat, answer: Answer, paused: Option<string>, world: nat -> Input, maxRetries: nat)
    requires AllSound(e) && Waits(e, id, paused) && (paused.Some? ==> Agrees(e.approvals, id, answer))
    ensures AllSound(AfterApprove(e, id, answer, paused, world, maxRetries))
  {
    if id < |e.approvals| && !(e.approvals[id].Pending? && answer.Unknown?) {
      var approvals := Decided(e.approvals, id, answer);
      DecidedGrows(e.approvals, id, answer);
      forall r | r in e.runs ensures Sound(e.runs[r], approvals) {
        SoundStays(e.runs[r], e.approvals, approvals);
      }
      var noted := e.(approvals := approvals);
      assert AllSound(noted);
      if paused.Some? {
        var run := Resume(e.runs[paused.value], Resumption(answer));
        assert Sound(e.runs[paused.value], approvals);
        assert Live(run, approvals);
        InvokeIsSound(run, run, approvals, world, 0, maxRetries);
        var (final, more) := InvokeFrom(run, run, approvals, world, 0, maxRetries);
        OneRunReplaced(noted, paused.value, final, more);
      }
    }
  }

  // ---- Any sequence of calls ----

  const EMPTY := State(map[], [])

  // Every call is possible when it comes.
  ghost predicate Feasible(e: State, calls: seq<Call>, maxRetries: nat)
    decreases |calls|
  {
    calls == []
    || (Possible(e, calls[0]) && Feasible(Serve(e, calls[0], maxRetries), calls[1..], maxRetries))
  }

  ghost function ServeAll(e: State, calls: seq<Call>, maxRetries: nat): State
    requires Feasible(e, calls, maxRetries)
    decreases |calls|
  {
    if calls == [] then e else ServeAll(Serve(e, calls[0], maxRetries), calls[1..], maxRetries)
  }

  // Every answer that resumes a run agrees with what is stored.
  ghost predicate Wise(e: State, calls: seq<Call>, maxRetries: nat)
    requires Feasible(e, calls, maxRetries)
    decreases |calls|
  {
    calls == []
    || ((calls[0].Approve? && calls[0].paused.Some? ==> Agrees(e.approvals, calls[0].id, calls[0].answer))
        && Wise(Serve(e, calls[0], maxRetries), calls[1..], maxRetries))
  }

  lemma CallIsSound(e: State, c: Call, maxRetries: nat)
    requires AllSound(e) && Possible(e, c)
    requires c.Approve? && c.paused.Some? ==> Agrees(e.approvals, c.id, c.answer)
    ensures AllSound(Serve(e, c, maxRetries))
  {
    match c {
      case Start(runId, workflow, world) =>
        var run := NewRun(workflow);
        InvokeIsSound(run, run, e.approvals, world, 0, maxRetries);
        var (final, more) := InvokeFrom(run, run, e.approvals, world, 0, maxRetries);
        OneRunReplaced(e, runId, final, more);
      case Approve(id, answer, paused, world) =>
        ApproveIsSound(e, id, answer, paused, world, maxRetries);
      case DecideDirectly(id, status) =>
        forall r | r in e.runs ensures Sound(e.runs[r], e.approvals[id := status]) {
          SoundStays(e.runs[r], e.approvals, e.approvals[id := status]);
        }
    }
  }

  lemma {:induction false} WiseCallsKeepSound(e: State, calls: seq<Call>, maxRetries: nat)
    requires AllSound(e) && Feasible(e, calls, maxRetries) && Wise(e, calls, maxRetries)
    ensures AllSound(ServeAll(e, calls, maxRetries))
    decreases |calls|
  {
    if calls != [] {
      CallIsSound(e, calls[0], maxRetries);
      WiseCallsKeepSound(Serve(e, calls[0], maxRetries), calls[1..], maxRetries);
    }
  }

  /** Also when decisions are stored behind the engine's back: from an empty engine, every
    * sequence of calls is sound in which an answer that resumes a run agrees with what is
    * stored. */
  lemma AgreeingAnswersGateEveryRun(calls: seq<Call>, maxRetries: nat)
    requires Feasible(EMPTY, calls, maxRetries) && Wise(EMPTY, calls, maxRetries)
    ensures AllSound(ServeAll(EMPTY, calls, maxRetries))
  {
    WiseCallsKeepSound(EMPTY, calls, maxRetries);
  }

  // ---- Decisions made through the engine only ----

  // Every run that is paused waits for an approval nobody has decided.
  ghost predicate Undecided(e: State) {
    forall r :: r in e.runs && e.runs[r].status.AwaitingApproval? ==> WaitsOpenly(e.runs[r], e.approvals)
  }

  predicate WaitsOpenly(run: Run, approvals: seq<Stored>) {
    run.pending.Some? && run.pending.value < |approvals| && approvals[run.pending.value].Pending?
  }

  // An invocation only appends approvals, and a run it pauses waits for a new one.
  ghost predicate Appends(approvals: seq<Stored>, result: (Run, seq<Stored>)) {
    approvals <= result.1
    && (result.0.status.AwaitingApproval? ==> WaitsOpenly(result.0, result.1))
  }

  lemma StepAppends(run: Run, input: Input, approvals: seq<Stored>, maxRetries: nat)
    requires run.status.Running? && StageById(run.stages, run.current).Some?
    ensures var t := Step(run, input, |approvals|, maxRetries); Appends(approvals, (t, Requested(approvals, t)))
  {
  }

  lemma {:induction false} InvokeAppends(
    first: Run, run: Run, approvals: seq<Stored>, world: nat -> Input, i: nat, maxRetries: nat)
    requires run.status.Running? && i <= RECURSION_LIMIT
    ensures Appends(approvals, InvokeFrom(first, run, approvals, world, i, maxRetries))
    decreases RECURSION_LIMIT - i
  {
    if i < RECURSION_LIMIT && StageById(run.stages, run.current).Some? {
      var t := Step(run, world(i), |approvals|, maxRetries);
      StepAppends(run, world(i), approvals, maxRetries);
      if GoesOn(t) {
        InvokeAppends(first, t, Requested(approvals, t), world, i + 1, maxRetries);
      }
      InvokeUnfolds(first, run, approvals, world, i, maxRetries, t);
    }
  }

  /** What approve does to the stored approvals and to the other runs: a pending approval gets
    * the decision, whether or not a run waits for it; every other stored status stays. An
    * unknown approval, or a decision that is no status for a pending one, changes nothing. */
  lemma ApproveStoresTheDecision(
    e: State, id: nat, answer: Answer, paused: Option<string>, world: nat -> Input, maxRetries: nat)
    requires Waits(e, id, paused)
    ensures var t := AfterApprove(e, id, answer, paused, world, maxRetries);
      |e.approvals| <= |t.approvals|
      && (forall a :: 0 <= a < |e.approvals| ==>
            t.approvals[a] == if a == id && e.approvals[a].Pending? && !answer.Unknown? then StatusFor(answer)
                              else e.approvals[a])
      && (id >= |e.approvals| || (e.approvals[id].Pending? && answer.Unknown?) ==> t == e)
      && (paused.None? ==> t.runs == e.runs && |t.approvals| == |e.approvals|)
      && forall r :: r in e.runs && paused != Some(r) ==> r in t.runs && t.runs[r] == e.runs[r]
  {
    if paused.Some? && id < |e.approvals| && !(e.approvals[id].Pending? && answer.Unknown?) {
      var run := Resume(e.runs[paused.value], Resumption(answer));
      InvokeAppends(run, run, Decided(e.approvals, id, answer), world, 0, maxRetries);
    }
  }

  // The status an answer stores.
  function StatusFor(answer: Answer): Stored {
    match answer
    case Grant => Granted
    case Refuse => Refused
    case RequestChanges => ChangesRequested
    case Unknown => Pending
  }

  // The other runs still wait for approvals nobody has decided.
  lemma OneRunWaits(e: State, runId: string, final: Run, more: seq<Stored>)
    requires forall r :: r in e.runs && r != runId && e.runs[r].status.AwaitingApproval? ==>
      WaitsOpenly(e.runs[r], e.approvals)
    requires Appends(e.approvals, (final, more))
    ensures Undecided(State(e.runs[runId := final], more))
  {
  }

  // Whatever the answer, an approve leaves the other runs waiting.
  lemma OthersStillWait(e: State, id: nat, answer: Answer, paused: Option<string>)
    requires Undecided(e) && OneRunPerApproval(e) && Waits(e, id, paused)
    ensures forall r :: r in e.runs && paused != Some(r) && e.runs[r].status.AwaitingApproval? ==>
      WaitsOpenly(e.runs[r], Decided(e.approvals, id, answer))
  {
    forall r | r in e.runs && paused != Some(r) && e.runs[r].status.AwaitingApproval?
      ensures e.runs[r].pending.Some? && e.runs[r].pending != Some(id)
    {
      assert WaitsOpenly(e.runs[r], e.approvals);
    }
  }

  lemma CallKeepsUndecided(e: State, c: Call, maxRetries: nat)
    requires AllSound(e) && Undecided(e) && Possible(e, c) && !c.DecideDirectly?
    ensures Undecided(Serve(e, c, maxRetries))
  {
    match c {
      case Start(runId, workflow, world) =>
        var run := NewRun(workflow);
        InvokeAppends(run, run, e.approvals, world, 0, maxRetries);
        var (final, more) := InvokeFrom(run, run, e.approvals, world, 0, maxRetries);
        OneRunWaits(e, runId, final, more);
      case Approve(id, answer, paused, world) =>
        if id < |e.approvals| && !(e.approvals[id].Pending? && answer.Unknown?) {
          var approvals := Decided(e.approvals, id, answer);
          OthersStillWait(e, id, answer, paused);
          if paused.Some? {
            var run := Resume(e.runs[paused.value], Resumption(answer));
            InvokeAppends(run, run, approvals, world, 0, maxRetries);
            var (final, more) := InvokeFrom(run, run, approvals, world, 0, maxRetries);
            OneRunWaits(e.(approvals := approvals), paused.value, final, more);
          }
        }
    }
  }

  // While decisions come through approve, the answer that resumes a run is the one stored.
  lemma {:induction false} OwnCallsAreWise(e: State, calls: seq<Call>, maxRetries: nat)
    requires AllSound(e) && Undecided(e) && Feasible(e, calls, maxRetries)
    requires forall i :: 0 <= i < |calls| ==> !calls[i].DecideDirectly?
    ensures Wise(e, calls, maxRetries)
    decreases |calls|
  {
    if calls != [] {
      var c := calls[0];
      if c.Approve? && c.paused.Some? {
        assert WaitsOpenly(e.runs[c.paused.value], e.approvals);
      }
      CallIsSound(e, c, maxRetries);
      CallKeepsUndecided(e, c, maxRetries);
      OwnCallsAreWise(Serve(e, c, maxRetries), calls[1..], maxRetries);
    }
  }

  /** Over any sequence of starts and approves from an empty engine, with whatever answers,
    * repeated or not: no stage is executed behind an approval whose stored status is not
    * "approved", and a completed run has a completed result for every stage it executed. */
  lemma ApprovalsGateEveryRun(calls: seq<Call>, maxRetries: nat)
    requires Feasible(EMPTY, calls, maxRetries) && forall i :: 0 <= i < |calls| ==> !calls[i].DecideDirectly?
    ensures AllSound(ServeAll(EMPTY, calls, maxRetries))
  {
    OwnCallsAreWise(EMPTY, calls, maxRetries);
    AgreeingAnswersGateEveryRun(calls, maxRetries);
  }

  // ---- A contradicting decision ----

  // Some execution lies behind an approval that is not granted.
  ghost predicate Breached(run: Run, approvals: seq<Stored>, k: nat) {
    k + 1 < |run.history| && Asked(run.history, k) && run.history[k].approval.value < |approvals|
    && !approvals[run.history[k].approval.value].Granted?
  }

  lemma {:induction false} BreachStays(
    first: Run, run: Run, approvals: seq<Stored>, world: nat -> Input, i: nat, maxRetries: nat, k: nat)
    requires Breached(run, approvals, k) && i <= RECURSION_LIMIT
    ensures var (final, more) := InvokeFrom(first, run, approvals, world, i, maxRetries);
      Breached(final, more, k)
    decreases RECURSION_LIMIT - i
  {
    if i < RECURSION_LIMIT && StageById(run.stages, run.current).Some? {
      var t := Step(run, world(i), |approvals|, maxRetries);
      assert run.history <= t.history;
      if GoesOn(t) {
        BreachStays(first, t, Requested(approvals, t), world, i + 1, maxRetries, k);
      }
    }
  }

  lemma BreachIsUnsound(run: Run, approvals: seq<Stored>, k: nat)
    requires Breached(run, approvals, k)
    ensures !Sound(run, approvals)
  {
  }

  // The stage after an approval is executed: the approval is no longer the last execution.
  lemma NextStageBreaches(
    first: Run, run: Run, chosen: seq<string>, templates: map<string, Template>, approvals: seq<Stored>,
    world: nat -> Input, maxRetries: nat)
    requires Underway(run, chosen, templates) && run.status.Running? && run.history != []
    requires Asked(run.history, |run.history| - 1)
    requires var a := run.history[|run.history| - 1].approval.value; a < |approvals| && !approvals[a].Granted?
    ensures var (final, more) := InvokeFrom(first, run, approvals, world, 1, maxRetries);
      !Sound(final, more)
  {
    var last := |run.history| - 1;
    LookupFindsFirst(run.stages, chosen, run.current);
    var stage := StageById(run.stages, run.current).value;
    var t := Perform(run, stage, world(1), |approvals|, maxRetries, GateDue(run, stage));
    assert t == Step(run, world(1), |approvals|, maxRetries);
    PerformExecutes(run, stage, world(1), |approvals|, maxRetries, GateDue(run, stage));
    assert t.history[last] == t.history[..last + 1][last];
    assert Breached(t, Requested(approvals, t), last);
    InvokeUnfolds(first, run, approvals, world, 1, maxRetries, t);
    if GoesOn(t) {
      BreachStays(first, t, Requested(approvals, t), world, 2, maxRetries, last);
      var (final, more) := InvokeFrom(first, t, Requested(approvals, t), world, 2, maxRetries);
      BreachIsUnsound(final, more, last);
    } else {
      BreachIsUnsound(t, Requested(approvals, t), last);
    }
  }

  // The first step of an approved run completes it or moves on to the next stage.
  lemma ApprovedStep(
    run: Run, chosen: seq<string>, templates: map<string, Template>, input: Input, approval: nat,
    maxRetries: nat)
    returns (t: Run)
    requires Underway(run, chosen, templates) && run.status.AwaitingApproval?
    ensures t == Step(Resume(run, Approved), input, approval, maxRetries) && StageById(run.stages, run.current).Some?
    ensures t.history == run.history
    ensures if GoesOn(t) then Underway(t, chosen, templates) && t.status.Running? else t.status.Completed?
  {
    var p := Find(chosen, run.current);
    LookupFindsFirst(run.stages, chosen, run.current);
    GoAfterApproval(run, chosen, templates, p);
    t := Decide(Resume(run, Approved), run.stages[p]);
    assert run.stages[p] == ChainStage(chosen, templates, p);
    if p + 1 < |chosen| {
      assert chosen[p + 1] in chosen;
    }
  }

  // Approving a run whose stored decision says no lets it complete or execute another stage.
  lemma ContradictionBreaches(
    run: Run, chosen: seq<string>, templates: map<string, Template>, approvals: seq<Stored>,
    world: nat -> Input, maxRetries: nat)
    requires Underway(run, chosen, templates) && run.status.AwaitingApproval? && Sound(run, approvals)
    requires !IsGranted(approvals, run.pending.value)
    ensures var resumed := Resume(run, Approved);
      var (final, more) := InvokeFrom(resumed, resumed, approvals, world, 0, maxRetries);
      !Sound(final, more)
  {
    var resumed := Resume(run, Approved);
    var t := ApprovedStep(run, chosen, templates, world(0), |approvals|, maxRetries);
    InvokeUnfolds(resumed, resumed, approvals, world, 0, maxRetries, t);
    if GoesOn(t) {
      NextStageBreaches(resumed, t, chosen, templates, approvals, world, maxRetries);
    }
  }

  /** approve does not compare its answer with what is stored: for a run paused in
    * a planner-built workflow, exactly the agreeing answers keep it sound. */
  lemma ApproveIsSoundExactlyWhenItAgrees(
    e: State, id: nat, answer: Answer, runId: string, chosen: seq<string>, templates: map<string, Template>,
    world: nat -> Input, maxRetries: nat)
    requires AllSound(e) && runId in e.runs && PausedOn(e.runs[runId], id)
    requires Underway(e.runs[runId], chosen, templates)
    ensures AllSound(AfterApprove(e, id, answer, Some(runId), world, maxRetries)) <==> Agrees(e.approvals, id, answer)
  {
    if Agrees(e.approvals, id, answer) {
      ApproveIsSound(e, id, answer, Some(runId), world, maxRetries);
    } else {
      var run := Resume(e.runs[runId], Approved);
      ContradictionBreaches(e.runs[runId], chosen, templates, e.approvals, world, maxRetries);
      var (final, more) := InvokeFrom(run, run, e.approvals, world, 0, maxRetries);
      assert AfterApprove(e, id, answer, Some(runId), world, maxRetries) == State(e.runs[runId := final], more);
      assert runId in e.runs[runId := final];
    }
  }

  // ---- The recursion limit ----

  lemma WithinUnfolds(
    limit: nat, first: Run, run: Run, approvals: seq<Stored>, world: nat -> Input, i: nat, maxRetries: nat,
    t: Run)
    requires i < limit && StageById(run.stages, run.current).Some?
    requires t == Step(run, world(i), |approvals|, maxRetries)
    ensures InvokeWithin(limit, first, run, approvals, world, i, maxRetries)
         == if GoesOn(t) then InvokeWithin(limit, first, t, Requested(approvals, t), world, i + 1, maxRetries)
            else (t, Requested(approvals, t))
  {
  }

  // The step of an underway run: it can be taken, and what goes on is closer to the end.
  lemma RunningStep(
    run: Run, chosen: seq<string>, templates: map<string, Template>, input: Input, approval: nat,
    maxRetries: nat)
    returns (t: Run)
    requires Underway(run, chosen, templates) && run.status.Running? && Distinct(chosen) && run.retryCount <= maxRetries
    ensures StageById(run.stages, run.current).Some? && t == Step(run, input, approval, maxRetries)
    ensures 0 < Measure(run, chosen, maxRetries)
    ensures GoesOn(t) ==>
      Underway(t, chosen, templates) && t.status.Running? && t.retryCount <= maxRetries
      && 0 <= Measure(t, chosen, maxRetries) < Measure(run, chosen, maxRetries)
  {
    LookupFindsFirst(run.stages, chosen, run.current);
    TickMakesProgress(run, chosen, templates, input, approval, maxRetries);
    t := Tick(run, input, approval, maxRetries);
  }

  lemma {:induction false} LimitIsNotReached(
    limit: nat, other: nat, first: Run, run: Run, chosen: seq<string>, templates: map<string, Template>,
    approvals: seq<Stored>, world: nat -> Input, i: nat, maxRetries: nat)
    requires Underway(run, chosen, templates) && run.status.Running? && Distinct(chosen) && run.retryCount <= maxRetries
    requires i + Measure(run, chosen, maxRetries) <= limit && i + Measure(run, chosen, maxRetries) <= other
    ensures i <= limit && i <= other
    ensures InvokeWithin(limit, first, run, approvals, world, i, maxRetries)
         == InvokeWithin(other, first, run, approvals, world, i, maxRetries)
    decreases limit - i
  {
    var t := RunningStep(run, chosen, templates, world(i), |approvals|, maxRetries);
    WithinUnfolds(limit, first, run, approvals, world, i, maxRetries, t);
    WithinUnfolds(other, first, run, approvals, world, i, maxRetries, t);
    if GoesOn(t) {
      LimitIsNotReached(limit, other, first, t, chosen, templates, Requested(approvals, t), world, i + 1, maxRetries);
    }
  }

  /** A workflow of distinct stages never meets the recursion limit of 200 while
    * four times its stages plus the retry budget stay below it: any higher limit
    * gives the same result. */
  lemma RecursionLimitNeverMatters(
    chosen: seq<string>, templates: map<string, Template>, approvals: seq<Stored>, world: nat -> Input,
    maxRetries: nat, higher: nat)
    requires Chosen(chosen, templates) && Distinct(chosen) && RECURSION_LIMIT <= higher
    requires 4 * |chosen| + maxRetries + 1 <= RECURSION_LIMIT
    ensures var run := Launch(chosen, templates);
      InvokeFrom(run, run, approvals, world, 0, maxRetries)
        == InvokeWithin(higher, run, run, approvals, world, 0, maxRetries)
  {
    assert chosen[0] in chosen;
    var run := Launch(chosen, templates);
    LimitIsNotReached(RECURSION_LIMIT, higher, run, run, chosen, templates, approvals, world, 0, maxRetries);
  }
}
