/** A run over the engine's calls: the start, and an approve whenever the run waits. A call
  * takes at most 200 graph steps, or fails the run. Whatever the world answers, the run
  * stays on the way through its stage list, as far as that is served; and when all goes
  * well it executes everything that is. */
module Sessions {
  import opened Wrappers
  import opened Planning
  import opened WorkflowGraph
  import opened Engine
  import opened EngineSafety
  import opened Ways

  // The engine before and after the calls that concern one run. Between them come calls
  // for other runs.
  datatype Session = Session(
    chosen: seq<string>, templates: map<string, Template>, maxRetries: nat, runId: string, before: nat -> State,
    after: nat -> State, worlds: nat -> nat -> Input, answers: nat -> Answer)

  // The run is there after the m-th call, and the calls for other runs leave it alone.
  ghost predicate Keeps(s: Session, m: nat) {
    s.runId in s.after(m).runs && s.runId in s.before(m + 1).runs
    && s.before(m + 1).runs[s.runId] == s.after(m).runs[s.runId]
  }

  ghost function At(s: Session, m: nat): Run
    requires Keeps(s, m)
  {
    s.after(m).runs[s.runId]
  }

  // An answer to a run that waits is recorded, or one is already, so that the run is resumed.
  predicate Resumes(e: State, runId: string, answer: Answer)
    requires runId in e.runs
  {
    var run := e.runs[runId];
    run.status.AwaitingApproval? ==>
      run.pending.Some? && run.pending.value < |e.approvals|
      && !(e.approvals[run.pending.value].Pending? && answer.Unknown?)
  }

  // approve, for the approval that the run waits for.
  function Answering(e: State, runId: string, answer: Answer, world: nat -> Input, maxRetries: nat): (t: State)
    requires runId in e.runs
    ensures runId in t.runs
  {
    var run := e.runs[runId];
    if run.status.AwaitingApproval? && run.pending.Some? then
      AfterApprove(e, run.pending.value, answer, Some(runId), world, maxRetries)
    else e
  }

  // A run that waits is resumed with an answer; once it has ended nothing happens to it.
  ghost predicate Continues(s: Session, m: nat) {
    Keeps(s, m)
    && Resumes(s.before(m + 1), s.runId, s.answers(m + 1))
    && s.after(m + 1)
       == Answering(s.before(m + 1), s.runId, s.answers(m + 1), s.worlds(m + 1), s.maxRetries)
  }

  ghost predicate Lives(s: Session) {
    Chosen(s.chosen, s.templates)
    && s.after(0)
       == AfterStart(
            s.before(0), s.runId, Workflow(s.chosen[0], Chain(s.chosen, s.templates)), s.worlds(0), s.maxRetries)
    && forall m: nat :: Continues(s, m)
  }

  // A session of this stage list, with these templates and this bound on retries.
  ghost predicate LivesOn(s: Session, chosen: seq<string>, templates: map<string, Template>, maxRetries: nat) {
    Lives(s) && s.chosen == chosen && s.templates == templates && s.maxRetries == maxRetries
  }

  // ---- One step on the way ----

  // The run is about to perform the n-th stage of the route, or waits there for approval.
  ghost predicate OnWay(r: Route, run: Run, n: nat) {
    Underway(run, r.chosen, r.templates)
    && Way(CourseOf(r), n) == Some(Spot(Find(r.chosen, run.current), run.gate.Some?))
  }

  // The gate was not asked yet, or gave the verdict of the route.
  predicate Fits(r: Route, gate: Option<Verdict>) {
    gate.None? || gate == Some(r.verdict)
  }

  // Where a step leads that performs a stage with success.
  lemma DoneOnWay(r: Route, run: Run, n: nat, input: Input, approval: nat, maxRetries: nat)
    requires OnWay(r, run, n) && run.status.Running? && input.outcome.Done?
    ensures var t := Step(run, input, approval, maxRetries);
      if Asks(CourseOf(r), n) then
        t.status.AwaitingApproval? && t.gate == run.gate && OnWay(r, t, n)
      else if Way(CourseOf(r), n + 1).None? then
        t.status.Completed?
      else
        GoesOn(t) && (run.gate.Some? || t.gate.None? || t.gate == Some(input.verdict))
        && (run.gate.Some? ==> t.gate == run.gate) && (Fits(r, t.gate) ==> OnWay(r, t, n + 1))
  {
    DoneStep(run, r.chosen, r.templates, input, approval, maxRetries);
    var p := Find(r.chosen, run.current);
    assert Way(CourseOf(r), n + 1) == Onward(r, Spot(p, run.gate.Some?));
    if p + 1 < |r.chosen| {
      assert r.chosen[p + 1] in r.chosen;
    }
  }

  lemma UnderwayStays(run: Run, chosen: seq<string>, templates: map<string, Template>, input: Input, approval: nat,
                      maxRetries: nat)
    requires Underway(run, chosen, templates) && run.status.Running?
    ensures var t := Step(run, input, approval, maxRetries); Ended(t) || Underway(t, chosen, templates)
  {
    TickOutcomes(run, chosen, templates, input, approval, maxRetries);
    var i := Find(chosen, run.current);
    assert i + 1 < |chosen| ==> chosen[i + 1] in chosen;
  }

  // ---- What a call can do ----

  // Where the run stands if the gate gave the verdict of the route, or none yet.
  ghost predicate Tracked(r: Route, run: Run, n: nat) {
    Underway(run, r.chosen, r.templates) && (Fits(r, run.gate) ==> OnWay(r, run, n))
  }

  lemma StepOnWay(r: Route, run: Run, n: nat, input: Input, approval: nat, maxRetries: nat)
    requires Tracked(r, run, n) && run.status.Running?
    ensures var t := Step(run, input, approval, maxRetries);
      Ended(t)
      || ((run.gate.Some? ==> t.gate == run.gate)
          && if t.status.AwaitingApproval? then Tracked(r, t, n) && (Fits(r, t.gate) ==> Asks(CourseOf(r), n))
             else GoesOn(t) && (Tracked(r, t, n) || Tracked(r, t, n + 1)))
  {
    UnderwayStays(run, r.chosen, r.templates, input, approval, maxRetries);
    if input.outcome.Crashed? {
      CrashedStep(run, r.chosen, r.templates, input, approval, maxRetries);
    } else {
      DoneStep(run, r.chosen, r.templates, input, approval, maxRetries);
      if Fits(r, run.gate) {
        DoneOnWay(r, run, n, input, approval, maxRetries);
      }
    }
  }

  // The n-th stage is about to be performed as step i of a call that began at the start or
  // after the approval stage `from`.
  ghost predicate Reached(c: Course, n: nat, i: nat, from: Option<nat>)
    requires Planned(c)
  {
    match from
    case None => n <= i
    case Some(a) => Asks(c, a) && Served(c, a) && a < n <= a + i
  }

  lemma ReachedIsServed(c: Course, n: nat, i: nat, from: Option<nat>)
    requires Planned(c) && Reached(c, n, i, from) && i < RECURSION_LIMIT && Way(c, n).Some?
    ensures Served(c, n)
  {
    if from.Some? {
      var a := from.value;
      if n >= RECURSION_LIMIT && a < RECURSION_LIMIT {
        assert AsksWithin(c, 0, RECURSION_LIMIT);
      }
      forall i: nat | 1 <= i && i + RECURSION_LIMIT - 1 <= n ensures AsksSoon(c, i) {
        if a < i + RECURSION_LIMIT - 1 {
          assert i <= a;
        }
      }
    }
  }

  // The stage at the n-th spot, and whether the gate was asked before it.
  ghost predicate Stands(r: Route, n: nat, stage: string)
    requires Drawn(r)
  {
    Way(CourseOf(r), n).Some? && r.chosen[Way(CourseOf(r), n).value.place] == stage
  }

  ghost predicate IsGated(r: Route, n: nat)
    requires Drawn(r)
  {
    Way(CourseOf(r), n).Some? && Way(CourseOf(r), n).value.gated
  }

  // The stage is met and served on the way, after the verdict.
  ghost predicate ServedAfterGate(r: Route, stage: string)
    requires Drawn(r)
  {
    exists n: nat :: Served(CourseOf(r), n) && Stands(r, n, stage) && IsGated(r, n)
  }

  // So is every stage that was executed after the verdict of the route.
  ghost predicate Shown(r: Route, h: seq<Execution>)
    requires Drawn(r)
  {
    forall k :: 0 <= k < |h| && h[k].gate == Some(r.verdict) ==> ServedAfterGate(r, h[k].stage)
  }

  // A paused run, and the approval stage at which it waits.
  ghost predicate Waiting(r: Route, run: Run, a: nat) {
    run.status.AwaitingApproval? && Tracked(r, run, a)
    && (Fits(r, run.gate) ==> Asks(CourseOf(r), a) && Served(CourseOf(r), a))
  }

  // One more execution, of the stage at the n-th spot.
  lemma OneMoreShown(r: Route, h: seq<Execution>, e: Execution, n: nat)
    requires Drawn(r) && Shown(r, h)
    requires e.gate == Some(r.verdict) ==> Served(CourseOf(r), n) && Stands(r, n, e.stage) && IsGated(r, n)
    ensures Shown(r, h + [e])
  {
  }

  lemma StepIsShown(r: Route, run: Run, n: nat, i: nat, from: Option<nat>, input: Input, approval: nat,
                    maxRetries: nat)
    requires Tracked(r, run, n) && run.status.Running? && Shown(r, run.history) && i < RECURSION_LIMIT
    requires Fits(r, run.gate) ==> Reached(CourseOf(r), n, i, from)
    ensures Shown(r, Step(run, input, approval, maxRetries).history)
  {
    StepExecutes(run, r.chosen, r.templates, input, approval, maxRetries);
    if Fits(r, run.gate) {
      ReachedIsServed(CourseOf(r), n, i, from);
    }
    var h := Step(run, input, approval, maxRetries).history;
    assert h == run.history + [h[|run.history|]];
    OneMoreShown(r, run.history, h[|run.history|], n);
  }

  lemma {:induction false} InvocationStaysOnWay(
    r: Route, first: Run, run: Run, approvals: seq<Stored>, world: nat -> Input, i: nat, maxRetries: nat, n: nat,
    from: Option<nat>)
    returns (a: nat)
    requires Tracked(r, run, n) && run.status.Running? && Shown(r, run.history) && i <= RECURSION_LIMIT
    requires Fits(r, run.gate) ==> Reached(CourseOf(r), n, i, from)
    ensures var t := InvokeFrom(first, run, approvals, world, i, maxRetries).0;
      Shown(r, t.history) && n <= a
      && (Ended(t) || (Waiting(r, t, a) && (run.gate.Some? ==> t.gate == run.gate)))
    decreases RECURSION_LIMIT - i
  {
    a := n;
    if i < RECURSION_LIMIT {
      StepExecutes(run, r.chosen, r.templates, world(i), |approvals|, maxRetries);
      StepOnWay(r, run, n, world(i), |approvals|, maxRetries);
      StepIsShown(r, run, n, i, from, world(i), |approvals|, maxRetries);
      if Fits(r, run.gate) {
        ReachedIsServed(CourseOf(r), n, i, from);
      }
      var t := Step(run, world(i), |approvals|, maxRetries);
      InvokeUnfolds(first, run, approvals, world, i, maxRetries, t);
      if GoesOn(t) {
        var m := if Tracked(r, t, n) then n else n + 1;
        a := InvocationStaysOnWay(r, first, t, Requested(approvals, t), world, i + 1, maxRetries, m, from);
      }
    }
  }

  // An approved run that waits goes on behind its stage; no gate is asked there.
  lemma ApprovedOnWay(r: Route, run: Run, a: nat)
    requires Tracked(r, run, a) && run.status.AwaitingApproval? && (Fits(r, run.gate) ==> Asks(CourseOf(r), a))
    ensures var t := Decide(Resume(run, Approved), run.stages[Find(r.chosen, run.current)]);
      t.history == run.history
      && if t.status.Completed? then Fits(r, run.gate) ==> Way(CourseOf(r), a + 1).None?
         else GoesOn(t) && t.gate == run.gate && Tracked(r, t, a + 1)
  {
    var p := Find(r.chosen, run.current);
    GoAfterApproval(run, r.chosen, r.templates, p);
    assert run.stages[p] == ChainStage(r.chosen, r.templates, p);
    if p + 1 < |r.chosen| {
      assert r.chosen[p + 1] in r.chosen;
    }
    if Fits(r, run.gate) {
      assert Way(CourseOf(r), a + 1) == Onward(r, Spot(p, run.gate.Some?));
    }
  }

  lemma FirstResumedStep(r: Route, run: Run, decision: Decision, input: Input, approval: nat, maxRetries: nat)
    requires Underway(run, r.chosen, r.templates) && run.status.AwaitingApproval? && !decision.Undecided?
    ensures var resumed := Resume(run, decision);
      StageById(resumed.stages, resumed.current).Some?
      && Step(resumed, input, approval, maxRetries) == Decide(resumed, run.stages[Find(r.chosen, run.current)])
  {
    LookupFindsFirst(run.stages, r.chosen, run.current);
  }

  // The call that resumes a run.
  function Resumed(run: Run, decision: Decision, approvals: seq<Stored>, world: nat -> Input, maxRetries: nat): Run {
    InvokeFrom(Resume(run, decision), Resume(run, decision), approvals, world, 0, maxRetries).0
  }

  lemma ResumeStaysOnWay(
    r: Route, run: Run, decision: Decision, approvals: seq<Stored>, world: nat -> Input, maxRetries: nat, a: nat)
    returns (b: nat)
    requires Waiting(r, run, a) && Shown(r, run.history) && !decision.Undecided?
    ensures var t := Resumed(run, decision, approvals, world, maxRetries);
      Shown(r, t.history) && a < b
      && (Ended(t) || (Waiting(r, t, b) && (run.gate.Some? ==> t.gate == run.gate)))
  {
    b := a + 1;
    var resumed := Resume(run, decision);
    FirstResumedStep(r, run, decision, world(0), |approvals|, maxRetries);
    ApprovedOnWay(r, run, a);
    var t := Step(resumed, world(0), |approvals|, maxRetries);
    InvokeUnfolds(resumed, resumed, approvals, world, 0, maxRetries, t);
    if GoesOn(t) {
      b := InvocationStaysOnWay(
        r, resumed, t, Requested(approvals, t), world, 1, maxRetries, a + 1, Some(a));
    }
  }

  // ---- What a session can do ----

  // The next state of a run that waits, and of one that does not.
  lemma NextRun(s: Session, m: nat) returns (approvals: seq<Stored>)
    requires Lives(s)
    ensures Keeps(s, m) && Keeps(s, m + 1)
    ensures At(s, m + 1)
         == if At(s, m).status.AwaitingApproval?
            then Resumed(At(s, m), Resumption(s.answers(m + 1)), approvals, s.worlds(m + 1), s.maxRetries)
            else At(s, m)
  {
    approvals := [];
    assert Continues(s, m) && Continues(s, m + 1);
    if At(s, m).status.AwaitingApproval? {
      approvals := Decided(s.before(m + 1).approvals, At(s, m).pending.value, s.answers(m + 1));
    }
  }

  lemma FirstRun(s: Session)
    requires Lives(s)
    ensures Keeps(s, 0)
    ensures var run := Launch(s.chosen, s.templates);
      At(s, 0) == InvokeFrom(run, run, s.before(0).approvals, s.worlds(0), 0, s.maxRetries).0
  {
    assert Continues(s, 0);
  }

  lemma NextStaysOnWay(s: Session, r: Route, m: nat, a: nat) returns (b: nat)
    requires Lives(s) && r.chosen == s.chosen && r.templates == s.templates
    requires Keeps(s, m) && Shown(r, At(s, m).history) && Waiting(r, At(s, m), a)
    ensures Keeps(s, m + 1) && Shown(r, At(s, m + 1).history) && a < b
    ensures Ended(At(s, m + 1))
         || (Waiting(r, At(s, m + 1), b) && (At(s, m).gate.Some? ==> At(s, m + 1).gate == At(s, m).gate))
  {
    var approvals := NextRun(s, m);
    b := ResumeStaysOnWay(
      r, At(s, m), Resumption(s.answers(m + 1)), approvals, s.worlds(m + 1), s.maxRetries, a);
  }

  /** Between two calls a run has ended or waits at an approval stage that is served on its
    * way, further on with every call; and what it executed was on its way, and served. */
  lemma {:induction false} SessionStaysOnWay(s: Session, r: Route, m: nat) returns (a: nat)
    requires Lives(s) && r.chosen == s.chosen && r.templates == s.templates
    ensures Keeps(s, m) && Shown(r, At(s, m).history) && m <= a
    ensures Ended(At(s, m)) || Waiting(r, At(s, m), a)
  {
    if m == 0 {
      FirstRun(s);
      assert s.chosen[0] in s.chosen;
      var run := Launch(s.chosen, s.templates);
      a := InvocationStaysOnWay(r, run, run, s.before(0).approvals, s.worlds(0), 0, s.maxRetries, 0, None);
    } else {
      a := SessionStaysOnWay(s, r, m - 1);
      if Ended(At(s, m - 1)) {
        var _ := NextRun(s, m - 1);
        a := m;
      } else {
        a := NextStaysOnWay(s, r, m - 1, a);
      }
    }
  }

  lemma VerdictStaysOnce(s: Session, m: nat)
    requires Lives(s)
    ensures Keeps(s, m) && Keeps(s, m + 1)
    ensures !Ended(At(s, m + 1)) ==>
      !Ended(At(s, m)) && (At(s, m).gate.Some? ==> At(s, m + 1).gate == At(s, m).gate)
  {
    var r := Route(s.chosen, s.templates, Go);
    var a := SessionStaysOnWay(s, r, m);
    var _ := NextRun(s, m);
    if !Ended(At(s, m)) {
      var _ := NextStaysOnWay(s, r, m, a);
    }
  }

  // A verdict that was given stays as long as the run goes on.
  lemma {:induction false} VerdictStays(s: Session, m: nat, n: nat)
    requires Lives(s) && m <= n && Keeps(s, m) && Keeps(s, n) && !Ended(At(s, n)) && At(s, m).gate.Some?
    ensures At(s, n).gate == At(s, m).gate
  {
    if m < n {
      VerdictStaysOnce(s, n - 1);
      VerdictStays(s, m, n - 1);
    }
  }

  // ---- Sessions in which all goes well ----

  // The n-th execution was that of the n-th stage on the way.
  ghost predicate Recorded(r: Route, h: seq<Execution>, n: nat)
    requires Drawn(r)
  {
    n < |h| && Stands(r, n, h[n].stage) && h[n].gate == if IsGated(r, n) then Some(r.verdict) else None
  }

  // The run is about to perform the n-th stage, with everything before it executed once.
  ghost predicate Performs(r: Route, run: Run, n: nat) {
    OnWay(r, run, n) && run.status.Running? && Fits(r, run.gate) && |run.history| == n
  }

  // The run waits at the approval stage a, with everything up to it executed once.
  ghost predicate WaitsAt(r: Route, run: Run, a: nat) {
    OnWay(r, run, a) && run.status.AwaitingApproval? && Fits(r, run.gate) && Asks(CourseOf(r), a)
    && |run.history| == a + 1
  }

  lemma SmoothStep(r: Route, run: Run, n: nat, approval: nat, maxRetries: nat)
    requires Performs(r, run, n)
    ensures StageById(run.stages, run.current).Some?
    ensures var t := Step(run, Input(Done, r.verdict, Undecided), approval, maxRetries);
      Recorded(r, t.history, n)
      && if Asks(CourseOf(r), n) then !GoesOn(t) && WaitsAt(r, t, n)
         else Way(CourseOf(r), n + 1).Some? ==> GoesOn(t) && Performs(r, t, n + 1)
  {
    StepExecutes(run, r.chosen, r.templates, Input(Done, r.verdict, Undecided), approval, maxRetries);
    DoneOnWay(r, run, n, Input(Done, r.verdict, Undecided), approval, maxRetries);
  }

  lemma {:induction false} HistoryStays(
    first: Run, run: Run, approvals: seq<Stored>, world: nat -> Input, i: nat, maxRetries: nat)
    requires i <= RECURSION_LIMIT
    ensures run.history <= InvokeFrom(first, run, approvals, world, i, maxRetries).0.history
    decreases RECURSION_LIMIT - i
  {
    if i < RECURSION_LIMIT && StageById(run.stages, run.current).Some? {
      var t := Step(run, world(i), |approvals|, maxRetries);
      assert run.history <= t.history;
      InvokeUnfolds(first, run, approvals, world, i, maxRetries, t);
      if GoesOn(t) {
        HistoryStays(first, t, Requested(approvals, t), world, i + 1, maxRetries);
      }
    }
  }

  ghost predicate AllWell(r: Route, world: nat -> Input) {
    forall i: nat :: world(i) == Input(Done, r.verdict, Undecided)
  }

  // The n-th stage can be step i of a call that comes to the target or to an approval.
  ghost predicate InReach(c: Course, n: nat, i: nat, target: nat)
    requires Planned(c)
  {
    i <= RECURSION_LIMIT && n <= target && Way(c, target).Some?
    && (target < n + RECURSION_LIMIT - i || AsksWithin(c, n, RECURSION_LIMIT - i))
  }

  lemma ReachGoesOn(c: Course, n: nat, i: nat, target: nat)
    requires Planned(c) && InReach(c, n, i, target)
    ensures i < RECURSION_LIMIT
    ensures n < target && !Asks(c, n) ==> InReach(c, n + 1, i + 1, target) && Way(c, n + 1).Some?
  {
    if n < target {
      WayBefore(c, n + 1, target);
    }
  }

  lemma ReachFromStart(c: Course, target: nat)
    requires Planned(c) && Served(c, target)
    ensures InReach(c, 0, 0, target)
  {
  }

  lemma ReachFromApproval(c: Course, a: nat, target: nat)
    requires Planned(c) && Served(c, target) && a < target
    ensures InReach(c, a + 1, 1, target) && Way(c, a + 1).Some?
  {
    WayBefore(c, a + 1, target);
    assert a + RECURSION_LIMIT <= target ==> AsksSoon(c, a + 1);
  }

  // A call executes the target, or pauses on the way to it.
  lemma {:induction false} SmoothInvocation(
    r: Route, first: Run, run: Run, approvals: seq<Stored>, world: nat -> Input, i: nat, maxRetries: nat, n: nat,
    target: nat)
    returns (a: nat)
    requires Performs(r, run, n) && AllWell(r, world) && InReach(CourseOf(r), n, i, target)
    ensures var t := InvokeFrom(first, run, approvals, world, i, maxRetries).0;
      Recorded(r, t.history, target) || (WaitsAt(r, t, a) && n <= a < target)
    decreases RECURSION_LIMIT - i
  {
    a := n;
    ReachGoesOn(CourseOf(r), n, i, target);
    SmoothStep(r, run, n, |approvals|, maxRetries);
    var t := Step(run, world(i), |approvals|, maxRetries);
    InvokeUnfolds(first, run, approvals, world, i, maxRetries, t);
    if n == target {
      RecordStays(r, first, t, Requested(approvals, t), world, i + 1, maxRetries, n);
    } else if !Asks(CourseOf(r), n) {
      a := SmoothInvocation(
        r, first, t, Requested(approvals, t), world, i + 1, maxRetries, n + 1, target);
    }
  }

  lemma RecordStays(
    r: Route, first: Run, run: Run, approvals: seq<Stored>, world: nat -> Input, i: nat, maxRetries: nat, n: nat)
    requires Drawn(r) && Recorded(r, run.history, n) && i <= RECURSION_LIMIT
    ensures Recorded(r, InvokeFrom(first, run, approvals, world, i, maxRetries).0.history, n)
  {
    HistoryStays(first, run, approvals, world, i, maxRetries);
  }

  lemma SmoothDecision(r: Route, run: Run, a: nat, input: Input, approval: nat, maxRetries: nat)
    requires WaitsAt(r, run, a) && Way(CourseOf(r), a + 1).Some?
    ensures var resumed := Resume(run, Approved);
      var t := Step(resumed, input, approval, maxRetries);
      StageById(resumed.stages, resumed.current).Some? && GoesOn(t) && Performs(r, t, a + 1)
  {
    FirstResumedStep(r, run, Approved, input, approval, maxRetries);
    ApprovedOnWay(r, run, a);
  }

  lemma SmoothResume(
    r: Route, run: Run, approvals: seq<Stored>, world: nat -> Input, maxRetries: nat, a: nat, target: nat)
    returns (b: nat)
    requires WaitsAt(r, run, a) && AllWell(r, world) && a < target && Served(CourseOf(r), target)
    ensures var t := Resumed(run, Approved, approvals, world, maxRetries);
      Recorded(r, t.history, target) || (WaitsAt(r, t, b) && a < b < target)
  {
    var resumed := Resume(run, Approved);
    ReachFromApproval(CourseOf(r), a, target);
    SmoothDecision(r, run, a, world(0), |approvals|, maxRetries);
    var t := Step(resumed, world(0), |approvals|, maxRetries);
    InvokeUnfolds(resumed, resumed, approvals, world, 0, maxRetries, t);
    b := SmoothInvocation(r, resumed, t, Requested(approvals, t), world, 1, maxRetries, a + 1, target);
  }

  // All stages succeed, the gate gives the verdict of the route, and every approval is granted.
  ghost predicate Smooth(s: Session, r: Route) {
    Lives(s) && s.chosen == r.chosen && s.templates == r.templates
    && forall m: nat :: AllWell(r, s.worlds(m)) && s.answers(m).Grant?
  }

  // After the m-th call the target is executed, or the run waits on the way to it.
  ghost predicate Comes(r: Route, run: Run, target: nat, m: nat, a: nat)
    requires Drawn(r)
  {
    Recorded(r, run.history, target) || (WaitsAt(r, run, a) && m <= a < target)
  }

  lemma SmoothStart(s: Session, r: Route, target: nat) returns (a: nat)
    requires Smooth(s, r) && Served(CourseOf(r), target)
    ensures Keeps(s, 0) && Comes(r, At(s, 0), target, 0, a)
  {
    FirstRun(s);
    var run := Launch(s.chosen, s.templates);
    LaunchPerforms(r);
    ReachFromStart(CourseOf(r), target);
    a := SmoothInvocation(r, run, run, s.before(0).approvals, s.worlds(0), 0, s.maxRetries, 0, target);
  }

  lemma SmoothNext(s: Session, r: Route, m: nat, target: nat, a: nat) returns (b: nat)
    requires Smooth(s, r) && Served(CourseOf(r), target) && Keeps(s, m) && Comes(r, At(s, m), target, m, a)
    ensures Keeps(s, m + 1) && Comes(r, At(s, m + 1), target, m + 1, b)
  {
    b := a;
    var run := At(s, m);
    var approvals := NextRun(s, m);
    if !Recorded(r, run.history, target) {
      b := SmoothResume(r, run, approvals, s.worlds(m + 1), s.maxRetries, a, target);
    } else if run.status.AwaitingApproval? {
      var resumed := Resume(run, Approved);
      RecordStays(r, resumed, resumed, approvals, s.worlds(m + 1), 0, s.maxRetries, target);
    }
  }

  lemma SmoothGoesOn(s: Session, r: Route, m: nat, target: nat) returns (a: nat)
    requires Smooth(s, r) && Served(CourseOf(r), target)
    ensures Keeps(s, m) && Comes(r, At(s, m), target, m, a)
  {
    a := SmoothStart(s, r, target);
    for k := 0 to m
      invariant Keeps(s, k) && Comes(r, At(s, k), target, k, a)
    {
      a := SmoothNext(s, r, k, target, a);
    }
  }

  lemma LaunchPerforms(r: Route)
    requires Drawn(r)
    ensures Performs(r, Launch(r.chosen, r.templates), 0)
  {
    assert r.chosen[0] in r.chosen;
  }

  /** Whatever is served on the way is executed, when all goes well. */
  lemma ServedIsExecuted(s: Session, r: Route, n: nat)
    requires Smooth(s, r) && Served(CourseOf(r), n)
    ensures Keeps(s, n) && Recorded(r, At(s, n).history, n)
  {
    var a := SmoothGoesOn(s, r, n, n);
  }

  // ---- There are such sessions ----

  function AllGood(r: Route): nat -> Input {
    _ => Input(Done, r.verdict, Undecided)
  }

  // The engine after m calls, when it serves nothing but one run of the route.
  ghost function EngineAfter(r: Route, maxRetries: nat, m: nat): (e: State)
    requires Drawn(r)
    ensures "run" in e.runs
  {
    if m == 0 then
      AfterStart(EMPTY, "run", Workflow(r.chosen[0], Chain(r.chosen, r.templates)), AllGood(r), maxRetries)
    else
      Answering(EngineAfter(r, maxRetries, m - 1), "run", Grant, AllGood(r), maxRetries)
  }

  lemma {:induction false} EngineWaitsOpenly(r: Route, maxRetries: nat, m: nat)
    requires Drawn(r)
    ensures var e := EngineAfter(r, maxRetries, m);
      e.runs["run"].status.AwaitingApproval? ==> WaitsOpenly(e.runs["run"], e.approvals)
  {
    if m == 0 {
      var run := Launch(r.chosen, r.templates);
      InvokeAppends(run, run, [], AllGood(r), 0, maxRetries);
    } else {
      EngineWaitsOpenly(r, maxRetries, m - 1);
      var e := EngineAfter(r, maxRetries, m - 1);
      if e.runs["run"].status.AwaitingApproval? {
        var run := Resume(e.runs["run"], Approved);
        InvokeAppends(run, run, Decided(e.approvals, e.runs["run"].pending.value, Grant), AllGood(r), 0, maxRetries);
      }
    }
  }

  ghost function SmoothSession(r: Route, maxRetries: nat): Session
    requires Drawn(r)
  {
    Session(
      r.chosen, r.templates, maxRetries, "run",
      (m: nat) => if m == 0 then EMPTY else EngineAfter(r, maxRetries, m - 1),
      (m: nat) => EngineAfter(r, maxRetries, m), (m: nat) => AllGood(r), (m: nat) => Grant)
  }

  lemma SmoothContinues(r: Route, maxRetries: nat, m: nat)
    requires Drawn(r)
    ensures Continues(SmoothSession(r, maxRetries), m)
  {
    var s := SmoothSession(r, maxRetries);
    var e := EngineAfter(r, maxRetries, m);
    assert s.before(m + 1) == e;
    assert Resumes(e, "run", Grant) by {
      EngineWaitsOpenly(r, maxRetries, m);
    }
    assert s.after(m + 1) == Answering(e, "run", Grant, AllGood(r), maxRetries);
  }

  lemma SmoothSessionLives(r: Route, maxRetries: nat)
    requires Drawn(r)
    ensures Smooth(SmoothSession(r, maxRetries), r)
  {
    var s := SmoothSession(r, maxRetries);
    forall m: nat ensures Continues(s, m) {
      SmoothContinues(r, maxRetries, m);
    }
  }
}
