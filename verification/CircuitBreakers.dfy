/** The two circuit breakers: per tool in the executor, per model in the router. Times
  * are readings of a monotone clock in microseconds. */
module CircuitBreakers {
  import opened Wrappers

  const TOOL_THRESHOLD := 3
  const TOOL_COOLDOWN := 60_000_000

  // ---- Tools ----

  datatype Circuit = Circuit(failures: nat, openUntil: Option<int>, halfOpen: bool)
  datatype Status = Closed | HalfOpen | Open

  // A tool without failures has no circuit.
  function StatusAt(c: Option<Circuit>, now: int): Status {
    if c.None? then Closed
    else if c.value.halfOpen then HalfOpen
    else if c.value.openUntil.None? then Closed
    else if c.value.openUntil.value <= now then HalfOpen
    else Open
  }

  // Asking for the state makes the first caller after the cooldown the probe.
  function Looked(c: Option<Circuit>, now: int): Option<Circuit> {
    if c.Some? && StatusAt(c, now) == HalfOpen then Some(c.value.(halfOpen := true)) else c
  }

  function Failed(c: Option<Circuit>, now: int, threshold: nat, cooldown: int): Option<Circuit> {
    var circ := if c.Some? then c.value else Circuit(0, None, false);
    var failures := circ.failures + 1;
    if circ.halfOpen || failures >= threshold
    then Some(Circuit(0, Some(now + cooldown), false))
    else Some(Circuit(failures, circ.openUntil, false))
  }

  function Get(circuits: map<string, Circuit>, tool: string): (r: Option<Circuit>)
    ensures tool in circuits ==> r == Some(circuits[tool])
    ensures r.Some? ==> tool in circuits
  {
    if tool in circuits then Some(circuits[tool]) else None
  }

  // What would become of a call that is let through: NotRun ends before the handler.
  datatype Outcome = NotRun | Succeeds | Fails | Waits
  datatype Call = Call(start: int, end: int, outcome: Outcome)

  function AfterCall(c: Option<Circuit>, call: Call, threshold: nat, cooldown: int): (Option<Circuit>, bool) {
    if StatusAt(c, call.start) == Open then (c, false)
    else
      var looked := Looked(c, call.start);
      match call.outcome
      case NotRun => (looked, false)
      case Succeeds => (None, true)
      case Fails => (Failed(looked, call.end, threshold, cooldown), true)
      case Waits => (looked, true)
  }

  class ToolBreaker {
    var circuits: map<string, Circuit>

    constructor ()
      ensures circuits == map[]
    {
      circuits := map[];
    }

    method CircuitState(tool: string, now: int) returns (status: Status)
      modifies this
      ensures status == StatusAt(Get(old(circuits), tool), now)
      ensures Get(circuits, tool) == Looked(Get(old(circuits), tool), now)
      ensures forall other :: other != tool ==> Get(circuits, other) == Get(old(circuits), other)
    {
      if tool !in circuits {
        return Closed;
      }
      var circ := circuits[tool];
      if circ.halfOpen {
        return HalfOpen;
      }
      if circ.openUntil.None? {
        return Closed;
      }
      if circ.openUntil.value <= now {
        circuits := circuits[tool := circ.(halfOpen := true)];
        return HalfOpen;
      }
      status := Open;
    }

    method RecordFailure(tool: string, now: int)
      modifies this
      ensures Get(circuits, tool) == Failed(Get(old(circuits), tool), now, TOOL_THRESHOLD, TOOL_COOLDOWN)
      ensures forall other :: other != tool ==> Get(circuits, other) == Get(old(circuits), other)
    {
      var circ := if tool in circuits then circuits[tool] else Circuit(0, None, false);
      var wasHalfOpen := circ.halfOpen;
      circ := circ.(failures := circ.failures + 1, halfOpen := false);
      if wasHalfOpen || circ.failures >= TOOL_THRESHOLD {
        circ := circ.(openUntil := Some(now + TOOL_COOLDOWN), failures := 0);
      }
      circuits := circuits[tool := circ];
    }

    method RecordSuccess(tool: string)
      modifies this
      ensures Get(circuits, tool) == None
      ensures forall other :: other != tool ==> Get(circuits, other) == Get(old(circuits), other)
    {
      circuits := circuits - {tool};
    }

    /** One call: refused while the circuit is open; otherwise it may still end before
      * the handler runs, or run and succeed, fail, or wait for approval. */
    method Execute(tool: string, call: Call) returns (ran: bool)
      modifies this
      ensures (Get(circuits, tool), ran) == AfterCall(Get(old(circuits), tool), call, TOOL_THRESHOLD, TOOL_COOLDOWN)
      ensures forall other :: other != tool ==> Get(circuits, other) == Get(old(circuits), other)
    {
      var status := CircuitState(tool, call.start);
      if status == Open || call.outcome == NotRun {
        return false;
      }
      if call.outcome == Succeeds {
        RecordSuccess(tool);
      } else if call.outcome == Fails {
        RecordFailure(tool, call.end);
      }
      ran := true;
    }
  }

  // ---- Runs of calls to one tool, one after the other ----

  function CircuitAfter(c: Option<Circuit>, calls: seq<Call>, threshold: nat, cooldown: int): Option<Circuit> {
    if calls == [] then c
    else
      var n := |calls| - 1;
      AfterCall(CircuitAfter(c, calls[..n], threshold, cooldown), calls[n], threshold, cooldown).0
  }

  // How many of the calls reached the handler.
  function Executions(c: Option<Circuit>, calls: seq<Call>, threshold: nat, cooldown: int): nat {
    if calls == [] then 0
    else
      var n := |calls| - 1;
      Executions(c, calls[..n], threshold, cooldown)
      + if AfterCall(CircuitAfter(c, calls[..n], threshold, cooldown), calls[n], threshold, cooldown).1 then 1 else 0
  }

  // The calls follow one another and start between the two times.
  ghost predicate Sequential(calls: seq<Call>, from: int, to: int) {
    (forall i :: 0 <= i < |calls| ==> from <= calls[i].start <= to && calls[i].start <= calls[i].end)
    && forall i, j :: 0 <= i < j < |calls| ==> calls[i].end <= calls[j].start
  }

  ghost predicate NeverHelps(calls: seq<Call>) {
    forall i :: 0 <= i < |calls| ==> calls[i].outcome in {NotRun, Fails}
  }

  // When the last of the calls ended.
  function Clock(calls: seq<Call>, from: int): int {
    if calls == [] then from else calls[|calls| - 1].end
  }

  // After n failing executions since from: counting at first, then open for at least
  // n - threshold + 1 cooldowns from the start.
  ghost predicate Strained(c: Option<Circuit>, n: nat, threshold: nat, cooldown: int, from: int, clock: int) {
    if n < threshold
    then c == if n == 0 then None else Some(Circuit(n, None, false))
    else c.Some? && c.value.failures == 0 && c.value.openUntil.Some?
         && c.value.openUntil.value >= from + (n - threshold + 1) * cooldown
         && (c.value.halfOpen ==> c.value.openUntil.value <= clock)
  }

  lemma StrainStep(c: Option<Circuit>, n: nat, threshold: nat, cooldown: int, from: int, clock: int, call: Call)
    requires Strained(c, n, threshold, cooldown, from, clock) && threshold > 0 && cooldown > 0
    requires call.outcome in {NotRun, Fails} && from <= clock <= call.start <= call.end
    ensures var (after, ran) := AfterCall(c, call, threshold, cooldown);
      Strained(after, if ran then n + 1 else n, threshold, cooldown, from, call.end)
      && (ran && n >= threshold ==> call.start >= from + (n - threshold + 1) * cooldown)
  {
    if n >= threshold {
      assert (n + 1 - threshold + 1) * cooldown == (n - threshold + 1) * cooldown + cooldown;
    } else if n + 1 == threshold {
      assert (n + 1 - threshold + 1) * cooldown == cooldown;
    }
  }

  lemma {:induction false} StrainGrows(calls: seq<Call>, threshold: nat, cooldown: int, from: int, to: int)
    requires Sequential(calls, from, to) && NeverHelps(calls) && threshold > 0 && cooldown > 0 && from <= to
    ensures var n := Executions(None, calls, threshold, cooldown);
      Strained(CircuitAfter(None, calls, threshold, cooldown), n, threshold, cooldown, from, Clock(calls, from))
      && from <= Clock(calls, from)
      && (n > threshold ==> from + (n - threshold) * cooldown <= to)
  {
    if calls != [] {
      var n := |calls| - 1;
      StrainGrows(calls[..n], threshold, cooldown, from, to);
      StrainStep(CircuitAfter(None, calls[..n], threshold, cooldown), Executions(None, calls[..n], threshold, cooldown),
                 threshold, cooldown, from, Clock(calls[..n], from), calls[n]);
    }
  }

  /** An always failing tool that was fresh is executed at most threshold times and once
    * more for every full cooldown in the span of the calls. */
  lemma FailingToolIsRarelyExecuted(calls: seq<Call>, threshold: nat, cooldown: int, from: int, to: int)
    requires Sequential(calls, from, to) && NeverHelps(calls) && threshold > 0 && cooldown > 0 && from <= to
    ensures Executions(None, calls, threshold, cooldown) <= threshold + (to - from) / cooldown
  {
    StrainGrows(calls, threshold, cooldown, from, to);
    BeyondThreshold(Executions(None, calls, threshold, cooldown), threshold, cooldown, from, to);
  }

  lemma BeyondThreshold(n: nat, threshold: nat, cooldown: int, from: int, to: int)
    requires cooldown > 0 && from <= to && (n > threshold ==> from + (n - threshold) * cooldown <= to)
    ensures n <= threshold + (to - from) / cooldown
  {
    if n > threshold {
      FullCooldowns(n - threshold, cooldown, to - from);
    }
  }

  lemma FullCooldowns(k: nat, cooldown: int, span: int)
    requires cooldown > 0 && k * cooldown <= span
    ensures k <= span / cooldown
  {
    if k > span / cooldown {
      var q := span / cooldown;
      assert span == q * cooldown + span % cooldown;
      assert (q + 1) * cooldown == q * cooldown + cooldown;
      Times(q + 1, k, cooldown);
    }
  }

  lemma Times(a: int, b: int, c: int)
    requires a <= b && c > 0
    ensures a * c <= b * c
  {
  }

  /** A call is refused only within one cooldown of a failure recorded before it. */
  lemma {:induction false} RefusedOnlyAfterAFailure(calls: seq<Call>, threshold: nat, cooldown: int, now: int)
    requires StatusAt(CircuitAfter(None, calls, threshold, cooldown), now) == Open
    ensures exists i :: 0 <= i < |calls| && calls[i].outcome == Fails && now < calls[i].end + cooldown
  {
    var until := OpenedBy(calls, threshold, cooldown);
  }

  lemma {:induction false} OpenedBy(calls: seq<Call>, threshold: nat, cooldown: int) returns (i: int)
    ensures var c := CircuitAfter(None, calls, threshold, cooldown);
      c.Some? && c.value.openUntil.Some? ==>
        0 <= i < |calls| && calls[i].outcome == Fails && c.value.openUntil.value == calls[i].end + cooldown
  {
    i := 0;
    if calls != [] {
      var n := |calls| - 1;
      i := OpenedBy(calls[..n], threshold, cooldown);
      var c := CircuitAfter(None, calls[..n], threshold, cooldown);
      if AfterCall(c, calls[n], threshold, cooldown).1 && calls[n].outcome == Fails
         && CircuitAfter(None, calls, threshold, cooldown).value.openUntil == Some(calls[n].end + cooldown) {
        i := n;
      }
    }
  }

  // ---- What the history alone says of a tool ----

  // How often the handler failed since it last succeeded.
  function Streak(ran: seq<Call>): nat {
    if ran == [] then 0
    else
      var last, before := ran[|ran| - 1], Streak(ran[..|ran| - 1]);
      if last.outcome == Succeeds then 0 else if last.outcome == Fails then before + 1 else before
  }

  // When the handler last failed.
  function LastFailure(ran: seq<Call>): int {
    if ran == [] then 0
    else if ran[|ran| - 1].outcome == Fails then ran[|ran| - 1].end
    else LastFailure(ran[..|ran| - 1])
  }

  // The tool is refused: it failed so often without a success, the last time a moment ago.
  predicate Blocks(ran: seq<Call>, now: int, threshold: nat, cooldown: int) {
    Streak(ran) >= threshold && now < LastFailure(ran) + cooldown
  }

  // The calls that reach the handler.
  function Ran(calls: seq<Call>, threshold: nat, cooldown: int): seq<Call> {
    if calls == [] then []
    else
      var ran, last := Ran(calls[..|calls| - 1], threshold, cooldown), calls[|calls| - 1];
      if last.outcome == NotRun || Blocks(ran, last.start, threshold, cooldown) then ran else ran + [last]
  }

  // The circuit holds what matters of the history.
  ghost predicate Remembers(c: Option<Circuit>, ran: seq<Call>, threshold: nat, cooldown: int, clock: int) {
    var n := Streak(ran);
    if n == 0 then c == None
    else if n < threshold then c == Some(Circuit(n, None, false))
    else
      var until := LastFailure(ran) + cooldown;
      c.Some? && c.value == Circuit(0, Some(until), c.value.halfOpen) && (c.value.halfOpen ==> until <= clock)
  }

  lemma RemembersCall(c: Option<Circuit>, ran: seq<Call>, threshold: nat, cooldown: int, clock: int, call: Call)
    requires Remembers(c, ran, threshold, cooldown, clock) && threshold > 0
    requires clock <= call.start <= call.end
    ensures var (after, runs) := AfterCall(c, call, threshold, cooldown);
      (runs <==> call.outcome != NotRun && !Blocks(ran, call.start, threshold, cooldown))
      && Remembers(after, if runs then ran + [call] else ran, threshold, cooldown, call.end)
  {
    assert (ran + [call])[..|ran|] == ran;
  }

  lemma {:induction false} CircuitRemembers(calls: seq<Call>, threshold: nat, cooldown: int, from: int, to: int)
    requires Sequential(calls, from, to) && threshold > 0
    ensures Remembers(CircuitAfter(None, calls, threshold, cooldown), Ran(calls, threshold, cooldown), threshold,
      cooldown, Clock(calls, from))
    ensures Executions(None, calls, threshold, cooldown) == |Ran(calls, threshold, cooldown)|
  {
    if calls != [] {
      var n := |calls| - 1;
      CircuitRemembers(calls[..n], threshold, cooldown, from, to);
      RemembersCall(CircuitAfter(None, calls[..n], threshold, cooldown), Ran(calls[..n], threshold, cooldown),
                    threshold, cooldown, if n == 0 then calls[0].start else calls[n - 1].end, calls[n]);
    }
  }

  /** A tool is refused exactly when its handler has failed three times or more since it
    * last succeeded, the last time less than a minute ago; when that is longer ago, it is
    * probed. Every other call that gets that far reaches the handler. */
  lemma ToolIsRefusedExactlyAfterThreeFailures(calls: seq<Call>, from: int, to: int, now: int)
    requires Sequential(calls, from, to) && Clock(calls, from) <= now
    ensures var ran := Ran(calls, 3, 60_000_000);
      StatusAt(CircuitAfter(None, calls, TOOL_THRESHOLD, TOOL_COOLDOWN), now)
      == if Streak(ran) < 3 then Closed else if now < LastFailure(ran) + 60_000_000 then Open else HalfOpen
    ensures Executions(None, calls, TOOL_THRESHOLD, TOOL_COOLDOWN) == |Ran(calls, 3, 60_000_000)|
  {
    CircuitRemembers(calls, TOOL_THRESHOLD, TOOL_COOLDOWN, from, to);
  }

  // ---- Models ----

  datatype Health = Health(failures: nat, openUntil: Option<int>)

  const HEALTHY := Health(0, None)

  // Whether the model is avoided, and the state after asking: an expired cooldown is forgotten.
  function Asked(h: Health, now: int): (Health, bool) {
    if h.openUntil.None? then (h, false)
    else if now >= h.openUntil.value then (HEALTHY, false)
    else (h, true)
  }

  function ModelFailed(h: Health, now: int, threshold: nat, cooldown: int): Health {
    Health(h.failures + 1, if h.failures + 1 >= threshold then Some(now + cooldown) else h.openUntil)
  }

  class ModelBreaker {
    const threshold: nat
    const cooldown: int
    var failures: map<string, nat>
    var openUntil: map<string, int>

    function HealthOf(m: string): (h: Health)
      reads this
      ensures m in failures ==> h.failures == failures[m]
      ensures m in openUntil ==> h.openUntil == Some(openUntil[m])
      ensures (h.failures > 0 ==> m in failures) && (h.openUntil.Some? ==> m in openUntil)
    {
      Health(if m in failures then failures[m] else 0, if m in openUntil then Some(openUntil[m]) else None)
    }

    constructor (threshold: int, cooldown: int)
      ensures this.threshold >= 1 && (threshold >= 1 ==> this.threshold == threshold) && this.cooldown == cooldown
      ensures forall m :: HealthOf(m) == HEALTHY
    {
      this.threshold := if threshold < 1 then 1 else threshold;
      this.cooldown := cooldown;
      failures, openUntil := map[], map[];
    }

    method RecordFailure(m: string, now: int)
      modifies this
      ensures HealthOf(m) == ModelFailed(old(HealthOf(m)), now, threshold, cooldown)
      ensures forall other :: other != m ==> HealthOf(other) == old(HealthOf(other))
    {
      var count := (if m in failures then failures[m] else 0) + 1;
      failures := failures[m := count];
      if count >= threshold {
        openUntil := openUntil[m := now + cooldown];
      }
    }

    method RecordSuccess(m: string)
      modifies this
      ensures HealthOf(m) == HEALTHY
      ensures forall other :: other != m ==> HealthOf(other) == old(HealthOf(other))
    {
      failures := failures - {m};
      openUntil := openUntil - {m};
    }

    method IsOpen(m: string, now: int) returns (open: bool)
      modifies this
      ensures (HealthOf(m), open) == Asked(old(HealthOf(m)), now)
      ensures forall other :: other != m ==> HealthOf(other) == old(HealthOf(other))
    {
      if m !in openUntil {
        return false;
      }
      if now >= openUntil[m] {
        openUntil := openUntil - {m};
        failures := failures - {m};
        return false;
      }
      open := true;
    }
  }

  // An attempt on a model: asked for at start, over at end.
  datatype Attempt = Attempt(start: int, end: int, ok: bool)

  function AfterAttempt(h: Health, a: Attempt, threshold: nat, cooldown: int): (Health, bool) {
    var (asked, open) := Asked(h, a.start);
    if open then (asked, false)
    else (if a.ok then HEALTHY else ModelFailed(asked, a.end, threshold, cooldown), true)
  }

  function HealthAfter(attempts: seq<Attempt>, threshold: nat, cooldown: int): Health {
    if attempts == [] then HEALTHY
    else AfterAttempt(HealthAfter(attempts[..|attempts| - 1], threshold, cooldown), attempts[|attempts| - 1],
      threshold, cooldown).0
  }

  // How many attempts were let through.
  function Made(attempts: seq<Attempt>, threshold: nat, cooldown: int): nat {
    if attempts == [] then 0
    else
      var n := |attempts| - 1;
      Made(attempts[..n], threshold, cooldown)
      + if AfterAttempt(HealthAfter(attempts[..n], threshold, cooldown), attempts[n], threshold, cooldown).1
        then 1 else 0
  }

  ghost predicate InTurn(attempts: seq<Attempt>, from: int, to: int) {
    (forall i :: 0 <= i < |attempts| ==> from <= attempts[i].start <= to && attempts[i].start <= attempts[i].end)
    && forall i, j :: 0 <= i < j < |attempts| ==> attempts[i].end <= attempts[j].start
  }

  ghost predicate NeverGood(attempts: seq<Attempt>) {
    forall i :: 0 <= i < |attempts| ==> !attempts[i].ok
  }

  // rounds full rounds of failures have each ended in a cooldown.
  ghost predicate Rounds(h: Health, n: nat, rounds: nat, threshold: nat, cooldown: int, from: int, to: int) {
    if h.openUntil.Some?
    then n == rounds * threshold && rounds > 0 && h.openUntil.value >= from + rounds * cooldown
         && from + (rounds - 1) * cooldown <= to
    else h.failures < threshold && n == rounds * threshold + h.failures && from + rounds * cooldown <= to
  }

  lemma RoundStep(
    h: Health, n: nat, rounds: nat, threshold: nat, cooldown: int, from: int, to: int, a: Attempt)
    returns (r: nat)
    requires Rounds(h, n, rounds, threshold, cooldown, from, to) && threshold > 0 && cooldown > 0
    requires from <= a.start <= to && a.start <= a.end && !a.ok
    requires h.openUntil.None? ==> from + rounds * cooldown <= a.start
    ensures var (after, made) := AfterAttempt(h, a, threshold, cooldown);
      Rounds(after, if made then n + 1 else n, r, threshold, cooldown, from, to)
      && (after.openUntil.None? ==> from + r * cooldown <= a.start)
  {
    r := rounds;
    var (asked, open) := Asked(h, a.start);
    if !open && asked.failures + 1 == threshold {
      r := rounds + 1;
      assert r * threshold == rounds * threshold + threshold;
      assert r * cooldown == rounds * cooldown + cooldown;
    }
  }

  lemma {:induction false} RoundsPass(
    attempts: seq<Attempt>, threshold: nat, cooldown: int, from: int, to: int)
    returns (r: nat)
    requires InTurn(attempts, from, to) && NeverGood(attempts) && threshold > 0 && cooldown > 0 && from <= to
    ensures var h := HealthAfter(attempts, threshold, cooldown);
      Rounds(h, Made(attempts, threshold, cooldown), r, threshold, cooldown, from, to)
      && (h.openUntil.None? && attempts != [] ==> from + r * cooldown <= attempts[|attempts| - 1].start)
      && (attempts == [] ==> r == 0)
  {
    r := 0;
    if attempts != [] {
      var n := |attempts| - 1;
      var rounds := RoundsPass(attempts[..n], threshold, cooldown, from, to);
      r := RoundStep(HealthAfter(attempts[..n], threshold, cooldown), Made(attempts[..n], threshold, cooldown),
                     rounds, threshold, cooldown, from, to, attempts[n]);
    }
  }

  /** Attempts on an always failing model, guarded by IsOpen, number at most threshold
    * for the start and for every full cooldown in their span. */
  lemma FailingModelIsRarelyAttempted(attempts: seq<Attempt>, threshold: nat, cooldown: int, from: int, to: int)
    requires InTurn(attempts, from, to) && NeverGood(attempts) && threshold > 0 && cooldown > 0 && from <= to
    ensures Made(attempts, threshold, cooldown) <= threshold * (1 + (to - from) / cooldown)
  {
    var r := RoundsPass(attempts, threshold, cooldown, from, to);
    RoundsBound(HealthAfter(attempts, threshold, cooldown), Made(attempts, threshold, cooldown), r, threshold,
      cooldown, from, to);
  }

  lemma RoundsBound(h: Health, n: nat, r: nat, threshold: nat, cooldown: int, from: int, to: int)
    requires Rounds(h, n, r, threshold, cooldown, from, to) && threshold > 0 && cooldown > 0
    ensures n <= threshold * (1 + (to - from) / cooldown)
  {
    var k := if h.openUntil.Some? then r - 1 else r;
    FullCooldowns(k, cooldown, to - from);
    assert n <= (k + 1) * threshold by {
      assert (k + 1) * threshold == k * threshold + threshold;
    }
    Times(k + 1, 1 + (to - from) / cooldown, threshold);
  }

  // ---- What the history alone says of a model ----

  // How many attempts failed since the last that did not.
  function FailedInARow(made: seq<Attempt>): nat {
    if made == [] || made[|made| - 1].ok then 0 else FailedInARow(made[..|made| - 1]) + 1
  }

  // The model is avoided: a full round of failures is complete, the last a moment ago.
  predicate Avoided(made: seq<Attempt>, now: int, threshold: nat, cooldown: int)
    requires threshold > 0
  {
    FailedInARow(made) > 0 && FailedInARow(made) % threshold == 0 && now < made[|made| - 1].end + cooldown
  }

  // The attempts let through.
  function Through(attempts: seq<Attempt>, threshold: nat, cooldown: int): seq<Attempt>
    requires threshold > 0
  {
    if attempts == [] then []
    else
      var made, last := Through(attempts[..|attempts| - 1], threshold, cooldown), attempts[|attempts| - 1];
      if Avoided(made, last.start, threshold, cooldown) then made else made + [last]
  }

  // The health after so many failures in a row, the last of which ended then.
  function Counted(n: nat, end: int, threshold: nat, cooldown: int): Health
    requires threshold > 0
  {
    if n > 0 && n % threshold == 0 then Health(threshold, Some(end + cooldown)) else Health(n % threshold, None)
  }

  ghost predicate Counts(h: Health, made: seq<Attempt>, threshold: nat, cooldown: int)
    requires threshold > 0
  {
    h == Counted(FailedInARow(made), if made == [] then 0 else made[|made| - 1].end, threshold, cooldown)
  }

  lemma NextRemainder(n: nat, k: nat)
    requires k > 0
    ensures (n + 1) % k == if n % k + 1 == k then 0 else n % k + 1
  {
    var q, r := n / k, n % k;
    assert n == q * k + r;
    if r + 1 == k {
      NextMultiple(q, k);
      RemainderOf(n + 1, q + 1, k, 0);
    } else {
      RemainderOf(n + 1, q, k, r + 1);
    }
  }

  lemma NextMultiple(q: nat, k: nat)
    ensures (q + 1) * k == q * k + k
  {
  }

  lemma RemainderOf(x: nat, q: nat, k: nat, r: nat)
    requires r < k && x == q * k + r
    ensures x % k == r
  {
    var p := x / k;
    assert x == p * k + x % k;
    NextMultiple(p, k);
    NextMultiple(q, k);
    if p < q {
      Times(p + 1, q, k);
    } else if p > q {
      Times(q + 1, p, k);
    }
  }

  lemma CountsFailure(n: nat, end: int, h: Health, threshold: nat, cooldown: int)
    requires threshold > 0 && h == Health(n % threshold, None)
    ensures ModelFailed(h, end, threshold, cooldown) == Counted(n + 1, end, threshold, cooldown)
  {
    NextRemainder(n, threshold);
  }

  lemma CountsAttempt(h: Health, made: seq<Attempt>, threshold: nat, cooldown: int, a: Attempt)
    requires threshold > 0 && Counts(h, made, threshold, cooldown)
    ensures var (after, through) := AfterAttempt(h, a, threshold, cooldown);
      (through <==> !Avoided(made, a.start, threshold, cooldown))
      && Counts(after, if through then made + [a] else made, threshold, cooldown)
  {
    assert (made + [a])[..|made|] == made;
    var n := FailedInARow(made);
    var (asked, open) := Asked(h, a.start);
    if !open && !a.ok {
      assert asked == Health(n % threshold, None);
      CountsFailure(n, a.end, asked, threshold, cooldown);
    }
  }

  /** A model is avoided exactly when the number of attempts that failed in a row is a
    * multiple of the threshold, the last less than a cooldown ago: after each cooldown
    * the count begins again. Every other attempt is made. */
  lemma {:induction false} ModelIsAvoidedExactlyAfterFullRounds(
    attempts: seq<Attempt>, threshold: nat, cooldown: int, now: int)
    requires threshold > 0
    ensures var made := Through(attempts, threshold, cooldown);
      var h := HealthAfter(attempts, threshold, cooldown);
      Counts(h, made, threshold, cooldown) && (Asked(h, now).1 <==> Avoided(made, now, threshold, cooldown))
      && Made(attempts, threshold, cooldown) == |made|
  {
    if attempts != [] {
      var n := |attempts| - 1;
      ModelIsAvoidedExactlyAfterFullRounds(attempts[..n], threshold, cooldown, now);
      CountsAttempt(HealthAfter(attempts[..n], threshold, cooldown), Through(attempts[..n], threshold, cooldown),
                    threshold, cooldown, attempts[n]);
    }
  }

  /** After a cooldown one failure opens a tool's circuit again at once; a model's, only
    * when the threshold is 1 -- otherwise the count starts from nothing. */
  lemma FailureAfterCooldown(c: Circuit, h: Health, now: int, end: int, threshold: nat, cooldown: int)
    requires c.openUntil.Some? && c.openUntil.value <= now <= end && threshold >= 1 && cooldown > 0
    requires h.openUntil.Some? && h.openUntil.value <= now
    ensures StatusAt(AfterCall(Some(c), Call(now, end, Fails), threshold, cooldown).0, end) == Open
    ensures Asked(AfterAttempt(h, Attempt(now, end, false), threshold, cooldown).0, end).1 <==> threshold == 1
  {
  }
}
