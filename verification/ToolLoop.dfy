/** The bounded loop of one agent run: rounds of model calls and tool calls, then
  * verification with at most two repairs. Models, tools and the disk are oracles. */
module ToolLoop {
  import opened Wrappers
  import opened Text
  import opened Sequences

  const MAX_TOOL_ROUNDS := 12
  const MAX_REPAIR_ROUNDS := 2
  const SUBSTANTIVE := 400

  datatype Call = Call(tool: string, args: map<string, string>)

  // What a call is recognised by: regenerated content does not make it a new call.
  type Signature = (string, map<string, string>)

  function SignatureOf(call: Call): Signature {
    (call.tool, call.args - {"content"})
  }

  /** Calls are told apart by the tool and by every argument except the content. */
  lemma SameSignatureExactly(c: Call, d: Call)
    ensures SignatureOf(c) == SignatureOf(d) <==>
      c.tool == d.tool
      && forall k :: k != "content" ==>
           (k in c.args <==> k in d.args) && (k in c.args && k in d.args ==> c.args[k] == d.args[k])
  {
    var m, n := c.args - {"content"}, d.args - {"content"};
    assert forall k :: k in m <==> k in c.args && k != "content";
    assert forall k :: k in n <==> k in d.args && k != "content";
    if SignatureOf(c) == SignatureOf(d) {
      forall k | k != "content"
        ensures (k in c.args <==> k in d.args) && (k in c.args && k in d.args ==> c.args[k] == d.args[k])
      {
        assert k in m <==> k in n;
        assert k in m && k in n ==> m[k] == n[k];
      }
    } else if c.tool == d.tool {
      assert m != n;
      assert !(m.Keys == n.Keys && forall k :: k in m && k in n ==> m[k] == n[k]);
    }
  }

  // An answer of the model; an empty error is none. The text is cleaned already.
  datatype Reply = Raises(message: string) | Answers(error: string, text: string, calls: seq<Call>)

  type Answer = r: Reply | r.Answers? witness Answers("", "", [])

  datatype ToolResult = ToolResult(ok: bool, pending: string, artifacts: seq<string>)

  type Model = nat -> Reply
  type Tools = (nat, Call) -> ToolResult

  datatype Run = Run(
    asked: nat, signatures: set<Signature>, executed: seq<Call>, results: seq<ToolResult>, artifacts: seq<string>,
    content: Option<string>, error: Option<string>)

  // The code tests errors and contents for truth: an empty text counts as none.
  predicate Truthy(s: Option<string>) {
    s.Some? && s.value != ""
  }

  // ---- One round ----

  // The calls not executed before, each once, and the signatures seen then.
  function FreshCalls(calls: seq<Call>, seen: set<Signature>): (seq<Call>, set<Signature>) {
    if calls == [] then ([], seen)
    else
      var call := calls[|calls| - 1];
      var (unseen, known) := FreshCalls(calls[..|calls| - 1], seen);
      if SignatureOf(call) in known then (unseen, known) else (unseen + [call], known + {SignatureOf(call)})
  }

  // Executes the calls in order; stops at one that waits for approval.
  function ExecuteAll(tools: Tools, s: Run, calls: seq<Call>): (Run, bool)
    decreases |calls|
  {
    if calls == [] then (s, false)
    else
      var (t, waits) := ExecuteOne(tools, s, calls[0]);
      if waits then (t, true) else ExecuteAll(tools, t, calls[1..])
  }

  predicate Writes(tool: string) {
    tool == "filesystem.write" || tool == "file.patch" || tool == "api.call" || tool == "shell"
  }

  function AddNew(artifacts: seq<string>, paths: seq<string>): (r: seq<string>)
    ensures artifacts <= r && forall p :: p in r <==> p in artifacts || p in paths
    ensures Distinct(artifacts) ==> Distinct(r)
  {
    if paths == [] then artifacts
    else
      var more := AddNew(artifacts, paths[..|paths| - 1]);
      if paths[|paths| - 1] in more then more else more + [paths[|paths| - 1]]
  }

  function ExecuteOne(tools: Tools, s: Run, call: Call): (Run, bool) {
    var result := tools(|s.executed|, call);
    var artifacts := if result.ok && Writes(call.tool) then AddNew(s.artifacts, result.artifacts) else s.artifacts;
    var t := s.(executed := s.executed + [call], results := s.results + [result], artifacts := artifacts);
    if result.pending != "" then (t.(error := Some("awaiting approval " + result.pending)), true) else (t, false)
  }

  // The model is asked once more; if that raises, the run has an error.
  function Ask(model: Model, s: Run): (Run, Option<Reply>) {
    var t := s.(asked := s.asked + 1);
    match model(s.asked)
    case Raises(message) => (t.(error := Some(message)), None)
    case Answers(error, text, calls) => (t, Some(Answers(error, text, calls)))
  }

  // The rounds are used up: what was produced last is kept, if anything.
  function Exhausted(s: Run, text: string): Run {
    if text != "" then s.(content := if Truthy(s.content) then s.content else Some(text), error := None)
    else s.(error := Some("exceeded 12 tool rounds"))
  }

  // A round ends the loop, or goes on with a new answer.
  datatype Turn = Ends(run: Run) | GoesOn(run: Run, reply: Answer, nudges: nat)

  type Step = (Run, Answer, nat) -> Turn

  function OneRound(model: Model, tools: Tools, s: Run, reply: Answer, nudges: nat): Turn {
    if reply.error != "" then Ends(s.(error := Some(reply.error)))
    else
      var (unseen, seen) := FreshCalls(reply.calls, s.signatures);
      var noted := s.(signatures := seen);
      if unseen == [] && (reply.calls == [] || nudges >= 3) then Ends(noted.(content := Some(reply.text)))
      else
        var (done, waits) := ExecuteAll(tools, noted, unseen);
        if waits then Ends(done)
        else
          var (t, next) := Ask(model, done);
          if next.None? then Ends(t) else GoesOn(t, next.value, if unseen == [] then nudges + 1 else nudges)
  }

  /** The rounds from this answer on. */
  function RoundsBy(step: Step, s: Run, reply: Answer, round: nat, nudges: nat): Run
    requires round <= MAX_TOOL_ROUNDS
    decreases MAX_TOOL_ROUNDS - round, s
  {
    if round == MAX_TOOL_ROUNDS then Exhausted(s, reply.text)
    else
      match step(s, reply, nudges)
      case Ends(t) => t
      case GoesOn(t, next, more) => RoundsBy(step, t, next, round + 1, more)
  }

  function StepOf(model: Model, tools: Tools): Step {
    (s: Run, reply: Answer, nudges: nat) => OneRound(model, tools, s, reply, nudges)
  }

  function Rounds(model: Model, tools: Tools, s: Run, reply: Answer, round: nat, nudges: nat): Run
    requires round <= MAX_TOOL_ROUNDS
  {
    RoundsBy(StepOf(model, tools), s, reply, round, nudges)
  }

  lemma RoundsOn(model: Model, tools: Tools, s: Run, reply: Answer, round: nat, nudges: nat)
    requires round < MAX_TOOL_ROUNDS
    ensures var turn := OneRound(model, tools, s, reply, nudges);
      Rounds(model, tools, s, reply, round, nudges)
      == if turn.Ends? then turn.run else Rounds(model, tools, turn.run, turn.reply, round + 1, turn.nudges)
  {
  }

  lemma RoundsAreOver(model: Model, tools: Tools, s: Run, reply: Answer, nudges: nat)
    ensures Rounds(model, tools, s, reply, MAX_TOOL_ROUNDS, nudges) == Exhausted(s, reply.text)
  {
  }

  // What is known between the rounds: of the run, the answer, the round and the nudges so far.
  type Known = (Run, Answer, nat, nat) -> bool

  ghost predicate Carries(step: Step, known: Known, end: Run -> bool, r: Run, a: Answer, k: nat, n: nat) {
    known(r, a, k, n) ==>
      if k >= MAX_TOOL_ROUNDS then end(Exhausted(r, a.text))
      else
        match step(r, a, n)
        case Ends(t) => end(t)
        case GoesOn(t, next, more) => known(t, next, k + 1, more)
  }

  // What every round carries on holds in the end.
  lemma {:induction false} RoundsCarry(
    step: Step, known: Known, end: Run -> bool, s: Run, reply: Answer, round: nat, nudges: nat)
    requires known(s, reply, round, nudges) && round <= MAX_TOOL_ROUNDS
    requires forall r, a: Answer, k: nat, n: nat :: k <= MAX_TOOL_ROUNDS ==> Carries(step, known, end, r, a, k, n)
    ensures end(RoundsBy(step, s, reply, round, nudges))
    decreases MAX_TOOL_ROUNDS - round
  {
    assert Carries(step, known, end, s, reply, round, nudges);
    if round < MAX_TOOL_ROUNDS {
      var turn := step(s, reply, nudges);
      if turn.GoesOn? {
        RoundsCarry(step, known, end, turn.run, turn.reply, round + 1, turn.nudges);
      }
    }
  }

  // ---- What the rounds keep ----

  ghost predicate NoRepeats(executed: seq<Call>) {
    forall i, j :: 0 <= i < j < |executed| ==> SignatureOf(executed[i]) != SignatureOf(executed[j])
  }

  ghost predicate Noted(executed: seq<Call>, signatures: set<Signature>) {
    forall i :: 0 <= i < |executed| ==> SignatureOf(executed[i]) in signatures
  }

  // No signature has been executed twice, and those executed are remembered.
  ghost predicate Sound(s: Run) {
    NoRepeats(s.executed) && Noted(s.executed, s.signatures) && |s.results| == |s.executed|
  }

  // What was executed and answered before stays.
  ghost predicate Extends(s: Run, t: Run) {
    s.executed <= t.executed && s.results <= t.results && s.asked <= t.asked
  }

  /** The fresh calls are those, in their order, whose signature has neither been seen
    * nor been met before among the calls. */
  lemma {:induction false} FreshCallsInOrder(calls: seq<Call>, seen: set<Signature>) returns (at: seq<nat>)
    ensures var unseen := FreshCalls(calls, seen).0;
      |unseen| == |at| && forall k :: 0 <= k < |at| ==> at[k] < |calls| && unseen[k] == calls[at[k]]
    ensures forall j, k :: 0 <= j < k < |at| ==> at[j] < at[k]
    ensures forall i :: 0 <= i < |calls| ==> (i in at <==> IsFresh(calls, seen, i))
    ensures forall g :: g in FreshCalls(calls, seen).1 <==>
      g in seen || exists i :: 0 <= i < |calls| && SignatureOf(calls[i]) == g
  {
    at := [];
    if calls != [] {
      var n := |calls| - 1;
      at := FreshCallsInOrder(calls[..n], seen);
      forall i | 0 <= i < n ensures IsFresh(calls, seen, i) <==> IsFresh(calls[..n], seen, i) {
      }
      if IsFresh(calls, seen, n) {
        at := at + [n];
      }
    }
  }

  // No call before has this signature.
  predicate IsFresh(calls: seq<Call>, seen: set<Signature>, i: nat)
    requires i < |calls|
  {
    SignatureOf(calls[i]) !in seen && forall j :: 0 <= j < i ==> SignatureOf(calls[j]) != SignatureOf(calls[i])
  }

  // The fresh calls are new and differ from one another.
  lemma {:induction false} FreshCallsAreNew(calls: seq<Call>, seen: set<Signature>)
    ensures var (unseen, known) := FreshCalls(calls, seen);
      NoRepeats(unseen) && Noted(unseen, known) && seen <= known
      && (forall i :: 0 <= i < |unseen| ==> SignatureOf(unseen[i]) !in seen)
      && (forall i :: 0 <= i < |calls| ==> SignatureOf(calls[i]) in known)
  {
    if calls != [] {
      FreshCallsAreNew(calls[..|calls| - 1], seen);
    }
  }

  // The calls still to be executed are new, too.
  ghost predicate Upcoming(s: Run, calls: seq<Call>) {
    NoRepeats(s.executed + calls) && Noted(s.executed + calls, s.signatures) && |s.results| == |s.executed|
  }

  lemma {:induction false} ExecuteAllIsSound(tools: Tools, s: Run, calls: seq<Call>)
    requires Upcoming(s, calls)
    ensures var (t, waits) := ExecuteAll(tools, s, calls);
      Sound(t) && Extends(s, t) && t.asked == s.asked && t.content == s.content
      && (if waits then Truthy(t.error) else t.error == s.error)
    decreases |calls|
  {
    if calls == [] {
      assert s.executed + calls == s.executed;
    } else {
      var (t, waits) := ExecuteOne(tools, s, calls[0]);
      assert s.executed + calls == t.executed + calls[1..];
      if !waits {
        ExecuteAllIsSound(tools, t, calls[1..]);
      } else {
        PrefixIsSound(t, calls[1..]);
      }
    }
  }

  lemma PrefixIsSound(s: Run, calls: seq<Call>)
    requires Upcoming(s, calls)
    ensures Sound(s)
  {
    assert forall i :: 0 <= i < |s.executed| ==> (s.executed + calls)[i] == s.executed[i];
  }

  lemma FreshIsUpcoming(s: Run, calls: seq<Call>)
    requires Sound(s)
    ensures var (unseen, known) := FreshCalls(calls, s.signatures); Upcoming(s.(signatures := known), unseen)
  {
    FreshCallsAreNew(calls, s.signatures);
  }

  // The content has been set, or there is an error.
  predicate Settled(s: Run) {
    s.content.Some? || s.error.Some?
  }

  // What leads from s to t with at most this many calls of the model.
  ghost predicate Leads(s: Run, t: Run, calls: nat) {
    Sound(t) && Extends(s, t) && t.asked <= s.asked + calls
  }

  lemma LeadsOn(s: Run, t: Run, u: Run, m: nat, n: nat)
    requires Leads(s, t, m) && Leads(t, u, n)
    ensures Leads(s, u, m + n)
  {
  }

  lemma RoundLeads(model: Model, tools: Tools, s: Run, reply: Answer, nudges: nat)
    requires Sound(s)
    ensures var turn := OneRound(model, tools, s, reply, nudges);
      Leads(s, turn.run, 1) && (turn.Ends? ==> Settled(turn.run))
  {
    if reply.error == "" {
      var (unseen, seen) := FreshCalls(reply.calls, s.signatures);
      FreshIsUpcoming(s, reply.calls);
      PrefixIsSound(s.(signatures := seen), unseen);
      ExecuteAllIsSound(tools, s.(signatures := seen), unseen);
    }
  }

  lemma ExhaustedLeads(s: Run, text: string)
    requires Sound(s)
    ensures Leads(s, Exhausted(s, text), 0) && Settled(Exhausted(s, text))
  {
  }

  /** The rounds execute no signature twice, call the model at most once per round left,
    * and end with the content or an error set. */
  lemma RoundsAreSound(model: Model, tools: Tools, s: Run, reply: Answer, round: nat, nudges: nat)
    requires Sound(s) && round <= MAX_TOOL_ROUNDS
    ensures var t := Rounds(model, tools, s, reply, round, nudges);
      Leads(s, t, 12 - round) && (t.content.Some? || t.error.Some?)
  {
    var known: Known := (r: Run, a: Answer, k: nat, n: nat) => round <= k && Leads(s, r, k - round);
    var end := t => Leads(s, t, MAX_TOOL_ROUNDS - round) && Settled(t);
    assert Leads(s, s, 0);
    forall r, a: Answer, k: nat, n: nat | k <= MAX_TOOL_ROUNDS
      ensures Carries(StepOf(model, tools), known, end, r, a, k, n)
    {
      if known(r, a, k, n) {
        assert Leads(s, r, k - round);
        RoundLeads(model, tools, r, a, n);
        LeadsOn(s, r, OneRound(model, tools, r, a, n).run, k - round, 1);
        ExhaustedLeads(r, a.text);
        LeadsOn(s, r, Exhausted(r, a.text), k - round, 0);
      }
    }
    RoundsCarry(StepOf(model, tools), known, end, s, reply, round, nudges);
  }

  // ---- What is executed and claimed ----

  // What the calls executed in t and not yet in s did.
  ghost predicate Did(tools: Tools, s: Run, t: Run, calls: seq<Call>) {
    t.executed == s.executed + calls && |t.results| == |s.results| + |calls| && s.results <= t.results
    && forall k :: |s.results| <= k < |t.results| ==>
         t.results[k] == tools(|s.executed| + k - |s.results|, calls[k - |s.results|])
  }

  // The first m calls were executed, which was all or up to one that waits.
  ghost predicate StoppedAfter(tools: Tools, s: Run, t: Run, waits: bool, calls: seq<Call>, m: nat) {
    m <= |calls| && Did(tools, s, t, calls[..m])
    && (forall k :: |s.results| <= k < |t.results| && t.results[k].pending != "" ==> waits && k == |t.results| - 1)
    && if !waits then m == |calls| && t.error == s.error
       else m > 0 && var p := t.results[|t.results| - 1].pending;
         p != "" && t.error == Some("awaiting approval " + p)
  }

  lemma OneMoreExecuted(tools: Tools, s: Run, t: Run, u: Run, waits: bool, calls: seq<Call>, m: nat)
    requires calls != [] && (t, false) == ExecuteOne(tools, s, calls[0])
    requires StoppedAfter(tools, t, u, waits, calls[1..], m)
    ensures StoppedAfter(tools, s, u, waits, calls, m + 1)
  {
    assert calls[..m + 1] == [calls[0]] + calls[1..][..m];
    assert u.results[|s.results|] == t.results[|s.results|];
  }

  /** The calls are executed in order, each once; all of them, unless one waits for an
    * approval: then it is the last, and the error names the approval. */
  lemma {:induction false} CallsAreExecutedInOrder(tools: Tools, s: Run, calls: seq<Call>) returns (m: nat)
    ensures var (t, waits) := ExecuteAll(tools, s, calls); StoppedAfter(tools, s, t, waits, calls, m)
    decreases |calls|
  {
    m := 0;
    if calls != [] {
      var (t, waits) := ExecuteOne(tools, s, calls[0]);
      if !waits {
        m := CallsAreExecutedInOrder(tools, t, calls[1..]);
        OneMoreExecuted(tools, s, t, ExecuteAll(tools, t, calls[1..]).0, ExecuteAll(tools, t, calls[1..]).1, calls, m);
      }
      m := m + 1;
    }
  }

  // The call came from a tool that leaves artifacts, and reported this one.
  predicate Reports(call: Call, result: ToolResult, p: string) {
    call.tool in {"filesystem.write", "file.patch", "api.call", "shell"} && result.ok && p in result.artifacts
  }

  // The artifacts are those reported, each once.
  ghost predicate Claims(s: Run) {
    |s.results| == |s.executed| && Distinct(s.artifacts)
    && forall p :: p in s.artifacts <==> exists i :: 0 <= i < |s.executed| && Reports(s.executed[i], s.results[i], p)
  }

  // Only the last call can wait for an approval, and then that is the error.
  ghost predicate Waits(s: Run) {
    forall i :: 0 <= i < |s.results| && s.results[i].pending != "" ==>
      i == |s.results| - 1 && s.error == Some("awaiting approval " + s.results[i].pending)
  }

  ghost predicate NoneWaits(s: Run) {
    forall i :: 0 <= i < |s.results| ==> s.results[i].pending == ""
  }

  lemma ExecuteOneClaims(tools: Tools, s: Run, call: Call)
    requires Claims(s)
    ensures Claims(ExecuteOne(tools, s, call).0)
  {
    var t := ExecuteOne(tools, s, call).0;
    var n := |s.executed|;
    forall p ensures p in t.artifacts <==>
        p in s.artifacts || Reports(t.executed[n], t.results[n], p) {
    }
    forall p | p in s.artifacts
      ensures exists i :: 0 <= i < |t.executed| && Reports(t.executed[i], t.results[i], p)
    {
      var i :| 0 <= i < n && Reports(s.executed[i], s.results[i], p);
      assert t.executed[i] == s.executed[i] && t.results[i] == s.results[i];
    }
    forall i, p | 0 <= i < |t.executed| && Reports(t.executed[i], t.results[i], p) ensures p in t.artifacts {
      if i < n {
        assert Reports(s.executed[i], s.results[i], p);
      }
    }
  }

  lemma {:induction false} ExecuteAllClaims(tools: Tools, s: Run, calls: seq<Call>)
    requires Claims(s)
    ensures Claims(ExecuteAll(tools, s, calls).0)
    decreases |calls|
  {
    if calls != [] {
      ExecuteOneClaims(tools, s, calls[0]);
      var (t, waits) := ExecuteOne(tools, s, calls[0]);
      if !waits {
        ExecuteAllClaims(tools, t, calls[1..]);
      }
    }
  }

  lemma RoundClaims(model: Model, tools: Tools, s: Run, reply: Answer, nudges: nat)
    requires Claims(s)
    ensures Claims(OneRound(model, tools, s, reply, nudges).run)
  {
    var (unseen, seen) := FreshCalls(reply.calls, s.signatures);
    ExecuteAllClaims(tools, s.(signatures := seen), unseen);
  }

  /** The rounds claim exactly what was reported. */
  lemma RoundsClaim(model: Model, tools: Tools, s: Run, reply: Answer, round: nat, nudges: nat)
    requires round <= MAX_TOOL_ROUNDS && Claims(s)
    ensures Claims(Rounds(model, tools, s, reply, round, nudges))
  {
    var known: Known := (r: Run, a: Answer, k: nat, n: nat) => Claims(r);
    var end := t => Claims(t);
    forall r, a: Answer, k: nat, n: nat | k <= MAX_TOOL_ROUNDS
      ensures Carries(StepOf(model, tools), known, end, r, a, k, n)
    {
      if known(r, a, k, n) {
        RoundClaims(model, tools, r, a, n);
      }
    }
    RoundsCarry(StepOf(model, tools), known, end, s, reply, round, nudges);
  }

  lemma ExecuteAllWaits(tools: Tools, s: Run, calls: seq<Call>)
    requires NoneWaits(s)
    ensures var (t, waits) := ExecuteAll(tools, s, calls);
      Waits(t) && s.results <= t.results && (!waits ==> NoneWaits(t) && t.error == s.error)
      && (waits ==> |t.results| > |s.results| && t.results[|t.results| - 1].pending != "")
  {
    var m := CallsAreExecutedInOrder(tools, s, calls);
    var (t, waits) := ExecuteAll(tools, s, calls);
    assert forall k :: 0 <= k < |s.results| ==> t.results[k].pending == "";
  }

  // What the error of rounds is that began in s and ended in t.
  function ErrorOf(model: Model, s: Run, t: Run, round: nat): Option<string> {
    if |t.results| > |s.results| && t.results[|t.results| - 1].pending != ""
    then Some("awaiting approval " + t.results[|t.results| - 1].pending)
    else if t.asked == 0 then s.error
    else
      match model(t.asked - 1)
      case Raises(message) => Some(message)
      case Answers(error, text, _) =>
        if t.asked == s.asked + 12 - round
        then (if text == "" then Some("exceeded 12 tool rounds") else None)
        else if error != "" then Some(error) else s.error
  }

  ghost predicate RoundsStop(model: Model, s: Run, t: Run, round: nat) {
    Waits(t) && t.error == ErrorOf(model, s, t, round)
    && |t.results| >= |s.results| && s.asked <= t.asked <= s.asked + 12 - round
  }

  lemma ExhaustedStops(model: Model, s: Run, reply: Reply)
    requires NoneWaits(s) && reply.Answers? && s.asked > 0 && model(s.asked - 1) == reply
    ensures RoundsStop(model, s, Exhausted(s, reply.text), MAX_TOOL_ROUNDS)
  {
  }

  // A round that goes on, or ends the rounds.
  lemma WaitingStops(model: Model, s: Run, t: Run, round: nat)
    requires Waits(t) && |t.results| > |s.results| && t.results[|t.results| - 1].pending != "" && t.asked == s.asked
    requires round < MAX_TOOL_ROUNDS
    ensures RoundsStop(model, s, t, round)
  {
  }

  lemma AskingStops(model: Model, s: Run, done: Run, round: nat)
    requires NoneWaits(done) && |done.results| >= |s.results| && done.asked == s.asked && round < MAX_TOOL_ROUNDS
    ensures var (t, next) := Ask(model, done);
      NoneWaits(t) && t.results == done.results
      && if next.None? then RoundsStop(model, s, t, round)
         else t.asked == s.asked + 1 && t.error == done.error && model(t.asked - 1) == next.value
  {
  }

  lemma AnswerStops(model: Model, s: Run, t: Run, reply: Reply, round: nat)
    requires NoneWaits(s) && reply.Answers? && s.asked > 0 && model(s.asked - 1) == reply && round < MAX_TOOL_ROUNDS
    requires t.results == s.results && t.asked == s.asked
    requires t.error == if reply.error != "" then Some(reply.error) else s.error
    ensures RoundsStop(model, s, t, round)
  {
  }

  lemma RoundWaits(model: Model, tools: Tools, s: Run, reply: Reply, round: nat, nudges: nat, turn: Turn)
    requires NoneWaits(s) && round < MAX_TOOL_ROUNDS
    requires reply.Answers? && s.asked > 0 && model(s.asked - 1) == reply
    requires turn == OneRound(model, tools, s, reply, nudges)
    ensures s.results <= turn.run.results
    ensures turn.Ends? ==> RoundsStop(model, s, turn.run, round)
    ensures turn.GoesOn? ==>
      var t := turn.run;
      t.asked == s.asked + 1 && NoneWaits(t) && t.error == s.error && model(t.asked - 1) == turn.reply
  {
    var (unseen, seen) := FreshCalls(reply.calls, s.signatures);
    if reply.error != "" || (unseen == [] && (reply.calls == [] || nudges >= 3)) {
      AnswerStops(model, s, turn.run, reply, round);
    } else {
      var noted := s.(signatures := seen);
      var (done, waits) := ExecuteAll(tools, noted, unseen);
      ExecuteAllWaits(tools, noted, unseen);
      ExecutionKeepsContent(tools, noted, unseen);
      if waits {
        assert turn == Ends(done);
        WaitingStops(model, s, done, round);
      } else {
        AskingStops(model, s, done, round);
        assert turn.run == Ask(model, done).0;
      }
    }
  }

  /** The rounds stop at a call that waits for an approval. They have a new error exactly
    * when they did, the model raised or answered with an error, or they were used up
    * without a text; used up with a text, they have none. */
  lemma RoundsError(model: Model, tools: Tools, s: Run, reply: Answer, round: nat, nudges: nat)
    requires round <= MAX_TOOL_ROUNDS && s.asked > 0 && model(s.asked - 1) == reply
    requires NoneWaits(s)
    ensures var t := Rounds(model, tools, s, reply, round, nudges);
      s.results <= t.results && RoundsStop(model, s, t, round)
  {
    var known: Known := (r: Run, a: Answer, k: nat, n: nat) => round <= k && Quiet(model, s, r, a, k - round);
    var end := (t: Run) => Stopped(model, s, t, round);
    assert Quiet(model, s, s, reply, 0);
    forall r, a: Answer, k: nat, n: nat | k <= MAX_TOOL_ROUNDS
      ensures Carries(StepOf(model, tools), known, end, r, a, k, n)
    {
      assert known(r, a, k, n) ==> Quiet(model, s, r, a, k - round);
      if known(r, a, k, n) && k < MAX_TOOL_ROUNDS {
        var turn := OneRound(model, tools, r, a, n);
        RoundWaits(model, tools, r, a, k, n, turn);
        QuietOn(model, s, r, a, turn, round, k);
        assert turn.GoesOn? ==> Quiet(model, s, turn.run, turn.reply, k + 1 - round);
      } else if known(r, a, k, n) {
        ExhaustedStops(model, r, a);
        StopsLater(model, s, r, a, Exhausted(r, a.text), round, k);
      }
    }
    RoundsCarry(StepOf(model, tools), known, end, s, reply, round, nudges);
    assert Stopped(model, s, Rounds(model, tools, s, reply, round, nudges), round);
  }

  ghost predicate Stopped(model: Model, s: Run, t: Run, round: nat) {
    s.results <= t.results && RoundsStop(model, s, t, round)
  }

  // Nothing waits, no error is new, and the answer is the last one.
  ghost predicate Quiet(model: Model, s: Run, r: Run, a: Answer, rounds: nat) {
    NoneWaits(r) && s.results <= r.results && r.asked == s.asked + rounds && r.error == s.error
    && r.asked > 0 && model(r.asked - 1) == a
  }

  lemma QuietOn(model: Model, s: Run, r: Run, a: Answer, turn: Turn, round: nat, k: nat)
    requires round <= k < MAX_TOOL_ROUNDS && Quiet(model, s, r, a, k - round) && r.results <= turn.run.results
    requires turn.Ends? ==> RoundsStop(model, r, turn.run, k)
    requires turn.GoesOn? ==>
      var t := turn.run;
      t.asked == r.asked + 1 && NoneWaits(t) && t.error == r.error && model(t.asked - 1) == turn.reply
    ensures turn.Ends? ==> Stopped(model, s, turn.run, round)
    ensures turn.GoesOn? ==> Quiet(model, s, turn.run, turn.reply, k + 1 - round)
  {
    assert s.results <= r.results <= turn.run.results;
    if turn.Ends? {
      StopsLater(model, s, r, a, turn.run, round, k);
    }
  }

  lemma StopsLater(model: Model, s: Run, r: Run, a: Answer, t: Run, round: nat, k: nat)
    requires round <= k <= MAX_TOOL_ROUNDS && Quiet(model, s, r, a, k - round) && r.results <= t.results
    requires RoundsStop(model, r, t, k)
    ensures Stopped(model, s, t, round)
  {
    assert |t.results| > |s.results| && |t.results| == |r.results| ==> t.results[|t.results| - 1].pending == "";
  }

  // ---- Verification and repair ----

  type Disk = (nat, string) -> bool

  predicate AllOk(results: seq<ToolResult>) {
    forall i :: 0 <= i < |results| ==> results[i].ok
  }

  // The artifacts claimed exist at this check.
  predicate OnDisk(disk: Disk, check: nat, artifacts: seq<string>) {
    forall i :: 0 <= i < |artifacts| ==> disk(check, artifacts[i])
  }

  // Every tool result of the run counts, also those of calls repeated with success.
  predicate Passes(s: Run, disk: Disk, check: nat) {
    OnDisk(disk, check, s.artifacts) && AllOk(s.results)
  }

  datatype Outcome = Outcome(run: Run, verified: bool, repairs: nat)

  function Content(s: Run): string {
    if s.content.Some? then s.content.value else ""
  }

  // An opening line is not taken for the work: a final text is demanded.
  function Guarded(s: Run, finalText: string): Run {
    if Truthy(s.error) || |Strip(Content(s))| >= SUBSTANTIVE then s
    else if |finalText| >= SUBSTANTIVE then s.(content := Some(finalText))
    else s.(content := if Truthy(s.content) then s.content else Some(finalText),
            error := Some("stage produced no substantive output"))
  }

  function Repairs(model: Model, tools: Tools, disk: Disk, s: Run, repairs: nat): Outcome
    requires repairs <= MAX_REPAIR_ROUNDS
    decreases MAX_REPAIR_ROUNDS - repairs, s
  {
    if Truthy(s.error) then Outcome(s, false, repairs)
    else if repairs == MAX_REPAIR_ROUNDS || Passes(s, disk, repairs) then Outcome(s, Passes(s, disk, repairs), repairs)
    else
      var (t, reply) := Ask(model, s);
      if reply.None? then Outcome(t, false, repairs + 1)
      else Repairs(model, tools, disk, Rounds(model, tools, t, reply.value, 0, 0), repairs + 1)
  }

  const START := Run(0, {}, [], [], [], None, None)

  function WholeRun(model: Model, tools: Tools, disk: Disk, finalText: string): Outcome {
    var (s, reply) := Ask(model, START);
    if reply.None? then Outcome(s, false, 0)
    else Repairs(model, tools, disk, Guarded(Rounds(model, tools, s, reply.value, 0, 0), finalText), 0)
  }

  // What holds of the outcome of repairs from a state: bounds, no repeats, what verified means.
  ghost predicate Repaired(s: Run, o: Outcome, disk: Disk, repairs: nat) {
    repairs <= o.repairs <= MAX_REPAIR_ROUNDS && Sound(o.run) && Extends(s, o.run) && Settled(o.run)
    && o.run.asked <= s.asked + (o.repairs - repairs) * (1 + MAX_TOOL_ROUNDS)
    && (o.verified ==> !Truthy(o.run.error) && Passes(o.run, disk, o.repairs))
    && (o.run.error == None && Passes(o.run, disk, o.repairs) ==> o.verified)
    && (o.run.error == None && !o.verified ==> o.repairs == MAX_REPAIR_ROUNDS)
    && (o.repairs == repairs ==> o.run == s)
  }

  // One repair: the model is asked, and its rounds are done.
  lemma RepairLeads(model: Model, tools: Tools, s: Run)
    requires Sound(s)
    ensures var (t, reply) := Ask(model, s);
      Leads(s, t, 1) && (reply.None? ==> Settled(t) && t.error.Some?)
      && (reply.Some? ==>
            Leads(s, Rounds(model, tools, t, reply.value, 0, 0), 1 + MAX_TOOL_ROUNDS)
            && Settled(Rounds(model, tools, t, reply.value, 0, 0)))
  {
    var (t, reply) := Ask(model, s);
    if reply.Some? {
      RoundsAreSound(model, tools, t, reply.value, 0, 0);
      LeadsOn(s, t, Rounds(model, tools, t, reply.value, 0, 0), 1, MAX_TOOL_ROUNDS);
    }
  }

  lemma NoRepair(s: Run, disk: Disk, repairs: nat)
    requires repairs <= MAX_REPAIR_ROUNDS && Sound(s) && Settled(s)
    ensures Truthy(s.error) ==> Repaired(s, Outcome(s, false, repairs), disk, repairs)
    ensures !Truthy(s.error) && (repairs == MAX_REPAIR_ROUNDS || Passes(s, disk, repairs)) ==>
      Repaired(s, Outcome(s, Passes(s, disk, repairs), repairs), disk, repairs)
  {
  }

  lemma {:induction false} RepairsAreSound(model: Model, tools: Tools, disk: Disk, s: Run, repairs: nat)
    requires repairs <= MAX_REPAIR_ROUNDS && Sound(s) && Settled(s)
    ensures Repaired(s, Repairs(model, tools, disk, s, repairs), disk, repairs)
    decreases MAX_REPAIR_ROUNDS - repairs
  {
    NoRepair(s, disk, repairs);
    if !Truthy(s.error) && repairs < MAX_REPAIR_ROUNDS && !Passes(s, disk, repairs) {
      var (t, reply) := Ask(model, s);
      RepairLeads(model, tools, s);
      if reply.Some? {
        var u := Rounds(model, tools, t, reply.value, 0, 0);
        RepairsAreSound(model, tools, disk, u, repairs + 1);
        OneMoreRepair(s, u, Repairs(model, tools, disk, u, repairs + 1), disk, repairs);
      } else {
        BrokenRepair(s, t, disk, repairs);
      }
    }
  }

  lemma BrokenRepair(s: Run, t: Run, disk: Disk, repairs: nat)
    requires repairs < MAX_REPAIR_ROUNDS && Leads(s, t, 1) && Settled(t) && t.error.Some?
    ensures Repaired(s, Outcome(t, false, repairs + 1), disk, repairs)
  {
  }

  lemma OneMoreRepair(s: Run, u: Run, o: Outcome, disk: Disk, repairs: nat)
    requires Leads(s, u, 1 + MAX_TOOL_ROUNDS) && Repaired(u, o, disk, repairs + 1)
    ensures Repaired(s, o, disk, repairs)
  {
  }

  /** In every run of an agent: no call signature is executed twice, whatever the rounds
    * and repairs; there are at most two repairs and 39 model calls; the run ends with
    * content or an error; it is verified only if no tool call of the run failed and the
    * artifacts were on disk at the last check, and then always, unless there is an error;
    * and without repairs or error the content is substantive. */
  lemma RunIsSound(model: Model, tools: Tools, disk: Disk, finalText: string)
    ensures var o := WholeRun(model, tools, disk, finalText);
      NoRepeats(o.run.executed) && (o.run.content.Some? || o.run.error.Some?) && o.repairs <= 2 && o.run.asked <= 39
      && (o.verified ==> !Truthy(o.run.error) && Passes(o.run, disk, o.repairs))
      && (o.run.error == None && Passes(o.run, disk, o.repairs) ==> o.verified)
      && (o.run.error == None && !o.verified ==> o.repairs == MAX_REPAIR_ROUNDS)
      && (!Truthy(o.run.error) && o.repairs == 0 && o.run.content.Some? ==> |o.run.content.value| >= 400)
  {
    var (s, reply) := Ask(model, START);
    if reply.Some? {
      StripIsShorter(Content(Rounds(model, tools, s, reply.value, 0, 0)));
      RoundsAreSound(model, tools, s, reply.value, 0, 0);
      RepairsAreSound(model, tools, disk, Guarded(Rounds(model, tools, s, reply.value, 0, 0), finalText), 0);
    }
  }

  lemma StripIsShorter(s: string)
    ensures |Strip(s)| <= |s|
  {
    StripTrims(s, Strip(s));
  }

  /** An opening line is not taken for the work. A first answer of less than 400 characters
    * between its white space is replaced by the final text if that has 400; otherwise the
    * run ends at once, with an error. */
  lemma OpeningLinesAreNotTaken(model: Model, tools: Tools, disk: Disk, finalText: string, trimmed: string)
    requires model(0).Answers?
    requires Trims(Content(Rounds(model, tools, Ask(model, START).0, model(0), 0, 0)), trimmed)
    ensures var first := Rounds(model, tools, Ask(model, START).0, model(0), 0, 0);
      var o := WholeRun(model, tools, disk, finalText);
      if Truthy(first.error) then o == Outcome(first, false, 0)
      else if |trimmed| >= 400 then o == Repairs(model, tools, disk, first, 0)
      else if |finalText| >= 400 then o == Repairs(model, tools, disk, first.(content := Some(finalText)), 0)
      else
        !o.verified && o.repairs == 0 && o.run.error == Some("stage produced no substantive output")
        && o.run == first.(content := o.run.content, error := o.run.error)
        && Content(o.run) == if Content(first) == "" then finalText else Content(first)
  {
    StripTrims(Content(Rounds(model, tools, Ask(model, START).0, model(0), 0, 0)), trimmed);
  }

  lemma {:induction false} RepairsClaim(model: Model, tools: Tools, disk: Disk, s: Run, repairs: nat)
    requires repairs <= MAX_REPAIR_ROUNDS && Claims(s) && Waits(s)
    ensures var t := Repairs(model, tools, disk, s, repairs).run; Claims(t) && Waits(t)
    decreases MAX_REPAIR_ROUNDS - repairs
  {
    if !Truthy(s.error) && repairs < MAX_REPAIR_ROUNDS && !Passes(s, disk, repairs) {
      var (t, reply) := Ask(model, s);
      if reply.Some? {
        RoundsClaim(model, tools, t, reply.value, 0, 0);
        RoundsError(model, tools, t, reply.value, 0, 0);
        RepairsClaim(model, tools, disk, Rounds(model, tools, t, reply.value, 0, 0), repairs + 1);
      }
    }
  }

  /** What a run claims is exactly what its successful writing calls reported, each path
    * once. No call is executed after one that waits for an approval. A run without error
    * is verified if and only if every call of it was successful and every path reported
    * by a writing call is on disk at the last check. */
  lemma VerifiedExactlyWhenAllIsThere(model: Model, tools: Tools, disk: Disk, finalText: string)
    ensures var o := WholeRun(model, tools, disk, finalText);
      Claims(o.run) && Waits(o.run)
      && (o.run.error == None ==>
            (o.verified <==>
              (forall r :: r in o.run.results ==> r.ok)
              && forall i, p :: 0 <= i < |o.run.executed| && Reports(o.run.executed[i], o.run.results[i], p) ==>
                   disk(o.repairs, p)))
  {
    RunIsSound(model, tools, disk, finalText);
    var (s, reply) := Ask(model, START);
    if reply.Some? {
      RoundsClaim(model, tools, s, reply.value, 0, 0);
      RoundsError(model, tools, s, reply.value, 0, 0);
      RepairsClaim(model, tools, disk, Guarded(Rounds(model, tools, s, reply.value, 0, 0), finalText), 0);
    }
    var o := WholeRun(model, tools, disk, finalText);
    PassesExactly(o.run, disk, o.repairs);
  }

  lemma PassesExactly(s: Run, disk: Disk, check: nat)
    requires Claims(s)
    ensures Passes(s, disk, check) <==>
      (forall r :: r in s.results ==> r.ok)
      && forall i, p :: 0 <= i < |s.executed| && Reports(s.executed[i], s.results[i], p) ==> disk(check, p)
  {
    if Passes(s, disk, check) {
      forall i, p | 0 <= i < |s.executed| && Reports(s.executed[i], s.results[i], p) ensures disk(check, p) {
        assert p in s.artifacts;
      }
    }
    if forall i, p :: 0 <= i < |s.executed| && Reports(s.executed[i], s.results[i], p) ==> disk(check, p) {
      forall k | 0 <= k < |s.artifacts| ensures disk(check, s.artifacts[k]) {
        assert s.artifacts[k] in s.artifacts;
      }
    }
  }

  /** The model is asked for a repair exactly when the first rounds ended without error and
    * a call of them failed, or a path they reported is not on disk at the first check. */
  lemma RepairedExactlyWhenSomethingIsMissing(model: Model, tools: Tools, disk: Disk, finalText: string)
    requires model(0).Answers?
    ensures var s := Guarded(Rounds(model, tools, Ask(model, START).0, model(0), 0, 0), finalText);
      WholeRun(model, tools, disk, finalText).repairs > 0 <==>
        !Truthy(s.error)
        && !((forall r :: r in s.results ==> r.ok)
             && forall i, p :: 0 <= i < |s.executed| && i < |s.results| && Reports(s.executed[i], s.results[i], p) ==>
                  disk(0, p))
  {
    RoundsClaim(model, tools, Ask(model, START).0, model(0), 0, 0);
    var s := Guarded(Rounds(model, tools, Ask(model, START).0, model(0), 0, 0), finalText);
    PassesExactly(s, disk, 0);
    if !Truthy(s.error) && !Passes(s, disk, 0) {
      var (t, reply) := Ask(model, s);
      if reply.Some? {
        MoreRepairs(model, tools, disk, Rounds(model, tools, t, reply.value, 0, 0), 1);
      }
    }
  }

  /** A failed tool call cannot be repaired: verification counts every result of the run,
    * so a run with a failed call in its first rounds uses both repairs and ends unverified. */
  lemma FailedCallsStayFailed(model: Model, tools: Tools, disk: Disk, finalText: string, i: nat)
    requires model(0).Answers?
    requires var first := Rounds(model, tools, Ask(model, START).0, model(0), 0, 0);
      i < |first.results| && !first.results[i].ok
    ensures var o := WholeRun(model, tools, disk, finalText);
      !o.verified && (o.run.error == None ==> o.repairs == MAX_REPAIR_ROUNDS)
  {
    RunIsSound(model, tools, disk, finalText);
    var (s, reply) := Ask(model, START);
    var first := Guarded(Rounds(model, tools, s, reply.value, 0, 0), finalText);
    RoundsAreSound(model, tools, s, reply.value, 0, 0);
    RepairsAreSound(model, tools, disk, first, 0);
    var o := Repairs(model, tools, disk, first, 0);
    assert first.results <= o.run.results;
    assert !o.run.results[i].ok;
  }

  // ---- What the content is in the end ----

  // The text of the last answer of the model.
  function LastText(model: Model, s: Run): string {
    if s.asked > 0 && model(s.asked - 1).Answers? then model(s.asked - 1).text else ""
  }

  // All rounds left were used up, and there was content to keep.
  predicate KeepsContent(s: Run, t: Run, round: nat) {
    Truthy(s.content) && t.asked == s.asked + MAX_TOOL_ROUNDS - round
  }

  lemma ExecutionKeepsContent(tools: Tools, s: Run, calls: seq<Call>)
    ensures var (t, waits) := ExecuteAll(tools, s, calls);
      t.content == s.content && t.asked == s.asked && t.signatures == s.signatures && (waits ==> Truthy(t.error))
    decreases |calls|
  {
    if calls != [] {
      var (t, waits) := ExecuteOne(tools, s, calls[0]);
      if !waits {
        ExecutionKeepsContent(tools, t, calls[1..]);
      }
    }
  }

  // What the content is when rounds from s end in t without error.
  ghost predicate RoundsEnd(model: Model, s: Run, t: Run, round: nat) {
    t.asked <= s.asked + MAX_TOOL_ROUNDS - round
    && (t.error == None ==>
          Content(t) == (if KeepsContent(s, t, round) then Content(s) else LastText(model, t))
          && (KeepsContent(s, t, round) ==> LastText(model, t) != ""))
  }

  // The content is as it was, and the answer is the last one.
  ghost predicate Unchanged(model: Model, s: Run, r: Run, a: Answer, rounds: nat) {
    r.content == s.content && r.asked == s.asked + rounds && r.asked > 0 && model(r.asked - 1) == a
  }

  // A round that goes on keeps the content, and asks once.
  lemma RoundKeepsContent(model: Model, tools: Tools, s: Run, reply: Answer, nudges: nat, turn: Turn)
    requires turn == OneRound(model, tools, s, reply, nudges)
    ensures turn.GoesOn? ==> Unchanged(model, s, turn.run, turn.reply, 1)
    ensures turn.Ends? ==>
      var t := turn.run;
      s.asked <= t.asked <= s.asked + 1 && (t.error == None ==> t.asked == s.asked && t.content == Some(reply.text))
  {
    var (unseen, seen) := FreshCalls(reply.calls, s.signatures);
    ExecutionKeepsContent(tools, s.(signatures := seen), unseen);
  }

  lemma ContentCarries(model: Model, s: Run, r: Run, a: Answer, t: Run, round: nat, k: nat)
    requires round <= k < MAX_TOOL_ROUNDS && Unchanged(model, s, r, a, k - round)
    requires r.asked <= t.asked <= r.asked + 1
    requires t.error == None ==> t.asked == r.asked && t.content == Some(a.text)
    ensures RoundsEnd(model, s, t, round)
  {
  }

  lemma ExhaustedContent(model: Model, s: Run, r: Run, a: Answer, round: nat)
    requires round <= MAX_TOOL_ROUNDS && Unchanged(model, s, r, a, MAX_TOOL_ROUNDS - round)
    ensures RoundsEnd(model, s, Exhausted(r, a.text), round)
  {
  }

  /** Rounds that end without error leave the text of the last answer as the content, or,
    * when they were used up, the content there was. */
  lemma RoundsContent(model: Model, tools: Tools, s: Run, reply: Answer, round: nat, nudges: nat)
    requires round <= MAX_TOOL_ROUNDS && s.asked > 0 && model(s.asked - 1) == reply
    ensures RoundsEnd(model, s, Rounds(model, tools, s, reply, round, nudges), round)
  {
    var known: Known := (r: Run, a: Answer, k: nat, n: nat) => round <= k && Unchanged(model, s, r, a, k - round);
    var end := t => RoundsEnd(model, s, t, round);
    forall r, a: Answer, k: nat, n: nat | k <= MAX_TOOL_ROUNDS
      ensures Carries(StepOf(model, tools), known, end, r, a, k, n)
    {
      assert known(r, a, k, n) ==> Unchanged(model, s, r, a, k - round);
      if known(r, a, k, n) && k < MAX_TOOL_ROUNDS {
        var turn := OneRound(model, tools, r, a, n);
        RoundKeepsContent(model, tools, r, a, n, turn);
        if turn.Ends? {
          ContentCarries(model, s, r, a, turn.run, round, k);
        } else {
          assert Unchanged(model, s, turn.run, turn.reply, k + 1 - round);
        }
      } else if known(r, a, k, n) {
        ExhaustedContent(model, s, r, a, round);
      }
    }
    assert Unchanged(model, s, s, reply, 0);
    RoundsCarry(StepOf(model, tools), known, end, s, reply, round, nudges);
  }

  // ---- Which answers are followed by another round ----

  function Signatures(calls: seq<Call>): set<Signature> {
    set call | call in calls :: SignatureOf(call)
  }

  lemma OneMoreSignature(calls: seq<Call>, call: Call)
    ensures Signatures(calls + [call]) == Signatures(calls) + {SignatureOf(call)}
  {
    assert forall c :: c in calls + [call] <==> c in calls || c == call;
  }

  lemma {:induction false} FreshOnes(calls: seq<Call>, seen: set<Signature>)
    ensures var (unseen, known) := FreshCalls(calls, seen);
      known == seen + Signatures(calls) && (unseen == [] <==> Signatures(calls) <= seen)
  {
    if calls != [] {
      var n := |calls| - 1;
      FreshOnes(calls[..n], seen);
      assert calls == calls[..n] + [calls[n]];
      OneMoreSignature(calls[..n], calls[n]);
    }
  }

  // The calls of an answer, if it is one.
  function CallsOf(reply: Reply): seq<Call> {
    if reply.Answers? then reply.calls else []
  }

  // The signatures seen before answer k of those that begin with answer a.
  function SeenBy(model: Model, a: nat, k: nat, seen: set<Signature>): set<Signature> {
    if k == 0 then seen else SeenBy(model, a, k - 1, seen) + Signatures(CallsOf(model(a + k - 1)))
  }

  // Answer k has a call not met before.
  predicate HasFresh(model: Model, a: nat, k: nat, seen: set<Signature>) {
    exists call :: call in CallsOf(model(a + k)) && SignatureOf(call) !in SeenBy(model, a, k, seen)
  }

  // How many of the first k answers had calls, but none that was new.
  function Stale(model: Model, a: nat, k: nat, seen: set<Signature>): nat {
    if k == 0 then 0
    else
      Stale(model, a, k - 1, seen)
      + if CallsOf(model(a + k - 1)) != [] && !HasFresh(model, a, k - 1, seen) then 1 else 0
  }

  // Answer k calls for another round: by a new call, or by old ones for the first three times.
  predicate CallsForMore(model: Model, a: nat, k: nat, seen: set<Signature>) {
    HasFresh(model, a, k, seen) || (CallsOf(model(a + k)) != [] && Stale(model, a, k, seen) < 3)
  }

  // The rounds after k answers.
  ghost predicate IsAt(model: Model, a: nat, seen: set<Signature>, s: Run, reply: Reply, k: nat, nudges: nat) {
    s.asked == a + 1 + k && reply.Answers? && reply == model(a + k)
    && s.signatures == SeenBy(model, a, k, seen) && nudges == Stale(model, a, k, seen)
  }

  // Every answer from k on was followed by a round, up to the last.
  ghost predicate Followed(model: Model, a: nat, seen: set<Signature>, t: Run, k: nat) {
    a + 1 + k <= t.asked <= a + 13
    && (forall i :: k <= i < t.asked - a - 1 ==> CallsForMore(model, a, i, seen))
    && var n := t.asked - a - 1;
      t.error == None && n < 12 ==>
        model(a + n).Answers? && t.content == Some(model(a + n).text) && !CallsForMore(model, a, n, seen)
  }

  // Whether the round goes on, and with what, is what the history says.
  lemma GoesOnExactly(model: Model, a: nat, seen: set<Signature>, s: Run, reply: Reply, k: nat, nudges: nat)
    requires IsAt(model, a, seen, s, reply, k, nudges)
    ensures var (unseen, known) := FreshCalls(reply.calls, s.signatures);
      (CallsForMore(model, a, k, seen) <==> !(unseen == [] && (reply.calls == [] || nudges >= 3)))
      && known == SeenBy(model, a, k + 1, seen)
      && (CallsForMore(model, a, k, seen) ==>
            Stale(model, a, k + 1, seen) == if unseen == [] then nudges + 1 else nudges)
  {
    FreshOnes(reply.calls, s.signatures);
    FreshIsNotSeen(model, a, k, seen);
    assert a + (k + 1) - 1 == a + k;
  }

  lemma StopsHere(model: Model, a: nat, seen: set<Signature>, t: Run, k: nat)
    requires t.asked == a + 1 + k && k < 12
    requires t.error == None ==>
      model(a + k).Answers? && t.content == Some(model(a + k).text) && !CallsForMore(model, a, k, seen)
    ensures Followed(model, a, seen, t, k)
  {
  }

  lemma AskFollows(model: Model, a: nat, seen: set<Signature>, done: Run, k: nat)
    requires done.asked == a + 1 + k && done.signatures == SeenBy(model, a, k + 1, seen) && k < 12
    requires CallsForMore(model, a, k, seen)
    ensures var (t, next) := Ask(model, done);
      if next.None? then Followed(model, a, seen, t, k)
      else IsAt(model, a, seen, t, next.value, k + 1, Stale(model, a, k + 1, seen))
  {
  }

  lemma RoundFollows(
    model: Model, tools: Tools, a: nat, seen: set<Signature>, s: Run, reply: Reply, k: nat, nudges: nat, turn: Turn)
    requires IsAt(model, a, seen, s, reply, k, nudges) && k < 12
    requires turn == OneRound(model, tools, s, reply, nudges)
    ensures turn.GoesOn? ==>
      IsAt(model, a, seen, turn.run, turn.reply, k + 1, turn.nudges) && CallsForMore(model, a, k, seen)
    ensures turn.Ends? ==> Followed(model, a, seen, turn.run, k)
  {
    GoesOnExactly(model, a, seen, s, reply, k, nudges);
    var (unseen, known) := FreshCalls(reply.calls, s.signatures);
    var noted := s.(signatures := known);
    if reply.error != "" || (unseen == [] && (reply.calls == [] || nudges >= 3)) {
      StopsHere(model, a, seen, turn.run, k);
    } else {
      var (done, waits) := ExecuteAll(tools, noted, unseen);
      ExecutionKeepsContent(tools, noted, unseen);
      if waits {
        StopsHere(model, a, seen, done, k);
      } else {
        AskFollows(model, a, seen, done, k);
      }
    }
  }

  lemma FreshIsNotSeen(model: Model, a: nat, k: nat, seen: set<Signature>)
    ensures HasFresh(model, a, k, seen) <==> !(Signatures(CallsOf(model(a + k))) <= SeenBy(model, a, k, seen))
  {
    var calls := CallsOf(model(a + k));
    assert forall call :: call in calls ==> SignatureOf(call) in Signatures(calls);
  }

  lemma RoundsFollow(model: Model, tools: Tools, a: nat, seen: set<Signature>, s: Run, reply: Answer)
    requires IsAt(model, a, seen, s, reply, 0, 0)
    ensures Followed(model, a, seen, Rounds(model, tools, s, reply, 0, 0), 0)
  {
    var known: Known := (r: Run, b: Answer, k: nat, n: nat) =>
      IsAt(model, a, seen, r, b, k, n) && MoreUpTo(model, a, seen, k);
    var end := t => Followed(model, a, seen, t, 0);
    forall r, b: Answer, k: nat, n: nat | k <= MAX_TOOL_ROUNDS
      ensures Carries(StepOf(model, tools), known, end, r, b, k, n)
    {
      if known(r, b, k, n) && k < MAX_TOOL_ROUNDS {
        var turn := OneRound(model, tools, r, b, n);
        RoundFollows(model, tools, a, seen, r, b, k, n, turn);
        if turn.Ends? {
          FollowedFromTheStart(model, a, seen, turn.run, k);
        } else {
          assert MoreUpTo(model, a, seen, k + 1);
        }
      } else if known(r, b, k, n) {
        FollowedFromTheStart(model, a, seen, Exhausted(r, b.text), k);
      }
    }
    RoundsCarry(StepOf(model, tools), known, end, s, reply, 0, 0);
  }

  lemma FollowedFromTheStart(model: Model, a: nat, seen: set<Signature>, t: Run, k: nat)
    requires MoreUpTo(model, a, seen, k) && Followed(model, a, seen, t, k)
    ensures Followed(model, a, seen, t, 0)
  {
  }

  // The first k answers were each followed by another one.
  ghost predicate MoreUpTo(model: Model, a: nat, seen: set<Signature>, k: nat) {
    forall i :: 0 <= i < k ==> CallsForMore(model, a, i, seen)
  }

  /** Every answer that is followed by another one has a call not met before, or repeats
    * old calls for the first three times; the first answer that does neither ends the
    * rounds, and its text is the content. */
  lemma RoundsEndAtTheFirstPlainAnswer(model: Model, tools: Tools, s: Run)
    requires s.asked > 0 && model(s.asked - 1).Answers?
    ensures Followed(model, s.asked - 1, s.signatures, Rounds(model, tools, s, model(s.asked - 1), 0, 0), 0)
  {
    var a := s.asked - 1;
    RoundsFollow(model, tools, a, s.signatures, s, model(a));
  }

  // The content after repairs: that of the last repair's rounds, which began from `before`.
  ghost predicate EndsWith(model: Model, before: Run, o: Run) {
    Content(o) == (if KeepsContent(before, o, 0) then Content(before) else LastText(model, o))
    && (KeepsContent(before, o, 0) ==> LastText(model, o) != "")
  }

  // The run as the rounds of its last repair found it.
  function BeforeLastRepair(model: Model, tools: Tools, disk: Disk, s: Run, repairs: nat): Run
    requires repairs <= MAX_REPAIR_ROUNDS
    decreases MAX_REPAIR_ROUNDS - repairs
  {
    var (t, reply) := Ask(model, s);
    if Truthy(s.error) || repairs == MAX_REPAIR_ROUNDS || Passes(s, disk, repairs) || reply.None? then t
    else
      var u := Rounds(model, tools, t, reply.value, 0, 0);
      if Repairs(model, tools, disk, u, repairs + 1).repairs == repairs + 1 then t
      else BeforeLastRepair(model, tools, disk, u, repairs + 1)
  }

  lemma {:induction false} RepairsContent(model: Model, tools: Tools, disk: Disk, s: Run, repairs: nat)
    requires repairs <= MAX_REPAIR_ROUNDS
    ensures var o := Repairs(model, tools, disk, s, repairs);
      o.repairs > repairs && o.run.error == None ==>
        EndsWith(model, BeforeLastRepair(model, tools, disk, s, repairs), o.run)
    decreases MAX_REPAIR_ROUNDS - repairs
  {
    if !Truthy(s.error) && repairs < MAX_REPAIR_ROUNDS && !Passes(s, disk, repairs) {
      var (t, reply) := Ask(model, s);
      if reply.Some? {
        var u := Rounds(model, tools, t, reply.value, 0, 0);
        RoundsContent(model, tools, t, reply.value, 0, 0);
        MoreRepairs(model, tools, disk, u, repairs + 1);
        RepairsContent(model, tools, disk, u, repairs + 1);
      }
    }
  }

  lemma {:induction false} MoreRepairs(model: Model, tools: Tools, disk: Disk, s: Run, repairs: nat)
    requires repairs <= MAX_REPAIR_ROUNDS
    ensures Repairs(model, tools, disk, s, repairs).repairs >= repairs
    ensures Repairs(model, tools, disk, s, repairs).repairs == repairs ==>
      Repairs(model, tools, disk, s, repairs).run == s
    decreases MAX_REPAIR_ROUNDS - repairs
  {
    if !Truthy(s.error) && repairs < MAX_REPAIR_ROUNDS && !Passes(s, disk, repairs) {
      var (t, reply) := Ask(model, s);
      if reply.Some? {
        MoreRepairs(model, tools, disk, Rounds(model, tools, t, reply.value, 0, 0), repairs + 1);
      }
    }
  }

  /** The guard against opening lines is not repeated after a repair. A run that ends
    * without error after a repair has no content exactly when the last answer has no text,
    * and substantive content exactly when that text is substantive -- or, if the last
    * repair used up its rounds, when the content before it was. */
  lemma RepairedContentIsTheLastAnswer(model: Model, tools: Tools, disk: Disk, finalText: string)
    requires model(0).Answers?
    ensures var guarded := Guarded(Rounds(model, tools, Ask(model, START).0, model(0), 0, 0), finalText);
      var before := BeforeLastRepair(model, tools, disk, guarded, 0);
      var o := WholeRun(model, tools, disk, finalText);
      o.repairs > 0 && o.run.error == None ==>
        (Content(o.run) == "" <==> LastText(model, o.run) == "")
        && (|Content(o.run)| >= SUBSTANTIVE <==>
              if KeepsContent(before, o.run, 0) then |Content(before)| >= SUBSTANTIVE
              else |LastText(model, o.run)| >= SUBSTANTIVE)
  {
    RepairsContent(model, tools, disk,
      Guarded(Rounds(model, tools, Ask(model, START).0, model(0), 0, 0), finalText), 0);
  }

  // When every repair is answered with an empty text, the run ends without error and without content.
  lemma RepairsMayEmptyTheContent(model: Model, tools: Tools, disk: Disk, finalText: string, call: Call, text: string)
    requires model(0) == Answers("", "", [call]) && !tools(0, call).ok && tools(0, call).pending == ""
    requires model(1) == Answers("", text, []) && |Strip(text)| >= SUBSTANTIVE
    requires model(2) == Answers("", "", []) && model(3) == Answers("", "", [])
    ensures var o := WholeRun(model, tools, disk, finalText); o.run.error == None && o.run.content == Some("")
  {
    var s := Ask(model, START).0;
    OneCall(tools, s, call);
    var done := ExecuteOne(tools, s.(signatures := {SignatureOf(call)}), call).0;
    var first := Ask(model, done).0.(content := Some(text));
    PlainAnswer(model, tools, Ask(model, done).0, text, 1);
    assert Rounds(model, tools, s, model(0), 0, 0) == first;
    assert Guarded(first, finalText) == first;
    var second := Ask(model, first).0.(content := Some(""));
    PlainAnswer(model, tools, Ask(model, first).0, "", 0);
    assert !first.results[0].ok && !second.results[0].ok;
    assert Repairs(model, tools, disk, first, 0) == Repairs(model, tools, disk, second, 1);
    var third := Ask(model, second).0.(content := Some(""));
    PlainAnswer(model, tools, Ask(model, second).0, "", 0);
    assert Repairs(model, tools, disk, second, 1) == Repairs(model, tools, disk, third, 2);
  }

  lemma LastFresh(calls: seq<Call>, call: Call, seen: set<Signature>)
    ensures var (unseen, known) := FreshCalls(calls, seen);
      FreshCalls(calls + [call], seen)
      == if SignatureOf(call) in known then (unseen, known) else (unseen + [call], known + {SignatureOf(call)})
  {
    assert (calls + [call])[..|calls|] == calls;
  }

  lemma OneCall(tools: Tools, s: Run, call: Call)
    requires s.signatures == {} && tools(|s.executed|, call).pending == ""
    ensures FreshCalls([call], s.signatures) == ([call], {SignatureOf(call)})
    ensures forall t: Run :: t.executed == s.executed ==> ExecuteAll(tools, t, [call]) == ExecuteOne(tools, t, call)
  {
    assert [call][..0] == [] && [call][1..] == [];
    var none: seq<Call> := [];
    LastFresh(none, call, s.signatures);
    assert none + [call] == [call];
    assert s.signatures + {SignatureOf(call)} == {SignatureOf(call)};
    forall t: Run | t.executed == s.executed ensures ExecuteAll(tools, t, [call]) == ExecuteOne(tools, t, call) {
      var u := ExecuteOne(tools, t, call).0;
      assert ExecuteAll(tools, u, []) == (u, false);
    }
  }

  lemma PlainAnswer(model: Model, tools: Tools, s: Run, text: string, round: nat)
    requires round < MAX_TOOL_ROUNDS
    ensures Rounds(model, tools, s, Answers("", text, []), round, 0) == s.(content := Some(text))
  {
  }

  // ---- The agent ----

  class AgentRuntime {
    const model: Model
    const tools: Tools
    const disk: Disk
    var asked: nat
    var signatures: set<Signature>
    var executed: seq<Call>
    var results: seq<ToolResult>
    var artifacts: seq<string>
    var content: Option<string>
    var error: Option<string>
    var verified: bool
    var repairs: nat

    constructor (model: Model, tools: Tools, disk: Disk)
      ensures this.model == model && this.tools == tools && this.disk == disk
      ensures Now() == START && !verified && repairs == 0
    {
      this.model, this.tools, this.disk := model, tools, disk;
      asked, signatures, executed, results, artifacts := 0, {}, [], [], [];
      content, error, verified, repairs := None, None, false, 0;
    }

    function Now(): Run
      reads this
    {
      Run(asked, signatures, executed, results, artifacts, content, error)
    }

    method CallModel() returns (reply: Option<Reply>)
      modifies this`asked, this`error
      ensures (Now(), reply) == Ask(model, old(Now()))
    {
      var answer := model(asked);
      asked := asked + 1;
      if answer.Raises? {
        error := Some(answer.message);
        return None;
      }
      reply := Some(answer);
    }

    // Drops the calls whose signature has been seen.
    method TakeFresh(calls: seq<Call>) returns (unseen: seq<Call>)
      modifies this`signatures
      ensures (unseen, signatures) == FreshCalls(calls, old(signatures))
    {
      unseen := [];
      for i := 0 to |calls|
        invariant (unseen, signatures) == FreshCalls(calls[..i], old(signatures))
      {
        assert calls[..i + 1][..i] == calls[..i];
        if SignatureOf(calls[i]) !in signatures {
          signatures := signatures + {SignatureOf(calls[i])};
          unseen := unseen + [calls[i]];
        }
      }
      assert calls[..|calls|] == calls;
    }

    method ExecuteCalls(calls: seq<Call>) returns (waits: bool)
      modifies this`executed, this`results, this`artifacts, this`error
      ensures (Now(), waits) == ExecuteAll(tools, old(Now()), calls)
    {
      for i := 0 to |calls|
        invariant ExecuteAll(tools, Now(), calls[i..]) == ExecuteAll(tools, old(Now()), calls)
        invariant signatures == old(signatures) && asked == old(asked) && content == old(content)
      {
        var result := tools(|executed|, calls[i]);
        if result.ok && Writes(calls[i].tool) {
          artifacts := AddNew(artifacts, result.artifacts);
        }
        executed := executed + [calls[i]];
        results := results + [result];
        assert calls[i..][0] == calls[i] && calls[i..][1..] == calls[i + 1..];
        if result.pending != "" {
          error := Some("awaiting approval " + result.pending);
          return true;
        }
      }
      waits := false;
    }

    // One round; the answer to go on with, if any.
    method RunRound(reply: Reply, nudges: nat) returns (next: Option<(Answer, nat)>)
      requires reply.Answers?
      modifies this`asked, this`signatures, this`executed, this`results, this`artifacts, this`content, this`error
      ensures OneRound(model, tools, old(Now()), reply, nudges)
        == if next.None? then Ends(Now()) else GoesOn(Now(), next.value.0, next.value.1)
    {
      if reply.error != "" {
        error := Some(reply.error);
        return None;
      }
      var unseen := TakeFresh(reply.calls);
      if unseen == [] && (reply.calls == [] || nudges >= 3) {
        content := Some(reply.text);
        return None;
      }
      var waits := ExecuteCalls(unseen);
      if waits {
        return None;
      }
      var answer := CallModel();
      next := if answer.None? then None else Some((answer.value, if unseen == [] then nudges + 1 else nudges));
    }

    // One round of the whole: either it was the last, or the rest from here on is the whole.
    method TakeRound(reply: Reply, round: nat, nudges: nat, ghost whole: Run) returns (next: Option<(Answer, nat)>)
      requires reply.Answers? && round < MAX_TOOL_ROUNDS
      requires Rounds(model, tools, Now(), reply, round, nudges) == whole
      modifies this`asked, this`signatures, this`executed, this`results, this`artifacts, this`content, this`error
      ensures next.None? ==> Now() == whole
      ensures next.Some? ==>
        next.value.0.Answers? && Rounds(model, tools, Now(), next.value.0, round + 1, next.value.1) == whole
    {
      RoundsOn(model, tools, Now(), reply, round, nudges);
      next := RunRound(reply, nudges);
    }

    method RunToolRounds(first: Reply)
      requires first.Answers?
      modifies this`asked, this`signatures, this`executed, this`results, this`artifacts, this`content, this`error
      ensures Now() == Rounds(model, tools, old(Now()), first, 0, 0)
    {
      var reply, nudges := first, 0;
      ghost var whole := Rounds(model, tools, Now(), first, 0, 0);
      for round := 0 to MAX_TOOL_ROUNDS
        invariant reply.Answers? && Rounds(model, tools, Now(), reply, round, nudges) == whole
      {
        var next := TakeRound(reply, round, nudges, whole);
        if next.None? {
          return;
        }
        reply, nudges := next.value.0, next.value.1;
      }
      RoundsAreOver(model, tools, Now(), reply, nudges);
      KeepLast(reply.text);
    }

    method KeepLast(text: string)
      modifies this`content, this`error
      ensures Now() == Exhausted(old(Now()), text)
    {
      if text != "" {
        content := if Truthy(content) then content else Some(text);
        error := None;
      } else {
        error := Some("exceeded 12 tool rounds");
      }
    }

    method VerifyResult(check: nat)
      modifies this`verified
      ensures verified == Passes(Now(), disk, check)
    {
      verified := OnDisk(disk, check, artifacts) && AllOk(results);
    }

    // A stub answer: the work itself is demanded.
    method DemandWork(finalText: string)
      modifies this`content, this`error
      ensures Now() == Guarded(old(Now()), finalText)
    {
      if !Truthy(error) && |Strip(Content(Now()))| < SUBSTANTIVE {
        if |finalText| >= SUBSTANTIVE {
          content := Some(finalText);
        } else {
          content := if Truthy(content) then content else Some(finalText);
          error := Some("stage produced no substantive output");
        }
      }
    }

    // The loop of verification and repair.
    method VerifyAndRepair()
      requires !verified && repairs == 0
      modifies this
      ensures Outcome(Now(), verified, repairs) == Repairs(model, tools, disk, old(Now()), 0)
    {
      ghost var start := Now();
      while !Truthy(error) && repairs < MAX_REPAIR_ROUNDS
        invariant repairs <= MAX_REPAIR_ROUNDS && !verified
        invariant Repairs(model, tools, disk, Now(), repairs) == Repairs(model, tools, disk, start, 0)
        decreases MAX_REPAIR_ROUNDS - repairs
      {
        VerifyResult(repairs);
        if verified {
          return;
        }
        repairs := repairs + 1;
        var reply := CallModel();
        if reply.None? {
          return;
        }
        RunToolRounds(reply.value);
        if Truthy(error) {
          return;
        }
      }
      if !Truthy(error) {
        VerifyResult(repairs);
      }
    }

    /** The whole run; finalText is what the demand for real work gives. */
    method RunLoop(finalText: string)
      requires Now() == START && !verified && repairs == 0
      modifies this
      ensures Outcome(Now(), verified, repairs) == WholeRun(model, tools, disk, finalText)
    {
      var reply := CallModel();
      if reply.None? {
        return;
      }
      RunToolRounds(reply.value);
      DemandWork(finalText);
      VerifyAndRepair();
    }
  }
}
