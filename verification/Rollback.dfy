/** The ledger of mutating actions and their compensations. */
module Rollback {
  import opened Wrappers
  import opened Text
  import opened Sequences

  datatype Status = Active | RolledBack | Failed
  datatype Reversibility = Reversible | Compensating | Irreversible

  // The redacted path and the recorded workspace are what a compensation has to go by.
  datatype Entry = Entry(
    id: string, tool: string, path: string, task: Option<string>, reversibility: Reversibility, compensation: string,
    status: Status)

  type Files = map<string, string>
  type Entries = map<string, Entry>

  // A compensation acts on the files and says whether it went well, or raises.
  datatype Attempt = Finished(files: Files, ok: bool) | Raises
  type Handler = (Files, Entry) -> Attempt
  type Handlers = map<string, Handler>

  datatype State = State(entries: Entries, files: Files)

  // ---- Entry ids ----

  function Zeros(n: nat): (s: string)
    ensures |s| == n && forall c :: c in s ==> c == '0'
  {
    if n == 0 then "" else "0" + Zeros(n - 1)
  }

  // At least six digits: short numbers are filled up with zeros, others are as they are.
  function Padded(n: nat): (s: string)
    ensures (forall c :: c in s ==> IsDigit(c)) && |s| >= 6
    ensures |Decimal(n)| >= 6 ==> s == Decimal(n)
  {
    var d := Decimal(n);
    Zeros(if |d| < 6 then 6 - |d| else 0) + d
  }

  function Underscored(tool: string): (r: string)
    ensures |r| == |tool| && '.' !in r
    ensures forall i :: 0 <= i < |tool| ==> r[i] == '_' || (tool[i] != '.' && r[i] == tool[i])
    ensures forall i :: 0 <= i < |tool| && tool[i] != '.' ==> r[i] == tool[i]
  {
    seq(|tool|, i requires 0 <= i < |tool| => if tool[i] == '.' then '_' else tool[i])
  }

  function EntryId(n: nat, tool: string): string {
    "rb_" + (Padded(n) + ("_" + Underscored(tool)))
  }

  lemma {:induction false} NumberOfZeros(n: nat, d: string)
    requires forall c :: c in d ==> IsDigit(c)
    ensures Number(Zeros(n) + d) == Number(d)
    decreases n + |d|
  {
    var s := Zeros(n) + d;
    if d != [] {
      NumberOfZeros(n, d[..|d| - 1]);
      assert s[..|s| - 1] == Zeros(n) + d[..|d| - 1];
    } else if n > 0 {
      ZerosEnd(n);
      NumberOfZeros(n - 1, []);
      assert s[..|s| - 1] == Zeros(n - 1) + [];
    }
  }

  lemma {:induction false} ZerosEnd(n: nat)
    requires n > 0
    ensures Zeros(n)[..n - 1] == Zeros(n - 1) && Zeros(n)[n - 1] == '0'
  {
    if n > 1 {
      ZerosEnd(n - 1);
    }
  }

  lemma NumberOfPadded(n: nat)
    ensures Number(Padded(n)) == n
  {
    var d := Decimal(n);
    NumberOfZeros(if |d| < 6 then 6 - |d| else 0, d);
    NumberOfDecimal(n);
  }

  /** Entry ids never collide, whatever the tools are called. */
  lemma EntryIdsDiffer(m: nat, n: nat, tool: string, other: string)
    ensures EntryId(m, tool) == EntryId(n, other) ==> m == n && Underscored(tool) == Underscored(other)
  {
    IdParts(m, tool);
    IdParts(n, other);
    NumberOfPadded(m);
    NumberOfPadded(n);
  }

  lemma IdParts(n: nat, tool: string)
    ensures Digits(EntryId(n, tool)[3..]) == Padded(n)
    ensures EntryId(n, tool)[3..][|Padded(n)| + 1..] == Underscored(tool)
  {
    var tail := "_" + Underscored(tool);
    assert EntryId(n, tool)[3..] == Padded(n) + tail;
    DigitsOf(Padded(n), tail);
  }

  // ---- One rollback ----

  datatype Reply =
    | Unknown
    | AlreadyDone
    | PriorFailure
    | NoCompensation
    | NotRegistered
    | CompensationFailed
    | Done(ok: bool)

  // Whether the ledger reports success; what the handler reported does not matter.
  predicate IsOk(r: Reply) {
    r.AlreadyDone? || r.Done?
  }

  function WithStatus(entries: Entries, id: string, status: Status): Entries
    requires id in entries
  {
    entries[id := entries[id].(status := status)]
  }

  function Effect(h: Handlers, s: State, id: string): (State, Reply) {
    if id !in s.entries then (s, Unknown)
    else
      var e := s.entries[id];
      if e.status == RolledBack then (s, AlreadyDone)
      else if e.status == Failed then (s, PriorFailure)
      else if e.compensation == "" then (s, NoCompensation)
      else if e.compensation !in h then (s, NotRegistered)
      else
        match h[e.compensation](s.files, e)
        case Raises => (State(WithStatus(s.entries, id, Failed), s.files), CompensationFailed)
        case Finished(files, ok) => (State(WithStatus(s.entries, id, RolledBack), files), Done(ok))
  }

  // The handler of the compensation was run.
  predicate Ran(r: Reply) {
    r.CompensationFailed? || r.Done?
  }

  /** A handler is run exactly for an active entry with a registered compensation; every
    * other rollback changes nothing and says why. */
  lemma RepliesFollowTheEntry(h: Handlers, s: State, id: string)
    ensures var (t, r) := Effect(h, s, id);
      (r == Unknown <==> id !in s.entries) && (!Ran(r) ==> t == s)
      && (id in s.entries ==>
            var e := s.entries[id];
            (r == AlreadyDone <==> e.status == RolledBack) && (r == PriorFailure <==> e.status == Failed)
            && (Ran(r) <==> e.status == Active && e.compensation != "" && e.compensation in h)
            && (r == NoCompensation <==> e.status == Active && e.compensation == "")
            && (r.Done? ==> id in t.entries && t.entries[id] == e.(status := RolledBack))
            && (r.CompensationFailed? ==> id in t.entries && t.entries[id] == e.(status := Failed)))
  {
  }

  // Any rollbacks one after the other, whatever their replies.
  function RollEach(h: Handlers, s: State, ids: seq<string>): seq<Reply>
    decreases |ids|
  {
    if ids == [] then []
    else
      var (t, r) := Effect(h, s, ids[0]);
      [r] + RollEach(h, t, ids[1..])
  }

  // The reply to every later rollback of an entry.
  function Later(r: Reply): Reply {
    match r
    case Done(_) => AlreadyDone
    case CompensationFailed => PriorFailure
    case _ => r
  }

  lemma LaterRepliesAreTheSame(r: Reply)
    ensures Later(Later(r)) == Later(r) && !Ran(Later(r))
  {
  }

  lemma EffectSettles(h: Handlers, s: State, id: string, other: string)
    ensures var (t, r) := Effect(h, s, id);
      Effect(h, t, id).1 == Later(r) && (other in t.entries <==> other in s.entries)
      && (other != id && other in s.entries ==> t.entries[other] == s.entries[other])
  {
  }

  // What an entry is replied depends on the entry and, while it is active, on the files.
  ghost predicate Answered(h: Handlers, s: State, id: string, r: Reply) {
    !Ran(r) && forall files :: Effect(h, State(s.entries, files), id).1 == r
  }

  lemma {:induction false} LaterReplies(h: Handlers, s: State, ids: seq<string>, j: nat, r: Reply)
    requires j < |ids| && Answered(h, s, ids[j], r)
    ensures |RollEach(h, s, ids)| == |ids| && RollEach(h, s, ids)[j] == r
    decreases |ids|
  {
    var t := Effect(h, s, ids[0]).0;
    OneReplyEach(h, t, ids[1..]);
    if j > 0 {
      EffectSettles(h, s, ids[0], ids[j]);
      assert Effect(h, State(s.entries, s.files), ids[j]).1 == r;
      RepliesFollowTheEntry(h, s, ids[j]);
      assert Answered(h, t, ids[j], r);
      LaterReplies(h, t, ids[1..], j - 1, r);
    }
  }

  lemma {:induction false} OneReplyEach(h: Handlers, s: State, ids: seq<string>)
    ensures |RollEach(h, s, ids)| == |ids|
    decreases |ids|
  {
    if ids != [] {
      OneReplyEach(h, Effect(h, s, ids[0]).0, ids[1..]);
    }
  }

  /** Rollback is idempotent: whatever else is rolled back in between, the first reply to
    * an entry decides all later ones, and its handler is not run again. */
  lemma {:induction false} HandlersRunAtMostOnce(h: Handlers, s: State, ids: seq<string>, i: nat, j: nat)
    requires i < j < |ids| && ids[i] == ids[j]
    ensures var replies := RollEach(h, s, ids);
      |replies| == |ids| && replies[j] == Later(replies[i]) && !Ran(replies[j])
    decreases |ids|
  {
    var (t, r) := Effect(h, s, ids[0]);
    OneReplyEach(h, t, ids[1..]);
    LaterRepliesAreTheSame(RollEach(h, s, ids)[i]);
    if i > 0 {
      HandlersRunAtMostOnce(h, t, ids[1..], i - 1, j - 1);
    } else {
      EffectSettles(h, s, ids[0], ids[0]);
      RepliesFollowTheEntry(h, s, ids[0]);
      assert Answered(h, t, ids[0], Later(r));
      LaterReplies(h, t, ids[1..], j - 1, Later(r));
    }
  }

  // ---- Rolling back a task ----

  // The active entries of the task, newest first.
  function Pending(entries: Entries, order: seq<string>, task: string): seq<string> {
    if order == [] then []
    else
      var n := |order| - 1;
      (if order[n] in entries && entries[order[n]].task == Some(task) && entries[order[n]].status == Active
       then [order[n]] else [])
      + Pending(entries, order[..n], task)
  }

  function RollAll(h: Handlers, s: State, ids: seq<string>): (State, seq<Reply>)
    decreases |ids|
  {
    if ids == [] then (s, [])
    else
      var (t, r) := Effect(h, s, ids[0]);
      if !IsOk(r) then (t, [r])
      else
        var (u, rest) := RollAll(h, t, ids[1..]);
        (u, [r] + rest)
  }

  predicate AllOk(replies: seq<Reply>) {
    forall i :: 0 <= i < |replies| ==> IsOk(replies[i])
  }

  predicate AllActive(entries: Entries, ids: seq<string>) {
    forall i :: 0 <= i < |ids| ==> ids[i] in entries && entries[ids[i]].status == Active
  }

  // The entries ids[lo..hi] are as before, but have this status.
  ghost predicate Became(before: Entries, after: Entries, ids: seq<string>, k: nat, status: Status) {
    forall i :: 0 <= i < k && i < |ids| ==>
      ids[i] in before && ids[i] in after && after[ids[i]] == before[ids[i]].(status := status)
  }

  ghost predicate Untouched(before: Entries, after: Entries, ids: seq<string>) {
    after.Keys == before.Keys && forall id :: id in before && id !in ids ==> after[id] == before[id]
  }

  // An active entry that no handler is run for.
  predicate Static(h: Handlers, e: Entry) {
    e.compensation == "" || e.compensation !in h
  }

  // The outcome of rolling ids back from s: the first k are rolled back, then it stopped.
  ghost predicate Stopped(h: Handlers, s: State, ids: seq<string>, t: State, replies: seq<Reply>, k: nat) {
    k <= |ids| && Became(s.entries, t.entries, ids, k, RolledBack)
    && (forall i :: 0 <= i < k ==> i < |replies| && IsOk(replies[i]))
    && if k == |ids| then |replies| == k && Untouched(s.entries, t.entries, ids)
       else
         |replies| == k + 1 && !IsOk(replies[k]) && ids[k] in s.entries
         && if Static(h, s.entries[ids[k]])
            then Untouched(s.entries, t.entries, ids[..k])
            else Untouched(s.entries, t.entries, ids[..k + 1]) && ids[k] in t.entries
                 && t.entries[ids[k]] == s.entries[ids[k]].(status := Failed)
  }

  /** Compensation goes newest first and stops at the first failure: exactly the entries
    * before it are rolled back, it is marked failed if its handler raised, and all
    * others are untouched. */
  lemma {:induction false} RollsBackUpToTheFirstFailure(h: Handlers, s: State, ids: seq<string>) returns (k: nat)
    requires Distinct(ids) && AllActive(s.entries, ids)
    ensures var (t, replies) := RollAll(h, s, ids);
      Stopped(h, s, ids, t, replies, k) && (AllOk(replies) <==> k == |ids|)
    decreases |ids|
  {
    k := 0;
    if ids != [] {
      var (t, r) := Effect(h, s, ids[0]);
      if IsOk(r) {
        k := RollsBackUpToTheFirstFailure(h, t, ids[1..]);
        var (u, rest) := RollAll(h, t, ids[1..]);
        OneMoreBack(h, s, ids, t, u, r, rest, k);
        k := k + 1;
      } else {
        FirstFails(h, s, ids);
      }
    }
  }

  lemma FirstFails(h: Handlers, s: State, ids: seq<string>)
    requires ids != [] && AllActive(s.entries, ids) && !IsOk(Effect(h, s, ids[0]).1)
    ensures var (t, r) := Effect(h, s, ids[0]); Stopped(h, s, ids, t, [r], 0)
  {
    assert ids[..0] == [] && ids[0] in ids[..1];
  }

  lemma OneMoreBack(h: Handlers, s: State, ids: seq<string>, t: State, u: State, r: Reply, rest: seq<Reply>, k: nat)
    requires ids != [] && Distinct(ids) && ids[0] in s.entries && IsOk(r)
    requires t.entries == WithStatus(s.entries, ids[0], RolledBack)
    requires AllActive(s.entries, ids) && Stopped(h, t, ids[1..], u, rest, k) && (AllOk(rest) <==> k == |ids| - 1)
    ensures Stopped(h, s, ids, u, [r] + rest, k + 1) && (AllOk([r] + rest) <==> k + 1 == |ids|)
  {
    BecameOneMore(s.entries, t.entries, u.entries, ids, k);
    OkOneMore(r, rest);
    if k == |ids| - 1 {
      UntouchedOneMore(s.entries, t.entries, u.entries, ids, k);
      assert ids[1..][..k] == ids[1..] && ids[..k + 1] == ids;
    } else {
      StoppedOneMore(h, s, ids, t, u, rest, k);
    }
  }

  lemma OkOneMore(r: Reply, rest: seq<Reply>)
    requires IsOk(r)
    ensures AllOk([r] + rest) <==> AllOk(rest)
    ensures forall i :: 0 <= i < |rest| ==> ([r] + rest)[i + 1] == rest[i]
  {
    var replies := [r] + rest;
    assert forall i :: 0 < i < |replies| ==> replies[i] == rest[i - 1];
    if AllOk(replies) {
      forall i | 0 <= i < |rest| ensures IsOk(rest[i]) {
        assert replies[i + 1] == rest[i];
      }
    }
  }

  // The entry at which it stopped is as it would be without the one before.
  lemma StoppedOneMore(h: Handlers, s: State, ids: seq<string>, t: State, u: State, rest: seq<Reply>, k: nat)
    requires ids != [] && Distinct(ids) && AllActive(s.entries, ids)
    requires t.entries == WithStatus(s.entries, ids[0], RolledBack)
    requires k < |ids| - 1 && Stopped(h, t, ids[1..], u, rest, k)
    ensures var e := s.entries[ids[k + 1]];
      if Static(h, e) then Untouched(s.entries, u.entries, ids[..k + 1])
      else Untouched(s.entries, u.entries, ids[..k + 2]) && ids[k + 1] in u.entries
           && u.entries[ids[k + 1]] == e.(status := Failed)
  {
    assert ids[1..][k] == ids[k + 1] && s.entries[ids[k + 1]] == t.entries[ids[k + 1]];
    if Static(h, s.entries[ids[k + 1]]) {
      UntouchedOneMore(s.entries, t.entries, u.entries, ids, k);
    } else {
      UntouchedOneMore(s.entries, t.entries, u.entries, ids, k + 1);
    }
  }

  lemma BecameOneMore(before: Entries, mid: Entries, after: Entries, ids: seq<string>, k: nat)
    requires ids != [] && Distinct(ids) && ids[0] in before && mid == WithStatus(before, ids[0], RolledBack)
    requires k < |ids| && Became(mid, after, ids[1..], k, RolledBack)
    requires ids[0] in after && after[ids[0]] == mid[ids[0]]
    ensures Became(before, after, ids, k + 1, RolledBack)
  {
    forall i | 0 <= i < k + 1 && i < |ids|
      ensures ids[i] in before && ids[i] in after && after[ids[i]] == before[ids[i]].(status := RolledBack)
    {
      if i > 0 {
        assert ids[i] == ids[1..][i - 1];
      }
    }
  }

  lemma UntouchedOneMore(before: Entries, mid: Entries, after: Entries, ids: seq<string>, k: nat)
    requires ids != [] && ids[0] in before && mid == WithStatus(before, ids[0], RolledBack)
    requires k < |ids| && Untouched(mid, after, ids[1..][..k])
    ensures Untouched(before, after, ids[..k + 1])
  {
    assert ids[..k + 1] == [ids[0]] + ids[1..][..k];
  }

  function RollTask(h: Handlers, s: State, order: seq<string>, task: string): (State, seq<Reply>) {
    RollAll(h, s, Pending(s.entries, order, task))
  }

  lemma {:induction false} PendingAreActive(entries: Entries, order: seq<string>, task: string)
    requires Distinct(order)
    ensures var ids := Pending(entries, order, task);
      Distinct(ids) && AllActive(entries, ids) && forall i :: 0 <= i < |ids| ==> ids[i] in order
  {
    if order != [] {
      var n := |order| - 1;
      PendingAreActive(entries, order[..n], task);
      assert order[n] !in order[..n];
    }
  }

  // Those of the ids that are active.
  function Live(entries: Entries, ids: seq<string>): seq<string> {
    if ids == [] then []
    else (if ids[0] in entries && entries[ids[0]].status == Active then [ids[0]] else []) + Live(entries, ids[1..])
  }

  // Entries keep their task and are not activated again.
  ghost predicate OnlySettled(before: Entries, after: Entries) {
    after.Keys == before.Keys
    && forall id :: id in before ==>
         after[id].task == before[id].task && (after[id].status == Active ==> before[id].status == Active)
  }

  lemma {:induction false} PendingIsLive(before: Entries, after: Entries, order: seq<string>, task: string)
    requires OnlySettled(before, after)
    ensures Pending(after, order, task) == Live(after, Pending(before, order, task))
  {
    if order != [] {
      var n := |order| - 1;
      PendingIsLive(before, after, order[..n], task);
      var rest := Pending(before, order[..n], task);
      var ids := Pending(before, order, task);
      if order[n] in before && before[order[n]].task == Some(task) && before[order[n]].status == Active {
        assert ids == [order[n]] + rest && ids[1..] == rest;
      } else {
        assert ids == rest;
      }
    }
  }

  lemma {:induction false} LiveAreTheLast(entries: Entries, ids: seq<string>, m: nat)
    requires m <= |ids|
    requires forall i :: 0 <= i < m ==> ids[i] in entries && entries[ids[i]].status != Active
    requires forall i :: m <= i < |ids| ==> ids[i] in entries && entries[ids[i]].status == Active
    ensures Live(entries, ids) == ids[m..]
    decreases |ids|
  {
    if ids != [] {
      LiveAreTheLast(entries, ids[1..], if m == 0 then 0 else m - 1);
    }
  }

  // How many of the ids are no longer active after stopping at k.
  function Settled(h: Handlers, s: State, ids: seq<string>, k: nat): nat
    requires AllActive(s.entries, ids)
  {
    if k < |ids| && !Static(h, s.entries[ids[k]]) then k + 1 else k
  }

  lemma StoppedPending(h: Handlers, s: State, ids: seq<string>, t: State, replies: seq<Reply>, k: nat)
    requires Distinct(ids) && AllActive(s.entries, ids) && Stopped(h, s, ids, t, replies, k)
    ensures OnlySettled(s.entries, t.entries) && Live(t.entries, ids) == ids[Settled(h, s, ids, k)..]
  {
    var m := Settled(h, s, ids, k);
    forall i | 0 <= i < |ids| ensures ids[i] in t.entries && (t.entries[ids[i]].status != Active <==> i < m) {
      if i >= m {
        assert ids[i] !in ids[..m];
      }
    }
    forall id | id in s.entries
      ensures id in t.entries && t.entries[id].task == s.entries[id].task
      ensures t.entries[id].status == Active ==> s.entries[id].status == Active
    {
      if id in ids[..m] {
        var i :| 0 <= i < m && ids[i] == id;
      }
    }
    LiveAreTheLast(t.entries, ids, m);
  }

  /** Rolling back a task changes nothing exactly when nothing is pending or the newest
    * pending entry has no compensation that could run. */
  lemma RollTaskIsNoOpExactly(h: Handlers, s: State, order: seq<string>, task: string)
    requires Distinct(order)
    ensures var ids := Pending(s.entries, order, task);
      RollTask(h, s, order, task).0 == s <==> ids == [] || (ids[0] in s.entries && Static(h, s.entries[ids[0]]))
  {
    var ids := Pending(s.entries, order, task);
    PendingAreActive(s.entries, order, task);
    if ids != [] {
      var k := RollsBackUpToTheFirstFailure(h, s, ids);
      var t := RollAll(h, s, ids).0;
      if k > 0 {
        assert t.entries[ids[0]].status == RolledBack;
      }
    }
  }

  /** Repeating a rollback is a no-op exactly when the first attempt rolled everything
    * back, or stopped at an entry without a usable compensation, or what is older than
    * the entry whose handler raised is nothing or begins with such an entry. */
  lemma RepeatIsNoOpExactly(h: Handlers, s: State, order: seq<string>, task: string) returns (k: nat)
    requires Distinct(order)
    ensures var ids := Pending(s.entries, order, task); var (t, replies) := RollTask(h, s, order, task);
      Stopped(h, s, ids, t, replies, k) && (AllOk(replies) <==> k == |ids|)
      && (RollTask(h, t, order, task).0 == t
          <==> var m := if k < |ids| && !Static(h, s.entries[ids[k]]) then k + 1 else k;
               m == |ids| || (ids[m] in s.entries && Static(h, s.entries[ids[m]])))
  {
    var ids := Pending(s.entries, order, task);
    PendingAreActive(s.entries, order, task);
    k := RollsBackUpToTheFirstFailure(h, s, ids);
    var (t, replies) := RollTask(h, s, order, task);
    StoppedPending(h, s, ids, t, replies, k);
    PendingIsLive(s.entries, t.entries, order, task);
    RollTaskIsNoOpExactly(h, t, order, task);
    var m := Settled(h, s, ids, k);
    if m < |ids| {
      assert ids[m..][0] == ids[m] && ids[m] !in ids[..m];
      assert t.entries[ids[m]] == s.entries[ids[m]];
    }
  }

  // ---- Undoing workspace writes ----

  const UNDO_WRITE := "compensate_filesystem_write"

  // Where a write goes, what the ledger keeps of the path, and what the compensation makes of that.
  function Target(path: string): string {
    Strip(path)
  }

  function Redacted(path: string): string {
    if |path| <= 200 then path else path[..200]
  }

  function AfterColon(s: string): string {
    if s == [] then []
    else if s[|s| - 1] == ':' then []
    else AfterColon(s[..|s| - 1]) + [s[|s| - 1]]
  }

  // The paths a compensation refuses, as leaving the workspace.
  type Outside = string -> bool

  function UndoWrite(outside: Outside): Handler {
    (files: Files, e: Entry) =>
      if e.path == "" || outside(AfterColon(e.path)) then Finished(files, false)
      else Finished(files - {AfterColon(e.path)}, true)
  }

  // The compensation finds the file that was written.
  predicate Traceable(path: string) {
    Redacted(path) != "" && AfterColon(Redacted(path)) == Target(path)
  }

  lemma {:induction false} NoColon(s: string)
    requires ':' !in s
    ensures AfterColon(s) == s
  {
    if s != [] {
      NoColon(s[..|s| - 1]);
    }
  }

  lemma PlainPathsAreTraceable(path: string)
    requires path != "" && |path| <= 200 && ':' !in path && Strip(path) == path
    ensures Traceable(path)
  {
    NoColon(path);
  }

  /** What the ledger keeps of a path: no more than its first 200 characters. */
  lemma OnlyLongPathsAreCut(path: string)
    ensures Redacted(path) <= path && (|path| <= 200 ==> Redacted(path) == path)
    ensures |path| > 200 ==> |Redacted(path)| == 200
  {
  }

  // t is what follows the last colon of s, or all of s when there is none.
  ghost predicate LastPart(s: string, t: string) {
    ':' !in t && |t| <= |s| && s[|s| - |t|..] == t && (t == s || s[|s| - |t| - 1] == ':')
  }

  lemma {:induction false} AfterColonIsAPart(s: string)
    ensures LastPart(s, AfterColon(s))
  {
    if s != [] && s[|s| - 1] != ':' {
      var init := s[..|s| - 1];
      AfterColonIsAPart(init);
      assert s == init + [s[|s| - 1]];
    }
  }

  lemma LastPartIsUnique(s: string, t: string, u: string)
    requires LastPart(s, t) && LastPart(s, u) && |t| <= |u|
    ensures t == u
  {
    assert forall i :: 0 <= i < |u| ==> s[|s| - |u| + i] == u[i] && u[i] in u;
  }

  /** What follows the last colon is taken for the path. */
  lemma AfterColonIsTheLastPart(s: string, t: string)
    ensures LastPart(s, t) <==> t == AfterColon(s)
  {
    AfterColonIsAPart(s);
    if LastPart(s, t) && |t| <= |AfterColon(s)| {
      LastPartIsUnique(s, t, AfterColon(s));
    } else if LastPart(s, t) {
      LastPartIsUnique(s, AfterColon(s), t);
    }
  }

  /** The paths that lead back to the file written are exactly those without colon that
    * begin without white space and end within 200 characters, up to white space after
    * these. */
  lemma TraceableExactlyWhenPlain(path: string)
    ensures Traceable(path) <==>
      path != [] && ':' !in path
      && var n := if |path| < 200 then |path| else 200; Bare(path[..n]) && Blank(path[n..])
  {
    var n := if |path| < 200 then |path| else 200;
    assert Redacted(path) == path[..n];
    assert path == [] + path[..n] + path[n..];
    StripTrims(path, path[..n]);
    StripTrims(path, Target(path));
    AfterColonIsTheLastPart(path[..n], AfterColon(path[..n]));
    AfterColonIsTheLastPart(path[..n], path[..n]);
    if Traceable(path) {
      ColonsAreNotTrimmed(path, Target(path));
    }
  }

  lemma ColonsAreNotTrimmed(s: string, t: string)
    requires Trims(s, t) && ':' !in t
    ensures ':' !in s
  {
    var l, r :| s == l + t + r && Blank(l) && Blank(r) && Bare(t);
    assert ':' !in l && ':' !in r;
  }

  datatype Write = Write(path: string, content: string)

  function FilesAfter(files: Files, writes: seq<Write>): Files {
    if writes == [] then files
    else
      var w := writes[|writes| - 1];
      FilesAfter(files, writes[..|writes| - 1])[Target(w.path) := w.content]
  }

  function Targets(writes: seq<Write>): set<string> {
    set i | 0 <= i < |writes| :: Target(writes[i].path)
  }

  lemma {:induction false} FilesOutsideTargets(files: Files, writes: seq<Write>)
    ensures FilesAfter(files, writes).Keys == files.Keys + Targets(writes)
    ensures forall p :: p in files && p !in Targets(writes) ==> FilesAfter(files, writes)[p] == files[p]
  {
    if writes != [] {
      var init := writes[..|writes| - 1];
      FilesOutsideTargets(files, init);
      assert Targets(writes) == Targets(init) + {Target(writes[|writes| - 1].path)} by {
        forall p | p in Targets(writes) ensures p in Targets(init) + {Target(writes[|writes| - 1].path)} {
          var i :| 0 <= i < |writes| && Target(writes[i].path) == p;
          assert i < |init| ==> init[i] == writes[i];
        }
        forall p | p in Targets(init) ensures p in Targets(writes) {
          var i :| 0 <= i < |init| && Target(init[i].path) == p;
          assert writes[i] == init[i];
        }
      }
    }
  }

  // What undoing a write deletes: the file the record leads to, or nothing when that is refused.
  function Undone(outside: Outside, path: string): set<string> {
    var p := AfterColon(Redacted(path));
    if Redacted(path) == "" || outside(p) then {} else {p}
  }

  function Removed(outside: Outside, writes: seq<Write>): set<string> {
    set i, p | 0 <= i < |writes| && p in Undone(outside, writes[i].path) :: p
  }

  // The ids stand for these writes, to be undone by deletion.
  ghost predicate RecordsOf(h: Handlers, outside: Outside, entries: Entries, ids: seq<string>, writes: seq<Write>) {
    UNDO_WRITE in h && h[UNDO_WRITE] == UndoWrite(outside) && |ids| == |writes|
    && forall i :: 0 <= i < |ids| ==>
         ids[i] in entries && entries[ids[i]].status == Active && entries[ids[i]].compensation == UNDO_WRITE
         && entries[ids[i]].path == Redacted(writes[i].path)
  }

  lemma OneUndone(h: Handlers, outside: Outside, s: State, id: string, path: string)
    requires UNDO_WRITE in h && h[UNDO_WRITE] == UndoWrite(outside) && id in s.entries
    requires s.entries[id].status == Active && s.entries[id].compensation == UNDO_WRITE
      && s.entries[id].path == Redacted(path)
    ensures var (t, r) := Effect(h, s, id);
      IsOk(r) && t == State(WithStatus(s.entries, id, RolledBack), s.files - Undone(outside, path))
  {
  }

  /** Undoing a write always counts as done. The file is gone afterwards if and only if the
    * record leads back to it and the compensation does not refuse it. */
  lemma WriteIsGoneExactlyWhenTraceable(h: Handlers, outside: Outside, s: State, id: string, write: Write)
    requires UNDO_WRITE in h && h[UNDO_WRITE] == UndoWrite(outside) && id in s.entries
    requires s.entries[id].status == Active && s.entries[id].compensation == UNDO_WRITE
    requires s.entries[id].path == Redacted(write.path) && Target(write.path) in s.files
    ensures var (t, r) := Effect(h, s, id);
      IsOk(r) && t.entries[id].status == RolledBack
      && (Target(write.path) !in t.files <==> Traceable(write.path) && !outside(Target(write.path)))
  {
    OneUndone(h, outside, s, id, write.path);
  }

  lemma {:induction false} UndoesEveryWrite(
    h: Handlers, outside: Outside, s: State, ids: seq<string>, writes: seq<Write>)
    requires Distinct(ids) && RecordsOf(h, outside, s.entries, ids, writes)
    ensures var (t, replies) := RollAll(h, s, ids); AllOk(replies) && t.files == s.files - Removed(outside, writes)
    decreases |ids|
  {
    if ids != [] {
      OneUndone(h, outside, s, ids[0], writes[0].path);
      var t := Effect(h, s, ids[0]).0;
      assert RecordsOf(h, outside, t.entries, ids[1..], writes[1..]);
      UndoesEveryWrite(h, outside, t, ids[1..], writes[1..]);
      FirstRemoved(outside, writes);
    }
  }

  lemma FirstRemoved(outside: Outside, writes: seq<Write>)
    requires writes != []
    ensures Removed(outside, writes) == Undone(outside, writes[0].path) + Removed(outside, writes[1..])
  {
    forall p | p in Removed(outside, writes)
      ensures p in Undone(outside, writes[0].path) + Removed(outside, writes[1..])
    {
      var i :| 0 <= i < |writes| && p in Undone(outside, writes[i].path);
      assert i > 0 ==> writes[1..][i - 1] == writes[i];
    }
    forall p | p in Removed(outside, writes[1..]) ensures p in Removed(outside, writes) {
      var i :| 0 <= i < |writes[1..]| && p in Undone(outside, writes[1..][i].path);
      assert writes[i + 1] == writes[1..][i];
    }
  }

  function Reversed<T>(s: seq<T>): (r: seq<T>)
    ensures |r| == |s| && forall i :: 0 <= i < |s| ==> r[i] == s[|s| - 1 - i]
  {
    if s == [] then [] else [s[|s| - 1]] + Reversed(s[..|s| - 1])
  }

  lemma ReversedRemoved(outside: Outside, writes: seq<Write>)
    ensures Removed(outside, Reversed(writes)) == Removed(outside, writes)
  {
    var r := Reversed(writes);
    forall p | p in Removed(outside, r) ensures p in Removed(outside, writes) {
      var i :| 0 <= i < |r| && p in Undone(outside, r[i].path);
      assert r[i] == writes[|writes| - 1 - i];
    }
    forall p | p in Removed(outside, writes) ensures p in Removed(outside, r) {
      var i :| 0 <= i < |writes| && p in Undone(outside, writes[i].path);
      assert r[|writes| - 1 - i] == writes[i];
    }
  }

  // Nothing that was there is deleted, and what was written is deleted or was there like that.
  predicate Restorable(outside: Outside, files: Files, writes: seq<Write>) {
    (forall p :: p in Removed(outside, writes) ==> p !in files)
    && forall i :: 0 <= i < |writes| ==>
         var p := Target(writes[i].path);
         p in Removed(outside, writes)
           || (p in files && p in FilesAfter(files, writes) && FilesAfter(files, writes)[p] == files[p])
  }

  lemma RestoredExactly(outside: Outside, files: Files, writes: seq<Write>)
    ensures FilesAfter(files, writes) - Removed(outside, writes) == files <==> Restorable(outside, files, writes)
  {
    var after, removed := FilesAfter(files, writes), Removed(outside, writes);
    FilesOutsideTargets(files, writes);
    if Restorable(outside, files, writes) {
      forall p | p in after && p !in removed ensures p in files && after[p] == files[p] {
        if p in Targets(writes) {
          var i :| 0 <= i < |writes| && Target(writes[i].path) == p;
        }
      }
      assert (after - removed).Keys == files.Keys;
    }
    if after - removed == files {
      forall p | p in removed ensures p !in files {
        assert p !in after - removed;
      }
      forall i | 0 <= i < |writes|
        ensures var p := Target(writes[i].path); p in removed || (p in files && p in after && after[p] == files[p])
      {
        var p := Target(writes[i].path);
        assert p in Targets(writes) && p in after;
        assert p !in removed ==> p in after - removed;
      }
    }
  }

  /** A task that wrote files, in any order and repeatedly, with the records newest first:
    * rolling it back always reports success; exactly the files the records lead to are
    * gone, and the files are as they were if and only if that is restorable. */
  lemma RollbackOfWrites(
    h: Handlers, outside: Outside, entries: Entries, files: Files, ids: seq<string>, writes: seq<Write>)
    requires Distinct(ids) && RecordsOf(h, outside, entries, ids, Reversed(writes))
    ensures var (t, replies) := RollAll(h, State(entries, FilesAfter(files, writes)), ids);
      AllOk(replies) && t.files == FilesAfter(files, writes) - Removed(outside, writes)
      && (t.files == files <==> Restorable(outside, files, writes))
  {
    UndoesEveryWrite(h, outside, State(entries, FilesAfter(files, writes)), ids, Reversed(writes));
    ReversedRemoved(outside, writes);
    RestoredExactly(outside, files, writes);
  }

  ghost predicate AllTraceable(outside: Outside, writes: seq<Write>) {
    forall i :: 0 <= i < |writes| ==> Traceable(writes[i].path) && !outside(Target(writes[i].path))
  }

  /** Traceable writes are restorable if and only if every path written was fresh: a file
    * that was there before is deleted, not restored. */
  lemma TraceableIsRestorableExactlyWhenFresh(outside: Outside, files: Files, writes: seq<Write>)
    requires AllTraceable(outside, writes)
    ensures Restorable(outside, files, writes) <==> forall i :: 0 <= i < |writes| ==> Target(writes[i].path) !in files
  {
    forall i | 0 <= i < |writes| ensures Undone(outside, writes[i].path) == {Target(writes[i].path)} {
    }
    forall i | 0 <= i < |writes| ensures Target(writes[i].path) in Removed(outside, writes) {
      assert Target(writes[i].path) in Undone(outside, writes[i].path);
    }
  }

  // ---- Recording ----

  // Entries are numbered in the order they were recorded.
  ghost predicate Ledger(entries: Entries, order: seq<string>) {
    (forall k :: 0 <= k < |order| ==> order[k] in entries && order[k] == EntryId(k + 1, entries[order[k]].tool))
    && forall id :: id in entries ==> id in order
  }

  lemma LedgerIsDistinct(entries: Entries, order: seq<string>)
    requires Ledger(entries, order)
    ensures Distinct(order)
  {
    forall i, j | 0 <= i < j < |order| ensures order[i] != order[j] {
      EntryIdsDiffer(i + 1, j + 1, entries[order[i]].tool, entries[order[j]].tool);
    }
  }

  lemma NextIdIsNew(entries: Entries, order: seq<string>, tool: string)
    requires Ledger(entries, order)
    ensures EntryId(|order| + 1, tool) !in entries && EntryId(|order| + 1, tool) !in order
  {
    forall k | 0 <= k < |order| ensures order[k] != EntryId(|order| + 1, tool) {
      EntryIdsDiffer(k + 1, |order| + 1, entries[order[k]].tool, tool);
    }
  }

  lemma RecordKeepsLedger(entries: Entries, order: seq<string>, e: Entry)
    requires Ledger(entries, order) && e.id == EntryId(|order| + 1, e.tool)
    ensures Ledger(entries[e.id := e], order + [e.id])
  {
    NextIdIsNew(entries, order, e.tool);
    var after, longer := entries[e.id := e], order + [e.id];
    forall k | 0 <= k < |longer| ensures longer[k] in after && longer[k] == EntryId(k + 1, after[longer[k]].tool) {
      assert k < |order| ==> longer[k] == order[k];
    }
    forall id | id in after ensures id in longer {
      if id in entries {
        var k :| 0 <= k < |order| && order[k] == id;
        assert longer[k] == id;
      } else {
        assert longer[|order|] == id;
      }
    }
  }

  lemma {:induction false} PendingOfOthers(entries: Entries, order: seq<string>, task: string, e: Entry)
    requires e.id !in order
    ensures Pending(entries[e.id := e], order, task) == Pending(entries, order, task)
  {
    if order != [] {
      PendingOfOthers(entries, order[..|order| - 1], task, e);
    }
  }

  function WriteEntry(n: nat, task: string, path: string): Entry {
    Entry(EntryId(n, "filesystem.write"), "filesystem.write", Redacted(path), Some(task), Reversible,
      UNDO_WRITE, Active)
  }

  // The ledger after the executor recorded these writes of a task.
  function Recorded(entries: Entries, order: seq<string>, task: string, writes: seq<Write>): (Entries, seq<string>) {
    if writes == [] then (entries, order)
    else
      var n := |writes| - 1;
      var (more, longer) := Recorded(entries, order, task, writes[..n]);
      var e := WriteEntry(|longer| + 1, task, writes[n].path);
      (more[e.id := e], longer + [e.id])
  }

  lemma {:induction false} WritesArePending(
    h: Handlers, outside: Outside, entries: Entries, order: seq<string>, task: string, writes: seq<Write>)
    requires Ledger(entries, order) && Pending(entries, order, task) == []
    requires UNDO_WRITE in h && h[UNDO_WRITE] == UndoWrite(outside)
    ensures var (more, longer) := Recorded(entries, order, task, writes);
      Ledger(more, longer) && RecordsOf(h, outside, more, Pending(more, longer, task), Reversed(writes))
  {
    if writes != [] {
      var n := |writes| - 1;
      var (more, longer) := Recorded(entries, order, task, writes[..n]);
      WritesArePending(h, outside, entries, order, task, writes[..n]);
      var e := WriteEntry(|longer| + 1, task, writes[n].path);
      var before := Pending(more, longer, task);
      RecordKeepsLedger(more, longer, e);
      NextIdIsNew(more, longer, e.tool);
      LedgerIsDistinct(more, longer);
      PendingAreActive(more, longer, task);
      PendingOfOthers(more, longer, task, e);
      assert (longer + [e.id])[..|longer|] == longer;
      NewestRecord(h, outside, more, before, writes[..n], writes[n], e);
      assert Pending(more[e.id := e], longer + [e.id], task) == [e.id] + before;
      assert Reversed(writes) == [writes[n]] + Reversed(writes[..n]);
    }
  }

  lemma NewestRecord(
    h: Handlers, outside: Outside, entries: Entries, ids: seq<string>, writes: seq<Write>, w: Write, e: Entry)
    requires RecordsOf(h, outside, entries, ids, Reversed(writes)) && e.id !in ids
    requires e.status == Active && e.compensation == UNDO_WRITE && e.path == Redacted(w.path)
    ensures RecordsOf(h, outside, entries[e.id := e], [e.id] + ids, [w] + Reversed(writes))
  {
    var allIds, allWrites := [e.id] + ids, [w] + Reversed(writes);
    forall i | 0 <= i < |allIds|
      ensures i > 0 ==> allIds[i] == ids[i - 1] && allIds[i] != e.id && allWrites[i] == Reversed(writes)[i - 1]
    {
      assert i > 0 ==> ids[i - 1] in ids;
    }
  }

  /** From the ledger's own records, for any sequence of writes: rolling the task back
    * reports success, exactly the files that the records lead to are gone, and the files
    * are as before if and only if that is restorable. */
  lemma WriteAndRollBack(
    h: Handlers, outside: Outside, entries: Entries, order: seq<string>, files: Files, task: string, writes: seq<Write>)
    requires Ledger(entries, order) && Pending(entries, order, task) == []
    requires UNDO_WRITE in h && h[UNDO_WRITE] == UndoWrite(outside)
    ensures var (more, longer) := Recorded(entries, order, task, writes);
      var (t, replies) := RollTask(h, State(more, FilesAfter(files, writes)), longer, task);
      AllOk(replies) && t.files == FilesAfter(files, writes) - Removed(outside, writes)
      && (t.files == files <==> Restorable(outside, files, writes))
      && (AllTraceable(outside, writes) ==>
            (t.files == files <==> forall i :: 0 <= i < |writes| ==> Target(writes[i].path) !in files))
  {
    WritesArePending(h, outside, entries, order, task, writes);
    var (more, longer) := Recorded(entries, order, task, writes);
    LedgerIsDistinct(more, longer);
    PendingAreActive(more, longer, task);
    RollbackOfWrites(h, outside, more, files, Pending(more, longer, task), writes);
    if AllTraceable(outside, writes) {
      TraceableIsRestorableExactlyWhenFresh(outside, files, writes);
    }
  }

  // ---- The ledger ----

  class RollbackLedger {
    var handlers: Handlers
    var entries: Entries
    var order: seq<string>
    var files: Files

    ghost predicate Valid()
      reads this
    {
      Ledger(entries, order)
    }

    function Now(): State
      reads this
    {
      State(entries, files)
    }

    constructor (files: Files)
      ensures Valid() && entries == map[] && order == [] && handlers == map[] && this.files == files
    {
      handlers, entries, order := map[], map[], [];
      this.files := files;
    }

    method RegisterCompensation(name: string, handler: Handler)
      modifies this`handlers
      ensures handlers == old(handlers)[name := handler]
    {
      handlers := handlers[name := handler];
    }

    /** Unclassified actions are reversible only with a known compensation; an
      * irreversible one keeps none. */
    method Record(
      tool: string, path: string, task: Option<string>, reversibility: Option<Reversibility>,
      compensation: string)
      returns (e: Entry)
      requires Valid()
      modifies this`entries, this`order
      ensures Valid() && e.id !in old(entries)
      ensures entries == old(entries)[e.id := e] && order == old(order) + [e.id]
      ensures e.tool == tool && e.path == Redacted(path) && e.task == task && e.status == Active
      ensures e.reversibility == match reversibility
        case Some(r) => r
        case None => if compensation in handlers then Reversible else Irreversible
      ensures e.compensation == if e.reversibility == Irreversible then "" else compensation
    {
      var kind := match reversibility
        case Some(r) => r
        case None => if compensation in handlers then Reversible else Irreversible;
      e := Entry(EntryId(|order| + 1, tool), tool, Redacted(path), task, kind,
                 if kind == Irreversible then "" else compensation, Active);
      NextIdIsNew(entries, order, tool);
      RecordKeepsLedger(entries, order, e);
      entries := entries[e.id := e];
      order := order + [e.id];
    }

    method Rollback(id: string) returns (reply: Reply)
      requires Valid()
      modifies this`entries, this`files
      ensures Valid() && (Now(), reply) == Effect(handlers, old(Now()), id)
    {
      if id !in entries {
        return Unknown;
      }
      var e := entries[id];
      if e.status == RolledBack {
        return AlreadyDone;
      }
      if e.status == Failed {
        return PriorFailure;
      }
      if e.compensation == "" {
        return NoCompensation;
      }
      if e.compensation !in handlers {
        return NotRegistered;
      }
      StatusKeepsLedger(entries, order, id, Failed);
      StatusKeepsLedger(entries, order, id, RolledBack);
      match handlers[e.compensation](files, e) {
        case Raises =>
          entries := WithStatus(entries, id, Failed);
          reply := CompensationFailed;
        case Finished(after, ok) =>
          entries := WithStatus(entries, id, RolledBack);
          files := after;
          reply := Done(ok);
      }
    }

    /** Rolls back the active entries of a task, newest first, up to the first failure. */
    method RollbackTask(task: string) returns (ok: bool, replies: seq<Reply>)
      requires Valid()
      modifies this`entries, this`files
      ensures Valid() && (Now(), replies) == RollTask(handlers, old(Now()), order, task)
      ensures ok == AllOk(replies)
    {
      var ids := Pending(entries, order, task);
      replies := [];
      ghost var start := Now();
      RollStart(handlers, start, ids);
      assert ids[0..] == ids;
      for i := 0 to |ids|
        invariant Valid() && Rolling(handlers, start, ids, Now(), ids[i..], replies)
      {
        RollOn(handlers, start, ids, Now(), ids[i..], replies);
        assert ids[i..][1..] == ids[i + 1..];
        var reply := Rollback(ids[i]);
        replies := replies + [reply];
        if !IsOk(reply) {
          ok := AllOk(replies);
          return;
        }
      }
      RollEnd(handlers, start, ids, Now(), ids[|ids|..], replies);
      ok := AllOk(replies);
    }
  }

  // The replies so far are ok, and going on with the rest gives what the whole gives.
  ghost predicate Rolling(
    h: Handlers, start: State, ids: seq<string>, s: State, rest: seq<string>, replies: seq<Reply>) {
    var (t, more) := RollAll(h, s, rest);
    RollAll(h, start, ids) == (t, replies + more)
  }

  lemma RollStart(h: Handlers, s: State, ids: seq<string>)
    ensures Rolling(h, s, ids, s, ids, [])
  {
    var (t, more) := RollAll(h, s, ids);
    assert [] + more == more;
  }

  lemma RollEnd(h: Handlers, start: State, ids: seq<string>, s: State, rest: seq<string>, replies: seq<Reply>)
    requires rest == [] && Rolling(h, start, ids, s, rest, replies)
    ensures RollAll(h, start, ids) == (s, replies)
  {
    assert replies + [] == replies;
  }

  lemma RollOn(h: Handlers, start: State, ids: seq<string>, s: State, rest: seq<string>, replies: seq<Reply>)
    requires rest != [] && Rolling(h, start, ids, s, rest, replies)
    ensures var (t, r) := Effect(h, s, rest[0]);
      if IsOk(r) then Rolling(h, start, ids, t, rest[1..], replies + [r])
      else RollAll(h, start, ids) == (t, replies + [r])
  {
    var (t, r) := Effect(h, s, rest[0]);
    if IsOk(r) {
      var more := RollAll(h, t, rest[1..]).1;
      assert replies + ([r] + more) == replies + [r] + more;
    }
  }

  lemma StatusKeepsLedger(entries: Entries, order: seq<string>, id: string, status: Status)
    requires Ledger(entries, order) && id in entries
    ensures Ledger(WithStatus(entries, id, status), order)
  {
  }
}
