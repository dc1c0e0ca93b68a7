/** Recurring missions: claim-before-launch, as one worker runs it. The claim
  * protocol of many workers is built on the same two functions, Due and Claim. */
module Scheduler {
  import opened Wrappers
  import Locks

  // Instants are microseconds; intervals are whole seconds.
  function Micros(seconds: int): int {
    1_000_000 * seconds
  }

  type ScheduleId = string

  datatype Schedule = Schedule(
    interval: int,
    nextRunAt: int,
    lastRunAt: Option<int>,
    runCount: int,
    maxRuns: Option<int>,
    enabled: bool,
    lastStatus: string,
    lastRunId: Option<string>,
    lastError: Option<string>
  )

  // How a launch ended: it went well, the callback raised, or it went well and then saving
  // the schedule or, with the schedule saved, publishing the event raised.
  datatype Launch =
    | Ran(runId: Option<string>)
    | Raised(error: string, at: int)
    | Unreported(runId: Option<string>, saved: bool, error: string, at: int)

  predicate Exhausted(s: Schedule) {
    s.maxRuns.Some? && s.runCount >= s.maxRuns.value
  }

  predicate Due(s: Schedule, now: int) {
    s.enabled && s.nextRunAt <= now && !Exhausted(s)
  }

  function Claim(s: Schedule, now: int): Schedule {
    var counted := s.(runCount := s.runCount + 1, lastRunAt := Some(now), lastStatus := "running");
    counted.(enabled := counted.enabled && !Exhausted(counted),
             nextRunAt := now + Micros(counted.interval))
  }

  function RunOf(claimed: Schedule, runId: Option<string>): Option<string> {
    if runId.Some? && runId.value != "" then runId else claimed.lastRunId
  }

  // What fire writes back: always the object that was claimed, plus the outcome.
  function Fired(claimed: Schedule, launch: Launch): Schedule {
    match launch
    case Ran(runId) =>
      claimed.(lastStatus := "ok", lastError := None, lastRunId := RunOf(claimed, runId))
    case Raised(error, at) =>
      claimed.(lastStatus := "failed", lastError := Some(error), nextRunAt := at + Micros(claimed.interval))
    case Unreported(runId, _, error, at) =>
      claimed.(lastStatus := "failed", lastError := Some(error), nextRunAt := at + Micros(claimed.interval),
               lastRunId := RunOf(claimed, runId))
  }

  // ---- What a claim and a launch leave of a schedule ----

  // No limit, or more than n runs below it.
  predicate RunsLeft(s: Schedule, n: int) {
    s.maxRuns.Some? ==> s.runCount + n < s.maxRuns.value
  }

  /** The schedule t that claiming s at that instant stores: one more run is counted, the next
    * is an interval away, and the schedule stays enabled exactly while runs are left. */
  predicate ClaimedFrom(s: Schedule, t: Schedule, now: int) {
    t.runCount == s.runCount + 1 && t.lastRunAt == Some(now) && t.lastStatus == "running"
    && t.interval == s.interval && t.maxRuns == s.maxRuns && t.nextRunAt == now + 1_000_000 * s.interval
    && (t.enabled <==> s.enabled && RunsLeft(s, 1))
    && t.lastRunId == s.lastRunId && t.lastError == s.lastError
  }

  lemma ClaimLeaves(s: Schedule, now: int)
    ensures ClaimedFrom(s, Claim(s, now), now)
  {
  }

  /** Recording a launch keeps what the claim wrote, except that a failure puts the next run
    * an interval behind itself. */
  lemma FiredLeaves(claimed: Schedule, launch: Launch)
    ensures var t := Fired(claimed, launch);
      t.runCount == claimed.runCount && t.maxRuns == claimed.maxRuns && t.interval == claimed.interval
      && t.enabled == claimed.enabled && t.lastRunAt == claimed.lastRunAt
      && t.nextRunAt == (if launch.Ran? then claimed.nextRunAt else launch.at + 1_000_000 * claimed.interval)
      && t.lastError == (if launch.Ran? then None else Some(launch.error))
      && t.lastStatus == (if launch.Ran? then "ok" else "failed")
      && (!launch.Raised? && launch.runId.Some? && launch.runId.value != "" ==> t.lastRunId == launch.runId)
      && (launch.Raised? || launch.runId.None? || launch.runId.value == "" ==> t.lastRunId == claimed.lastRunId)
  {
  }

  // A run is left, and an interval has passed, since the claim or since the failure of the launch.
  predicate MayRunAgain(s: Schedule, now: int, launch: Launch, later: int) {
    RunsLeft(s, 1) && later >= (if launch.Ran? then now else launch.at) + Micros(s.interval)
  }

  /** That is exactly when a schedule is due again after a tick has launched it. */
  lemma LaunchedIsDueAgain(s: Schedule, now: int, launch: Launch, later: int)
    requires Due(s, now)
    ensures Due(Fired(Claim(s, now), launch), later) <==> MayRunAgain(s, now, launch, later)
  {
    ClaimLeaves(s, now);
    FiredLeaves(Claim(s, now), launch);
  }

  /** So after a tick that launched these due schedules, exactly these are listed at a later
    * instant: the launched ones that may run again, and the others that are due. */
  lemma ListedAfterTick(before: map<ScheduleId, Schedule>, ids: set<ScheduleId>, now: int,
                        launch: ScheduleId -> Launch, later: int)
    requires forall id :: id in ids ==> id in before && Due(before[id], now)
    ensures var after := Launched(before, ids, now, launch);
      forall id :: id in after && Due(after[id], later) <==>
        id in before && if id in ids then MayRunAgain(before[id], now, launch(id), later) else Due(before[id], later)
  {
    forall id | id in ids
      ensures Due(Fired(Claim(before[id], now), launch(id)), later) <==> MayRunAgain(before[id], now, launch(id), later)
    {
      LaunchedIsDueAgain(before[id], now, launch(id), later);
    }
  }

  // The schedule is due, and claimed, at each of the instants in turn.
  ghost predicate ClaimedAt(s: Schedule, times: seq<int>)
    decreases |times|
  {
    times == [] || (Due(s, times[0]) && ClaimedAt(Claim(s, times[0]), times[1..]))
  }

  // The first instant is not before the next run, and the others are an interval apart.
  ghost predicate Spaced(nextRunAt: int, interval: int, times: seq<int>)
    decreases |times|
  {
    times == [] || (nextRunAt <= times[0] && Spaced(times[0] + Micros(interval), interval, times[1..]))
  }

  /** Exactly as often as runs are left, and without end when they are not limited, can an
    * enabled schedule be claimed, at any instants an interval apart. */
  lemma {:induction false} ClaimedAsOftenAsRunsAreLeft(s: Schedule, times: seq<int>)
    ensures ClaimedAt(s, times)
       <==> Spaced(s.nextRunAt, s.interval, times) && (times != [] ==> s.enabled && RunsLeft(s, |times| - 1))
    decreases |times|
  {
    if times != [] {
      ClaimLeaves(s, times[0]);
      ClaimedAsOftenAsRunsAreLeft(Claim(s, times[0]), times[1..]);
    }
  }

  function LockKey(id: ScheduleId): string {
    "schedule:" + id + ":fire"
  }

  // The two tables answer every acquire at this instant alike.
  ghost predicate SameHolds(t: Locks.Table, u: Locks.Table, at: real) {
    forall key :: Locks.Held(t, key, at) == Locks.Held(u, key, at)
  }

  // The store after the given schedules have been claimed.
  function Claimed(store: map<ScheduleId, Schedule>, ids: set<ScheduleId>, now: int): map<ScheduleId, Schedule> {
    map id | id in store :: if id in ids then Claim(store[id], now) else store[id]
  }

  // The store after the claimed schedules have also been launched.
  function Launched(store: map<ScheduleId, Schedule>, ids: set<ScheduleId>, now: int, launch: ScheduleId -> Launch)
    : map<ScheduleId, Schedule>
  {
    map id | id in store :: if id in ids then Fired(Claim(store[id], now), launch(id)) else store[id]
  }

  function Ids(claims: seq<(ScheduleId, Schedule)>): (ids: set<ScheduleId>) {
    set k | 0 <= k < |claims| :: claims[k].0
  }

  ghost predicate OncePerSchedule(claims: seq<(ScheduleId, Schedule)>) {
    forall j, k :: 0 <= j < k < |claims| ==> claims[j].0 != claims[k].0
  }

  lemma AnotherClaim(claims: seq<(ScheduleId, Schedule)>, id: ScheduleId, s: Schedule)
    requires OncePerSchedule(claims) && id !in Ids(claims)
    ensures OncePerSchedule(claims + [(id, s)]) && Ids(claims + [(id, s)]) == Ids(claims) + {id}
  {
    var more := claims + [(id, s)];
    assert more[|claims|] == (id, s);
    forall x | x in Ids(claims) + {id} ensures x in Ids(more) {
      if x != id {
        var k :| 0 <= k < |claims| && claims[k].0 == x;
        assert more[k].0 == x;
      }
    }
    forall k | 0 <= k < |claims| ensures more[k].0 != id {
      assert claims[k].0 in Ids(claims);
    }
  }

  // The claims so far: the store as they leave it, and their copies.
  ghost predicate Claiming(before: map<ScheduleId, Schedule>, done: set<ScheduleId>, now: int,
                           store: map<ScheduleId, Schedule>, claimed: seq<(ScheduleId, Schedule)>) {
    store == Claimed(before, done, now) && OncePerSchedule(claimed) && Ids(claimed) == done
    && forall k :: 0 <= k < |claimed| ==> claimed[k].0 in store && claimed[k].1 == store[claimed[k].0]
  }

  lemma ClaimingOneMore(before: map<ScheduleId, Schedule>, done: set<ScheduleId>, now: int,
                        store: map<ScheduleId, Schedule>, claimed: seq<(ScheduleId, Schedule)>, id: ScheduleId)
    requires Claiming(before, done, now, store, claimed) && id in before && id !in done
    ensures var c := Claim(before[id], now);
      Claiming(before, done + {id}, now, store[id := c], claimed + [(id, c)])
  {
    AnotherClaim(claimed, id, Claim(before[id], now));
    forall k | 0 <= k < |claimed| ensures claimed[k].0 != id {
      assert claimed[k].0 in Ids(claimed);
    }
  }

  lemma LockKeysDistinct(a: ScheduleId, b: ScheduleId)
    requires LockKey(a) == LockKey(b)
    ensures a == b
  {
    assert LockKey(a)[9..9 + |a|] == a;
    assert LockKey(b)[9..9 + |b|] == b;
  }

  class SchedulerService {
    var store: map<ScheduleId, Schedule>
    const locks: Locks.LockManager?

    constructor (store: map<ScheduleId, Schedule>, locks: Locks.LockManager?)
      ensures this.store == store && this.locks == locks
    {
      this.store := store;
      this.locks := locks;
    }

    function LockTable(): (t: Locks.Table)
      reads this, locks
      ensures if locks == null then t == map[] else t == locks.local
    {
      if locks == null then map[] else locks.local
    }

    // The schedules a claim pass may take: due, and nobody holds the lock.
    ghost function Claimable(now: int, at: real): set<ScheduleId>
      reads this, locks
    {
      set id | id in store && Due(store[id], now) && !Locks.Held(LockTable(), LockKey(id), at)
    }

    method ListDue(now: int) returns (due: set<ScheduleId>)
      ensures due == set id | id in store && Due(store[id], now)
    {
      due := {};
      var rest := store.Keys;
      while rest != {}
        invariant rest <= store.Keys
        invariant due == set id | id in store && id !in rest && Due(store[id], now)
      {
        var id :| id in rest;
        rest := rest - {id};
        if !store[id].enabled || store[id].nextRunAt > now {
          continue;
        }
        if store[id].maxRuns.Some? && store[id].runCount >= store[id].maxRuns.value {
          continue;
        }
        due := due + {id};
      }
    }

    // One turn of the claim loop: lock, read again, write, unlock.
    method TryClaim(id: ScheduleId, now: int, owner: string, at: real) returns (claimed: Option<Schedule>)
      requires id in store
      requires locks != null ==> locks.defaultTtl > 0.0
      modifies this`store, locks
      ensures claimed.Some? <==> id in old(Claimable(now, at))
      ensures claimed.Some? ==>
        claimed.value == Claim(old(store)[id], now) && ClaimedFrom(old(store)[id], claimed.value, now)
      ensures store == if claimed.Some? then old(store)[id := claimed.value] else old(store)
      ensures SameHolds(old(LockTable()), LockTable(), at)
    {
      if locks != null {
        var won := locks.AcquireLock(LockKey(id), None, owner, at);
        if !won {
          return None;
        }
      }
      claimed := None;
      // the schedule is read again under the lock: another worker may have claimed it
      var current := store[id];
      if current.enabled && current.nextRunAt <= now
         && !(current.maxRuns.Some? && current.runCount >= current.maxRuns.value) {
        current := current.(runCount := current.runCount + 1);
        current := current.(lastRunAt := Some(now), lastStatus := "running");
        if current.maxRuns.Some? && current.runCount >= current.maxRuns.value {
          current := current.(enabled := false);
        }
        current := current.(nextRunAt := now + Micros(current.interval));
        store := store[id := current];
        claimed := Some(current);
      }
      if locks != null {
        var _ := locks.ReleaseLock(LockKey(id), owner, at);
      }
    }

    /** Claims every due schedule whose lock is free, in whatever order they
      * come, once each; nothing else changes, and every lock is as it was. */
    method ClaimDue(now: int, owner: string, at: real) returns (claimed: seq<(ScheduleId, Schedule)>)
      requires locks != null ==> locks.defaultTtl > 0.0
      modifies this`store, locks
      ensures store == Claimed(old(store), old(Claimable(now, at)), now)
      ensures forall id :: id in old(store) ==>
        id in store && if id in old(Claimable(now, at)) then ClaimedFrom(old(store)[id], store[id], now)
                       else store[id] == old(store)[id]
      ensures OncePerSchedule(claimed) && Ids(claimed) == old(Claimable(now, at))
      ensures forall k :: 0 <= k < |claimed| ==> claimed[k].0 in store && claimed[k].1 == store[claimed[k].0]
      ensures SameHolds(old(LockTable()), LockTable(), at)
    {
      claimed := [];
      var todo := ListDue(now);
      ghost var due, claimable, before, table := todo, Claimable(now, at), store, LockTable();
      while todo != {}
        invariant todo <= due <= before.Keys && claimable <= due
        invariant forall id :: id in due ==>
          Due(before[id], now) && (id in claimable <==> !Locks.Held(table, LockKey(id), at))
        invariant Claiming(before, claimable - todo, now, store, claimed)
        invariant SameHolds(table, LockTable(), at)
      {
        var id :| id in todo;
        assert store[id] == before[id];
        assert id in Claimable(now, at) <==> id in claimable;
        ghost var done := claimable - todo;
        todo := todo - {id};
        ClaimingOneMore(before, done, now, store, claimed, id);
        assert claimable - todo == if id in claimable then done + {id} else done;
        var taken := TryClaim(id, now, owner, at);
        if taken.Some? {
          claimed := claimed + [(id, taken.value)];
        }
      }
    }

    method Fire(id: ScheduleId, claimed: Schedule, launch: Launch)
      modifies this`store
      ensures store == old(store)[id := Fired(claimed, launch)]
    {
      var schedule := claimed;
      if !launch.Raised? {
        schedule := schedule.(lastStatus := "ok", lastError := None);
        if launch.runId.Some? && launch.runId.value != "" {
          schedule := schedule.(lastRunId := launch.runId);
        }
        if launch.Ran? || launch.saved {
          store := store[id := schedule];
        }
      }
      if !launch.Ran? {
        schedule := schedule.(lastStatus := "failed", lastError := Some(launch.error));
        schedule := schedule.(nextRunAt := launch.at + Micros(schedule.interval));
        store := store[id := schedule];
      }
    }

    /** One worker's pass: every claim is launched exactly once, and the write
      * that records a launch loses no claim. */
    method Tick(now: int, owner: string, at: real, callback: Option<ScheduleId -> Launch>)
      returns (launched: seq<ScheduleId>)
      requires locks != null ==> locks.defaultTtl > 0.0
      modifies this`store, locks
      ensures forall j, k :: 0 <= j < k < |launched| ==> launched[j] != launched[k]
      ensures (set id | id in launched) == if callback.None? then {} else old(Claimable(now, at))
      ensures store == if callback.None? then old(store)
                       else Launched(old(store), old(Claimable(now, at)), now, callback.value)
    {
      launched := [];
      if callback.None? {
        return;
      }
      var claimed := ClaimDue(now, owner, at);
      ghost var claims := store;
      for i := 0 to |claimed|
        invariant Firing(claims, store, claimed, i, launched, callback.value)
      {
        FiringOneMore(claims, store, claimed, i, launched, callback.value);
        Fire(claimed[i].0, claimed[i].1, callback.value(claimed[i].0));
        launched := launched + [claimed[i].0];
      }
      AllFired(claims, store, claimed, launched, callback.value);
    }
  }

  // The first i claims have been launched and recorded.
  ghost predicate Firing(claims: map<ScheduleId, Schedule>, store: map<ScheduleId, Schedule>,
                         claimed: seq<(ScheduleId, Schedule)>, i: nat, launched: seq<ScheduleId>,
                         callback: ScheduleId -> Launch) {
    store.Keys == claims.Keys && |launched| == i <= |claimed| && OncePerSchedule(claimed)
    && (forall k :: 0 <= k < |claimed| ==> claimed[k].0 in claims && claimed[k].1 == claims[claimed[k].0])
    && (forall k :: 0 <= k < i ==> launched[k] == claimed[k].0)
    && (forall id :: id in store ==>
       store[id] == if id in launched then Fired(claims[id], callback(id)) else claims[id])
  }

  lemma FiringOneMore(claims: map<ScheduleId, Schedule>, store: map<ScheduleId, Schedule>,
                      claimed: seq<(ScheduleId, Schedule)>, i: nat, launched: seq<ScheduleId>,
                      callback: ScheduleId -> Launch)
    requires Firing(claims, store, claimed, i, launched, callback) && i < |claimed|
    ensures var (id, schedule) := claimed[i];
      Firing(claims, store[id := Fired(schedule, callback(id))], claimed, i + 1, launched + [id], callback)
  {
    var more := launched + [claimed[i].0];
    assert forall id :: id in more <==> id in launched || id == claimed[i].0;
  }

  lemma AllFired(claims: map<ScheduleId, Schedule>, store: map<ScheduleId, Schedule>,
                 claimed: seq<(ScheduleId, Schedule)>, launched: seq<ScheduleId>, callback: ScheduleId -> Launch)
    requires Firing(claims, store, claimed, |claimed|, launched, callback)
    ensures (set id | id in launched) == Ids(claimed)
    ensures forall j, k :: 0 <= j < k < |launched| ==> launched[j] != launched[k]
    ensures forall id :: id in store ==>
      store[id] == if id in Ids(claimed) then Fired(claims[id], callback(id)) else claims[id]
  {
    forall id | id in Ids(claimed) ensures id in launched {
      var k :| 0 <= k < |claimed| && claimed[k].0 == id;
      assert launched[k] == id;
    }
    forall id | id in launched ensures id in Ids(claimed) {
      var k :| 0 <= k < |launched| && launched[k] == id;
      assert claimed[k].0 == id;
    }
  }
}
