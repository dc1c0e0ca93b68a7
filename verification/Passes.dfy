/** One worker's whole pass as a run of the claim protocol: with nobody in between, its
  * steps do to the store exactly what a tick of the scheduler does. */
module Passes {
  import opened Wrappers
  import opened Scheduler
  import opened ClaimProtocol

  // ---- Claiming ----

  // What a worker does with one schedule it found due.
  function Turn(s: State, w: WorkerId, id: ScheduleId): seq<Step> {
    if id in s.holder then [Skip(w, id)] else [Acquire(w, id), Read(w), Save(w), Release(w)]
  }

  function Turns(s: State, w: WorkerId, order: seq<ScheduleId>): seq<Step> {
    if order == [] then [] else Turn(s, w, order[0]) + Turns(s, w, order[1..])
  }

  function Occurring(store: Store, id: ScheduleId): Occurrence
    requires id in store
  {
    Occurrence(id, store[id].runCount + 1)
  }

  // The copies of the claims made at that instant.
  function Copies(store: Store, ids: set<ScheduleId>, now: int): map<Occurrence, Schedule> {
    map id | id in ids && id in store :: Occurring(store, id) := Claim(store[id], now)
  }

  ghost predicate Recorded(s: State, t: State, w: WorkerId, now: int, claimed: set<ScheduleId>) {
    t.log.Keys == s.log.Keys
    && forall id :: id in s.log ==>
         t.log[id] == s.log[id] + if id in claimed && id in s.store then [NextRecord(s.store[id], now, w)] else []
  }

  // From s to t, the worker has claimed these schedules and is still to look at those.
  ghost predicate HasClaimed(s: State, t: State, w: WorkerId, now: int, claimed: set<ScheduleId>, todo: set<ScheduleId>)
  {
    t.origin == s.origin && t.holder == s.holder && t.launched == s.launched
    && t.store == Claimed(s.store, claimed, now) && Recorded(s, t, w, now, claimed)
    && t.workers == s.workers[w := Worker(Scanning(now, todo), Copies(s.store, claimed, now), None)]
  }

  // The worker can look at this schedule next.
  predicate IsNext(s: State, w: WorkerId, now: int, claimed: set<ScheduleId>, todo: set<ScheduleId>, id: ScheduleId) {
    w in s.workers && id in todo && id !in claimed && id in s.store && id in s.log && Due(s.store[id], now)
  }

  lemma FourSteps(s: State, a: Step, b: Step, c: Step, d: Step)
    ensures Execute(s, [a, b, c, d]) == Apply(Apply(Apply(Apply(s, a), b), c), d)
  {
    assert [a, b, c, d][1..] == [b, c, d];
    ThreeSteps(Apply(s, a), b, c, d);
  }

  lemma OneStep(s: State, a: Step)
    ensures Execute(s, [a]) == Apply(s, a)
  {
    assert [a][1..] == [];
  }

  // From t to u nothing changed but locks and workers.
  predicate SameBut(t: State, u: State, holder: map<ScheduleId, WorkerId>, workers: map<WorkerId, Worker>) {
    u == t.(holder := holder, workers := workers)
  }

  // Taking the lock and reading, with nobody in between.
  lemma TurnReads(s: State, t: State, w: WorkerId, now: int, claimed: set<ScheduleId>, todo: set<ScheduleId>,
                  id: ScheduleId)
    requires HasClaimed(s, t, w, now, claimed, todo) && IsNext(s, w, now, claimed, todo, id) && id !in s.holder
    ensures var worker := Worker(Loaded(now, todo - {id}, id, s.store[id]), Copies(s.store, claimed, now), None);
      SameBut(t, Apply(Apply(t, Acquire(w, id)), Read(w)), s.holder[id := w], s.workers[w := worker])
  {
    var t1 := Apply(t, Acquire(w, id));
    assert t1.workers == s.workers[w := t.workers[w].(phase := Locked(now, todo - {id}, id))];
    assert t1.store[id] == s.store[id];
    assert Apply(t1, Read(w)).workers
      == s.workers[w := t.workers[w].(phase := Loaded(now, todo - {id}, id, s.store[id]))];
  }

  lemma CopiesOneMore(store: Store, ids: set<ScheduleId>, now: int, id: ScheduleId)
    requires id in store
    ensures Copies(store, ids, now)[Occurring(store, id) := Claim(store[id], now)] == Copies(store, ids + {id}, now)
  {
  }

  lemma ClaimedOneMore(store: Store, ids: set<ScheduleId>, now: int, id: ScheduleId)
    requires id in store && id !in ids
    ensures Claimed(store, ids, now)[id := Claim(store[id], now)] == Claimed(store, ids + {id}, now)
  {
  }

  lemma RecordedOneMore(s: State, t: State, v: State, w: WorkerId, now: int, claimed: set<ScheduleId>, id: ScheduleId)
    requires Recorded(s, t, w, now, claimed) && id in s.log && id in s.store && id !in claimed
    requires v.log == t.log[id := t.log[id] + [NextRecord(s.store[id], now, w)]]
    ensures Recorded(s, v, w, now, claimed + {id})
  {
    assert t.log[id] == s.log[id] + [];
  }

  // What saving a claim and giving the lock back leaves.
  predicate SavedAndReleased(u: State, x: State, w: WorkerId, now: int, todo: set<ScheduleId>, id: ScheduleId,
                             copy: Schedule, pending: map<Occurrence, Schedule>)
  {
    x.origin == u.origin && x.launched == u.launched && x.store == u.store[id := Claim(copy, now)]
    && x.holder == u.holder - {id} && id in u.log && x.log == u.log[id := u.log[id] + [NextRecord(copy, now, w)]]
    && x.workers == u.workers[w := Worker(Scanning(now, todo),
                                          pending[Occurrence(id, copy.runCount + 1) := Claim(copy, now)], None)]
  }

  lemma SaveAndRelease(u: State, w: WorkerId, now: int, todo: set<ScheduleId>, id: ScheduleId, copy: Schedule,
                       pending: map<Occurrence, Schedule>)
    requires w in u.workers && u.workers[w] == Worker(Loaded(now, todo, id, copy), pending, None)
    requires Due(copy, now) && id in u.store && id in u.log && id in u.holder && u.holder[id] == w
    ensures SavedAndReleased(u, Apply(Apply(u, Save(w)), Release(w)), w, now, todo, id, copy, pending)
  {
    var v := Apply(u, Save(w));
    assert v == Saved(u, w);
    var x := Apply(v, Release(w));
    assert x.workers == u.workers[w := v.workers[w].(phase := Scanning(now, todo))];
  }

  lemma SavedIsClaimed(s: State, t: State, u: State, x: State, w: WorkerId, now: int, claimed: set<ScheduleId>,
                       todo: set<ScheduleId>, id: ScheduleId, worker: Worker)
    requires HasClaimed(s, t, w, now, claimed, todo) && IsNext(s, w, now, claimed, todo, id) && id !in s.holder
    requires SameBut(t, u, s.holder[id := w], s.workers[w := worker])
    requires SavedAndReleased(u, x, w, now, todo - {id}, id, s.store[id], Copies(s.store, claimed, now))
    ensures HasClaimed(s, x, w, now, claimed + {id}, todo - {id})
  {
    CopiesOneMore(s.store, claimed, now, id);
    ClaimedOneMore(s.store, claimed, now, id);
    RecordedOneMore(s, t, x, w, now, claimed, id);
    assert s.holder[id := w] - {id} == s.holder;
    var next := Worker(Scanning(now, todo - {id}), Copies(s.store, claimed + {id}, now), None);
    assert s.workers[w := worker][w := next] == s.workers[w := next];
  }

  lemma TurnClaims(s: State, t: State, w: WorkerId, now: int, claimed: set<ScheduleId>, todo: set<ScheduleId>,
                   id: ScheduleId)
    requires HasClaimed(s, t, w, now, claimed, todo) && IsNext(s, w, now, claimed, todo, id)
    ensures HasClaimed(s, Execute(t, Turn(s, w, id)), w, now, if id in s.holder then claimed else claimed + {id},
      todo - {id})
  {
    if id in s.holder {
      OneStep(t, Skip(w, id));
      assert Apply(t, Skip(w, id)).workers == s.workers[w := t.workers[w].(phase := Scanning(now, todo - {id}))];
    } else {
      TurnReads(s, t, w, now, claimed, todo, id);
      var u := Apply(Apply(t, Acquire(w, id)), Read(w));
      SaveAndRelease(u, w, now, todo - {id}, id, s.store[id], Copies(s.store, claimed, now));
      SavedIsClaimed(s, t, u, Apply(Apply(u, Save(w)), Release(w)), w, now, claimed, todo, id, u.workers[w]);
      FourSteps(t, Acquire(w, id), Read(w), Save(w), Release(w));
    }
  }

  // Each of them once, and all of them due.
  ghost predicate AllNext(s: State, w: WorkerId, now: int, claimed: set<ScheduleId>, order: seq<ScheduleId>) {
    (forall i, j :: 0 <= i < j < |order| ==> order[i] != order[j])
    && forall id :: id in order ==> IsNext(s, w, now, claimed, Listed(order), id)
  }

  function Listed(order: seq<ScheduleId>): set<ScheduleId> {
    set id | id in order
  }

  // Those whose lock is free.
  function Free(s: State, order: seq<ScheduleId>): set<ScheduleId> {
    set id | id in order && id !in s.holder
  }

  lemma RestIsNext(s: State, w: WorkerId, now: int, claimed: set<ScheduleId>, order: seq<ScheduleId>,
                   next: set<ScheduleId>)
    requires order != [] && AllNext(s, w, now, claimed, order) && claimed <= next <= claimed + {order[0]}
    ensures AllNext(s, w, now, next, order[1..]) && Listed(order) - {order[0]} == Listed(order[1..])
  {
    var rest := order[1..];
    assert order == [order[0]] + rest && order[0] !in rest;
    forall id | id in rest ensures IsNext(s, w, now, next, Listed(rest), id) {
      assert IsNext(s, w, now, claimed, Listed(order), id);
    }
  }

  lemma FreeFirst(s: State, order: seq<ScheduleId>)
    requires order != [] && forall i, j :: 0 <= i < j < |order| ==> order[i] != order[j]
    ensures Free(s, order) == (if order[0] in s.holder then {} else {order[0]}) + Free(s, order[1..])
    ensures order[0] !in Free(s, order[1..])
  {
    assert order == [order[0]] + order[1..];
  }

  lemma Together(a: set<ScheduleId>, b: set<ScheduleId>, c: set<ScheduleId>)
    ensures a + b + c == a + (b + c)
  {
  }

  lemma {:induction false} TurnsClaim(
    s: State, t: State, w: WorkerId, now: int, claimed: set<ScheduleId>, order: seq<ScheduleId>)
    requires HasClaimed(s, t, w, now, claimed, Listed(order)) && AllNext(s, w, now, claimed, order)
    ensures HasClaimed(s, Execute(t, Turns(s, w, order)), w, now, claimed + Free(s, order), {})
    decreases |order|
  {
    if order == [] {
      assert claimed + Free(s, order) == claimed && Listed(order) == {};
    } else {
      var id, rest := order[0], order[1..];
      var more := if id in s.holder then {} else {id};
      var next := claimed + more;
      assert id in s.holder ==> next == claimed;
      assert IsNext(s, w, now, claimed, Listed(order), id);
      RestIsNext(s, w, now, claimed, order, next);
      FreeFirst(s, order);
      TurnClaims(s, t, w, now, claimed, Listed(order), id);
      TurnsClaim(s, Execute(t, Turn(s, w, id)), w, now, next, rest);
      Together(claimed, more, Free(s, rest));
      ExecuteInTwoParts(t, Turn(s, w, id), Turns(s, w, rest));
    }
  }

  // ---- Launching ----

  // A good launch whose event cannot be published is recorded twice.
  function Recording(w: WorkerId, launch: Launch): seq<Step> {
    if launch.Unreported? && launch.saved then [Record(w, Ran(launch.runId), false), Record(w, launch, true)]
    else [Record(w, launch, true)]
  }

  function Launching(s: State, w: WorkerId, order: seq<ScheduleId>, launch: ScheduleId -> Launch): seq<Step>
    requires forall id :: id in order ==> id in s.store
  {
    if order == [] then []
    else
      (if order[0] in s.holder then [] else [Fire(w, Occurring(s.store, order[0]))] + Recording(w, launch(order[0])))
      + Launching(s, w, order[1..], launch)
  }

  function LaunchedInOrder(s: State, order: seq<ScheduleId>): seq<Occurrence>
    requires forall id :: id in order ==> id in s.store
  {
    if order == [] then []
    else (if order[0] in s.holder then [] else [Occurring(s.store, order[0])]) + LaunchedInOrder(s, order[1..])
  }

  // The store with these claims launched and those not yet.
  function Between(store: Store, fired: set<ScheduleId>, waiting: set<ScheduleId>, now: int,
                   launch: ScheduleId -> Launch): Store
  {
    map id | id in store ::
      if id in fired then Fired(Claim(store[id], now), launch(id))
      else if id in waiting then Claim(store[id], now) else store[id]
  }

  // From s to t, the worker has launched these claims, and still has those.
  ghost predicate HasLaunched(s: State, t: State, w: WorkerId, now: int, launch: ScheduleId -> Launch,
                              fired: set<ScheduleId>, waiting: set<ScheduleId>) {
    t.origin == s.origin && t.holder == s.holder && Recorded(s, t, w, now, fired + waiting)
    && t.store == Between(s.store, fired, waiting, now, launch)
    && t.workers == s.workers[w := Worker(Idle, Copies(s.store, waiting, now), None)]
  }

  lemma CopiesOneLess(store: Store, ids: set<ScheduleId>, now: int, id: ScheduleId)
    requires id in ids && id in store
    ensures var occ := Occurring(store, id);
      occ in Copies(store, ids, now) && Copies(store, ids, now)[occ] == Claim(store[id], now)
      && Copies(store, ids, now) - {occ} == Copies(store, ids - {id}, now)
  {
  }

  lemma RecordingOverwrites(t: State, w: WorkerId, launch: Launch, occ: Occurrence, copy: Schedule)
    requires w in t.workers && t.workers[w].phase.Idle? && t.workers[w].firing == Some((occ, copy))
    ensures Execute(t, Recording(w, launch))
      == t.(store := t.store[occ.id := Fired(copy, launch)],
            workers := t.workers[w := t.workers[w].(firing := None)])
  {
    if launch.Unreported? && launch.saved {
      var first := Record(w, Ran(launch.runId), false);
      TwoSteps(t, first, Record(w, launch, true));
      assert Apply(t, first) == t.(store := t.store[occ.id := Fired(copy, Ran(launch.runId))]);
      var u := Apply(Apply(t, first), Record(w, launch, true));
      assert u.store == t.store[occ.id := Fired(copy, launch)];
    } else {
      OneStep(t, Record(w, launch, true));
    }
  }

  lemma FireStarts(s: State, t: State, w: WorkerId, now: int, launch: ScheduleId -> Launch,
                   fired: set<ScheduleId>, waiting: set<ScheduleId>, id: ScheduleId)
    requires HasLaunched(s, t, w, now, launch, fired, waiting) && id in waiting && id in s.store && w in s.workers
    ensures var occ, copy := Occurring(s.store, id), Claim(s.store[id], now);
      var worker := Worker(Idle, Copies(s.store, waiting - {id}, now), Some((occ, copy)));
      Apply(t, Fire(w, occ)) == t.(launched := t.launched + [occ], workers := s.workers[w := worker])
  {
    CopiesOneLess(s.store, waiting, now, id);
    var occ, copy := Occurring(s.store, id), Claim(s.store[id], now);
    var worker := Worker(Idle, Copies(s.store, waiting - {id}, now), Some((occ, copy)));
    assert Apply(t, Fire(w, occ)).workers == t.workers[w := worker];
    assert t.workers[w := worker] == s.workers[w := worker];
  }

  lemma BetweenOneMore(store: Store, fired: set<ScheduleId>, waiting: set<ScheduleId>, now: int,
                       launch: ScheduleId -> Launch, id: ScheduleId)
    requires id in store
    ensures Between(store, fired, waiting, now, launch)[id := Fired(Claim(store[id], now), launch(id))]
      == Between(store, fired + {id}, waiting - {id}, now, launch)
  {
  }

  lemma OneLaunch(s: State, t: State, w: WorkerId, now: int, launch: ScheduleId -> Launch,
                  fired: set<ScheduleId>, waiting: set<ScheduleId>, id: ScheduleId)
    requires HasLaunched(s, t, w, now, launch, fired, waiting)
    requires id in waiting && id in s.store && w in s.workers
    ensures var u := Execute(t, [Fire(w, Occurring(s.store, id))] + Recording(w, launch(id)));
      HasLaunched(s, u, w, now, launch, fired + {id}, waiting - {id})
      && u.launched == t.launched + [Occurring(s.store, id)]
  {
    var occ, copy := Occurring(s.store, id), Claim(s.store[id], now);
    FireStarts(s, t, w, now, launch, fired, waiting, id);
    var v := Apply(t, Fire(w, occ));
    OneStep(t, Fire(w, occ));
    ExecuteInTwoParts(t, [Fire(w, occ)], Recording(w, launch(id)));
    RecordingOverwrites(v, w, launch(id), occ, copy);
    BetweenOneMore(s.store, fired, waiting, now, launch, id);
    assert fired + {id} + (waiting - {id}) == fired + waiting;
    var worker := Worker(Idle, Copies(s.store, waiting - {id}, now), None);
    assert v.workers[w := worker] == s.workers[w := worker];
  }

  ghost predicate AllKnown(s: State, order: seq<ScheduleId>) {
    (forall id :: id in order ==> id in s.store) && forall i, j :: 0 <= i < j < |order| ==> order[i] != order[j]
  }

  lemma FirstHeld(s: State, w: WorkerId, order: seq<ScheduleId>, launch: ScheduleId -> Launch)
    requires order != [] && AllKnown(s, order) && order[0] in s.holder
    ensures Launching(s, w, order, launch) == Launching(s, w, order[1..], launch)
    ensures LaunchedInOrder(s, order) == LaunchedInOrder(s, order[1..])
  {
  }

  lemma FirstFree(s: State, t: State, w: WorkerId, order: seq<ScheduleId>, launch: ScheduleId -> Launch)
    requires order != [] && AllKnown(s, order) && order[0] !in s.holder
    ensures var steps := [Fire(w, Occurring(s.store, order[0]))] + Recording(w, launch(order[0]));
      Execute(t, Launching(s, w, order, launch)) == Execute(Execute(t, steps), Launching(s, w, order[1..], launch))
    ensures LaunchedInOrder(s, order) == [Occurring(s.store, order[0])] + LaunchedInOrder(s, order[1..])
  {
    ExecuteInTwoParts(t, [Fire(w, Occurring(s.store, order[0]))] + Recording(w, launch(order[0])),
      Launching(s, w, order[1..], launch));
  }

  ghost predicate HasLaunchedAll(s: State, t: State, u: State, w: WorkerId, now: int, launch: ScheduleId -> Launch,
                                 fired: set<ScheduleId>, order: seq<ScheduleId>)
    requires AllKnown(s, order)
  {
    HasLaunched(s, u, w, now, launch, fired + Free(s, order), {})
    && u.launched == t.launched + LaunchedInOrder(s, order)
  }

  lemma NothingToLaunch(s: State, t: State, w: WorkerId, now: int, launch: ScheduleId -> Launch,
                        fired: set<ScheduleId>)
    requires HasLaunched(s, t, w, now, launch, fired, Free(s, []))
    ensures HasLaunchedAll(s, Execute(t, Launching(s, w, [], launch)), t, w, now, launch, fired, [])
  {
    assert fired + Free(s, []) == fired && Free(s, []) == {};
    assert t.launched + [] == t.launched;
  }

  lemma InARow<T>(a: seq<T>, b: seq<T>, c: seq<T>)
    ensures a + b + c == a + (b + c)
  {
  }

  lemma AddFirst(s: State, t: State, v: State, u: State, w: WorkerId, now: int, launch: ScheduleId -> Launch,
                 fired: set<ScheduleId>, order: seq<ScheduleId>)
    requires order != [] && AllKnown(s, order) && order[0] !in s.holder
    requires HasLaunchedAll(s, v, u, w, now, launch, fired + {order[0]}, order[1..])
    requires v.launched == t.launched + [Occurring(s.store, order[0])]
    ensures HasLaunchedAll(s, t, u, w, now, launch, fired, order)
  {
    FreeFirst(s, order);
    FirstFree(s, t, w, order, launch);
    Together(fired, {order[0]}, Free(s, order[1..]));
    InARow(t.launched, [Occurring(s.store, order[0])], LaunchedInOrder(s, order[1..]));
  }

  lemma {:induction false} LaunchingAll(s: State, t: State, w: WorkerId, now: int, launch: ScheduleId -> Launch,
                                        fired: set<ScheduleId>, order: seq<ScheduleId>)
    requires HasLaunched(s, t, w, now, launch, fired, Free(s, order)) && w in s.workers && AllKnown(s, order)
    ensures HasLaunchedAll(s, t, Execute(t, Launching(s, w, order, launch)), w, now, launch, fired, order)
    decreases |order|
  {
    if order == [] {
      NothingToLaunch(s, t, w, now, launch, fired);
    } else {
      var id, rest := order[0], order[1..];
      FreeFirst(s, order);
      if id in s.holder {
        assert Free(s, order) == Free(s, rest);
        FirstHeld(s, w, order, launch);
        LaunchingAll(s, t, w, now, launch, fired, rest);
      } else {
        assert Free(s, order) - {id} == Free(s, rest);
        var v := Execute(t, [Fire(w, Occurring(s.store, id))] + Recording(w, launch(id)));
        OneLaunch(s, t, w, now, launch, fired, Free(s, order), id);
        LaunchingAll(s, v, w, now, launch, fired + {id}, rest);
        FirstFree(s, t, w, order, launch);
        AddFirst(s, t, v, Execute(v, Launching(s, w, rest, launch)), w, now, launch, fired, order);
      }
    }
  }

  // ---- The whole pass ----

  function Pass(s: State, w: WorkerId, now: int, order: seq<ScheduleId>, launch: ScheduleId -> Launch): seq<Step>
    requires forall id :: id in order ==> id in s.store
  {
    [Scan(w, now)] + Turns(s, w, order) + [Finish(w)] + Launching(s, w, order, launch)
  }

  // The worker can start, and these are the schedules it finds.
  ghost predicate CanStart(s: State, w: WorkerId, now: int, order: seq<ScheduleId>) {
    w in s.workers && s.workers[w] == Worker(Idle, map[], None) && s.log.Keys == s.store.Keys
    && (forall i, j :: 0 <= i < j < |order| ==> order[i] != order[j])
    && forall id :: id in order <==> id in s.store && Due(s.store[id], now)
  }

  /** With nobody in between, the steps of one worker do what a tick of the scheduler does:
    * exactly the due schedules whose lock is free are claimed and launched, each once; the
    * store is the one the tick leaves, every lock is as before, each claim is logged, and
    * the worker is idle again with nothing left to launch. */
  lemma PassIsATick(s: State, w: WorkerId, now: int, order: seq<ScheduleId>, launch: ScheduleId -> Launch)
    requires CanStart(s, w, now, order)
    ensures var t := Execute(s, Pass(s, w, now, order, launch));
      var claimed := set id | id in s.store && Due(s.store[id], now) && id !in s.holder;
      t.store == Launched(s.store, claimed, now, launch) && t.holder == s.holder && t.origin == s.origin
      && t.workers == s.workers && t.launched == s.launched + LaunchedInOrder(s, order)
      && Recorded(s, t, w, now, claimed)
  {
    var t := Execute(s, Pass(s, w, now, order, launch));
    PassRuns(s, w, now, order, launch);
    NoneBefore(Free(s, order));
    PassEnds(s, t, w, now, Free(s, order), launch);
    assert Free(s, order) == set id | id in s.store && Due(s.store[id], now) && id !in s.holder;
  }

  lemma PassClaims(s: State, w: WorkerId, now: int, order: seq<ScheduleId>)
    requires CanStart(s, w, now, order)
    ensures HasClaimed(s, Execute(Apply(s, Scan(w, now)), Turns(s, w, order)), w, now, Free(s, order), {})
  {
    ScanStarts(s, w, now, order);
    TurnsClaim(s, Apply(s, Scan(w, now)), w, now, {}, order);
    NoneBefore(Free(s, order));
  }

  lemma PassRuns(s: State, w: WorkerId, now: int, order: seq<ScheduleId>, launch: ScheduleId -> Launch)
    requires CanStart(s, w, now, order)
    ensures AllKnown(s, order)
      && HasLaunchedAll(s, s, Execute(s, Pass(s, w, now, order, launch)), w, now, launch, {}, order)
  {
    var t := Execute(Apply(s, Scan(w, now)), Turns(s, w, order));
    PassClaims(s, w, now, order);
    FinishEnds(s, t, w, now, Free(s, order), launch);
    LaunchingAll(s, Apply(t, Finish(w)), w, now, launch, {}, order);
    PassInParts(s, w, now, Turns(s, w, order), Launching(s, w, order, launch));
  }

  lemma NoneBefore(ids: set<ScheduleId>)
    ensures {} + ids == ids && ids + {} == ids
  {
  }

  lemma NothingLeft(store: Store, claimed: set<ScheduleId>, now: int, launch: ScheduleId -> Launch)
    ensures Between(store, claimed, {}, now, launch) == Launched(store, claimed, now, launch)
    ensures Copies(store, {}, now) == map[]
  {
  }

  lemma PassEnds(s: State, t: State, w: WorkerId, now: int, claimed: set<ScheduleId>, launch: ScheduleId -> Launch)
    requires HasLaunched(s, t, w, now, launch, claimed, {})
    requires w in s.workers && s.workers[w] == Worker(Idle, map[], None)
    ensures t.store == Launched(s.store, claimed, now, launch) && t.workers == s.workers
    ensures t.holder == s.holder && t.origin == s.origin && Recorded(s, t, w, now, claimed)
  {
    NothingLeft(s.store, claimed, now, launch);
    NoneBefore(claimed);
  }

  lemma ScanStarts(s: State, w: WorkerId, now: int, order: seq<ScheduleId>)
    requires CanStart(s, w, now, order)
    ensures HasClaimed(s, Apply(s, Scan(w, now)), w, now, {}, Listed(order)) && AllNext(s, w, now, {}, order)
  {
    assert Listed(order) == set id | id in s.store && Due(s.store[id], now);
    assert Claimed(s.store, {}, now) == s.store && Copies(s.store, {}, now) == map[];
    assert forall id :: id in s.log ==> s.log[id] + [] == s.log[id];
  }

  lemma FinishEnds(s: State, t: State, w: WorkerId, now: int, claimed: set<ScheduleId>, launch: ScheduleId -> Launch)
    requires HasClaimed(s, t, w, now, claimed, {}) && w in s.workers
    ensures var u := Apply(t, Finish(w));
      HasLaunched(s, u, w, now, launch, {}, claimed) && u.launched == s.launched
  {
    assert {} + claimed == claimed;
    assert Between(s.store, {}, claimed, now, launch) == Claimed(s.store, claimed, now);
    assert Apply(t, Finish(w)).workers == s.workers[w := Worker(Idle, Copies(s.store, claimed, now), None)];
  }

  lemma PassInParts(s: State, w: WorkerId, now: int, turns: seq<Step>, launching: seq<Step>)
    ensures Execute(s, [Scan(w, now)] + turns + [Finish(w)] + launching)
      == Execute(Apply(Execute(Apply(s, Scan(w, now)), turns), Finish(w)), launching)
  {
    ExecuteInTwoParts(s, [Scan(w, now)] + turns + [Finish(w)], launching);
    ExecuteInTwoParts(s, [Scan(w, now)] + turns, [Finish(w)]);
    ExecuteInTwoParts(s, [Scan(w, now)], turns);
    OneStep(s, Scan(w, now));
    OneStep(Execute(Apply(s, Scan(w, now)), turns), Finish(w));
  }

  /** A worker that crashes and comes back has forgotten the claims it had not launched;
    * locks, schedules and the log are as it left them. */
  lemma CrashForgetsClaims(s: State, w: WorkerId)
    requires w in s.workers && !s.workers[w].phase.Crashed?
    ensures Execute(s, [Crash(w), Restart(w)]) == s.(workers := s.workers[w := Worker(Idle, map[], None)])
  {
    TwoSteps(s, Crash(w), Restart(w));
    var t := Apply(s, Crash(w));
    assert t.workers == s.workers[w := Worker(Crashed, map[], None)];
    assert t.workers[w := Worker(Idle, map[], None)] == s.workers[w := Worker(Idle, map[], None)];
  }
}
