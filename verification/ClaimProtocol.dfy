/** The claim protocol with any number of workers. Every access to the lock
  * table or the schedule store is one atomic step, and steps of different
  * workers interleave freely; a worker may crash and restart at any point. Lock
  * keys are the schedules' own ids (Scheduler.LockKeysDistinct).
  *
  * Workers bring their own clocks: the instant a worker works with is fixed
  * when it scans, and nothing relates the instants of different workers.
  *
  * Two kinds of steps can do harm, and the statements about whole runs say when
  * they do not: the record of a launch, which overwrites whatever is stored by
  * then, and the expiry of a lock, which the time to live may bring about while
  * its holder is still to save its claim. What else they do is said under "How the
  * promise is broken". */
module ClaimProtocol {
  import opened Wrappers
  import opened Scheduler

  type WorkerId = string

  // A claimed fire of a schedule, named by the run count it carries.
  datatype Occurrence = Occurrence(id: ScheduleId, run: int)

  datatype Phase =
    | Idle
    | Scanning(now: int, todo: set<ScheduleId>)
    | Locked(now: int, todo: set<ScheduleId>, id: ScheduleId)
    | Loaded(now: int, todo: set<ScheduleId>, id: ScheduleId, copy: Schedule)
    | Unlocking(now: int, todo: set<ScheduleId>, id: ScheduleId)
    | Crashed

  // pending: claims not launched yet; firing: the launch whose outcome is still to be recorded.
  datatype Worker = Worker(phase: Phase, pending: map<Occurrence, Schedule>, firing: Option<(Occurrence, Schedule)>)

  datatype ClaimRecord = ClaimRecord(run: int, now: int, worker: WorkerId)

  datatype State = State(
    origin: map<ScheduleId, Schedule>,
    store: map<ScheduleId, Schedule>,
    holder: map<ScheduleId, WorkerId>,
    workers: map<WorkerId, Worker>,
    log: map<ScheduleId, seq<ClaimRecord>>,
    launched: seq<Occurrence>
  )

  datatype Step =
    | Scan(w: WorkerId, now: int)
    | Acquire(w: WorkerId, id: ScheduleId)
    | Skip(w: WorkerId, id: ScheduleId)
    | Read(w: WorkerId)
    | Decline(w: WorkerId)
    | Save(w: WorkerId)
    | Release(w: WorkerId)
    | Finish(w: WorkerId)
    | Fire(w: WorkerId, occ: Occurrence)
    | Record(w: WorkerId, launch: Launch, last: bool)
    | Crash(w: WorkerId)
    | Restart(w: WorkerId)
    | Expire(id: ScheduleId)

  // Between taking the lock and saving the claim: the worker has not read yet, or has read
  // that the schedule is due.
  predicate InSection(p: Phase, id: ScheduleId) {
    (p.Locked? || (p.Loaded? && Due(p.copy, p.now))) && p.id == id
  }

  /** The launch outcome may be written back without undoing anybody's claim:
    * the stored run count is still the claimed one, and a failed launch is
    * dated no earlier than the claim. */
  predicate StillLatest(s: State, occ: Occurrence, copy: Schedule, launch: Launch) {
    occ.id in s.store && occ.id in s.log && s.log[occ.id] != []
    && s.store[occ.id].runCount == copy.runCount
    && (!launch.Ran? ==> launch.at >= s.log[occ.id][|s.log[occ.id]| - 1].now)
  }

  predicate CanSave(s: State, w: WorkerId) {
    w in s.workers
    && var p := s.workers[w].phase;
       p.Loaded? && Due(p.copy, p.now) && p.id in s.store && p.id in s.log
  }

  predicate Enabled(s: State, step: Step) {
    if step.Expire? then
      step.id in s.holder
    else if step.w !in s.workers then false
    else
      var worker := s.workers[step.w];
      var p := worker.phase;
      match step
      case Scan(_, _) => p.Idle?
      case Acquire(_, id) => p.Scanning? && id in p.todo && id !in s.holder
      case Skip(_, id) => p.Scanning? && id in p.todo && id in s.holder
      case Read(_) => p.Locked? && p.id in s.store
      case Decline(_) => p.Loaded? && !Due(p.copy, p.now)
      case Save(w) => CanSave(s, w)
      case Release(_) => p.Unlocking?
      case Finish(_) => p.Scanning? && p.todo == {}
      case Fire(_, occ) => p.Idle? && worker.firing.None? && occ in worker.pending
      case Record(_, launch, last) => p.Idle? && worker.firing.Some? && (last || launch.Ran?)
      case Crash(_) => !p.Crashed?
      case Restart(_) => p.Crashed?
  }

  predicate NobodyInside(s: State, id: ScheduleId) {
    forall w :: w in s.workers ==> !InSection(s.workers[w].phase, id)
  }

  // Locks expire only when nobody is inside the section they guard, up to the save.
  predicate Timely(s: State, step: Step) {
    Enabled(s, step) && step.Expire? ==> NobodyInside(s, step.id)
  }

  // A launch is recorded only while its claim is still the latest.
  predicate UpToDate(s: State, step: Step) {
    Enabled(s, step) && step.Record? ==>
      var (occ, copy) := s.workers[step.w].firing.value;
      StillLatest(s, occ, copy, step.launch)
  }

  predicate Harmless(s: State, step: Step) {
    Timely(s, step) && UpToDate(s, step)
  }

  const TIMELY: (State, Step) -> bool := (s: State, step: Step) => Timely(s, step)
  const HARMLESS: (State, Step) -> bool := (s: State, step: Step) => Harmless(s, step)

  function Move(s: State, w: WorkerId, p: Phase): State
    requires w in s.workers
  {
    s.(workers := s.workers[w := s.workers[w].(phase := p)])
  }

  // fire's save, wherever it lands: the claimed copy overwrites the stored schedule. It is
  // not the last one when publishing the event raises after it.
  function Overwrite(s: State, w: WorkerId, launch: Launch, last: bool): State
    requires w in s.workers && s.workers[w].firing.Some?
  {
    var (occ, copy) := s.workers[w].firing.value;
    s.(store := s.store[occ.id := Fired(copy, launch)],
       workers := if last then s.workers[w := s.workers[w].(firing := None)] else s.workers)
  }

  // The lock of a schedule runs out, whatever its holder is doing.
  function LockRunsOut(s: State, id: ScheduleId): State {
    s.(holder := s.holder - {id})
  }

  function Saved(s: State, w: WorkerId): State
    requires CanSave(s, w)
  {
    var worker := s.workers[w];
    var p := worker.phase;
    var claimed := Claim(p.copy, p.now);
    s.(store := s.store[p.id := claimed],
       log := s.log[p.id := s.log[p.id] + [ClaimRecord(claimed.runCount, p.now, w)]],
       workers := s.workers[w := worker.(phase := Unlocking(p.now, p.todo, p.id),
                                         pending := worker.pending[Occurrence(p.id, claimed.runCount) := claimed])])
  }

  function Effect(s: State, step: Step): State
    requires Enabled(s, step)
  {
    if step.Expire? then LockRunsOut(s, step.id) else
    var worker := s.workers[step.w];
    var p := worker.phase;
    match step
    case Scan(w, now) => Move(s, w, Scanning(now, set id | id in s.store && Due(s.store[id], now)))
    case Acquire(w, id) => Move(s.(holder := s.holder[id := w]), w, Locked(p.now, p.todo - {id}, id))
    case Skip(w, id) => Move(s, w, Scanning(p.now, p.todo - {id}))
    case Read(w) => Move(s, w, Loaded(p.now, p.todo, p.id, s.store[p.id]))
    case Decline(w) => Move(s, w, Unlocking(p.now, p.todo, p.id))
    case Save(w) => Saved(s, w)
    case Release(w) =>
      var freed := if p.id in s.holder && s.holder[p.id] == w then s.holder - {p.id} else s.holder;
      Move(s.(holder := freed), w, Scanning(p.now, p.todo))
    case Finish(w) => Move(s, w, Idle)
    case Fire(w, occ) =>
      s.(launched := s.launched + [occ],
         workers := s.workers[w :=
           worker.(pending := worker.pending - {occ}, firing := Some((occ, worker.pending[occ])))])
    case Record(w, launch, last) => Overwrite(s, w, launch, last)
    case Crash(w) => s.(workers := s.workers[w := Worker(Crashed, map[], None)])
    case Restart(w) => Move(s, w, Idle)
  }

  // A step that is not enabled does nothing.
  function Apply(s: State, step: Step): State {
    if Enabled(s, step) then Effect(s, step) else s
  }

  function Execute(s: State, steps: seq<Step>): State
    decreases |steps|
  {
    if steps == [] then s else Execute(Apply(s, steps[0]), steps[1..])
  }

  // Every step of the run is allowed where it comes.
  ghost predicate Throughout(allowed: (State, Step) -> bool, s: State, steps: seq<Step>)
    decreases |steps|
  {
    steps == [] || (allowed(s, steps[0]) && Throughout(allowed, Apply(s, steps[0]), steps[1..]))
  }

  ghost predicate Init(s: State) {
    s.store == s.origin && s.holder == map[] && s.launched == []
    && s.log.Keys == s.origin.Keys && (forall id :: id in s.log ==> s.log[id] == [])
    && (forall w :: w in s.workers ==> s.workers[w] == Worker(Idle, map[], None))
  }

  /** What is promised of one schedule's claims: consecutive run counts, instants
    * at least one interval apart, and never more runs than allowed. */
  ghost predicate LogSound(origin: Schedule, log: seq<ClaimRecord>) {
    (forall k :: 0 <= k < |log| ==> log[k].run == origin.runCount + k + 1)
    && (forall j, k :: 0 <= j < |log| && k == j + 1 < |log| ==> log[j].now + Micros(origin.interval) <= log[k].now)
    && (origin.maxRuns.Some? ==> forall k :: 0 <= k < |log| ==> log[k].run <= origin.maxRuns.value)
  }

  // The schedule has counted exactly the claims in the log and is not due within an interval of the last.
  ghost predicate Current(s: Schedule, origin: Schedule, log: seq<ClaimRecord>) {
    s.interval == origin.interval && s.maxRuns == origin.maxRuns
    && s.runCount == origin.runCount + |log|
    && (log != [] ==> log[|log| - 1].now + Micros(s.interval) <= s.nextRunAt)
  }

  type Store = map<ScheduleId, Schedule>
  type Log = map<ScheduleId, seq<ClaimRecord>>

  // The occurrence is in the log.
  predicate Logged(origin: Store, log: Log, occ: Occurrence) {
    occ.id in log && occ.id in origin && 0 < occ.run - origin[occ.id].runCount <= |log[occ.id]|
  }

  function RecordOf(origin: Store, log: Log, occ: Occurrence): ClaimRecord
    requires Logged(origin, log, occ)
  {
    log[occ.id][occ.run - origin[occ.id].runCount - 1]
  }

  // The copy that worker w wrote when it claimed the occurrence.
  ghost predicate CopyOf(origin: Store, log: Log, w: WorkerId, occ: Occurrence, copy: Schedule) {
    Logged(origin, log, occ) && RecordOf(origin, log, occ).worker == w
    && copy.runCount == occ.run
    && copy.interval == origin[occ.id].interval && copy.maxRuns == origin[occ.id].maxRuns
    && copy.nextRunAt == RecordOf(origin, log, occ).now + Micros(copy.interval)
  }

  ghost predicate StoreInv(origin: Store, store: Store, log: Log) {
    store.Keys == origin.Keys == log.Keys
    && (forall id :: id in log ==> LogSound(origin[id], log[id]))
    && (forall id :: id in log ==> Current(store[id], origin[id], log[id]))
  }

  // Whoever is inside a section holds its lock.
  predicate HoldsOwn(w: WorkerId, p: Phase, holder: map<ScheduleId, WorkerId>) {
    p.Locked? || (p.Loaded? && Due(p.copy, p.now)) ==> p.id in holder && holder[p.id] == w
  }

  ghost predicate PhaseInv(origin: Store, log: Log, holder: map<ScheduleId, WorkerId>, w: WorkerId, p: Phase) {
    (p.Scanning? || p.Locked? || p.Loaded? || p.Unlocking? ==> p.todo <= origin.Keys)
    && (p.Locked? || p.Loaded? || p.Unlocking? ==> p.id in origin) && HoldsOwn(w, p, holder)
    && (p.Loaded? && Due(p.copy, p.now) ==> p.id in log && Current(p.copy, origin[p.id], log[p.id]))
  }

  ghost predicate ClaimsInv(origin: Store, log: Log, launched: seq<Occurrence>, w: WorkerId, worker: Worker) {
    (forall occ :: occ in worker.pending ==> CopyOf(origin, log, w, occ, worker.pending[occ]) && occ !in launched)
    && (worker.firing.Some? ==> CopyOf(origin, log, w, worker.firing.value.0, worker.firing.value.1))
  }

  ghost predicate LaunchInv(origin: Store, log: Log, launched: seq<Occurrence>) {
    (forall occ :: occ in launched ==> Logged(origin, log, occ))
    && (forall j, k :: 0 <= j < k < |launched| ==> launched[j] != launched[k])
  }

  ghost predicate WorkerInv(s: State, w: WorkerId)
    requires w in s.workers
  {
    PhaseInv(s.origin, s.log, s.holder, w, s.workers[w].phase)
    && ClaimsInv(s.origin, s.log, s.launched, w, s.workers[w])
  }

  ghost predicate Inv(s: State) {
    StoreInv(s.origin, s.store, s.log) && LaunchInv(s.origin, s.log, s.launched)
    && (forall w :: w in s.workers ==> WorkerInv(s, w))
  }

  // A copy stays what it was when the log grows.
  lemma CopyStays(origin: Store, log: Log, id: ScheduleId, r: ClaimRecord, w: WorkerId, occ: Occurrence, copy: Schedule)
    requires id in log && CopyOf(origin, log, w, occ, copy)
    ensures CopyOf(origin, log[id := log[id] + [r]], w, occ, copy)
  {
  }

  lemma ClaimsStay(
    origin: Store, log: Log, launched: seq<Occurrence>, id: ScheduleId, r: ClaimRecord, w: WorkerId,
    worker: Worker)
    requires id in log && ClaimsInv(origin, log, launched, w, worker)
    ensures ClaimsInv(origin, log[id := log[id] + [r]], launched, w, worker)
  {
    forall occ | occ in worker.pending
      ensures CopyOf(origin, log[id := log[id] + [r]], w, occ, worker.pending[occ])
    {
      CopyStays(origin, log, id, r, w, occ, worker.pending[occ]);
    }
    if worker.firing.Some? {
      CopyStays(origin, log, id, r, w, worker.firing.value.0, worker.firing.value.1);
    }
  }

  lemma ClaimKeepsSchedule(origin: Schedule, log: seq<ClaimRecord>, copy: Schedule, now: int, r: ClaimRecord)
    requires LogSound(origin, log) && Current(copy, origin, log) && Due(copy, now)
    requires r.run == copy.runCount + 1 && r.now == now
    ensures LogSound(origin, log + [r]) && Current(Claim(copy, now), origin, log + [r])
  {
    var longer := log + [r];
    forall j, k | 0 <= j < |longer| && k == j + 1 < |longer|
      ensures longer[j].now + Micros(origin.interval) <= longer[k].now
    {
      if k < |log| {
        assert log[j].now + Micros(origin.interval) <= log[k].now;
      }
    }
  }

  // The store and the log after worker w's claim of one schedule.
  lemma ClaimKeepsStore(origin: Store, store: Store, log: Log, id: ScheduleId, copy: Schedule, now: int, r: ClaimRecord)
    requires StoreInv(origin, store, log) && id in log && Current(copy, origin[id], log[id]) && Due(copy, now)
    requires r.run == copy.runCount + 1 && r.now == now
    ensures StoreInv(origin, store[id := Claim(copy, now)], log[id := log[id] + [r]])
  {
    ClaimKeepsSchedule(origin[id], log[id], copy, now, r);
  }

  lemma PhaseStays(
    origin: Store, log: Log, holder: map<ScheduleId, WorkerId>, id: ScheduleId, r: ClaimRecord, v: WorkerId,
    p: Phase)
    requires id in log && PhaseInv(origin, log, holder, v, p) && !InSection(p, id)
    ensures PhaseInv(origin, log[id := log[id] + [r]], holder, v, p)
  {
  }

  lemma NewClaimIsPending(s: State, w: WorkerId, log: Log, occ: Occurrence, copy: Schedule)
    requires w in s.workers && ClaimsInv(s.origin, log, s.launched, w, s.workers[w])
    requires CopyOf(s.origin, log, w, occ, copy) && occ !in s.launched
    ensures ClaimsInv(s.origin, log, s.launched, w, s.workers[w].(pending := s.workers[w].pending[occ := copy]))
  {
  }

  lemma SaveKeepsWorker(s: State, w: WorkerId, v: WorkerId, occ: Occurrence)
    requires Inv(s) && CanSave(s, w) && v in s.workers
    requires occ == Occurrence(s.workers[w].phase.id, s.workers[w].phase.copy.runCount + 1)
    requires occ !in s.launched
      && CopyOf(s.origin, Saved(s, w).log, w, occ, Claim(s.workers[w].phase.copy, s.workers[w].phase.now))
    ensures WorkerInv(Saved(s, w), v)
  {
    var p := s.workers[w].phase;
    var r := ClaimRecord(occ.run, p.now, w);
    assert WorkerInv(s, w) && WorkerInv(s, v);
    ClaimsStay(s.origin, s.log, s.launched, p.id, r, v, s.workers[v]);
    if v == w {
      NewClaimIsPending(s, w, Saved(s, w).log, occ, Claim(p.copy, p.now));
    } else {
      PhaseStays(s.origin, s.log, s.holder, p.id, r, v, s.workers[v].phase);
    }
  }

  // The next claim is not in the log yet, and its copy is what the worker keeps.
  lemma NextClaim(origin: Store, log: Log, w: WorkerId, id: ScheduleId, copy: Schedule, now: int)
    requires origin.Keys == log.Keys && id in log && Current(copy, origin[id], log[id])
    ensures var occ := Occurrence(id, copy.runCount + 1); var r := ClaimRecord(occ.run, now, w);
      !Logged(origin, log, occ) && CopyOf(origin, log[id := log[id] + [r]], w, occ, Claim(copy, now))
  {
  }

  lemma LaunchesStay(origin: Store, log: Log, launched: seq<Occurrence>, id: ScheduleId, r: ClaimRecord)
    requires LaunchInv(origin, log, launched) && id in log
    ensures LaunchInv(origin, log[id := log[id] + [r]], launched)
  {
    forall o | o in launched ensures Logged(origin, log[id := log[id] + [r]], o) {
      assert Logged(origin, log, o);
    }
  }

  lemma SaveKeepsInv(s: State, w: WorkerId)
    requires Inv(s) && CanSave(s, w)
    ensures Inv(Saved(s, w))
  {
    var p := s.workers[w].phase;
    var occ := Occurrence(p.id, p.copy.runCount + 1);
    var r := ClaimRecord(occ.run, p.now, w);
    assert WorkerInv(s, w);
    NextClaim(s.origin, s.log, w, p.id, p.copy, p.now);
    ClaimKeepsStore(s.origin, s.store, s.log, p.id, p.copy, p.now, r);
    LaunchesStay(s.origin, s.log, s.launched, p.id, r);
    forall v | v in s.workers ensures WorkerInv(Saved(s, w), v) {
      SaveKeepsWorker(s, w, v, occ);
    }
  }

  lemma FireKeepsInv(s: State, w: WorkerId, occ: Occurrence)
    requires Inv(s) && Enabled(s, Fire(w, occ))
    ensures Inv(Effect(s, Fire(w, occ)))
  {
    assert WorkerInv(s, w);
    assert CopyOf(s.origin, s.log, w, occ, s.workers[w].pending[occ]);
    OneMoreLaunch(s.origin, s.log, s.launched, occ);
    forall v | v in s.workers ensures WorkerInv(Effect(s, Fire(w, occ)), v) {
      FireKeepsWorker(s, w, occ, v);
    }
  }

  lemma OneMoreLaunch(origin: Store, log: Log, launched: seq<Occurrence>, occ: Occurrence)
    requires LaunchInv(origin, log, launched) && Logged(origin, log, occ) && occ !in launched
    ensures LaunchInv(origin, log, launched + [occ])
  {
  }

  lemma FireKeepsWorker(s: State, w: WorkerId, occ: Occurrence, v: WorkerId)
    requires Inv(s) && Enabled(s, Fire(w, occ)) && v in s.workers
    ensures WorkerInv(Effect(s, Fire(w, occ)), v)
  {
    assert WorkerInv(s, w) && WorkerInv(s, v);
    if v == w {
      OwnLaunch(s.origin, s.log, s.launched, w, s.workers[w], occ);
    } else {
      OthersLaunch(s.origin, s.log, s.launched, v, s.workers[v], occ);
    }
  }

  lemma OwnLaunch(origin: Store, log: Log, launched: seq<Occurrence>, w: WorkerId, worker: Worker, occ: Occurrence)
    requires ClaimsInv(origin, log, launched, w, worker) && occ in worker.pending
    ensures ClaimsInv(origin, log, launched + [occ], w,
                      worker.(pending := worker.pending - {occ}, firing := Some((occ, worker.pending[occ]))))
  {
  }

  // A launch of another worker's claim is of none of one's own.
  lemma OthersLaunch(origin: Store, log: Log, launched: seq<Occurrence>, v: WorkerId, worker: Worker, occ: Occurrence)
    requires ClaimsInv(origin, log, launched, v, worker) && Logged(origin, log, occ)
      && RecordOf(origin, log, occ).worker != v
    ensures ClaimsInv(origin, log, launched + [occ], v, worker)
  {
    assert forall o :: o in worker.pending ==> CopyOf(origin, log, v, o, worker.pending[o]);
  }

  // One schedule of the store is replaced.
  lemma ScheduleReplaced(origin: Store, store: Store, log: Log, id: ScheduleId, x: Schedule)
    requires StoreInv(origin, store, log) && id in log
    ensures StoreInv(origin, store[id := x], log) <==> Current(x, origin[id], log[id])
  {
    if StoreInv(origin, store[id := x], log) {
      assert Current(store[id := x][id], origin[id], log[id]);
    }
  }

  // The copy of a claim, with the outcome of its launch, counts exactly the claims in the
  // log when the stored schedule counts no more.
  lemma CopyIsCurrent(
    origin: Store, store: Store, log: Log, w: WorkerId, occ: Occurrence, copy: Schedule, launch: Launch)
    requires StoreInv(origin, store, log) && CopyOf(origin, log, w, occ, copy)
    ensures Current(Fired(copy, launch), origin[occ.id], log[occ.id])
       <==> store[occ.id].runCount == copy.runCount
            && (!launch.Ran? ==> launch.at >= log[occ.id][|log[occ.id]| - 1].now)
  {
    assert Current(store[occ.id], origin[occ.id], log[occ.id]);
    if store[occ.id].runCount == copy.runCount {
      assert RecordOf(origin, log, occ) == log[occ.id][|log[occ.id]| - 1];
    }
  }

  /** The write that records a launch keeps the invariant if and only if no other
    * claim of the schedule came in between (and a failure is not dated before
    * the claim). The write takes no lock and compares nothing. */
  lemma RecordIsSafeIffStillLatest(s: State, w: WorkerId, launch: Launch, last: bool)
    requires Inv(s) && w in s.workers && s.workers[w].firing.Some?
    ensures Inv(Overwrite(s, w, launch, last))
       <==> StillLatest(s, s.workers[w].firing.value.0, s.workers[w].firing.value.1, launch)
  {
    var (occ, copy) := s.workers[w].firing.value;
    assert WorkerInv(s, w) && CopyOf(s.origin, s.log, w, occ, copy);
    assert Current(Fired(copy, launch), s.origin[occ.id], s.log[occ.id]) <==> StillLatest(s, occ, copy, launch) by {
      CopyIsCurrent(s.origin, s.store, s.log, w, occ, copy, launch);
    }
    ScheduleReplaced(s.origin, s.store, s.log, occ.id, Fired(copy, launch));
    OverwriteChangesStore(s, w, launch, last);
  }

  // The overwriting matters to the store alone.
  lemma OverwriteChangesStore(s: State, w: WorkerId, launch: Launch, last: bool)
    requires Inv(s) && w in s.workers && s.workers[w].firing.Some?
    ensures Inv(Overwrite(s, w, launch, last)) <==> StoreInv(s.origin, Overwrite(s, w, launch, last).store, s.log)
  {
    forall v | v in s.workers ensures WorkerInv(Overwrite(s, w, launch, last), v) {
      OverwriteKeepsWorker(s, w, launch, last, v);
    }
  }

  lemma OverwriteKeepsWorker(s: State, w: WorkerId, launch: Launch, last: bool, v: WorkerId)
    requires Inv(s) && w in s.workers && s.workers[w].firing.Some? && v in s.workers
    ensures WorkerInv(Overwrite(s, w, launch, last), v)
  {
    assert WorkerInv(s, v);
  }

  /** The expiry of a lock keeps the invariant, which asks whoever may still save a claim to
    * hold its lock, if and only if no worker is inside the section it guards. */
  lemma ExpiryIsSafeIffNobodyIsInside(s: State, id: ScheduleId)
    requires Inv(s)
    ensures Inv(LockRunsOut(s, id)) <==> NobodyInside(s, id)
  {
    var t := LockRunsOut(s, id);
    if NobodyInside(s, id) {
      forall v | v in s.workers ensures WorkerInv(t, v) {
        assert WorkerInv(s, v);
      }
    }
    if Inv(t) {
      forall w | w in s.workers ensures !InSection(s.workers[w].phase, id) {
        assert WorkerInv(t, w);
      }
    }
  }

  lemma MoveKeepsInv(s: State, step: Step)
    requires Inv(s) && Enabled(s, step) && !step.Save? && !step.Fire? && !step.Record? && !step.Expire?
    ensures Inv(Effect(s, step))
  {
    forall v | v in s.workers ensures WorkerInv(Effect(s, step), v) {
      MoveKeepsWorker(s, step, v);
    }
  }

  // The moving worker, and the others, whose locks nobody takes.
  lemma MoveKeepsWorker(s: State, step: Step, v: WorkerId)
    requires Inv(s) && Enabled(s, step) && !step.Save? && !step.Fire? && !step.Record? && !step.Expire?
      && v in s.workers
    ensures WorkerInv(Effect(s, step), v)
  {
    if step.w != v {
      MoveKeepsOthers(s, step, v);
    } else {
      assert WorkerInv(s, v);
    }
  }

  lemma MoveKeepsOthers(s: State, step: Step, v: WorkerId)
    requires Inv(s) && Enabled(s, step) && !step.Save? && !step.Fire? && !step.Record? && !step.Expire?
      && v in s.workers
    requires step.w != v
    ensures WorkerInv(Effect(s, step), v)
  {
    assert WorkerInv(s, step.w) && WorkerInv(s, v);
    var t := Effect(s, step);
    assert t.workers[v] == s.workers[v] && t.origin == s.origin && t.log == s.log && t.launched == s.launched;
    LocksOfOthersStay(s, step, v);
  }

  lemma LocksOfOthersStay(s: State, step: Step, v: WorkerId)
    requires Enabled(s, step) && !step.Expire? && v in s.workers && step.w != v
    requires HoldsOwn(v, s.workers[v].phase, s.holder)
    ensures HoldsOwn(v, s.workers[v].phase, Effect(s, step).holder)
  {
  }

  lemma RecordStep(s: State, step: Step)
    requires Inv(s) && step.Record?
    ensures Inv(Apply(s, step)) <==> Harmless(s, step)
  {
    if Enabled(s, step) {
      RecordIsSafeIffStillLatest(s, step.w, step.launch, step.last);
    }
  }

  lemma ExpireStep(s: State, step: Step)
    requires Inv(s) && step.Expire?
    ensures Inv(Apply(s, step)) <==> Harmless(s, step)
  {
    if Enabled(s, step) {
      ExpiryIsSafeIffNobodyIsInside(s, step.id);
    }
  }

  lemma OtherStep(s: State, step: Step)
    requires Inv(s) && !step.Record? && !step.Expire?
    ensures Inv(Apply(s, step)) && Harmless(s, step)
  {
    if Enabled(s, step) {
      match step {
        case Save(w) => SaveKeepsInv(s, w);
        case Fire(w, occ) => FireKeepsInv(s, w, occ);
        case _ => MoveKeepsInv(s, step);
      }
    }
  }

  /** A step keeps the invariant if and only if it is harmless. */
  lemma StepKeepsInvIffHarmless(s: State, step: Step)
    requires Inv(s)
    ensures Inv(Apply(s, step)) <==> Harmless(s, step)
  {
    if step.Record? {
      RecordStep(s, step);
    } else if step.Expire? {
      ExpireStep(s, step);
    } else {
      OtherStep(s, step);
    }
  }

  lemma StepKeepsOrigin(s: State, step: Step)
    ensures Apply(s, step).origin == s.origin
  {
  }

  // What every allowed step keeps, every run of allowed steps keeps.
  lemma {:induction false} Invariantly(
    kept: State -> bool, allowed: (State, Step) -> bool, s: State, steps: seq<Step>)
    requires kept(s) && Throughout(allowed, s, steps)
    requires forall t, step :: kept(t) && allowed(t, step) ==> kept(Apply(t, step))
    ensures kept(Execute(s, steps))
    decreases |steps|
  {
    if steps != [] {
      Invariantly(kept, allowed, Apply(s, steps[0]), steps[1..]);
    }
  }

  lemma RunKeepsInv(s: State, steps: seq<Step>)
    requires Inv(s) && Throughout(HARMLESS, s, steps)
    ensures Inv(Execute(s, steps)) && Execute(s, steps).origin == s.origin
  {
    forall t, step | Inv(t) && HARMLESS(t, step) ensures Inv(Apply(t, step)) {
      StepKeepsInvIffHarmless(t, step);
    }
    forall t, step ensures Apply(t, step).origin == s.origin <==> t.origin == s.origin {
      StepKeepsOrigin(t, step);
    }
    Invariantly(t => Inv(t) && t.origin == s.origin, HARMLESS, s, steps);
  }

  /** Any workers, any interleaving, any crashes, while locks expire with nobody inside and
    * launches are recorded while their claim is the latest: the claims of each schedule are
    * numbered consecutively, are an interval apart and never exceed max_runs; every launch
    * is of a logged claim, and no claim is launched twice. */
  lemma ClaimsAreSequential(s: State, steps: seq<Step>)
    requires Init(s) && Throughout(HARMLESS, s, steps)
    ensures var t := Execute(s, steps);
      t.log.Keys == s.store.Keys
      && (forall id :: id in t.log ==> LogSound(s.store[id], t.log[id]))
      && (forall occ :: occ in t.launched ==> Logged(t.origin, t.log, occ))
      && (forall j, k :: 0 <= j < k < |t.launched| ==> t.launched[j] != t.launched[k])
  {
    RunKeepsInv(s, steps);
    InvIsSequential(s.store, Execute(s, steps));
  }

  lemma InvIsSequential(origin: Store, t: State)
    requires Inv(t) && t.origin == origin
    ensures t.log.Keys == origin.Keys
    ensures forall id :: id in t.log ==> LogSound(origin[id], t.log[id])
    ensures forall occ :: occ in t.launched ==> Logged(origin, t.log, occ)
    ensures forall j, k :: 0 <= j < k < |t.launched| ==> t.launched[j] != t.launched[k]
  {
  }

  // The invariant holds in every state of the run.
  ghost predicate AlwaysInv(s: State, steps: seq<Step>)
    decreases |steps|
  {
    Inv(s) && (steps == [] || AlwaysInv(Apply(s, steps[0]), steps[1..]))
  }

  /** Over whole runs the two conditions are exact for the invariant: it holds throughout if
    * and only if no expiry came too early and no launch was recorded too late. */
  lemma {:induction false} InvHoldsThroughoutIffHarmless(s: State, steps: seq<Step>)
    requires Inv(s)
    ensures AlwaysInv(s, steps) <==> Throughout(HARMLESS, s, steps)
    decreases |steps|
  {
    if steps != [] {
      StepKeepsInvIffHarmless(s, steps[0]);
      if Inv(Apply(s, steps[0])) {
        InvHoldsThroughoutIffHarmless(Apply(s, steps[0]), steps[1..]);
      }
    }
  }

  ghost predicate SectionsHeld(s: State) {
    forall w :: w in s.workers ==> HoldsOwn(w, s.workers[w].phase, s.holder)
  }

  lemma TimelyStepKeepsSections(s: State, step: Step)
    requires SectionsHeld(s) && Timely(s, step)
    ensures SectionsHeld(Apply(s, step))
  {
  }

  /** At most one worker is between taking the lock of a schedule and saving a claim of it, in
    * every state that timely expiry allows, whatever launches have been recorded. */
  lemma OneWorkerPerSection(s: State, steps: seq<Step>, v: WorkerId, w: WorkerId, id: ScheduleId)
    requires Init(s) && Throughout(TIMELY, s, steps)
    requires var t := Execute(s, steps);
      v in t.workers && w in t.workers && InSection(t.workers[v].phase, id) && InSection(t.workers[w].phase, id)
    ensures v == w
  {
    forall t, step | SectionsHeld(t) && TIMELY(t, step) ensures SectionsHeld(Apply(t, step)) {
      TimelyStepKeepsSections(t, step);
    }
    Invariantly(t => SectionsHeld(t), TIMELY, s, steps);
    OneHolder(Execute(s, steps), v, w, id);
  }

  lemma OneHolder(s: State, v: WorkerId, w: WorkerId, id: ScheduleId)
    requires SectionsHeld(s) && v in s.workers && w in s.workers
    requires InSection(s.workers[v].phase, id) && InSection(s.workers[w].phase, id)
    ensures v == w
  {
  }

  // ---- How the promise is broken ----

  // What the next claim of the stored schedule would add to the log.
  function NextRecord(x: Schedule, now: int, w: WorkerId): ClaimRecord {
    ClaimRecord(x.runCount + 1, now, w)
  }

  // Every claim that could come next keeps the promise.
  ghost predicate NextClaimKeepsPromise(origin: Schedule, x: Schedule, log: seq<ClaimRecord>) {
    forall now, w :: Due(x, now) ==> LogSound(origin, log + [NextRecord(x, now, w)])
  }

  lemma CurrentKeepsPromise(origin: Schedule, x: Schedule, log: seq<ClaimRecord>)
    requires LogSound(origin, log) && Current(x, origin, log)
    ensures NextClaimKeepsPromise(origin, x, log)
  {
    forall now, w | Due(x, now) ensures LogSound(origin, log + [NextRecord(x, now, w)]) {
      ClaimKeepsSchedule(origin, log, x, now, NextRecord(x, now, w));
    }
  }

  lemma PromiseNeedsCurrent(origin: Schedule, x: Schedule, log: seq<ClaimRecord>)
    requires NextClaimKeepsPromise(origin, x, log) && x.enabled && !Exhausted(x) && log != []
    ensures x.runCount == origin.runCount + |log|
    ensures log[|log| - 1].now + Micros(origin.interval) <= x.nextRunAt
  {
    var more := log + [NextRecord(x, x.nextRunAt, "")];
    assert Due(x, x.nextRunAt) && LogSound(origin, more);
    assert more[|log|].run == origin.runCount + |log| + 1;
    assert more[|log| - 1].now + Micros(origin.interval) <= more[|log|].now;
  }

  /** What a record that comes too late does to the promise, in any state the protocol
    * reaches: every claim that could come next keeps the promise if and only if the recorded
    * claim is still the latest (and a failure is not dated before it), or the schedule cannot
    * be claimed again at all. When another claim came in between, the next one carries a run
    * count that the log has already. */
  lemma NextClaimKeepsPromiseIffStillLatest(s: State, w: WorkerId, launch: Launch, last: bool)
    requires Inv(s) && w in s.workers && s.workers[w].firing.Some?
    ensures var (occ, copy) := s.workers[w].firing.value;
      var x := Overwrite(s, w, launch, last).store[occ.id];
      occ.id in s.store && occ.id in s.log
      && (NextClaimKeepsPromise(s.origin[occ.id], x, s.log[occ.id])
          <==> StillLatest(s, occ, copy, launch) || !x.enabled || Exhausted(x))
      && (Logged(s.origin, s.log, Occurrence(occ.id, x.runCount + 1)) <==> copy.runCount < s.store[occ.id].runCount)
  {
    var (occ, copy) := s.workers[w].firing.value;
    assert WorkerInv(s, w) && CopyOf(s.origin, s.log, w, occ, copy);
    assert Current(s.store[occ.id], s.origin[occ.id], s.log[occ.id]);
    var x := Fired(copy, launch);
    CopyIsCurrent(s.origin, s.store, s.log, w, occ, copy, launch);
    PromiseIsCurrent(s.origin[occ.id], x, s.log[occ.id]);
  }

  lemma PromiseIsCurrent(origin: Schedule, x: Schedule, log: seq<ClaimRecord>)
    requires LogSound(origin, log) && log != [] && x.interval == origin.interval && x.maxRuns == origin.maxRuns
    ensures NextClaimKeepsPromise(origin, x, log) <==> Current(x, origin, log) || !x.enabled || Exhausted(x)
  {
    if Current(x, origin, log) {
      CurrentKeepsPromise(origin, x, log);
    }
    if NextClaimKeepsPromise(origin, x, log) && x.enabled && !Exhausted(x) {
      PromiseNeedsCurrent(origin, x, log);
    }
  }

  // The worker scans, takes the lock of one due schedule and reads it.
  function Opening(w: WorkerId, id: ScheduleId, now: int): seq<Step> {
    [Scan(w, now), Acquire(w, id), Read(w)]
  }

  ghost predicate CanOpen(s: State, w: WorkerId, id: ScheduleId, now: int) {
    w in s.workers && s.workers[w].phase.Idle? && id in s.store && id !in s.holder && Due(s.store[id], now)
  }

  function Opened(s: State, w: WorkerId, id: ScheduleId, now: int): State
    requires w in s.workers && id in s.store
  {
    var others := (set x | x in s.store && Due(s.store[x], now)) - {id};
    Move(s.(holder := s.holder[id := w]), w, Loaded(now, others, id, s.store[id]))
  }

  lemma {:induction false} ExecuteInTwoParts(s: State, first: seq<Step>, second: seq<Step>)
    ensures Execute(s, first + second) == Execute(Execute(s, first), second)
    decreases |first|
  {
    if first == [] {
      assert first + second == second;
    } else {
      assert (first + second)[1..] == first[1..] + second;
      ExecuteInTwoParts(Apply(s, first[0]), first[1..], second);
    }
  }

  lemma TwoSteps(s: State, a: Step, b: Step)
    ensures Execute(s, [a, b]) == Apply(Apply(s, a), b)
  {
    assert [a, b][1..] == [b] && [b][1..] == [];
    assert Execute(Apply(s, a), [b]) == Apply(Apply(s, a), b);
  }

  lemma ThreeSteps(s: State, a: Step, b: Step, c: Step)
    ensures Execute(s, [a, b, c]) == Apply(Apply(Apply(s, a), b), c)
  {
    assert [a, b, c][1..] == [b, c];
    TwoSteps(Apply(s, a), b, c);
  }

  lemma OpeningReads(s: State, w: WorkerId, id: ScheduleId, now: int)
    requires CanOpen(s, w, id, now)
    ensures Execute(s, Opening(w, id, now)) == Opened(s, w, id, now)
  {
    var due := set x | x in s.store && Due(s.store[x], now);
    var s1 := Apply(s, Scan(w, now));
    assert s1 == Move(s, w, Scanning(now, due));
    var s2 := Apply(s1, Acquire(w, id));
    assert s2.workers == s.workers[w := s.workers[w].(phase := Locked(now, due - {id}, id))];
    var s3 := Apply(s2, Read(w));
    assert s3.workers == Opened(s, w, id, now).workers;
    ThreeSteps(s, Scan(w, now), Acquire(w, id), Read(w));
  }

  // Two workers have read the schedule, and both save their claims.
  lemma BothSave(s: State, a: WorkerId, b: WorkerId, id: ScheduleId)
    requires a != b && CanSave(s, a) && CanSave(s, b) && s.workers[a].phase.id == s.workers[b].phase.id == id
    ensures var p, q := s.workers[a].phase, s.workers[b].phase;
      var t := Execute(s, [Save(b), Save(a)]);
      id in t.log && t.origin == s.origin
      && t.log[id] == s.log[id] + [NextRecord(q.copy, q.now, b), NextRecord(p.copy, p.now, a)]
  {
    var p, q := s.workers[a].phase, s.workers[b].phase;
    var s1 := Apply(s, Save(b));
    assert s1 == Saved(s, b) && s1.workers[a] == s.workers[a];
    var s2 := Apply(s1, Save(a));
    assert s2 == Saved(s1, a);
    TwoSteps(s, Save(b), Save(a));
    assert [NextRecord(q.copy, q.now, b)] + [NextRecord(p.copy, p.now, a)]
        == [NextRecord(q.copy, q.now, b), NextRecord(p.copy, p.now, a)];
  }

  // What a second worker does while the first one has read, and the lock is free.
  function SecondClaim(a: WorkerId, b: WorkerId, id: ScheduleId, now: int): seq<Step> {
    Opening(b, id, now) + [Save(b), Save(a)]
  }

  lemma BothClaim(s: State, a: WorkerId, b: WorkerId, id: ScheduleId, now: int)
    requires a != b && CanSave(s, a) && s.workers[a].phase.id == id && CanOpen(s, b, id, now)
    ensures var p := s.workers[a].phase;
      var t := Execute(s, SecondClaim(a, b, id, now));
      id in t.log && t.origin == s.origin
      && t.log[id] == s.log[id] + [NextRecord(s.store[id], now, b), NextRecord(p.copy, p.now, a)]
  {
    var t := Opened(s, b, id, now);
    OpeningReads(s, b, id, now);
    ExecuteInTwoParts(s, Opening(b, id, now), [Save(b), Save(a)]);
    assert t.workers[a] == s.workers[a] && t.workers[b].phase.copy == s.store[id];
    BothSave(t, a, b, id);
  }

  // The same run count twice is no promise kept.
  lemma TwiceIsUnsound(origin: Schedule, log: seq<ClaimRecord>, first: ClaimRecord, second: ClaimRecord)
    requires first.run == second.run
    ensures !LogSound(origin, log + [first, second])
  {
    var more := log + [first, second];
    assert more[|log|] == first && more[|log| + 1] == second;
  }

  // From the expiry on: worker a reads, unless it has, and both workers claim.
  function AfterExpiry(a: WorkerId, unread: bool, b: WorkerId, id: ScheduleId, now: int): seq<Step> {
    (if unread then [Expire(id), Read(a)] else [Expire(id)]) + SecondClaim(a, b, id, now)
  }

  /** What an expiry that comes too early does to the promise, in any state the protocol
    * reaches: when a worker has read the schedule, or will read, that it is due, and another
    * one that is idle finds it due as well, both claim it under one run count. */
  lemma ExpiryInsideRepeatsAClaim(s: State, a: WorkerId, b: WorkerId, id: ScheduleId, now: int)
    requires Inv(s) && a in s.workers && b in s.workers && a != b && InSection(s.workers[a].phase, id)
    requires id in s.store && (s.workers[a].phase.Locked? ==> Due(s.store[id], s.workers[a].phase.now))
    requires s.workers[b].phase.Idle? && Due(s.store[id], now)
    ensures var p := s.workers[a].phase;
      var t := Execute(s, AfterExpiry(a, p.Locked?, b, id, now));
      var run := s.store[id].runCount + 1;
      id in t.log && id in s.log && id in s.origin
      && t.log[id] == s.log[id] + [ClaimRecord(run, now, b), ClaimRecord(run, p.now, a)]
      && !LogSound(s.origin[id], t.log[id])
  {
    var p := s.workers[a].phase;
    var u := AReads(s, a, id);
    var t := Execute(s, AfterExpiry(a, p.Locked?, b, id, now));
    assert t == Execute(u, SecondClaim(a, b, id, now)) by {
      ExecuteInTwoParts(s, if p.Locked? then [Expire(id), Read(a)] else [Expire(id)], SecondClaim(a, b, id, now));
    }
    BothClaim(u, a, b, id, now);
    TwiceIsUnsound(
      s.origin[id], s.log[id], NextRecord(s.store[id], now, b), NextRecord(u.workers[a].phase.copy, p.now, a));
  }

  // The lock has run out, and worker a has read.
  lemma AReads(s: State, a: WorkerId, id: ScheduleId) returns (u: State)
    requires Inv(s) && a in s.workers && InSection(s.workers[a].phase, id) && id in s.store
    requires s.workers[a].phase.Locked? ==> Due(s.store[id], s.workers[a].phase.now)
    ensures u == Execute(s, if s.workers[a].phase.Locked? then [Expire(id), Read(a)] else [Expire(id)])
    ensures u.store == s.store && u.log == s.log && u.origin == s.origin && id !in u.holder
    ensures u.workers.Keys == s.workers.Keys && forall v :: v in s.workers && v != a ==> u.workers[v] == s.workers[v]
    ensures CanSave(u, a) && u.workers[a].phase.id == id && u.workers[a].phase.now == s.workers[a].phase.now
    ensures u.workers[a].phase.copy.runCount == s.store[id].runCount
  {
    assert WorkerInv(s, a) && Current(s.store[id], s.origin[id], s.log[id]);
    var t := LockRunsOut(s, id);
    assert Apply(s, Expire(id)) == t;
    assert [Expire(id)][1..] == [];
    assert Execute(s, [Expire(id)]) == t;
    u := t;
    if s.workers[a].phase.Locked? {
      TwoSteps(s, Expire(id), Read(a));
      u := Apply(t, Read(a));
    }
  }
}
