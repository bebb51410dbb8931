/** The single-flight cache as a system of steps. */
module CacheProtocol {
  // Any number of tasks run `get_or_fetch_bytes` or `put_bytes`; each step
  // below is what one of them does between two points where another may
  // run. A task may be dropped at any step. A database closure is one
  // atomic step, and one that was already submitted still runs after its
  // task is dropped: such a store is an orphan.

  import opened Bytes
  import opened Wrappers
  import opened CacheKeys
  import CacheLike

  type TaskId = nat
  type LockId = nat

  // ---- the in-flight map of reference-counted locks ----

  /** `strong` is each lock object's reference count. */
  datatype Locks = Locks(inflight: map<string, LockId>, strong: map<LockId, int>, next: LockId)

  function Count(l: Locks, id: LockId): int {
    if id in l.strong then l.strong[id] else 0
  }

  /** `lock_for`: the lock under `name`, made if there is none, and a new
      reference to it. */
  function LockFor(l: Locks, name: string): (Locks, LockId) {
    if name in l.inflight then
      var id := l.inflight[name];
      (l.(strong := l.strong[id := Count(l, id) + 1]), id)
    else
      (Locks(l.inflight[name := l.next], l.strong[l.next := 2], l.next + 1), l.next)
  }

  function DropArc(l: Locks, id: LockId): Locks {
    l.(strong := l.strong[id := Count(l, id) - 1])
  }

  /** `release_lock`: forget whatever lock is under `name` when the count
      of the caller's own lock is at most two. */
  function ReleaseLock(l: Locks, name: string, id: LockId): Locks {
    if Count(l, id) <= 2 && name in l.inflight then
      DropArc(l, l.inflight[name]).(inflight := l.inflight - {name})
    else l
  }

  // ---- tasks ----

  datatype Purpose = ReadThrough | PutBytes(value: Bytes)

  datatype Pc =
    | Begun
    | FirstLookup(now: int)
    | NeedsLock
    | Waiting(lock: LockId)
    | Entered(lock: LockId)
    | SecondLookup(lock: LockId, now: int)
    | Fetching(lock: LockId)
    | Storing(lock: LockId, row: Row)
    | Unlocking(lock: LockId)
    | Releasing(lock: LockId)
    | Leaving(lock: LockId)
    | Done

  datatype Task = Task(key: Key, purpose: Purpose, pc: Pc)

  /** The lock object a task holds a reference to. */
  function Arc(pc: Pc): Option<LockId> {
    match pc
    case Begun | FirstLookup(_) | NeedsLock | Done => None
    case _ => Some(pc.lock)
  }

  /** The lock a task has locked. */
  function Guard(pc: Pc): Option<LockId> {
    match pc
    case Entered(lock) => Some(lock)
    case SecondLookup(lock, _) => Some(lock)
    case Fetching(lock) => Some(lock)
    case Storing(lock, _) => Some(lock)
    case Unlocking(lock) => Some(lock)
    case _ => None
  }

  /** Between `lock_for` and `release_lock`. */
  predicate Between(pc: Pc) {
    Arc(pc).Some? && !pc.Leaving?
  }

  datatype Orphan = Orphan(key: Key, row: Row, fetched: bool)

  /** What happened, for statements about whole runs. */
  datatype Event =
    | Fetched(task: TaskId, key: Key)
    | Abandoned(key: Key)
    | Stored(task: TaskId, key: Key, row: Row)
    | StoreFailed(key: Key)
    | PutStored(task: TaskId, key: Key, row: Row)
    | PutFailed(key: Key)
    | OrphanStored(orphan: Orphan)
    | PlainStored(key: Key, row: Row)
    | Forgotten(keys: set<Key>)
    | FoundExpired(key: Key, row: Row, now: int)
    | ReadFailed(key: Key)
    | Answered(task: TaskId, key: Key, value: Option<Bytes>, now: int)

  datatype State = State(
    clock: int,
    tasks: map<TaskId, Task>,
    locks: Locks,
    held: set<LockId>,
    rows: map<Key, Row>,
    orphans: multiset<Orphan>,
    log: seq<Event>)

  const START := State(0, map[], Locks(map[], map[], 0), {}, map[], multiset{}, [])

  datatype Action =
    | Call(task: TaskId, key: Key, purpose: Purpose)
    | ReadClock(task: TaskId)
    | RunLookup(task: TaskId, ok: bool)
    | TakeArc(task: TaskId)
    | Acquire(task: TaskId)
    | FetchOk(task: TaskId, value: Option<Bytes>)
    | FetchErr(task: TaskId)
    | RunStore(task: TaskId, ok: bool)
    | DropGuard(task: TaskId)
    | Release(task: TaskId)
    | Leave(task: TaskId)
    | Cancel(task: TaskId)
    | RunOrphan(orphan: Orphan, ok: bool)
    | Evict(key: Key)
    | EvictPrefix(ns: Namespace, prefix: string)
    | Purge(asOf: int)
    | PlainPut(key: Key, bytes: Bytes, asOf: int)
    | Tick(to: int)

  predicate Enabled(s: State, a: Action) {
    match a
    case Call(t, _, _) => t !in s.tasks
    case RunOrphan(o, _) => o in s.orphans
    case Evict(_) => true
    case EvictPrefix(_, _) => true
    case Purge(asOf) => asOf <= s.clock
    case PlainPut(_, _, asOf) => asOf <= s.clock
    case Tick(to) => s.clock <= to
    case _ => a.task in s.tasks && TaskEnabled(s, s.tasks[a.task], a)
  }

  predicate TaskEnabled(s: State, task: Task, a: Action) {
    var pc := task.pc;
    match a
    case ReadClock(_) => (pc.Begun? && task.purpose.ReadThrough?) || pc.Entered?
    case RunLookup(_, _) => pc.FirstLookup? || pc.SecondLookup?
    case TakeArc(_) => pc.NeedsLock? || (pc.Begun? && task.purpose.PutBytes?)
    case Acquire(_) => pc.Waiting? && pc.lock !in s.held
    case FetchOk(_, _) => pc.Fetching?
    case FetchErr(_) => pc.Fetching?
    case RunStore(_, _) => pc.Storing?
    case DropGuard(_) => pc.Unlocking?
    case Release(_) => pc.Releasing?
    case Leave(_) => pc.Leaving?
    case Cancel(_) => !pc.Done?
    case _ => false
  }

  function Goto(s: State, t: TaskId, pc: Pc): State
    requires t in s.tasks
  {
    s.(tasks := s.tasks[t := s.tasks[t].(pc := pc)])
  }

  function Log(s: State, e: Event): State {
    s.(log := s.log + [e])
  }

  /** The upsert every store runs. */
  function Upsert(s: State, k: Key, row: Row): State {
    s.(rows := s.rows[k := row])
  }

  function Forget(s: State, keys: set<Key>): State {
    Log(s.(rows := s.rows - keys), Forgotten(keys * s.rows.Keys))
  }

  function Do(s: State, a: Action): State
    requires Enabled(s, a)
  {
    match a
    case Call(t, k, purpose) => s.(tasks := s.tasks[t := Task(k, purpose, Begun)])
    case RunOrphan(o, ok) => DoOrphan(s, o, ok)
    case Evict(k) => Forget(s, {k})
    case EvictPrefix(ns, prefix) =>
      Forget(s, set k | k in s.rows && k.ns == ns && CacheLike.Matches(k.name, prefix))
    case Purge(asOf) => Forget(s, set k | k in s.rows && s.rows[k].expiresAt <= asOf)
    case PlainPut(k, value, asOf) =>
      var row := MakeRow(k, Some(value), asOf);
      Log(Upsert(s, k, row), PlainStored(k, row))
    case Tick(to) => s.(clock := to)
    case _ => DoTask(s, a.task, a)
  }

  function DoOrphan(s: State, o: Orphan, ok: bool): State
    requires o in s.orphans
  {
    var s1 := s.(orphans := s.orphans - multiset{o});
    if ok then Log(Upsert(s1, o.key, o.row), OrphanStored(o)) else s1
  }

  function DoTask(s: State, t: TaskId, a: Action): State
    requires t in s.tasks && TaskEnabled(s, s.tasks[t], a)
  {
    var task := s.tasks[t];
    var pc := task.pc;
    match a
    case ReadClock(_) =>
      if pc.Begun? then Goto(s, t, FirstLookup(s.clock))
      else match task.purpose {
        case ReadThrough => Goto(s, t, SecondLookup(pc.lock, s.clock))
        case PutBytes(value) => Goto(s, t, Storing(pc.lock, MakeRow(task.key, Some(value), s.clock)))
      }
    case RunLookup(_, ok) => DoLookup(s, t, ok)
    case TakeArc(_) =>
      var (locks, id) := LockFor(s.locks, LockName(task.key));
      Goto(s.(locks := locks), t, Waiting(id))
    case Acquire(_) => Goto(s.(held := s.held + {pc.lock}), t, Entered(pc.lock))
    case FetchOk(_, value) =>
      Log(Goto(s, t, Storing(pc.lock, MakeRow(task.key, value, s.clock))), Fetched(t, task.key))
    case FetchErr(_) => Goto(s, t, Unlocking(pc.lock))
    case RunStore(_, ok) => DoStore(s, t, ok)
    case DropGuard(_) => Goto(s.(held := s.held - {pc.lock}), t, Releasing(pc.lock))
    case Release(_) =>
      Goto(s.(locks := ReleaseLock(s.locks, LockName(task.key), pc.lock)), t, Leaving(pc.lock))
    case Leave(_) => Goto(s.(locks := DropArc(s.locks, pc.lock)), t, Done)
    case Cancel(_) => DoCancel(s, t)
  }

  /** A failed read counts as a miss. */
  function DoLookup(s: State, t: TaskId, ok: bool): State
    requires t in s.tasks && (s.tasks[t].pc.FirstLookup? || s.tasks[t].pc.SecondLookup?)
  {
    var k, pc := s.tasks[t].key, s.tasks[t].pc;
    var hit := if ok then Hit(s.rows, k, pc.now) else None;
    if pc.FirstLookup? then
      match hit {
        case Some(value) => Log(Goto(s, t, Done), Answered(t, k, value, pc.now))
        case None => Goto(s, t, NeedsLock)
      }
    else
      match hit {
        case Some(value) => Log(Goto(s, t, Unlocking(pc.lock)), Answered(t, k, value, pc.now))
        case None =>
          var s1 := Goto(s, t, Fetching(pc.lock));
          if !ok then Log(s1, ReadFailed(k))
          else if k in s.rows then Log(s1, FoundExpired(k, s.rows[k], pc.now))
          else s1
      }
  }

  function DoStore(s: State, t: TaskId, ok: bool): State
    requires t in s.tasks && s.tasks[t].pc.Storing?
  {
    var task := s.tasks[t];
    var pc := task.pc;
    var s1 := Goto(s, t, Unlocking(pc.lock));
    if !ok then Log(s1, if task.purpose.PutBytes? then PutFailed(task.key) else StoreFailed(task.key))
    else Log(Upsert(s1, task.key, pc.row),
             if task.purpose.PutBytes? then PutStored(t, task.key, pc.row) else Stored(t, task.key, pc.row))
  }

  /** Dropping a task drops its guard; its reference goes next. A store
      already submitted stays in the database's queue. */
  function DoCancel(s: State, t: TaskId): State
    requires t in s.tasks && !s.tasks[t].pc.Done?
  {
    var task := s.tasks[t];
    var pc := task.pc;
    var s1 := match Guard(pc) { case Some(id) => s.(held := s.held - {id}) case None => s };
    var s2 := match Arc(pc) { case Some(id) => Goto(s1, t, Leaving(id)) case None => Goto(s1, t, Done) };
    if pc.Storing? then
      var fetched := task.purpose.ReadThrough?;
      var s3 := s2.(orphans := s2.orphans + multiset{Orphan(task.key, pc.row, fetched)});
      if fetched then Log(s3, Abandoned(task.key)) else s3
    else s2
  }

  // ---- runs ----

  predicate Runs(s: State, run: seq<Action>)
    decreases |run|
  {
    run == [] || (Enabled(s, run[0]) && Runs(Do(s, run[0]), run[1..]))
  }

  function After(s: State, run: seq<Action>): State
    requires Runs(s, run)
    decreases |run|
  {
    if run == [] then s else After(Do(s, run[0]), run[1..])
  }

  ghost predicate Reachable(s: State) {
    exists run :: Runs(START, run) && After(START, run) == s
  }

  // ---- the lock invariant ----

  function Owners(s: State, id: LockId): set<TaskId> {
    set t | t in s.tasks && Arc(s.tasks[t].pc) == Some(id)
  }

  predicate InMap(l: Locks, id: LockId) {
    exists n :: n in l.inflight && l.inflight[n] == id
  }

  /** A reference count is the tasks holding the lock, plus the map. */
  ghost predicate CountsRight(s: State) {
    forall id: LockId :: Count(s.locks, id) == |Owners(s, id)| + if InMap(s.locks, id) then 1 else 0
  }

  /** Different names have different locks. */
  ghost predicate MapOk(l: Locks) {
    && (forall n | n in l.inflight :: l.inflight[n] < l.next)
    && (forall m, n | m in l.inflight && n in l.inflight && l.inflight[m] == l.inflight[n] :: m == n)
  }

  /** A task between `lock_for` and `release_lock` holds the very lock
      object now in the map under its key. */
  ghost predicate HoldsMapped(l: Locks, task: Task) {
    var name := LockName(task.key);
    name in l.inflight && Arc(task.pc) == Some(l.inflight[name])
  }

  ghost predicate OwnersOk(s: State) {
    forall t | t in s.tasks ::
      && (Arc(s.tasks[t].pc).Some? ==> Arc(s.tasks[t].pc).value < s.locks.next)
      && (Between(s.tasks[t].pc) ==> HoldsMapped(s.locks, s.tasks[t]))
  }

  /** One holder a guard. */
  ghost predicate GuardsOk(s: State) {
    && (forall t | t in s.tasks && Guard(s.tasks[t].pc).Some? :: Guard(s.tasks[t].pc).value in s.held)
    && (forall t, u | t in s.tasks && u in s.tasks &&
                      Guard(s.tasks[t].pc).Some? && Guard(s.tasks[t].pc) == Guard(s.tasks[u].pc) :: t == u)
  }

  ghost predicate LockInv(s: State) {
    CountsRight(s) && MapOk(s.locks) && OwnersOk(s) && GuardsOk(s)
  }

  /** Only task `t` moved. */
  ghost predicate Moved(s: State, s': State, t: TaskId) {
    && t in s.tasks && t in s'.tasks
    && s'.tasks == s.tasks[t := s'.tasks[t]]
    && s'.tasks[t].key == s.tasks[t].key
  }

  /** A task whose reference stays leaves every count as it was. */
  lemma SameArcKeepsCounts(s: State, s': State, t: TaskId)
    requires CountsRight(s) && Moved(s, s', t) && s'.locks == s.locks
    requires Arc(s.tasks[t].pc) == Arc(s'.tasks[t].pc)
    ensures CountsRight(s')
  {
    forall id: LockId
      ensures Owners(s', id) == Owners(s, id)
    {
    }
  }

  /** Steps that take no lock: the guard is kept or let go. */
  lemma LocalStepKeepsLocks(s: State, s': State, t: TaskId)
    requires LockInv(s) && Moved(s, s', t) && s'.locks == s.locks
    requires Arc(s.tasks[t].pc) == Arc(s'.tasks[t].pc)
    requires Between(s'.tasks[t].pc) ==> Between(s.tasks[t].pc)
    requires if Guard(s'.tasks[t].pc).None? && Guard(s.tasks[t].pc).Some?
             then s'.held == s.held - {Guard(s.tasks[t].pc).value}
             else s'.held == s.held && Guard(s'.tasks[t].pc) == Guard(s.tasks[t].pc)
    ensures LockInv(s')
  {
    SameArcKeepsCounts(s, s', t);
  }

  lemma AcquireKeepsLocks(s: State, t: TaskId)
    requires LockInv(s) && t in s.tasks && TaskEnabled(s, s.tasks[t], Acquire(t))
    ensures LockInv(DoTask(s, t, Acquire(t)))
  {
    SameArcKeepsCounts(s, DoTask(s, t, Acquire(t)), t);
  }

  lemma TakeArcKeepsCounts(s: State, s': State, t: TaskId)
    requires LockInv(s) && Moved(s, s', t) && Arc(s.tasks[t].pc).None?
    requires s'.locks == LockFor(s.locks, LockName(s.tasks[t].key)).0
    requires Arc(s'.tasks[t].pc) == Some(LockFor(s.locks, LockName(s.tasks[t].key)).1)
    ensures CountsRight(s')
  {
    var name := LockName(s.tasks[t].key);
    var taken := Arc(s'.tasks[t].pc).value;
    assert s'.locks.inflight[name] == taken && InMap(s'.locks, taken);
    assert Owners(s', taken) == Owners(s, taken) + {t};
    if name !in s.locks.inflight {
      assert Owners(s, taken) == {};
    } else {
      assert InMap(s.locks, taken);
    }
    forall id: LockId | id != taken
      ensures Owners(s', id) == Owners(s, id) && (InMap(s'.locks, id) <==> InMap(s.locks, id))
    {
      if n :| n in s.locks.inflight && s.locks.inflight[n] == id {
        assert n in s'.locks.inflight && s'.locks.inflight[n] == id;
      }
    }
  }

  lemma TakeArcKeepsLocks(s: State, t: TaskId)
    requires LockInv(s) && t in s.tasks && TaskEnabled(s, s.tasks[t], TakeArc(t))
    ensures LockInv(DoTask(s, t, TakeArc(t)))
  {
    TakeArcKeepsCounts(s, DoTask(s, t, TakeArc(t)), t);
  }

  lemma SingletonOwner(owners: set<TaskId>, t: TaskId)
    requires t in owners && |owners| <= 1
    ensures owners == {t}
  {
    assert |owners - {t}| == 0;
  }

  /** A count of two means that the map and the caller are the only
      holders: everyone else between the calls is under another name. */
  lemma LastHolder(s: State, t: TaskId, u: TaskId)
    requires LockInv(s) && t in s.tasks && u in s.tasks && u != t
    requires Between(s.tasks[t].pc) && Between(s.tasks[u].pc)
    requires Count(s.locks, s.tasks[t].pc.lock) <= 2
    ensures LockName(s.tasks[u].key) != LockName(s.tasks[t].key)
  {
    var id := s.tasks[t].pc.lock;
    assert HoldsMapped(s.locks, s.tasks[t]) && HoldsMapped(s.locks, s.tasks[u]);
    assert InMap(s.locks, id);
    assert t in Owners(s, id);
    SingletonOwner(Owners(s, id), t);
    assert u !in Owners(s, id);
  }

  lemma ReleaseKeepsCounts(s: State, s': State, t: TaskId)
    requires LockInv(s) && t in s.tasks && s.tasks[t].pc.Releasing?
    requires Moved(s, s', t) && Arc(s'.tasks[t].pc) == Arc(s.tasks[t].pc)
    requires s'.locks == ReleaseLock(s.locks, LockName(s.tasks[t].key), s.tasks[t].pc.lock)
    ensures CountsRight(s')
  {
    var name := LockName(s.tasks[t].key);
    var id := s.tasks[t].pc.lock;
    assert HoldsMapped(s.locks, s.tasks[t]) && InMap(s.locks, id);
    forall other: LockId
      ensures Owners(s', other) == Owners(s, other)
    {
    }
    if Count(s.locks, id) <= 2 {
      assert !InMap(s'.locks, id);
      forall other: LockId | other != id
        ensures InMap(s'.locks, other) <==> InMap(s.locks, other)
      {
        if n :| n in s.locks.inflight && s.locks.inflight[n] == other {
          assert n in s'.locks.inflight && s'.locks.inflight[n] == other;
        }
      }
    }
  }

  lemma ReleaseKeepsLocks(s: State, t: TaskId)
    requires LockInv(s) && t in s.tasks && s.tasks[t].pc.Releasing?
    ensures LockInv(DoTask(s, t, Release(t)))
  {
    var s' := DoTask(s, t, Release(t));
    ReleaseKeepsCounts(s, s', t);
    forall u | u in s'.tasks && Between(s'.tasks[u].pc)
      ensures HoldsMapped(s'.locks, s'.tasks[u])
    {
      assert u != t && HoldsMapped(s.locks, s.tasks[u]);
      if Count(s.locks, s.tasks[t].pc.lock) <= 2 {
        LastHolder(s, t, u);
      }
    }
  }

  lemma LeaveKeepsLocks(s: State, t: TaskId)
    requires LockInv(s) && t in s.tasks && s.tasks[t].pc.Leaving?
    ensures LockInv(DoTask(s, t, Leave(t)))
  {
    LeaveKeepsCounts(s, DoTask(s, t, Leave(t)), t);
    hide CountsRight;
  }

  lemma LeaveKeepsCounts(s: State, s': State, t: TaskId)
    requires CountsRight(s) && Moved(s, s', t) && s.tasks[t].pc.Leaving? && Arc(s'.tasks[t].pc).None?
    requires s'.locks == DropArc(s.locks, s.tasks[t].pc.lock)
    ensures CountsRight(s')
  {
    var id := s.tasks[t].pc.lock;
    assert Owners(s', id) == Owners(s, id) - {t};
    forall other: LockId
      ensures other != id ==> Owners(s', other) == Owners(s, other)
      ensures InMap(s'.locks, other) <==> InMap(s.locks, other)
    {
    }
  }

  lemma TaskStepKeepsLocks(s: State, t: TaskId, a: Action)
    requires LockInv(s) && t in s.tasks && TaskEnabled(s, s.tasks[t], a)
    ensures LockInv(DoTask(s, t, a))
  {
    if a.TakeArc? {
      TakeArcKeepsLocks(s, t);
    } else if a.Acquire? {
      AcquireKeepsLocks(s, t);
    } else if a.Release? {
      ReleaseKeepsLocks(s, t);
    } else if a.Leave? {
      LeaveKeepsLocks(s, t);
    } else {
      OtherStepIsLocal(s, t, a);
      LocalStepKeepsLocks(s, DoTask(s, t, a), t);
    }
  }

  /** Task `t` moved and took no lock; if it went out of its section it let
      its guard go. */
  ghost predicate TookNoLock(s: State, s': State, t: TaskId) {
    && Moved(s, s', t) && s'.locks == s.locks
    && Arc(s.tasks[t].pc) == Arc(s'.tasks[t].pc)
    && (Between(s'.tasks[t].pc) ==> Between(s.tasks[t].pc))
    && if Guard(s'.tasks[t].pc).None? && Guard(s.tasks[t].pc).Some?
       then s'.held == s.held - {Guard(s.tasks[t].pc).value}
       else s'.held == s.held && Guard(s'.tasks[t].pc) == Guard(s.tasks[t].pc)
  }

  lemma LookupTakesNoLock(s: State, t: TaskId, ok: bool)
    requires t in s.tasks && (s.tasks[t].pc.FirstLookup? || s.tasks[t].pc.SecondLookup?)
    ensures TookNoLock(s, DoLookup(s, t, ok), t)
  {
  }

  lemma CancelTakesNoLock(s: State, t: TaskId)
    requires t in s.tasks && !s.tasks[t].pc.Done?
    ensures TookNoLock(s, DoCancel(s, t), t)
  {
  }

  /** What every other step of a task does to the locks: nothing, but that
      finishing or being dropped lets the guard go. */
  lemma OtherStepIsLocal(s: State, t: TaskId, a: Action)
    requires t in s.tasks && TaskEnabled(s, s.tasks[t], a)
    requires !a.TakeArc? && !a.Acquire? && !a.Release? && !a.Leave?
    ensures TookNoLock(s, DoTask(s, t, a), t)
  {
    if a.RunLookup? {
      LookupTakesNoLock(s, t, a.ok);
    } else if a.Cancel? {
      CancelTakesNoLock(s, t);
    }
  }

  lemma CallKeepsLocks(s: State, t: TaskId, k: Key, purpose: Purpose)
    requires LockInv(s) && t !in s.tasks
    ensures LockInv(s.(tasks := s.tasks[t := Task(k, purpose, Begun)]))
  {
    var s' := s.(tasks := s.tasks[t := Task(k, purpose, Begun)]);
    forall id: LockId
      ensures Owners(s', id) == Owners(s, id)
    {
    }
  }

  lemma StepKeepsLocks(s: State, a: Action)
    requires LockInv(s) && Enabled(s, a)
    ensures LockInv(Do(s, a))
  {
    hide LockInv;
    hide DoTask;
    var s' := Do(s, a);
    match a
    case Call(t, k, purpose) => CallKeepsLocks(s, t, k, purpose);
    case RunOrphan(_, _) => SameTasksKeepLocks(s, s');
    case Evict(_) => SameTasksKeepLocks(s, s');
    case EvictPrefix(_, _) => SameTasksKeepLocks(s, s');
    case Purge(_) => SameTasksKeepLocks(s, s');
    case PlainPut(_, _, _) => SameTasksKeepLocks(s, s');
    case Tick(_) => SameTasksKeepLocks(s, s');
    case _ => TaskStepKeepsLocks(s, a.task, a);
  }

  lemma SameTasksKeepLocks(s: State, s': State)
    requires LockInv(s) && s'.tasks == s.tasks && s'.locks == s.locks && s'.held == s.held
    ensures LockInv(s')
  {
    forall id: LockId
      ensures Owners(s', id) == Owners(s, id)
    {
    }
  }

  lemma {:induction false} RunKeepsLocks(s: State, run: seq<Action>)
    requires LockInv(s) && Runs(s, run)
    ensures LockInv(After(s, run))
    decreases |run|
  {
    if run != [] {
      StepKeepsLocks(s, run[0]);
      RunKeepsLocks(Do(s, run[0]), run[1..]);
    }
  }

  lemma {:induction false} RunSnoc(s: State, run: seq<Action>, a: Action)
    requires Runs(s, run) && Enabled(After(s, run), a)
    ensures Runs(s, run + [a]) && After(s, run + [a]) == Do(After(s, run), a)
    decreases |run|
  {
    if run == [] {
      assert run + [a] == [a];
      assert [a][1..] == [];
    } else {
      assert (run + [a])[1..] == run[1..] + [a];
      RunSnoc(Do(s, run[0]), run[1..], a);
    }
  }

  lemma StepReachable(s: State, a: Action)
    requires Reachable(s) && Enabled(s, a)
    ensures Reachable(Do(s, a))
  {
    var run :| Runs(START, run) && After(START, run) == s;
    RunSnoc(START, run, a);
  }

  lemma ReachableLocks(s: State)
    requires Reachable(s)
    ensures LockInv(s)
  {
    var run :| Runs(START, run) && After(START, run) == s;
    forall id: LockId
      ensures Owners(START, id) == {}
    {
    }
    RunKeepsLocks(START, run);
  }

  /** No two tasks are inside the section of one key. */
  lemma OneInside(s: State, t: TaskId, u: TaskId)
    requires LockInv(s) && t in s.tasks && u in s.tasks
    requires Guard(s.tasks[t].pc).Some? && Guard(s.tasks[u].pc).Some?
    ensures s.tasks[t].key == s.tasks[u].key ==> t == u
  {
    assert HoldsMapped(s.locks, s.tasks[t]) && HoldsMapped(s.locks, s.tasks[u]);
  }

  /** In every reachable state, whatever was cancelled: a task between
      `lock_for` and `release_lock` holds the lock now in the map for its
      key, and no two tasks are inside the section of one key. */
  lemma SingleFlight(s: State)
    requires Reachable(s)
    ensures forall t | t in s.tasks && Between(s.tasks[t].pc) :: HoldsMapped(s.locks, s.tasks[t])
    ensures forall t, u | t in s.tasks && u in s.tasks && s.tasks[t].key == s.tasks[u].key &&
              Guard(s.tasks[t].pc).Some? && Guard(s.tasks[u].pc).Some? :: t == u
  {
    ReachableLocks(s);
    forall t, u | t in s.tasks && u in s.tasks && s.tasks[t].key == s.tasks[u].key &&
      Guard(s.tasks[t].pc).Some? && Guard(s.tasks[u].pc).Some?
      ensures t == u
    {
      OneInside(s, t, u);
    }
  }
}
