/** Clocks over whole runs of the cache: when a task was called, when each
    event was logged, and so how old an answer can be. */
module CacheClock {
  import opened Bytes
  import opened Wrappers
  import opened CacheKeys
  import opened CacheProtocol
  import opened CacheRuns
  import CacheLike

  /** The clock at each task's call, and at each event of the log. */
  datatype Times = Times(called: map<TaskId, int>, logged: seq<int>)

  function NextTimes(s: State, a: Action, h: Times): Times
    requires Enabled(s, a)
  {
    Times(if a.Call? then h.called[a.task := s.clock] else h.called,
          if |Do(s, a).log| > |s.log| then h.logged + [s.clock] else h.logged)
  }

  function TimesOf(s: State, run: seq<Action>, h: Times): Times
    requires Runs(s, run)
    decreases |run|
  {
    if run == [] then h else TimesOf(Do(s, run[0]), run[1..], NextTimes(s, run[0], h))
  }

  /** Not before the task's call, and not after `end`. */
  predicate Within(called: map<TaskId, int>, t: TaskId, time: int, end: int) {
    t in called && called[t] <= time <= end
  }

  /** The times a task carries. */
  predicate TaskTimed(s: State, called: map<TaskId, int>, t: TaskId)
    requires t in s.tasks
  {
    var pc := s.tasks[t].pc;
    && t in called && called[t] <= s.clock
    && (pc.FirstLookup? || pc.SecondLookup? ==> Within(called, t, pc.now, s.clock))
    && (pc.Storing? ==> Within(called, t, pc.row.fetchedAt, s.clock))
  }

  /** The times an event carries, logged at `end`. */
  predicate EventTimed(called: map<TaskId, int>, e: Event, end: int) {
    match e
    case Answered(t, _, _, now) => Within(called, t, now, end)
    case Stored(t, _, row) => Within(called, t, row.fetchedAt, end)
    case PutStored(t, _, row) => Within(called, t, row.fetchedAt, end)
    case PlainStored(_, row) => row.fetchedAt <= end
    case OrphanStored(o) => o.row.fetchedAt <= end
    case _ => true
  }

  ghost predicate LogTimed(called: map<TaskId, int>, log: seq<Event>, logged: seq<int>) {
    |logged| == |log| && forall j | 0 <= j < |log| :: EventTimed(called, log[j], logged[j])
  }

  ghost predicate TasksTimed(s: State, called: map<TaskId, int>) {
    called.Keys == s.tasks.Keys && forall t | t in s.tasks :: TaskTimed(s, called, t)
  }

  ghost predicate OrphansTimed(s: State) {
    forall o | o in s.orphans :: o.row.fetchedAt <= s.clock
  }

  ghost predicate Timed(s: State, h: Times) {
    TasksTimed(s, h.called) && OrphansTimed(s) && LogTimed(h.called, s.log, h.logged)
  }

  /** What a step may do to the log. */
  ghost predicate LogStep(s: State, s': State, called: map<TaskId, int>) {
    || s'.log == s.log
    || (|s'.log| == |s.log| + 1 && s'.log == s.log + [s'.log[|s.log|]]
        && EventTimed(called, s'.log[|s.log|], s.clock))
  }

  lemma LogStepTimed(s: State, s': State, h: Times)
    requires LogTimed(h.called, s.log, h.logged) && LogStep(s, s', h.called)
    ensures LogTimed(h.called, s'.log, if |s'.log| > |s.log| then h.logged + [s.clock] else h.logged)
  {
    hide EventTimed;
  }

  lemma TaskKeepsTimes(s: State, t: TaskId, a: Action, called: map<TaskId, int>)
    requires t in s.tasks && TaskEnabled(s, s.tasks[t], a) && TaskTimed(s, called, t)
    ensures var s' := DoTask(s, t, a);
      s'.clock == s.clock && Moved(s, s', t) && TaskTimed(s', called, t)
  {
    hide LockFor;
    hide ReleaseLock;
    hide DropArc;
    if a.Cancel? {
      hide DoLookup;
      hide DoStore;
    } else if a.RunLookup? {
      hide DoCancel;
      hide DoStore;
    } else {
      hide DoCancel;
      hide DoLookup;
    }
  }

  lemma TaskKeepsOrphans(s: State, t: TaskId, a: Action, called: map<TaskId, int>)
    requires t in s.tasks && TaskEnabled(s, s.tasks[t], a) && TaskTimed(s, called, t)
    ensures forall o | o in DoTask(s, t, a).orphans && o !in s.orphans :: o.row.fetchedAt <= s.clock
  {
    if a.Cancel? {
      hide Goto;
    } else {
      TaskStepFrame(s, t, a);
      hide DoTask;
    }
  }

  lemma TaskLogs(s: State, t: TaskId, a: Action, called: map<TaskId, int>)
    requires t in s.tasks && TaskEnabled(s, s.tasks[t], a) && TaskTimed(s, called, t)
    ensures LogStep(s, DoTask(s, t, a), called)
  {
    TaskEventTimed(s, t, a, called);
    TaskRecorded(s, t, a);
    hide DoTask;
    hide EventTimed;
    hide Replayed;
  }

  lemma TaskEventTimed(s: State, t: TaskId, a: Action, called: map<TaskId, int>)
    requires t in s.tasks && TaskEnabled(s, s.tasks[t], a) && TaskTimed(s, called, t)
    ensures |DoTask(s, t, a).log| > |s.log| ==> EventTimed(called, DoTask(s, t, a).log[|s.log|], s.clock)
  {
    hide LockFor;
    hide ReleaseLock;
    hide DropArc;
  }

  /** A step of a task keeps everyone's times. */
  lemma TaskStepTimed(s: State, t: TaskId, a: Action, h: Times)
    requires Timed(s, h) && t in s.tasks && TaskEnabled(s, s.tasks[t], a)
    ensures var s' := DoTask(s, t, a);
      Timed(s', Times(h.called, if |s'.log| > |s.log| then h.logged + [s.clock] else h.logged))
  {
    hide DoTask;
    hide TaskEnabled;
    hide EventTimed;
    hide LogTimed;
    hide LogStep;
    TaskKeepsTimes(s, t, a, h.called);
    TaskKeepsOrphans(s, t, a, h.called);
    TaskLogs(s, t, a, h.called);
    LogStepTimed(s, DoTask(s, t, a), h);
  }

  lemma CallTimed(s: State, a: Action, h: Times)
    requires Timed(s, h) && Enabled(s, a) && a.Call?
    ensures Timed(Do(s, a), NextTimes(s, a, h))
  {
    var s', h' := Do(s, a), NextTimes(s, a, h);
    forall j | 0 <= j < |s.log|
      ensures EventTimed(h'.called, s.log[j], h.logged[j])
    {
      assert EventTimed(h.called, s.log[j], h.logged[j]);
    }
    forall t | t in s'.tasks
      ensures TaskTimed(s', h'.called, t)
    {
      assert t in s.tasks ==> TaskTimed(s, h.called, t);
    }
  }

  lemma OtherLogs(s: State, a: Action, called: map<TaskId, int>)
    requires Enabled(s, a) && !ByTask(a) && !a.Call? && OrphansTimed(s)
    ensures LogStep(s, Do(s, a), called)
  {
    if a.RunOrphan? {
      assert a.orphan in s.orphans;
      hide TaskEnabled;
    } else {
      hide DoOrphan;
    }
  }

  lemma OtherKeepsTasks(s: State, a: Action)
    requires Enabled(s, a) && !ByTask(a) && !a.Call?
    ensures Do(s, a).tasks == s.tasks && s.clock <= Do(s, a).clock && Do(s, a).orphans <= s.orphans
  {
  }

  lemma OtherTimed(s: State, a: Action, h: Times)
    requires Timed(s, h) && Enabled(s, a) && !ByTask(a) && !a.Call?
    ensures Timed(Do(s, a), NextTimes(s, a, h))
  {
    hide Do;
    hide Enabled;
    hide EventTimed;
    hide LogTimed;
    hide LogStep;
    OtherLogs(s, a, h.called);
    OtherKeepsTasks(s, a);
    var s' := Do(s, a);
    LogStepTimed(s, s', h);
    forall t | t in s'.tasks
      ensures TaskTimed(s', h.called, t)
    {
      assert TaskTimed(s, h.called, t);
    }
  }

  lemma StepTimed(s: State, a: Action, h: Times)
    requires Timed(s, h) && Enabled(s, a)
    ensures Timed(Do(s, a), NextTimes(s, a, h))
  {
    hide Timed;
    hide DoTask;
    if a.Call? {
      CallTimed(s, a, h);
    } else if ByTask(a) {
      TaskStepTimed(s, a.task, a, h);
    } else {
      OtherTimed(s, a, h);
    }
  }

  lemma {:induction false} RunTimed(s: State, run: seq<Action>, h: Times)
    requires Timed(s, h) && Runs(s, run)
    ensures Timed(After(s, run), TimesOf(s, run, h))
    decreases |run|
  {
    hide Timed;
    hide Do;
    hide NextTimes;
    if run != [] {
      StepTimed(s, run[0], h);
      RunTimed(Do(s, run[0]), run[1..], NextTimes(s, run[0], h));
    }
  }

  const NO_TIMES := Times(map[], [])

  /** In every run: a cached answer looked at the clock between its task's
      call and the answer, and a row that a task stored is dated between the
      task's call and the store's end. */
  lemma EventsAreTimed(run: seq<Action>, j: nat)
    requires Runs(START, run) && j < |After(START, run).log|
    ensures var h := TimesOf(START, run, NO_TIMES);
      j < |h.logged| && EventTimed(h.called, After(START, run).log[j], h.logged[j])
  {
    RunTimed(START, run, NO_TIMES);
  }

  // ---- how old an answer can be ----

  /** What an event stores, if anything, under this key. */
  function StoredRow(e: Event, k: Key): Option<Row> {
    match e
    case Stored(_, key, row) => if key == k then Some(row) else None
    case PutStored(_, key, row) => if key == k then Some(row) else None
    case PlainStored(key, row) => if key == k then Some(row) else None
    case OrphanStored(o) => if o.key == k then Some(o.row) else None
    case _ => None
  }

  /** The row of a key is what was last stored under it, and not forgotten
      since. */
  lemma {:induction false} RowWasStored(log: seq<Event>, k: Key) returns (i: nat)
    requires k in Replay(log)
    ensures i < |log| && StoredRow(log[i], k) == Some(Replay(log)[k])
    ensures forall m | i < m < |log| :: StoredRow(log[m], k).None? && !(log[m].Forgotten? && k in log[m].keys)
  {
    var last := |log| - 1;
    if StoredRow(log[last], k).Some? {
      i := last;
    } else {
      i := RowWasStored(log[..last], k);
      assert forall m | 0 <= m < last :: log[..last][m] == log[m];
    }
  }

  /** How long an answer is good for, in seconds. */
  function Lifetime(ns: Namespace, found: bool): nat {
    match ns
    case Identity => if found then 86_400 else 600
    case Handle => if found then 3_600 else 300
    case Publication => if found then 900 else 300
    case DocumentList => 300
    case Document => if found then 3_600 else 300
    case BlueskyThread => 300
    case Image => if found then 21_600 else 3_600
    case PlaceSearch => if found then 86_400 else 3_600
  }

  lemma LifetimeIsTtl(ns: Namespace, found: bool)
    ensures Lifetime(ns, found) == if found then Ttl(ns) else NegativeTtl(ns)
  {
  }

  /** In every run, every cached answer is the row last stored under its own
      namespace and key, not forgotten since; and that store ended less than
      the answer's lifetime before the task that got it was called. */
  lemma AnswersAreYoung(run: seq<Action>, j: nat) returns (i: nat)
    requires Runs(START, run) && j < |After(START, run).log| && After(START, run).log[j].Answered?
    ensures var log, h, e := After(START, run).log, TimesOf(START, run, NO_TIMES), After(START, run).log[j];
      && |h.logged| == |log| && e.task in h.called
      && i < j && StoredRow(log[i], e.key).Some? && StoredRow(log[i], e.key).value.value == e.value
      && (forall m | i < m < j :: StoredRow(log[m], e.key).None? && !(log[m].Forgotten? && e.key in log[m].keys))
      && h.called[e.task] - h.logged[i] < Lifetime(e.key.ns, e.value.Some?)
  {
    hide Runs;
    hide After;
    hide TimesOf;
    hide EventTimed;
    var s, h := After(START, run), TimesOf(START, run, NO_TIMES);
    var e := s.log[j];
    RunTimed(START, run, NO_TIMES) by {
      assert Timed(START, NO_TIMES);
    }
    assert Reachable(s);
    AnswersAreFresh(s, j);
    i := RowWasStored(s.log[..j], e.key);
    LifetimeIsTtl(e.key.ns, e.value.Some?);
    StoredByThen(h.called, s.log[i], e.key, h.logged[i]);
    AnsweredWithin(h.called, e, h.logged[j]);
    assert forall m | 0 <= m < j :: s.log[..j][m] == s.log[m];
  }

  lemma StoredByThen(called: map<TaskId, int>, e: Event, k: Key, end: int)
    requires EventTimed(called, e, end) && StoredRow(e, k).Some?
    ensures StoredRow(e, k).value.fetchedAt <= end
  {
  }

  lemma AnsweredWithin(called: map<TaskId, int>, e: Event, end: int)
    requires EventTimed(called, e, end) && e.Answered?
    ensures Within(called, e.task, e.now, end)
  {
  }

  // ---- a live row is answered ----

  /** A reader about to look, before it takes the lock or inside it, is
      answered by a row that has not expired: it does not fetch. */
  lemma LiveRowIsAnswered(s: State, t: TaskId)
    requires t in s.tasks && s.tasks[t].purpose.ReadThrough? && (s.tasks[t].pc.Begun? || s.tasks[t].pc.Entered?)
    requires s.tasks[t].key in s.rows && s.rows[s.tasks[t].key].expiresAt > s.clock
    ensures var k := s.tasks[t].key;
      && Enabled(s, ReadClock(t)) && Enabled(Do(s, ReadClock(t)), RunLookup(t, true))
      && var s' := Do(Do(s, ReadClock(t)), RunLookup(t, true));
         && s'.log == s.log + [Answered(t, k, s.rows[k].value, s.clock)] && s'.rows == s.rows
         && s'.tasks == s.tasks[t := s.tasks[t].(pc :=
              if s.tasks[t].pc.Begun? then Done else Unlocking(s.tasks[t].pc.lock))]
  {
    var m := Do(s, ReadClock(t));
    assert m.tasks[t].pc.FirstLookup? || m.tasks[t].pc.SecondLookup?;
    assert m == Goto(s, t, m.tasks[t].pc);
  }

  // ---- what is stored, and what is forgotten ----

  /** No step of the run is this task's. */
  predicate LeavesAlone(run: seq<Action>, t: TaskId) {
    forall a | a in run && ByTask(a) :: a.task != t
  }

  lemma {:induction false} OthersLeaveTask(s: State, run: seq<Action>, t: TaskId)
    requires t in s.tasks && Runs(s, run) && LeavesAlone(run, t)
    ensures t in After(s, run).tasks && After(s, run).tasks[t] == s.tasks[t]
    decreases |run|
  {
    if run != [] {
      assert run[0] in run && forall a | a in run[1..] :: a in run;
      StepFrame(s, run[0]);
      hide Do;
      OthersLeaveTask(Do(s, run[0]), run[1..], t);
    }
  }

  /** What a fetch returned is what its task stores, whatever others do in
      between. */
  lemma FetchedIsStored(s: State, t: TaskId, value: Option<Bytes>, run: seq<Action>)
    requires t in s.tasks && s.tasks[t].pc.Fetching? && s.tasks[t].purpose.ReadThrough?
    requires Runs(Do(s, FetchOk(t, value)), run) && LeavesAlone(run, t)
    ensures var k, m := s.tasks[t].key, After(Do(s, FetchOk(t, value)), run);
      && Enabled(m, RunStore(t, true))
      && var s' := Do(m, RunStore(t, true));
         && k in s'.rows && s'.rows[k].value == value && s'.rows[k].fetchedAt == s.clock
         && s'.log == m.log + [Stored(t, k, s'.rows[k])]
  {
    OthersLeaveTask(Do(s, FetchOk(t, value)), run, t);
    hide After;
    hide Runs;
  }

  /** What `put_bytes` was given is what its task stores. */
  lemma PutIsStored(s: State, t: TaskId, value: Bytes, run: seq<Action>)
    requires t in s.tasks && s.tasks[t].pc.Entered? && s.tasks[t].purpose == PutBytes(value)
    requires Runs(Do(s, ReadClock(t)), run) && LeavesAlone(run, t)
    ensures var k, m := s.tasks[t].key, After(Do(s, ReadClock(t)), run);
      && Enabled(m, RunStore(t, true))
      && var s' := Do(m, RunStore(t, true));
         && k in s'.rows && s'.rows[k].value == Some(value) && s'.rows[k].fetchedAt == s.clock
         && s'.log == m.log + [PutStored(t, k, s'.rows[k])]
  {
    OthersLeaveTask(Do(s, ReadClock(t)), run, t);
    hide After;
    hide Runs;
  }

  /** What a deletion is meant for. */
  predicate IsMeant(a: Action, k: Key, row: Row) {
    match a
    case Evict(key) => k == key
    case EvictPrefix(ns, prefix) => k.ns == ns && CacheLike.StartsWithFolded(k.name, prefix)
    case Purge(asOf) => row.expiresAt <= asOf
    case _ => false
  }

  /** A deletion forgets exactly what it is meant for. */
  lemma ForgetsExactly(s: State, a: Action)
    requires Enabled(s, a) && (a.Evict? || a.EvictPrefix? || a.Purge?)
    ensures forall k :: k in Do(s, a).rows <==> k in s.rows && !IsMeant(a, k, s.rows[k])
    ensures forall k | k in Do(s, a).rows :: Do(s, a).rows[k] == s.rows[k]
  {
    if a.EvictPrefix? {
      forall k: Key
        ensures CacheLike.Matches(k.name, a.prefix) <==> CacheLike.StartsWithFolded(k.name, a.prefix)
      {
        CacheLike.PatternIsPrefixTest(a.prefix, k.name);
      }
    }
    hide CacheLike.Matches;
    hide CacheLike.StartsWithFolded;
  }

  /** A database step that fails changes no row: a failed read is a miss, and
      a failed store is told as the fetch's or the put's. */
  lemma FailuresChangeNoRow(s: State, a: Action)
    requires Enabled(s, a)
    requires (a.RunLookup? || a.RunStore? || a.RunOrphan?) && !a.ok
    ensures Do(s, a).rows == s.rows
    ensures a.RunLookup? ==> var was, pc := s.tasks[a.task].pc, Do(s, a).tasks[a.task].pc;
      pc == (if was.FirstLookup? then NeedsLock else Fetching(was.lock))
      && Do(s, a).log == s.log + (if was.FirstLookup? then [] else [ReadFailed(s.tasks[a.task].key)])
    ensures a.RunStore? ==> var task := s.tasks[a.task];
      Do(s, a).log == s.log + [if task.purpose.PutBytes? then PutFailed(task.key) else StoreFailed(task.key)]
      && Do(s, a).tasks[a.task].pc == Unlocking(task.pc.lock)
    ensures a.RunOrphan? ==> Do(s, a).log == s.log && Do(s, a).orphans == s.orphans - multiset{a.orphan}
  {
  }
}
