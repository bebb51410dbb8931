/** What the single-flight cache promises over whole runs: how often a key
    is fetched, what a stored preview is worth, where each answer came from. */
module CacheRuns {
  import opened Bytes
  import opened Wrappers
  import opened CacheKeys
  import opened CacheProtocol

  // ---- the rows are what the log says ----

  function Replayed(rows: map<Key, Row>, e: Event): map<Key, Row> {
    match e
    case Stored(_, k, row) => rows[k := row]
    case PutStored(_, k, row) => rows[k := row]
    case PlainStored(k, row) => rows[k := row]
    case OrphanStored(o) => rows[o.key := o.row]
    case Forgotten(keys) => rows - keys
    case _ => rows
  }

  /** The table after these events, and nothing else. */
  function Replay(log: seq<Event>): map<Key, Row> {
    if log == [] then map[] else Replayed(Replay(log[..|log| - 1]), log[|log| - 1])
  }

  /** A cached answer is the value last stored under that very key, not
      forgotten since, and was younger than the time its kind is kept when
      its lookup read the clock. */
  ghost predicate AnswerOk(before: seq<Event>, e: Event) {
    e.Answered? ==>
      var rows := Replay(before);
      && e.key in rows
      && rows[e.key].value == e.value
      && e.now - rows[e.key].fetchedAt < if e.value.Some? then Ttl(e.key.ns) else NegativeTtl(e.key.ns)
  }

  ghost predicate AnswersOk(log: seq<Event>) {
    forall j | 0 <= j < |log| :: AnswerOk(log[..j], log[j])
  }

  ghost predicate RowOk(k: Key, row: Row) {
    row == MakeRow(k, row.value, row.fetchedAt)
  }

  /** Every row, stored or on its way, carries its kind's lifetime. */
  ghost predicate ShapesOk(s: State) {
    && (forall k | k in s.rows :: RowOk(k, s.rows[k]))
    && (forall o | o in s.orphans :: RowOk(o.key, o.row))
    && (forall t | t in s.tasks && s.tasks[t].pc.Storing? :: RowOk(s.tasks[t].key, s.tasks[t].pc.row))
  }

  ghost predicate RowsInv(s: State) {
    s.rows == Replay(s.log) && AnswersOk(s.log) && ShapesOk(s)
  }

  /** Nothing was logged and no row changed, or one event was, and the
      rows changed as it says. */
  ghost predicate Recorded(s: State, s': State) {
    || (s'.log == s.log && s'.rows == s.rows)
    || (|s'.log| == |s.log| + 1 && s'.log == s.log + [s'.log[|s.log|]] && s'.rows == Replayed(s.rows, s'.log[|s.log|]))
  }

  lemma LookupRecorded(s: State, t: TaskId, ok: bool)
    requires t in s.tasks && (s.tasks[t].pc.FirstLookup? || s.tasks[t].pc.SecondLookup?)
    ensures Recorded(s, DoLookup(s, t, ok))
  {
  }

  lemma StoreRecorded(s: State, t: TaskId, ok: bool)
    requires t in s.tasks && s.tasks[t].pc.Storing?
    ensures Recorded(s, DoStore(s, t, ok))
  {
  }

  lemma CancelRecorded(s: State, t: TaskId)
    requires t in s.tasks && !s.tasks[t].pc.Done?
    ensures Recorded(s, DoCancel(s, t))
  {
  }

  lemma TaskRecorded(s: State, t: TaskId, a: Action)
    requires t in s.tasks && TaskEnabled(s, s.tasks[t], a)
    ensures Recorded(s, DoTask(s, t, a))
  {
    if a.RunLookup? {
      LookupRecorded(s, t, a.ok);
    } else if a.RunStore? {
      StoreRecorded(s, t, a.ok);
    } else if a.Cancel? {
      CancelRecorded(s, t);
    }
  }

  lemma OtherRecorded(s: State, a: Action)
    requires Enabled(s, a) && !ByTask(a)
    ensures Recorded(s, Do(s, a))
  {
    var s' := Do(s, a);
    if a.Evict? || a.EvictPrefix? || a.Purge? {
      assert s'.rows == Replayed(s.rows, s'.log[|s.log|]);
    }
  }

  lemma OneEvent(s: State, a: Action)
    requires Enabled(s, a)
    ensures Recorded(s, Do(s, a))
  {
    hide Recorded;
    hide DoTask;
    if ByTask(a) {
      TaskRecorded(s, a.task, a);
    } else {
      OtherRecorded(s, a);
    }
  }

  predicate ByTask(a: Action) {
    !a.Call? && !a.RunOrphan? && !a.PlainPut? && !a.Tick? && !a.Evict? && !a.EvictPrefix? && !a.Purge?
  }

  /** How a task's step touches what is to be stored: only a put that
      read the clock or a fetch that succeeded begins to store; storing
      ends by the store running or by the task being dropped. */
  ghost predicate TaskFrame(s: State, s': State, t: TaskId, a: Action)
    requires t in s.tasks
  {
    var task := s.tasks[t];
    && Moved(s, s', t) && s'.tasks[t].purpose == task.purpose
    && (s'.tasks[t].pc.Storing? ==> RowOk(task.key, s'.tasks[t].pc.row))
    && (s'.tasks[t].pc.Storing? ==> (a.ReadClock? && task.purpose.PutBytes?) || a.FetchOk?)
    && (task.pc.Storing? ==> a.RunStore? || a.Cancel?)
    && (s'.tasks[t].pc.SecondLookup? ==> task.purpose.ReadThrough?)
    && (s'.tasks[t].pc.Fetching? ==> a.RunLookup? && task.pc.SecondLookup? && s' == DoLookup(s, t, a.ok))
    && (a.FetchOk? ==> task.pc.Fetching? && s'.tasks[t].pc.Storing? && s'.log == s.log + [Fetched(t, task.key)])
    && (a.Cancel? && task.pc.Storing? && task.purpose.ReadThrough? ==> s'.log == s.log + [Abandoned(task.key)])
    && (a.RunStore? ==> task.pc.Storing? && s' == DoStore(s, t, a.ok))
    && (s'.orphans == s.orphans ||
        (a.Cancel? && task.pc.Storing? &&
         s'.orphans == s.orphans + multiset{Orphan(task.key, task.pc.row, task.purpose.ReadThrough?)}))
  }

  /** Of the last event. */
  ghost predicate EventFrame(s: State, s': State, a: Action) {
    |s'.log| > |s.log| ==>
      var e := s'.log[|s.log|];
      && (e.Fetched? ==> a.FetchOk?)
      && (e.Stored? ==> a.RunStore?)
      && (e.OrphanStored? ==> e.orphan in s.orphans)
      && (e.Answered? ==> a.RunLookup?)
  }

  /** Everything a step does that these proofs need. */
  ghost predicate Frame(s: State, s': State, a: Action) {
    && Recorded(s, s')
    && EventFrame(s, s', a)
    && if ByTask(a) then a.task in s.tasks && TaskFrame(s, s', a.task, a)
       else
         && s'.orphans <= s.orphans
         && (forall u | u in s.tasks :: u in s'.tasks && s'.tasks[u] == s.tasks[u])
         && (forall u | u in s'.tasks && u !in s.tasks :: s'.tasks[u].pc.Begun?)
  }

  lemma TaskStepFrame(s: State, t: TaskId, a: Action)
    requires t in s.tasks && TaskEnabled(s, s.tasks[t], a)
    ensures TaskFrame(s, DoTask(s, t, a), t, a)
  {
  }

  lemma TaskEventFrame(s: State, t: TaskId, a: Action)
    requires t in s.tasks && TaskEnabled(s, s.tasks[t], a)
    ensures EventFrame(s, DoTask(s, t, a), a)
  {
  }

  lemma OtherFrame(s: State, a: Action)
    requires Enabled(s, a) && !ByTask(a)
    ensures EventFrame(s, Do(s, a), a)
    ensures Do(s, a).orphans <= s.orphans
    ensures forall u | u in s.tasks :: u in Do(s, a).tasks && Do(s, a).tasks[u] == s.tasks[u]
    ensures forall u | u in Do(s, a).tasks && u !in s.tasks :: Do(s, a).tasks[u].pc.Begun?
  {
  }

  lemma StepFrame(s: State, a: Action)
    requires Enabled(s, a)
    ensures Frame(s, Do(s, a), a)
  {
    hide Recorded;
    hide TaskFrame;
    hide EventFrame;
    hide DoTask;
    OneEvent(s, a);
    if ByTask(a) {
      TaskStepFrame(s, a.task, a);
      TaskEventFrame(s, a.task, a);
    } else {
      OtherFrame(s, a);
    }
  }

  lemma FrameKeepsShapes(s: State, s': State, a: Action)
    requires ShapesOk(s) && Frame(s, s', a)
    requires forall k | k in s'.rows :: RowOk(k, s'.rows[k])
    ensures ShapesOk(s')
  {
    forall t | t in s'.tasks && s'.tasks[t].pc.Storing?
      ensures RowOk(s'.tasks[t].key, s'.tasks[t].pc.row)
    {
    }
    forall o | o in s'.orphans
      ensures RowOk(o.key, o.row)
    {
    }
  }

  /** A row that a step stores carries its kind's lifetime. */
  ghost predicate StoresOk(s: State, s': State) {
    |s'.log| > |s.log| ==>
      var e := s'.log[|s.log|];
      && (e.Stored? || e.PutStored? || e.PlainStored? ==> RowOk(e.key, e.row))
      && (e.OrphanStored? ==> RowOk(e.orphan.key, e.orphan.row))
  }

  lemma TaskStoresOk(s: State, t: TaskId, a: Action)
    requires ShapesOk(s) && t in s.tasks && TaskEnabled(s, s.tasks[t], a)
    ensures StoresOk(s, DoTask(s, t, a))
  {
  }

  lemma OtherStoresOk(s: State, a: Action)
    requires ShapesOk(s) && Enabled(s, a) && !ByTask(a)
    ensures StoresOk(s, Do(s, a))
  {
  }

  lemma StepKeepsRowShapes(s: State, a: Action)
    requires ShapesOk(s) && Enabled(s, a)
    ensures forall k | k in Do(s, a).rows :: RowOk(k, Do(s, a).rows[k])
  {
    OneEvent(s, a);
    hide RowOk;
    hide DoTask;
    if ByTask(a) {
      TaskStoresOk(s, a.task, a);
    } else {
      OtherStoresOk(s, a);
    }
    hide Do;
  }

  lemma StepKeepsShapes(s: State, a: Action)
    requires ShapesOk(s) && Enabled(s, a)
    ensures ShapesOk(Do(s, a))
  {
    StepFrame(s, a);
    StepKeepsRowShapes(s, a);
    FrameKeepsShapes(s, Do(s, a), a);
  }

  lemma LookupAnswersOk(s: State, t: TaskId, ok: bool)
    requires RowsInv(s) && t in s.tasks && (s.tasks[t].pc.FirstLookup? || s.tasks[t].pc.SecondLookup?)
    requires |DoLookup(s, t, ok).log| > |s.log|
    ensures AnswerOk(s.log, DoLookup(s, t, ok).log[|s.log|])
  {
    var task := s.tasks[t];
    assert task.key in s.rows ==> RowOk(task.key, s.rows[task.key]);
  }

  lemma StepAnswersOk(s: State, a: Action)
    requires RowsInv(s) && Enabled(s, a) && |Do(s, a).log| > |s.log|
    ensures AnswerOk(s.log, Do(s, a).log[|s.log|])
  {
    hide RowsInv;
    if a.RunLookup? {
      hide AnswerOk;
      LookupAnswersOk(s, a.task, a.ok);
    } else {
      StepFrame(s, a);
      hide Do;
    }
  }

  lemma ReplaySnoc(log: seq<Event>, e: Event)
    ensures Replay(log + [e]) == Replayed(Replay(log), e)
  {
    assert (log + [e])[..|log|] == log;
  }

  lemma AnswersSnoc(log: seq<Event>, e: Event)
    requires AnswersOk(log) && AnswerOk(log, e)
    ensures AnswersOk(log + [e])
  {
    var log' := log + [e];
    forall j | 0 <= j < |log'|
      ensures AnswerOk(log'[..j], log'[j])
    {
      if j < |log| {
        assert log'[..j] == log[..j];
      } else {
        assert log'[..j] == log;
      }
    }
  }

  lemma StepKeepsRows(s: State, a: Action)
    requires RowsInv(s) && Enabled(s, a)
    ensures RowsInv(Do(s, a))
  {
    var s' := Do(s, a);
    OneEvent(s, a);
    StepKeepsShapes(s, a);
    if s'.log != s.log {
      StepAnswersOk(s, a);
      ReplaySnoc(s.log, s'.log[|s.log|]);
      AnswersSnoc(s.log, s'.log[|s.log|]);
    }
  }

  lemma {:induction false} RunKeepsRows(s: State, run: seq<Action>)
    requires RowsInv(s) && Runs(s, run)
    ensures RowsInv(After(s, run))
    decreases |run|
  {
    if run != [] {
      StepKeepsRows(s, run[0]);
      RunKeepsRows(Do(s, run[0]), run[1..]);
    }
  }

  /** In every run, every cached answer was stored under its own namespace
      and key and was in its positive or negative time. */
  lemma AnswersAreFresh(s: State, j: nat)
    requires Reachable(s) && j < |s.log| && s.log[j].Answered?
    ensures AnswerOk(s.log[..j], s.log[j])
  {
    var run :| Runs(START, run) && After(START, run) == s;
    RunKeepsRows(START, run);
  }

  // ---- one fetch at a time ----

  /** Why a key may be fetched again: its row was deleted or found
      expired, the store failed or its caller was dropped before it, or
      the database could not be read. */
  predicate Excuses(e: Event, k: Key) {
    match e
    case Abandoned(key) => key == k
    case StoreFailed(key) => key == k
    case Forgotten(keys) => k in keys
    case FoundExpired(key, row, now) => key == k && row.expiresAt <= now
    case ReadFailed(key) => key == k
    case _ => false
  }

  /** `k` was fetched and nothing since excuses another fetch. */
  predicate Unexcused(log: seq<Event>, k: Key) {
    log != [] &&
    var e := log[|log| - 1];
    !Excuses(e, k) && ((e.Fetched? && e.key == k) || Unexcused(log[..|log| - 1], k))
  }

  ghost predicate StoringFetched(s: State, k: Key) {
    exists t :: t in s.tasks && s.tasks[t].key == k && s.tasks[t].purpose.ReadThrough? && s.tasks[t].pc.Storing?
  }

  ghost predicate FetchInv(s: State) {
    && (forall k :: Unexcused(s.log, k) ==> k in s.rows || StoringFetched(s, k))
    && (forall t | t in s.tasks && s.tasks[t].pc.Fetching? :: !Unexcused(s.log, s.tasks[t].key))
    && (forall t | t in s.tasks && (s.tasks[t].pc.Fetching? || s.tasks[t].pc.SecondLookup?) ::
          s.tasks[t].purpose.ReadThrough?)
    && Separated(s.log)
  }

  /** Between two fetches of a key lies an excuse. */
  ghost predicate Separated(log: seq<Event>) {
    forall j | 0 <= j < |log| && log[j].Fetched? :: !Unexcused(log[..j], log[j].key)
  }

  lemma UnexcusedSnoc(log: seq<Event>, e: Event, k: Key)
    ensures Unexcused(log + [e], k) <==> !Excuses(e, k) && ((e.Fetched? && e.key == k) || Unexcused(log, k))
  {
    assert (log + [e])[..|log|] == log;
  }

  lemma SeparatedSnoc(log: seq<Event>, e: Event)
    requires Separated(log) && (e.Fetched? ==> !Unexcused(log, e.key))
    ensures Separated(log + [e])
  {
    var log' := log + [e];
    forall j | 0 <= j < |log'| && log'[j].Fetched?
      ensures !Unexcused(log'[..j], log'[j].key)
    {
      assert log'[..j] == if j < |log| then log[..j] else log;
    }
  }

  lemma NobodyElseStores(s: State, t: TaskId)
    requires LockInv(s) && t in s.tasks && Guard(s.tasks[t].pc).Some? && !s.tasks[t].pc.Storing?
    ensures !StoringFetched(s, s.tasks[t].key)
  {
    forall u | u in s.tasks && s.tasks[u].key == s.tasks[t].key && s.tasks[u].pc.Storing?
      ensures u == t
    {
      OneInside(s, t, u);
    }
  }

  /** A task about to fetch finds no fetch of its key unexcused: the lock
      keeps other storers out, and its lookup just missed. */
  lemma MissIsExcused(s: State, t: TaskId, ok: bool)
    requires LockInv(s) && FetchInv(s) && t in s.tasks && s.tasks[t].pc.SecondLookup?
    requires DoLookup(s, t, ok).tasks[t].pc.Fetching?
    ensures !Unexcused(DoLookup(s, t, ok).log, s.tasks[t].key)
  {
    var k := s.tasks[t].key;
    var s' := DoLookup(s, t, ok);
    if s'.log == s.log {
      NobodyElseStores(s, t);
    } else {
      UnexcusedSnoc(s.log, s'.log[|s.log|], k);
    }
  }

  lemma FrameKeepsRowOrStorer(s: State, s': State, a: Action, k: Key)
    requires FetchInv(s) && Frame(s, s', a) && Unexcused(s'.log, k)
    ensures k in s'.rows || StoringFetched(s', k)
  {
    if s'.log != s.log {
      UnexcusedSnoc(s.log, s'.log[|s.log|], k);
    }
    if a.FetchOk? && s.tasks[a.task].key == k {
      assert s'.tasks[a.task].pc.Storing?;
    } else if k !in s.rows {
      var u :| u in s.tasks && s.tasks[u].key == k && s.tasks[u].purpose.ReadThrough? && s.tasks[u].pc.Storing?;
      if u in s'.tasks && s'.tasks[u] == s.tasks[u] {
        assert StoringFetched(s', k);
      } else {
        assert s' == DoStore(s, u, a.ok) || s'.log == s.log + [Abandoned(k)];
      }
    }
  }

  lemma FrameKeepsFetcherExcused(s: State, s': State, a: Action, t: TaskId)
    requires LockInv(s) && FetchInv(s) && Frame(s, s', a)
    requires t in s'.tasks && s'.tasks[t].pc.Fetching?
    ensures !Unexcused(s'.log, s'.tasks[t].key)
  {
    var k := s'.tasks[t].key;
    if s'.log != s.log {
      UnexcusedSnoc(s.log, s'.log[|s.log|], k);
    }
    if ByTask(a) {
      if a.task == t {
        MissIsExcused(s, t, a.ok);
      } else if a.FetchOk? {
        OneInside(s, t, a.task);
      }
    }
  }

  lemma FrameKeepsSeparated(s: State, s': State, a: Action)
    requires FetchInv(s) && Frame(s, s', a)
    ensures Separated(s'.log)
    ensures forall t | t in s'.tasks && (s'.tasks[t].pc.Fetching? || s'.tasks[t].pc.SecondLookup?) ::
              s'.tasks[t].purpose.ReadThrough?
  {
    hide DoLookup;
    hide DoStore;
    hide Unexcused;
    hide RowOk;
    if s'.log != s.log {
      SeparatedSnoc(s.log, s'.log[|s.log|]);
    }
  }

  lemma StepKeepsFetches(s: State, a: Action)
    requires LockInv(s) && FetchInv(s) && Enabled(s, a)
    ensures FetchInv(Do(s, a))
  {
    hide Do;
    hide Frame;
    hide Unexcused;
    hide Separated;
    hide LockInv;
    hide StoringFetched;
    var s' := Do(s, a);
    StepFrame(s, a);
    FrameKeepsSeparated(s, s', a);
    forall k | Unexcused(s'.log, k)
      ensures k in s'.rows || StoringFetched(s', k)
    {
      FrameKeepsRowOrStorer(s, s', a, k);
    }
    forall t | t in s'.tasks && s'.tasks[t].pc.Fetching?
      ensures !Unexcused(s'.log, s'.tasks[t].key)
    {
      FrameKeepsFetcherExcused(s, s', a, t);
    }
  }

  lemma {:induction false} RunKeepsFetches(s: State, run: seq<Action>)
    requires LockInv(s) && FetchInv(s) && Runs(s, run)
    ensures FetchInv(After(s, run))
    decreases |run|
  {
    if run != [] {
      StepKeepsLocks(s, run[0]);
      StepKeepsFetches(s, run[0]);
      RunKeepsFetches(Do(s, run[0]), run[1..]);
    }
  }

  lemma {:induction false} ExcuseBetween(log: seq<Event>, i: nat, k: Key) returns (m: nat)
    requires i < |log| && log[i].Fetched? && log[i].key == k && !Unexcused(log, k)
    ensures i < m < |log| && Excuses(log[m], k)
    decreases |log|
  {
    if Excuses(log[|log| - 1], k) {
      m := |log| - 1;
    } else {
      m := ExcuseBetween(log[..|log| - 1], i, k);
    }
  }

  /** In every run, between two successful fetches of one key its row
      expired or was deleted, its store failed, its caller was dropped, or
      a read failed. */
  lemma FetchesAreSeparated(s: State, i: nat, j: nat)
    requires Reachable(s) && i < j < |s.log|
    requires s.log[i].Fetched? && s.log[j].Fetched? && s.log[i].key == s.log[j].key
    ensures exists m :: i < m < j && Excuses(s.log[m], s.log[i].key)
  {
    var run :| Runs(START, run) && After(START, run) == s;
    ReachableLocks(START) by {
      assert Runs(START, []) && After(START, []) == START;
    }
    RunKeepsFetches(START, run);
    var m := ExcuseBetween(s.log[..j], i, s.log[i].key);
    assert s.log[..j][m] == s.log[m];
  }

  // ---- what `put_bytes` is worth ----

  /** What may take a stored preview away or replace it: forgetting it,
      its expiry, a failed read, or another explicit write. */
  predicate Unpins(e: Event, k: Key) {
    match e
    case Forgotten(keys) => k in keys
    case FoundExpired(key, _, _) => key == k
    case ReadFailed(key) => key == k
    case PlainStored(key, _) => key == k
    case PutStored(_, key, _) => key == k
    case OrphanStored(o) => o.key == k && !o.fetched
    case _ => false
  }

  /** Nothing in the run unpins `k`. */
  predicate Quiet(s: State, run: seq<Action>, k: Key)
    requires Runs(s, run)
    decreases |run|
  {
    run == [] ||
    (var s' := Do(s, run[0]);
     (forall i | |s.log| <= i < |s'.log| :: !Unpins(s'.log[i], k)) && Quiet(s', run[1..], k))
  }

  /** In every run that does not itself forget the row of `k`, find it
      expired, fail to read it or write it explicitly, the row stays: no
      fetch replaces it. */
  ghost predicate Safe(s: State, k: Key, row: Row) {
    forall run | Runs(s, run) && Quiet(s, run, k) :: k in After(s, run).rows && After(s, run).rows[k] == row
  }

  /** A fetch's store of `k` outlived its caller and would change the row. */
  ghost predicate StaleFetchQueued(s: State, k: Key, row: Row) {
    exists o :: o in s.orphans && o.key == k && o.fetched && o.row != row
  }

  ghost predicate Pinned(s: State, k: Key, row: Row) {
    && k in s.rows && s.rows[k] == row
    && !StaleFetchQueued(s, k, row)
    && (forall t | t in s.tasks && s.tasks[t].key == k && (s.tasks[t].pc.Fetching? || s.tasks[t].pc.Storing?) ::
          s.tasks[t].purpose.PutBytes?)
  }

  lemma QuietFrameKeepsPinned(s: State, s': State, a: Action, k: Key, row: Row)
    requires Pinned(s, k, row) && Frame(s, s', a)
    requires forall i | |s.log| <= i < |s'.log| :: !Unpins(s'.log[i], k)
    ensures Pinned(s', k, row)
  {
    if s'.log != s.log {
      var e := s'.log[|s.log|];
      assert !Unpins(e, k);
    }
  }

  lemma {:induction false} QuietRunKeepsPinned(s: State, run: seq<Action>, k: Key, row: Row)
    requires Pinned(s, k, row) && Runs(s, run) && Quiet(s, run, k)
    ensures Pinned(After(s, run), k, row)
    decreases |run|
  {
    if run != [] {
      StepFrame(s, run[0]);
      QuietFrameKeepsPinned(s, Do(s, run[0]), run[0], k, row);
      QuietRunKeepsPinned(Do(s, run[0]), run[1..], k, row);
    }
  }

  /** After a `put_bytes` succeeds its value stays, in every run that does
      not forget the key, find it expired, fail to read it or write it
      explicitly, if and only if no fetch's differing store of that key is
      left in the database's queue by a caller that was dropped. */
  lemma PutSurvivesIff(s: State, t: TaskId)
    requires Reachable(s) && t in s.tasks && s.tasks[t].purpose.PutBytes? && s.tasks[t].pc.Storing?
    ensures var k, row, s' := s.tasks[t].key, s.tasks[t].pc.row, Do(s, RunStore(t, true));
      Safe(s', k, row) <==> !StaleFetchQueued(s', k, row)
  {
    var k, row, s' := s.tasks[t].key, s.tasks[t].pc.row, Do(s, RunStore(t, true));
    ReachableLocks(s);
    forall u | u in s.tasks && s.tasks[u].key == k && (s.tasks[u].pc.Fetching? || s.tasks[u].pc.Storing?)
      ensures u == t
    {
      OneInside(s, t, u);
    }
    if StaleFetchQueued(s', k, row) {
      var o :| o in s'.orphans && o.key == k && o.fetched && o.row != row;
      OrphanReplaces(s', o);
    } else {
      forall run | Runs(s', run) && Quiet(s', run, k)
        ensures k in After(s', run).rows && After(s', run).rows[k] == row
      {
        QuietRunKeepsPinned(s', run, k, row);
      }
    }
  }

  lemma OneStepRun(s: State, a: Action, k: Key)
    requires Enabled(s, a)
    ensures Runs(s, [a]) && After(s, [a]) == Do(s, a)
    ensures Quiet(s, [a], k) <==> forall i | |s.log| <= i < |Do(s, a).log| :: !Unpins(Do(s, a).log[i], k)
  {
    hide Do;
    hide Unpins;
    hide Enabled;
    var run := [a];
    assert run[1..] == [];
  }

  lemma OrphanReplaces(s: State, o: Orphan)
    requires o in s.orphans && o.fetched
    ensures var run := [RunOrphan(o, true)];
      Runs(s, run) && Quiet(s, run, o.key) && o.key in After(s, run).rows && After(s, run).rows[o.key] == o.row
  {
    hide Runs;
    hide After;
    hide Quiet;
    OneStepRun(s, RunOrphan(o, true), o.key);
  }

  /** Such a run exists: a fetch is dropped while its store waits for the
      database, a preview is put, and then the old store runs. */
  lemma DroppedFetchReplacesPut(k: Key, stale: Option<Bytes>, preview: Bytes) returns (s: State, row: Row)
    ensures Reachable(s) && row.value == Some(preview)
    ensures |s.log| == 4 && s.log[2] == PutStored(1, k, row)
    ensures k in s.rows && s.rows[k].value == stale
  {
    s := FetchBegins(k);
    s := FetchIsDropped(s, k, stale);
    s, row := PutSucceeds(s, k, preview);
    s := Step(s, RunOrphan(Orphan(k, MakeRow(k, stale, 0), true), true));
  }

  lemma FetchBegins(k: Key) returns (s: State)
    ensures Reachable(s) && s.clock == 0 && s.rows == map[] && s.log == [] && s.orphans == multiset{} && s.held == {0}
    ensures s.tasks == map[0 := Task(k, ReadThrough, Entered(0))]
  {
    assert Runs(START, []) && After(START, []) == START;
    s := Step(START, Call(0, k, ReadThrough));
    s := Step(s, ReadClock(0));
    s := Step(s, RunLookup(0, true));
    s := FetchEnters(s, k);
  }

  lemma FetchEnters(s0: State, k: Key) returns (s: State)
    requires Reachable(s0) && s0.clock == 0 && s0.rows == map[] && s0.log == []
    requires s0.orphans == multiset{} && s0.held == {}
    requires s0.locks == START.locks && s0.tasks == map[0 := Task(k, ReadThrough, NeedsLock)]
    ensures Reachable(s) && s.clock == 0 && s.rows == map[] && s.log == [] && s.orphans == multiset{} && s.held == {0}
    ensures s.tasks == map[0 := Task(k, ReadThrough, Entered(0))]
  {
    s := Step(s0, TakeArc(0));
    s := Step(s, Acquire(0));
  }

  lemma FetchIsDropped(s0: State, k: Key, stale: Option<Bytes>) returns (s: State)
    requires Reachable(s0) && s0.clock == 0 && s0.rows == map[] && s0.log == []
    requires s0.orphans == multiset{} && s0.held == {0}
    requires s0.tasks == map[0 := Task(k, ReadThrough, Entered(0))]
    ensures Reachable(s) && s.clock == 0 && s.rows == map[] && s.held == {} && 1 !in s.tasks
    ensures s.log == [Fetched(0, k), Abandoned(k)]
    ensures s.orphans == multiset{Orphan(k, MakeRow(k, stale, 0), true)}
  {
    s := Step(s0, ReadClock(0));
    s := Step(s, RunLookup(0, true));
    s := FetchedIsDropped(s, k, stale);
  }

  lemma FetchedIsDropped(s0: State, k: Key, stale: Option<Bytes>) returns (s: State)
    requires Reachable(s0) && s0.clock == 0 && s0.rows == map[] && s0.log == []
    requires s0.orphans == multiset{} && s0.held == {0}
    requires s0.tasks == map[0 := Task(k, ReadThrough, Fetching(0))]
    ensures Reachable(s) && s.clock == 0 && s.rows == map[] && s.held == {} && 1 !in s.tasks
    ensures s.log == [Fetched(0, k), Abandoned(k)]
    ensures s.orphans == multiset{Orphan(k, MakeRow(k, stale, 0), true)}
  {
    s := Step(s0, FetchOk(0, stale));
    s := Step(s, Cancel(0));
  }

  lemma PutSucceeds(s0: State, k: Key, preview: Bytes) returns (s: State, row: Row)
    requires Reachable(s0) && s0.clock == 0 && s0.held == {} && 1 !in s0.tasks
    ensures Reachable(s) && s.orphans == s0.orphans && row == MakeRow(k, Some(preview), 0)
    ensures s.log == s0.log + [PutStored(1, k, row)]
  {
    row := MakeRow(k, Some(preview), 0);
    s := Step(s0, Call(1, k, PutBytes(preview)));
    s := Step(s, TakeArc(1));
    s := Step(s, Acquire(1));
    s := Step(s, ReadClock(1));
    s := Step(s, RunStore(1, true));
  }

  lemma Step(s: State, a: Action) returns (s': State)
    requires Reachable(s) && Enabled(s, a)
    ensures Reachable(s') && s' == Do(s, a)
  {
    StepReachable(s, a);
    s' := Do(s, a);
  }
}
