/** The image-work budget together with the cache's key locks. */
module ImageWork {
  // Two permits bound how many images are decoded at once. A permit is taken
  // while a cache key is locked, travels with the decoded pixels into the
  // encoder, and stays with a blocking job whose request went away. The
  // steps below are what one request does between two points where another
  // may run; whether a download, a decode, an encode, a lookup or a store
  // succeeds is up to the step's parameters.
  //
  // That a key is locked by at most one request is `CacheProtocol`'s
  // `SingleFlight`; here a locked key has an owner.

  import opened Wrappers

  type TaskId = nat

  /** How many images may be decoded at once. */
  const PERMITS: nat := 2

  datatype Kind =
    | Cover(sources: nat)
    | Icon(sources: nat)
    | Photo
    | Prepare
    | Upload

  /** What a permit is wanted for: a downloaded source, a placeholder (the
      last resort after a failed encode, or not), or a whole upload. */
  datatype Use = Decode(source: nat) | Placeholder(last: bool) | Whole

  datatype Stage =
    | Lookup
    | WaitKey
    | Relook
    | Download(source: nat)
    | WaitTurn(use: Use)
    | HasTurn(use: Use)
    | Decoding(source: nat)
    | InHand(last: bool)
    | Encoding(last: bool)
    | Working
    | Store
    | Unlock(again: bool)
    | PutWait(n: nat)
    | Putting(n: nat)
    | PutUnlock(n: nat, ok: bool)
    | Orphan
    | Done

  /** `locked`, `turn` and `pixels`: what is held, by the request or by the
      blocking job it started. */
  datatype Task = Task(kind: Kind, keys: seq<string>, stage: Stage, locked: bool, turn: bool, pixels: bool)

  datatype State = State(free: nat, owner: map<string, TaskId>, tasks: seq<Task>)

  const START := State(PERMITS, map[], [])

  // ---- one request ----

  /** Photos and icons have one link at most, a cover its photo and its
      document's blob; only one rendition is cached under each key. */
  predicate WellFormed(kind: Kind, keys: seq<string>) {
    match kind
    case Cover(sources) => sources <= 2 && |keys| == 1
    case Icon(sources) => sources <= 1 && |keys| == 1
    case Photo => |keys| == 1
    case Prepare => |keys| == 0
    case Upload => true
  }

  predicate Cached(kind: Kind) {
    kind.Cover? || kind.Icon? || kind.Photo?
  }

  function Sources(kind: Kind): nat {
    match kind
    case Cover(sources) => sources
    case Icon(sources) => sources
    case Photo => 1
    case Prepare => 0
    case Upload => 0
  }

  function FirstStage(kind: Kind): Stage {
    if Cached(kind) then Lookup else WaitTurn(Whole)
  }

  /** Where a build ends: storing what was built, if a key is locked. */
  function Built(task: Task): Stage {
    if task.locked then Store else Done
  }

  /** The next link of the fallback chain. */
  function Try(task: Task, source: nat): Stage {
    if source < Sources(task.kind) then Download(source)
    else if task.kind.Photo? then Built(task)
    else WaitTurn(Placeholder(false))
  }

  /** After an encode: only a cover has a second chance. */
  function AfterEncode(task: Task, last: bool, ok: bool): Stage {
    if ok || last || !task.kind.Cover? then Built(task) else WaitTurn(Placeholder(true))
  }

  /** The next of an upload's previews to put. */
  function NextPut(task: Task, n: nat): Stage {
    if n < |task.keys| then PutWait(n) else Done
  }

  predicate WaitsForKey(task: Task) {
    task.stage.WaitKey? || task.stage.PutWait?
  }

  /** The number of the key a request is at. */
  function KeyAt(task: Task): nat {
    match task.stage
    case PutWait(n) => n
    case Putting(n) => n
    case PutUnlock(n, _) => n
    case _ => 0
  }

  // ---- steps ----

  datatype Found = Hit | NegativeHit | Miss

  datatype Action =
    | Arrive(kind: Kind, keys: seq<string>)
    | Look(t: TaskId, found: Found)
    | TakeKey(t: TaskId)
    | LookAgain(t: TaskId, found: Found)
    | Downloaded(t: TaskId, ok: bool)
    | TakeTurn(t: TaskId)
    | UseTurn(t: TaskId)
    | Decoded(t: TaskId, ok: bool)
    | StartEncode(t: TaskId)
    | Encoded(t: TaskId, ok: bool)
    | Worked(t: TaskId, ok: bool)
    | Stored(t: TaskId)
    | Put(t: TaskId, ok: bool)
    | DropKey(t: TaskId)
    | Cancel(t: TaskId)
    | OrphanEnds(t: TaskId)

  /** Whether a request is at the stage an action belongs to. */
  predicate Ready(task: Task, a: Action)
    requires !a.Arrive?
  {
    match a
    case Look(_, _) => task.stage.Lookup?
    case TakeKey(_) => WaitsForKey(task) && KeyAt(task) < |task.keys|
    case LookAgain(_, _) => task.stage.Relook?
    case Downloaded(_, _) => task.stage.Download?
    case TakeTurn(_) => task.stage.WaitTurn?
    case UseTurn(_) => task.stage.HasTurn?
    case Decoded(_, _) => task.stage.Decoding?
    case StartEncode(_) => task.stage.InHand?
    case Encoded(_, _) => task.stage.Encoding?
    case Worked(_, _) => task.stage.Working?
    case Stored(_) => task.stage.Store?
    case Put(_, _) => task.stage.Putting?
    case DropKey(_) => (task.stage.Unlock? || task.stage.PutUnlock?) && KeyAt(task) < |task.keys|
    case Cancel(_) => !task.stage.Orphan? && !task.stage.Done?
    case OrphanEnds(_) => task.stage.Orphan?
  }

  /** A locked key and an exhausted budget keep a request waiting. */
  predicate Enabled(s: State, a: Action) {
    if a.Arrive? then WellFormed(a.kind, a.keys)
    else
      && a.t < |s.tasks| && Ready(s.tasks[a.t], a)
      && (a.TakeKey? ==> s.tasks[a.t].keys[KeyAt(s.tasks[a.t])] !in s.owner)
      && (a.TakeTurn? ==> s.free > 0)
  }

  /** A request dropped at any await. A blocking job it started runs on
      with its permit and its pixels; anything else is given back. */
  function Cancelled(task: Task): Task {
    if task.stage.Decoding? || task.stage.Encoding? || task.stage.Working? then
      task.(stage := Orphan, locked := false)
    else task.(stage := Done, locked := false, turn := false, pixels := false)
  }

  function Unlocked(task: Task): Stage {
    match task.stage
    case PutUnlock(n, ok) => if ok then NextPut(task, n + 1) else Done
    case Unlock(again) => if again then Try(task.(locked := false), 0) else Done
    case _ => Done
  }

  /** What a request does with its turn: a placeholder is drawn at once,
      anything else is a blocking job. */
  function Started(use: Use): Stage {
    match use
    case Decode(source) => Decoding(source)
    case Placeholder(last) => InHand(last)
    case Whole => Working
  }

  /** What a step makes of the request that takes it. */
  function Next(task: Task, a: Action): Task
    requires !a.Arrive? && Ready(task, a)
  {
    match a
    case Look(_, found) =>
      task.(stage :=
        if found.Miss? then WaitKey
        else if found.Hit? || task.kind.Photo? then Done
        else Try(task, 0))
    case TakeKey(_) => task.(locked := true, stage := if task.stage.PutWait? then Putting(task.stage.n) else Relook)
    case LookAgain(_, found) =>
      task.(stage := if found.Miss? then Try(task, 0) else Unlock(found.NegativeHit? && !task.kind.Photo?))
    case Downloaded(_, ok) =>
      task.(stage := if ok then WaitTurn(Decode(task.stage.source)) else Try(task, task.stage.source + 1))
    case TakeTurn(_) => task.(stage := HasTurn(task.stage.use), turn := true)
    case UseTurn(_) => task.(stage := Started(task.stage.use), pixels := true)
    case Decoded(_, ok) =>
      if ok then task.(stage := InHand(false))
      else task.(stage := Try(task, task.stage.source + 1), turn := false, pixels := false)
    case StartEncode(_) => task.(stage := Encoding(task.stage.last))
    case Encoded(_, ok) => task.(stage := AfterEncode(task, task.stage.last, ok), turn := false, pixels := false)
    case Worked(_, ok) => task.(stage := if ok then NextPut(task, 0) else Done, turn := false, pixels := false)
    case Stored(_) => task.(stage := Unlock(false))
    case Put(_, ok) => task.(stage := PutUnlock(task.stage.n, ok))
    case DropKey(_) => task.(stage := Unlocked(task), locked := false)
    case Cancel(_) => Cancelled(task)
    case OrphanEnds(_) => task.(stage := Done, turn := false, pixels := false)
  }

  /** The free permits after a step. A failed decode, a finished encode or
      upload and a finished orphan give theirs back; so does a dropped
      request that has one and no job running. */
  function FreeAfter(s: State, a: Action): nat
    requires Enabled(s, a)
  {
    if a.TakeTurn? then s.free - 1
    else if (a.Decoded? && !a.ok) || a.Encoded? || a.Worked? || a.OrphanEnds? then s.free + 1
    else if a.Cancel? && (s.tasks[a.t].stage.HasTurn? || s.tasks[a.t].stage.InHand?) then s.free + 1
    else s.free
  }

  /** The key locks after a step. */
  function OwnerAfter(s: State, a: Action): map<string, TaskId>
    requires Enabled(s, a)
  {
    if a.TakeKey? then s.owner[s.tasks[a.t].keys[KeyAt(s.tasks[a.t])] := a.t]
    else if a.DropKey? || (a.Cancel? && s.tasks[a.t].locked && KeyAt(s.tasks[a.t]) < |s.tasks[a.t].keys|) then
      s.owner - {s.tasks[a.t].keys[KeyAt(s.tasks[a.t])]}
    else s.owner
  }

  function Do(s: State, a: Action): State
    requires Enabled(s, a)
  {
    State(
      FreeAfter(s, a),
      OwnerAfter(s, a),
      if a.Arrive? then s.tasks + [Task(a.kind, a.keys, FirstStage(a.kind), false, false, false)]
      else s.tasks[a.t := Next(s.tasks[a.t], a)])
  }

  // ---- runs ----

  predicate Runs(s: State, run: seq<Action>)
    decreases |run|
  {
    run == [] || (Enabled(s, run[0]) && Runs(Do(s, run[0]), run[1..]))
  }

  function After(s: State, run: seq<Action>): State
    requires Runs(s, run)
    decreases |run|
  {
    if run == [] then s else After(Do(s, run[0]), run[1..])
  }

  ghost predicate Reachable(s: State) {
    exists run :: Runs(START, run) && After(START, run) == s
  }

  // ---- counting over the requests ----

  function Sum(f: Task -> nat, tasks: seq<Task>): nat {
    if tasks == [] then 0 else f(tasks[0]) + Sum(f, tasks[1..])
  }

  lemma {:induction false} SumUpdate(f: Task -> nat, tasks: seq<Task>, t: nat, task: Task)
    requires t < |tasks|
    ensures Sum(f, tasks[t := task]) + f(tasks[t]) == Sum(f, tasks) + f(task)
  {
    var updated := tasks[t := task];
    if t == 0 {
      assert updated[1..] == tasks[1..];
    } else {
      SumUpdate(f, tasks[1..], t - 1, task);
      assert updated[1..] == tasks[1..][t - 1 := task];
    }
  }

  lemma {:induction false} SumSnoc(f: Task -> nat, tasks: seq<Task>, task: Task)
    ensures Sum(f, tasks + [task]) == Sum(f, tasks) + f(task)
  {
    if tasks == [] {
      assert tasks + [task] == [task];
    } else {
      SumSnoc(f, tasks[1..], task);
      assert (tasks + [task])[1..] == tasks[1..] + [task];
    }
  }

  lemma {:induction false} SumZero(f: Task -> nat, tasks: seq<Task>)
    requires forall task | task in tasks :: f(task) == 0
    ensures Sum(f, tasks) == 0
  {
    if tasks != [] {
      SumZero(f, tasks[1..]);
    }
  }

  lemma {:induction false} SumBelow(f: Task -> nat, g: Task -> nat, tasks: seq<Task>)
    requires forall task | task in tasks :: f(task) <= g(task)
    ensures Sum(f, tasks) <= Sum(g, tasks)
  {
    if tasks != [] {
      SumBelow(f, g, tasks[1..]);
    }
  }

  function Turns(task: Task): nat {
    if task.turn then 1 else 0
  }

  function Pixels(task: Task): nat {
    if task.pixels then 1 else 0
  }

  // ---- the invariant ----

  /** The stages a request of a kind goes through. */
  predicate Fits(task: Task) {
    match task.stage
    case WaitTurn(use) => use.Whole? <==> !Cached(task.kind)
    case HasTurn(use) => use.Whole? <==> !Cached(task.kind)
    case Working => !Cached(task.kind)
    case PutWait(_) => task.kind.Upload?
    case Putting(_) => task.kind.Upload?
    case PutUnlock(_, _) => task.kind.Upload?
    case Orphan => true
    case Done => true
    case _ => Cached(task.kind)
  }

  /** The stages that hold a permit. */
  predicate TurnStage(stage: Stage) {
    stage.HasTurn? || stage.Decoding? || stage.InHand? || stage.Encoding? || stage.Working? || stage.Orphan?
  }

  /** What a request holds at each stage. */
  predicate Shape(task: Task) {
    && WellFormed(task.kind, task.keys) && Fits(task)
    && (task.turn <==> TurnStage(task.stage))
    && (task.pixels <==> task.turn && !task.stage.HasTurn?)
    && (task.stage.Relook? || task.stage.Store? || task.stage.Unlock? || task.stage.Putting? || task.stage.PutUnlock?
        ==> task.locked)
    && (task.stage.Lookup? || task.stage.Orphan? || task.stage.Done? || WaitsForKey(task) || task.stage.Working? ||
        !(Cached(task.kind) || task.stage.Putting? || task.stage.PutUnlock?)
        ==> !task.locked)
    && (task.locked || WaitsForKey(task) ==> KeyAt(task) < |task.keys|)
    && (task.stage.Download? ==> task.stage.source < Sources(task.kind))
  }

  /** The key a request has locked. */
  function Held(task: Task): Option<string> {
    if task.locked && KeyAt(task) < |task.keys| then Some(task.keys[KeyAt(task)]) else None
  }

  /** A key is locked exactly while one request has it locked. */
  predicate OwnersExact(s: State) {
    && (forall k | k in s.owner :: s.owner[k] < |s.tasks| && Held(s.tasks[s.owner[k]]) == Some(k))
    && (forall t: TaskId | t < |s.tasks| && Held(s.tasks[t]).Some? ::
          Held(s.tasks[t]).value in s.owner && s.owner[Held(s.tasks[t]).value] == t)
  }

  predicate Valid(s: State) {
    && (forall task | task in s.tasks :: Shape(task))
    && s.free + Sum(Turns, s.tasks) == PERMITS
    && OwnersExact(s)
  }

  // ---- how much a request has left to do ----

  function SourcesLeft(task: Task, source: nat): nat {
    if source < Sources(task.kind) then Sources(task.kind) - source else 0
  }

  /** The most steps a build can still take. */
  function BuildLeft(task: Task): nat {
    match task.stage
    case Download(source) => 8 + 4 * SourcesLeft(task, source)
    case WaitTurn(use) =>
      (match use
       case Decode(source) => 11 + 4 * SourcesLeft(task, source + 1)
       case Placeholder(last) => if last then 4 else 8
       case Whole => 0)
    case HasTurn(use) =>
      (match use
       case Decode(source) => 10 + 4 * SourcesLeft(task, source + 1)
       case Placeholder(last) => if last then 3 else 7
       case Whole => 0)
    case Decoding(source) => 9 + 4 * SourcesLeft(task, source + 1)
    case InHand(last) => if last then 2 else 6
    case Encoding(last) => if last then 1 else 5
    case _ => 0
  }

  function PutsLeft(task: Task, n: nat): nat {
    if n < |task.keys| then 3 * (|task.keys| - n) else 3
  }

  /** No request takes more steps than this from where it is. */
  function Left(task: Task): nat {
    match task.stage
    case Lookup => 22
    case WaitKey => 21
    case Relook => 20
    case Store => 3
    case Unlock(again) => if again then 18 else 2
    case PutWait(n) => PutsLeft(task, n) + 1
    case Putting(n) => PutsLeft(task, n)
    case PutUnlock(n, _) => PutsLeft(task, n) - 1
    case Orphan => 1
    case Done => 0
    case Working => 3 * |task.keys| + 2
    case HasTurn(use) => if use.Whole? then 3 * |task.keys| + 3 else BuildLeft(task) + if task.locked then 3 else 1
    case WaitTurn(use) => if use.Whole? then 3 * |task.keys| + 4 else BuildLeft(task) + if task.locked then 3 else 1
    case _ => BuildLeft(task) + if task.locked then 3 else 1
  }

  // ---- one step ----

  lemma NextKeepsShape(task: Task, a: Action)
    requires Shape(task) && !a.Arrive? && Ready(task, a)
    ensures Shape(Next(task, a))
  {
  }

  lemma DownloadMovesOn(task: Task, a: Action)
    requires Shape(task) && (a.Downloaded? || a.Decoded?) && Ready(task, a)
    ensures Left(Next(task, a)) < Left(task)
  {
  }

  lemma TurnMovesOn(task: Task, a: Action)
    requires Shape(task) && (a.TakeTurn? || a.UseTurn? || a.StartEncode? || a.Encoded?) && Ready(task, a)
    ensures Left(Next(task, a)) < Left(task)
  {
  }

  lemma LookMovesOn(task: Task, a: Action)
    requires Shape(task) && (a.Look? || a.LookAgain? || a.DropKey?) && Ready(task, a)
    ensures Left(Next(task, a)) < Left(task)
  {
  }

  /** Every step moves its request on. */
  lemma NextMovesOn(task: Task, a: Action)
    requires Shape(task) && !a.Arrive? && Ready(task, a)
    ensures Left(Next(task, a)) < Left(task)
  {
    if a.Downloaded? || a.Decoded? {
      DownloadMovesOn(task, a);
    } else if a.TakeTurn? || a.UseTurn? || a.StartEncode? || a.Encoded? {
      TurnMovesOn(task, a);
    } else if a.Look? || a.LookAgain? || a.DropKey? {
      LookMovesOn(task, a);
    }
  }

  /** A permit is taken from the free ones and given back to them. */
  lemma StepKeepsPermits(s: State, a: Action)
    requires Enabled(s, a) && !a.Arrive? && Shape(s.tasks[a.t])
    ensures FreeAfter(s, a) + Turns(Next(s.tasks[a.t], a)) == s.free + Turns(s.tasks[a.t])
  {
  }

  /** A key is taken when nobody has it, kept, or given back by its owner. */
  lemma StepKeepsKeys(s: State, a: Action)
    requires Enabled(s, a) && !a.Arrive? && Shape(s.tasks[a.t])
    ensures var was, now := Held(s.tasks[a.t]), Held(Next(s.tasks[a.t], a));
            && (was.Some? && now.Some? ==> was == now && OwnerAfter(s, a) == s.owner)
            && (was.None? && now.None? ==> OwnerAfter(s, a) == s.owner)
            && (was.None? && now.Some? ==> now.value !in s.owner && OwnerAfter(s, a) == s.owner[now.value := a.t])
            && (was.Some? && now.None? ==> OwnerAfter(s, a) == s.owner - {was.value})
  {
  }

  lemma OwnersStay(s: State, t: TaskId, s': State)
    requires OwnersExact(s) && t < |s.tasks|
    requires |s'.tasks| == |s.tasks| && s'.tasks == s.tasks[t := s'.tasks[t]]
    requires var was, now := Held(s.tasks[t]), Held(s'.tasks[t]);
             && (was.Some? && now.Some? ==> was == now && s'.owner == s.owner)
             && (was.None? && now.None? ==> s'.owner == s.owner)
             && (was.None? && now.Some? ==> now.value !in s.owner && s'.owner == s.owner[now.value := t])
             && (was.Some? && now.None? ==> s'.owner == s.owner - {was.value})
    ensures OwnersExact(s')
  {
  }

  lemma StepKeepsValid(s: State, a: Action)
    requires Valid(s) && Enabled(s, a)
    ensures Valid(Do(s, a))
  {
    if a.Arrive? {
      ArrivalKeepsValid(s, a);
    } else {
      hide Next;
      hide Shape;
      hide FreeAfter;
      hide OwnerAfter;
      var task := s.tasks[a.t];
      NextKeepsShape(task, a);
      StepKeepsPermits(s, a);
      StepKeepsKeys(s, a);
      SumUpdate(Turns, s.tasks, a.t, Next(task, a));
      OwnersStay(s, a.t, Do(s, a));
    }
  }

  lemma ArrivalKeepsValid(s: State, a: Action)
    requires Valid(s) && Enabled(s, a) && a.Arrive?
    ensures Valid(Do(s, a))
  {
    var task := Task(a.kind, a.keys, FirstStage(a.kind), false, false, false);
    SumSnoc(Turns, s.tasks, task);
    assert Shape(task) && Held(task).None?;
  }

  /** No request is ever forgotten, and what it holds stays accounted for. */
  lemma {:induction false} RunKeepsValid(s: State, run: seq<Action>)
    requires Valid(s) && Runs(s, run)
    ensures Valid(After(s, run)) && |After(s, run).tasks| >= |s.tasks|
    decreases |run|
  {
    if run != [] {
      assert |Do(s, run[0]).tasks| >= |s.tasks|;
      hide Valid;
      hide Do;
      StepKeepsValid(s, run[0]);
      RunKeepsValid(Do(s, run[0]), run[1..]);
    }
  }

  lemma ReachableIsValid(s: State)
    requires Reachable(s)
    ensures Valid(s)
  {
    hide Runs;
    hide After;
    var run :| Runs(START, run) && After(START, run) == s;
    RunKeepsValid(START, run);
  }

  // ---- the budget ----

  /** In every reachable state the free permits and the held ones are the
      two there are, so at most two images are decoded at once, whatever
      failed or was cancelled; and each locked key has one live owner. */
  lemma BudgetHolds(s: State)
    requires Reachable(s)
    ensures s.free + |set t: TaskId | t < |s.tasks| && s.tasks[t].turn| == 2
    ensures |set t: TaskId | t < |s.tasks| && s.tasks[t].pixels| <= 2
    ensures forall k | k in s.owner :: s.owner[k] < |s.tasks| && Held(s.tasks[s.owner[k]]) == Some(k)
    ensures forall t: TaskId, u: TaskId | t < |s.tasks| && u < |s.tasks| && Held(s.tasks[t]).Some? &&
              Held(s.tasks[t]) == Held(s.tasks[u]) :: t == u
  {
    ReachableIsValid(s);
    forall task | task in s.tasks
      ensures Pixels(task) <= Turns(task)
    {
      assert Shape(task);
    }
    SumBelow(Pixels, Turns, s.tasks);
    TurnsAre(s.tasks);
    PixelsAre(s.tasks);
    hide Sum;
    hide Reachable;
  }

  /** The requests for which `f` is one. */
  function Ones(f: Task -> nat, tasks: seq<Task>): set<TaskId> {
    if tasks == [] then {}
    else
      var n := |tasks| - 1;
      Ones(f, tasks[..n]) + if f(tasks[n]) == 1 then {n} else {}
  }

  /** A sum of ones and zeros counts the ones. */
  lemma {:induction false} SumIsCount(f: Task -> nat, tasks: seq<Task>)
    requires forall task :: f(task) <= 1
    ensures Sum(f, tasks) == |Ones(f, tasks)|
    ensures forall t: TaskId :: t in Ones(f, tasks) <==> t < |tasks| && f(tasks[t]) == 1
    decreases |tasks|
  {
    if tasks != [] {
      var n := |tasks| - 1;
      SumIsCount(f, tasks[..n]);
      SumSnoc(f, tasks[..n], tasks[n]);
      assert tasks == tasks[..n] + [tasks[n]];
      assert n !in Ones(f, tasks[..n]);
      assert forall t: TaskId | t < n :: tasks[..n][t] == tasks[t];
    }
  }

  lemma TurnsAre(tasks: seq<Task>)
    ensures Sum(Turns, tasks) == |set t: TaskId | t < |tasks| && tasks[t].turn|
  {
    SumIsCount(Turns, tasks);
    assert (set t: TaskId | t < |tasks| && tasks[t].turn) == Ones(Turns, tasks);
  }

  lemma PixelsAre(tasks: seq<Task>)
    ensures Sum(Pixels, tasks) == |set t: TaskId | t < |tasks| && tasks[t].pixels|
  {
    SumIsCount(Pixels, tasks);
    assert (set t: TaskId | t < |tasks| && tasks[t].pixels) == Ones(Pixels, tasks);
  }

  /** Nothing waits for a permit with a permit in hand, or for a key with a
      permit or a key in hand. */
  lemma NoHoldingAndWaiting(s: State, t: TaskId)
    requires Reachable(s) && t < |s.tasks|
    ensures s.tasks[t].stage.WaitTurn? ==> !s.tasks[t].turn
    ensures WaitsForKey(s.tasks[t]) ==> !s.tasks[t].turn && !s.tasks[t].locked
  {
    ReachableIsValid(s);
    assert Shape(s.tasks[t]);
  }

  // ---- no deadlock ----

  /** A step that neither brings a new request nor drops one. */
  predicate Forward(a: Action) {
    !a.Arrive? && !a.Cancel?
  }

  ghost predicate CanMove(s: State) {
    exists a :: Forward(a) && Enabled(s, a)
  }

  /** A request that waits for nobody can take its next step. */
  lemma BusyMoves(s: State, t: TaskId)
    requires Valid(s) && t < |s.tasks|
    requires !s.tasks[t].stage.Done? && !s.tasks[t].stage.WaitTurn? && !WaitsForKey(s.tasks[t])
    ensures CanMove(s)
  {
    var task := s.tasks[t];
    assert Shape(task);
    var a := match task.stage
      case Lookup => Look(t, Hit)
      case Relook => LookAgain(t, Hit)
      case Download(_) => Downloaded(t, true)
      case HasTurn(_) => UseTurn(t)
      case Decoding(_) => Decoded(t, true)
      case InHand(_) => StartEncode(t)
      case Encoding(_) => Encoded(t, true)
      case Working => Worked(t, true)
      case Store => Stored(t)
      case Putting(_) => Put(t, true)
      case Orphan => OrphanEnds(t)
      case _ => DropKey(t);
    assert Forward(a) && Enabled(s, a);
  }

  /** When every unfinished request waits, the permits are all free. */
  lemma WaitingForTurnMoves(s: State, t: TaskId)
    requires Valid(s) && t < |s.tasks| && s.tasks[t].stage.WaitTurn?
    ensures CanMove(s)
  {
    if u: TaskId :| u < |s.tasks| && s.tasks[u].turn {
      assert Shape(s.tasks[u]);
      BusyMoves(s, u);
    } else {
      forall task | task in s.tasks
        ensures Turns(task) == 0
      {
        var u: TaskId :| u < |s.tasks| && s.tasks[u] == task;
      }
      SumZero(Turns, s.tasks);
      assert Forward(TakeTurn(t)) && Enabled(s, TakeTurn(t));
    }
  }

  /** No reachable state is deadlocked: while a request or an orphaned job
      is unfinished, some request can take a step forward. */
  lemma NoDeadlock(s: State)
    requires Reachable(s)
    requires exists t: TaskId :: t < |s.tasks| && !s.tasks[t].stage.Done?
    ensures CanMove(s)
  {
    ReachableIsValid(s);
    ValidMoves(s);
  }

  lemma ValidMoves(s: State)
    requires Valid(s)
    requires exists t: TaskId :: t < |s.tasks| && !s.tasks[t].stage.Done?
    ensures CanMove(s)
  {
    var t: TaskId :| t < |s.tasks| && !s.tasks[t].stage.Done?;
    var task := s.tasks[t];
    assert Shape(task);
    if task.stage.WaitTurn? {
      WaitingForTurnMoves(s, t);
    } else if !WaitsForKey(task) {
      BusyMoves(s, t);
    } else if task.keys[KeyAt(task)] !in s.owner {
      assert Forward(TakeKey(t)) && Enabled(s, TakeKey(t));
    } else {
      // The key's owner waits for no key itself.
      var u := s.owner[task.keys[KeyAt(task)]];
      assert Held(s.tasks[u]).Some? && Shape(s.tasks[u]);
      if s.tasks[u].stage.WaitTurn? {
        WaitingForTurnMoves(s, u);
      } else {
        BusyMoves(s, u);
      }
    }
  }

  // ---- everyone finishes ----

  predicate NoArrivals(run: seq<Action>) {
    forall a | a in run :: !a.Arrive?
  }

  lemma StepMovesAllOn(s: State, a: Action)
    requires Valid(s) && Enabled(s, a) && !a.Arrive?
    ensures Sum(Left, Do(s, a).tasks) < Sum(Left, s.tasks)
  {
    hide Next;
    hide Left;
    var task := s.tasks[a.t];
    NextMovesOn(task, a);
    SumUpdate(Left, s.tasks, a.t, Next(task, a));
  }

  lemma {:induction false} RunIsBounded(s: State, run: seq<Action>)
    requires Valid(s) && Runs(s, run) && NoArrivals(run)
    ensures |run| + Sum(Left, After(s, run).tasks) <= Sum(Left, s.tasks)
    decreases |run|
  {
    hide Valid;
    hide Do;
    if run != [] {
      StepMovesAllOn(s, run[0]);
      StepKeepsValid(s, run[0]);
      RunIsBounded(Do(s, run[0]), run[1..]);
    }
  }

  /** From any reachable state, and however the steps fall, no more than
      the steps still due are taken before new requests come; and a run
      that can go no further has finished every request, with both permits
      free and no key locked. */
  lemma EveryoneFinishes(s: State, run: seq<Action>)
    requires Reachable(s) && Runs(s, run) && NoArrivals(run)
    ensures |run| <= Sum(Left, s.tasks)
    ensures !CanMove(After(s, run)) ==>
              var end := After(s, run);
              (forall task | task in end.tasks :: task.stage.Done?) && end.free == PERMITS && end.owner == map[]
  {
    ReachableIsValid(s);
    RunIsBounded(s, run);
    RunKeepsValid(s, run);
    var end := After(s, run);
    if !CanMove(end) {
      AllDone(end);
    }
  }

  lemma AllDone(s: State)
    requires Valid(s) && !CanMove(s)
    ensures (forall task | task in s.tasks :: task.stage.Done?) && s.free == PERMITS && s.owner == map[]
  {
    forall t: TaskId | t < |s.tasks|
      ensures s.tasks[t].stage.Done?
    {
      if !s.tasks[t].stage.Done? {
        ValidMoves(s);
      }
    }
    forall task | task in s.tasks
      ensures Turns(task) == 0 && Held(task).None?
    {
      assert Shape(task);
    }
    SumZero(Turns, s.tasks);
    assert forall k :: k !in s.owner;
  }
}
