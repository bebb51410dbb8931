/** How one image is come by: what is tried, in which order, and when the
    placeholder is drawn. */
module ImageFallback {
  import opened ImageWork
  import opened Wrappers

  /** Of what a request has come to: the last lookup; of the build it led to
      the sources that failed in turn, how many encodes failed and whether
      the last one worked; the previews put; and whether it was stopped, by
      being dropped, or an upload by a failure. */
  datatype Tale = Tale(found: Found, tried: seq<nat>, badEncodes: nat, encoded: bool, puts: seq<nat>, stopped: bool)

  const NOTHING := Tale(Hit, [], 0, false, [], false)

  /** What a step adds. */
  function NextTale(task: Task, a: Action, tale: Tale): Tale
    requires !a.Arrive? && Ready(task, a)
  {
    match a
    case Look(_, found) => NOTHING.(found := found)
    case LookAgain(_, found) => NOTHING.(found := found)
    case Downloaded(_, ok) => if ok then tale else tale.(tried := tale.tried + [task.stage.source])
    case Decoded(_, ok) => if ok then tale else tale.(tried := tale.tried + [task.stage.source])
    case Encoded(_, ok) => if ok then tale.(encoded := true) else tale.(badEncodes := tale.badEncodes + 1)
    case Worked(_, ok) => if ok then tale else tale.(stopped := true)
    case Put(_, ok) => if ok then tale.(puts := tale.puts + [task.stage.n]) else tale.(stopped := true)
    case Cancel(_) => tale.(stopped := true)
    case _ => tale
  }

  /** A request's steps, one after the other. */
  predicate Steps(task: Task, steps: seq<Action>)
    decreases |steps|
  {
    steps == [] || (!steps[0].Arrive? && Ready(task, steps[0]) && Steps(Next(task, steps[0]), steps[1..]))
  }

  function Later(task: Task, steps: seq<Action>): Task
    requires Steps(task, steps)
    decreases |steps|
  {
    if steps == [] then task else Later(Next(task, steps[0]), steps[1..])
  }

  function TaleOf(task: Task, steps: seq<Action>, tale: Tale): Tale
    requires Steps(task, steps)
    decreases |steps|
  {
    if steps == [] then tale else TaleOf(Next(task, steps[0]), steps[1..], NextTale(task, steps[0], tale))
  }

  /** The first `n` sources, in order. */
  function FirstSources(n: nat): (sources: seq<nat>)
    ensures |sources| == n
  {
    seq(n, i => i)
  }

  /** A cover has its photo and its document's blob, where there are these,
      an icon its blob, a photo itself. */
  function Links(kind: Kind): nat {
    match kind
    case Cover(n) => n
    case Icon(n) => n
    case Photo => 1
    case _ => 0
  }

  predicate Builds(stage: Stage) {
    stage.Download? || stage.WaitTurn? || stage.HasTurn? || stage.Decoding? || stage.InHand? || stage.Encoding?
  }

  /** An image is built after a miss, with its key locked, or without it
      after a remembered failure, but not a photo's. */
  predicate RightlyBegun(task: Task, tale: Tale) {
    if tale.found.Miss? then task.locked else tale.found.NegativeHit? && !task.kind.Photo? && !task.locked
  }

  predicate UseOk(kind: Kind, use: Use, tale: Tale) {
    match use
    case Decode(source) =>
      source < Links(kind) && tale.tried == FirstSources(source) && tale.badEncodes == 0
    case Placeholder(last) =>
      if last then kind.Cover? && tale.badEncodes == 1
      else !kind.Photo? && tale.tried == FirstSources(Links(kind)) && tale.badEncodes == 0
    case Whole => false
  }

  predicate StageOk(task: Task, tale: Tale) {
    match task.stage
    case Lookup => !task.locked
    case WaitKey => !task.locked && tale.found.Miss?
    case Relook => task.locked && tale.found.Miss?
    case Download(source) => UseOk(task.kind, Decode(source), tale)
    case WaitTurn(use) => UseOk(task.kind, use, tale)
    case HasTurn(use) => UseOk(task.kind, use, tale)
    case Decoding(source) => UseOk(task.kind, Decode(source), tale)
    case InHand(last) => tale.badEncodes == (if last then 1 else 0) && (last ==> task.kind.Cover?)
    case Encoding(last) => tale.badEncodes == (if last then 1 else 0) && (last ==> task.kind.Cover?)
    case Store => Ended(task, tale)
    case Unlock(again) =>
      if again then tale == NOTHING.(found := NegativeHit) && !task.kind.Photo?
      else tale.found.Hit? || (tale.found.NegativeHit? && task.kind.Photo?) || Ended(task, tale)
    case Orphan => tale.stopped
    case Done =>
      tale.stopped || tale.found.Hit? || (tale.found.NegativeHit? && task.kind.Photo?) || Ended(task, tale)
    case _ => false
  }

  /** The build came to an end: something was encoded, or nothing could be. */
  predicate Ended(task: Task, tale: Tale) {
    || tale.encoded
    || (task.kind.Photo? && tale.tried == [0])
    || tale.badEncodes == (if task.kind.Cover? then 2 else 1)
  }

  /** Sources are tried in order, each after the one before failed; the
      placeholder is drawn when all failed, and for a cover once more when
      the encode failed; what is stored was encoded, or nothing could be;
      and it is done when it was answered from the cache, or was built. */
  predicate InTurn(task: Task, tale: Tale) {
    && StageOk(task, tale)
    && (Builds(task.stage) || task.stage.Store? ==> RightlyBegun(task, tale))
    && (Builds(task.stage) ==> !tale.encoded)
  }

  lemma OneMoreTried(n: nat)
    ensures FirstSources(n) + [n] == FirstSources(n + 1) && FirstSources(0) == [] && FirstSources(1) == [0]
  {
  }

  /** The steps at which it may turn to the next source. */
  predicate LooksOrTries(a: Action) {
    a.Look? || a.LookAgain? || a.Downloaded? || a.Decoded? || a.DropKey?
  }

  lemma LookIsInTurn(task: Task, a: Action, tale: Tale)
    requires Cached(task.kind) && (a.Look? || a.LookAgain? || a.DropKey?) && Ready(task, a) && InTurn(task, tale)
    ensures InTurn(Next(task, a), NextTale(task, a, tale))
  {
    hide FirstSources;
    OneMoreTried(0);
  }

  lemma TryIsInTurn(task: Task, a: Action, tale: Tale)
    requires Cached(task.kind) && (a.Downloaded? || a.Decoded?) && Ready(task, a) && InTurn(task, tale)
    ensures InTurn(Next(task, a), NextTale(task, a, tale))
  {
    hide FirstSources;
    OneMoreTried(0);
    OneMoreTried(task.stage.source);
  }

  lemma OtherIsInTurn(task: Task, a: Action, tale: Tale)
    requires Cached(task.kind) && !a.Arrive? && !LooksOrTries(a) && Ready(task, a) && InTurn(task, tale)
    ensures InTurn(Next(task, a), NextTale(task, a, tale))
  {
    hide FirstSources;
    hide Try;
  }

  lemma StepIsInTurn(task: Task, a: Action, tale: Tale)
    requires Cached(task.kind) && !a.Arrive? && Ready(task, a) && InTurn(task, tale)
    ensures InTurn(Next(task, a), NextTale(task, a, tale))
  {
    hide InTurn;
    hide NextTale;
    hide Next;
    hide Ready;
    if a.Downloaded? || a.Decoded? {
      TryIsInTurn(task, a, tale);
    } else if LooksOrTries(a) {
      LookIsInTurn(task, a, tale);
    } else {
      OtherIsInTurn(task, a, tale);
    }
  }

  lemma {:induction false} StepsAreInTurn(task: Task, steps: seq<Action>, tale: Tale)
    requires Cached(task.kind) && Steps(task, steps) && InTurn(task, tale)
    ensures InTurn(Later(task, steps), TaleOf(task, steps, tale))
    decreases |steps|
  {
    hide InTurn;
    hide NextTale;
    if steps != [] {
      StepIsInTurn(task, steps[0], tale);
      KindStays(task, steps[0]);
      hide Next;
      StepsAreInTurn(Next(task, steps[0]), steps[1..], NextTale(task, steps[0], tale));
    }
  }

  lemma KindStays(task: Task, a: Action)
    requires !a.Arrive? && Ready(task, a)
    ensures Next(task, a).kind == task.kind
  {
  }

  /** Whatever comes of its steps, a request for a cover, an icon or a photo
      tries what there is in order. */
  lemma RequestIsInTurn(kind: Kind, keys: seq<string>, steps: seq<Action>)
    requires Cached(kind)
    requires Steps(Task(kind, keys, FirstStage(kind), false, false, false), steps)
    ensures var task := Task(kind, keys, FirstStage(kind), false, false, false);
      InTurn(Later(task, steps), TaleOf(task, steps, NOTHING))
  {
    StepsAreInTurn(Task(kind, keys, FirstStage(kind), false, false, false), steps, NOTHING);
  }

  // ---- uploads ----

  /** An upload puts its previews in order, each after the one before, and is
      done when all are put or it was stopped. */
  predicate PutsInTurn(task: Task, tale: Tale) {
    match task.stage
    case WaitTurn(use) => use.Whole? && tale.puts == [] && !tale.stopped
    case HasTurn(use) => use.Whole? && tale.puts == [] && !tale.stopped
    case Working => tale.puts == [] && !tale.stopped
    case PutWait(n) => n < |task.keys| && tale.puts == FirstSources(n) && !tale.stopped
    case Putting(n) => n < |task.keys| && tale.puts == FirstSources(n) && !tale.stopped
    case PutUnlock(n, ok) =>
      n < |task.keys| && tale.stopped == !ok && tale.puts == FirstSources(if ok then n + 1 else n)
    case Orphan => tale.stopped
    case Done => tale.stopped || tale.puts == FirstSources(|task.keys|)
    case _ => false
  }

  lemma StepPutsInTurn(task: Task, a: Action, tale: Tale)
    requires !Cached(task.kind) && !a.Arrive? && Ready(task, a) && PutsInTurn(task, tale)
    ensures PutsInTurn(Next(task, a), NextTale(task, a, tale)) && Next(task, a).kind == task.kind
  {
    hide FirstSources;
    OneMoreTried(0);
    if a.Put? {
      OneMoreTried(task.stage.n);
    }
  }

  lemma {:induction false} StepsPutInTurn(task: Task, steps: seq<Action>, tale: Tale)
    requires !Cached(task.kind) && Steps(task, steps) && PutsInTurn(task, tale)
    ensures PutsInTurn(Later(task, steps), TaleOf(task, steps, tale))
    decreases |steps|
  {
    hide PutsInTurn;
    hide NextTale;
    if steps != [] {
      StepPutsInTurn(task, steps[0], tale);
      hide Next;
      StepsPutInTurn(Next(task, steps[0]), steps[1..], NextTale(task, steps[0], tale));
    }
  }

  /** Whatever comes of its steps. */
  lemma UploadIsInTurn(kind: Kind, keys: seq<string>, steps: seq<Action>)
    requires !Cached(kind)
    requires Steps(Task(kind, keys, FirstStage(kind), false, false, false), steps)
    ensures var task := Task(kind, keys, FirstStage(kind), false, false, false);
      PutsInTurn(Later(task, steps), TaleOf(task, steps, NOTHING))
  {
    StepsPutInTurn(Task(kind, keys, FirstStage(kind), false, false, false), steps, NOTHING);
  }
}
