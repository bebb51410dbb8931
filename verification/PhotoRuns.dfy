/** What holds of the photo list over every interleaving of picks, answers,
    restores and edits of the list. */
module PhotoRuns {
  import opened Wrappers
  import opened PhotoQueue

  datatype Action =
    | PickFiles(files: seq<File>)
    | Arrive(request: Request, answer: Answer)
    | RestoreDraft(blobs: seq<(string, string)>)
    | MovePhoto(key: nat, step: int)
    | RemovePhoto(key: nat)
    | CaptionPhoto(key: nat, alt: string)
    | DropTile(order: seq<nat>)

  predicate Distinct<T(==)>(xs: seq<T>) {
    forall i, j | 0 <= i < j < |xs| :: xs[i] != xs[j]
  }

  /** An answer is to a request sent and not yet answered; no two tiles on
      the page are of one photo. */
  predicate Enabled(s: State, a: Action) {
    && (a.Arrive? ==> a.request in s.requests)
    && (a.DropTile? ==> Distinct(a.order))
  }

  function Do(s: State, a: Action): State {
    match a
    case PickFiles(files) => Uploaded(s, files)
    case Arrive(request, answer) => GotAnswer(s, request, answer)
    case RestoreDraft(blobs) => Restored(s, blobs)
    case MovePhoto(key, step) => Moved(s, key, step)
    case RemovePhoto(key) => Removed(s, key)
    case CaptionPhoto(key, alt) => Captioned(s, key, alt)
    case DropTile(order) => Dragged(s, order)
  }

  predicate Runs(s: State, run: seq<Action>)
    decreases |run|
  {
    run == [] || (Enabled(s, run[0]) && Runs(Do(s, run[0]), run[1..]))
  }

  function After(s: State, run: seq<Action>): State
    requires Runs(s, run)
    decreases |run|
  {
    if run == [] then s else After(Do(s, run[0]), run[1..])
  }

  /** The page as it is opened. */
  function Opened(limits: Limits, tiles: seq<(string, string)>): State {
    State(limits, Keyed(tiles, 0), |tiles|, [], false, 0, 0, [], [], false, {}, 0, map[])
  }

  // ---- the invariant ----

  predicate Current(s: State, r: Request) {
    r in s.requests && r.round == s.round
  }

  /** At most one request of this round is in flight, and `busy` says
      whether one is. */
  ghost predicate OneInFlight(s: State) {
    && (forall r | r in s.requests :: r.round <= s.round)
    && (s.busy <==> exists r :: Current(s, r))
    && (forall r, q | Current(s, r) && Current(s, q) :: r == q)
  }

  /** The request in flight was picked before what is queued, and that is
      queued in picked order. */
  ghost predicate PendingInOrder(s: State) {
    && (forall i, j | 0 <= i < j < |s.queue| :: s.queue[i].id < s.queue[j].id)
    && (forall p | p in s.queue :: p.id < s.picks)
    && (forall r | r in s.requests :: r.pick.id < s.picks)
    && (forall r, p | Current(s, r) && p in s.queue :: r.pick.id < p.id)
  }

  /** The photos' keys are distinct, and what they came of was picked before
      anything still pending. */
  ghost predicate PhotosBefore(s: State) {
    && (forall i, j | 0 <= i < j < |s.photos| :: s.photos[i].key != s.photos[j].key)
    && (forall p | p in s.photos :: p.key <= s.keys)
    && (forall p | p in s.photos && p.from.Some? :: p.from.value < s.picks)
    && (forall p, q | p in s.photos && p.from.Some? && q in s.queue :: p.from.value < q.id)
    && (forall p, r | p in s.photos && p.from.Some? && Current(s, r) :: p.from.value < r.pick.id)
  }

  ghost predicate Queued(s: State, id: nat) {
    exists p :: p in s.queue && p.id == id
  }

  ghost predicate Flying(s: State, id: nat) {
    exists r :: r in s.requests && r.pick.id == id
  }

  /** In how many places a pick is: settled, queued, in flight. */
  ghost function Places(s: State, id: nat): nat {
    (if id in s.fates then 1 else 0) + (if Queued(s, id) then 1 else 0) + if Flying(s, id) then 1 else 0
  }

  /** Every pick is in exactly one place, and nothing else is in any. */
  ghost predicate Accounted(s: State) {
    && (forall id: nat :: Places(s, id) == if id < s.picks then 1 else 0)
    && (forall r, q | r in s.requests && q in s.requests && r.pick.id == q.pick.id :: r == q)
  }

  ghost predicate Core(s: State) {
    OneInFlight(s) && PendingInOrder(s) && PhotosBefore(s) && Accounted(s)
  }

  /** What holds between two events. Publish is disabled exactly while
      something is pending, and nothing is queued with nothing in flight. */
  ghost predicate Valid(s: State) {
    && Core(s)
    && s.left == 0
    && (s.disabled <==> s.queue != [] || s.busy)
    && (s.queue != [] ==> s.busy)
  }

  lemma {:induction false} AllToSettles(fates: map<nat, Fate>, picks: seq<Pick>, fate: Fate)
    ensures forall id :: id in AllTo(fates, picks, fate) <==> id in fates || exists p :: p in picks && p.id == id
    ensures forall p | p in picks :: AllTo(fates, picks, fate)[p.id] == fate
    ensures forall id | id in fates && !(exists p :: p in picks && p.id == id) ::
              AllTo(fates, picks, fate)[id] == fates[id]
    decreases |picks|
  {
    if picks != [] {
      AllToSettles(fates[picks[0].id := fate], picks[1..], fate);
      assert forall p :: p in picks <==> p == picks[0] || p in picks[1..];
      var after := AllTo(fates, picks, fate);
      assert picks[0].id in fates[picks[0].id := fate];
      forall p | p in picks
        ensures after[p.id] == fate
      {
      }
      forall id | id in fates && !(exists p :: p in picks && p.id == id)
        ensures after[id] == fates[id]
      {
        assert id != picks[0].id;
        assert !exists p :: p in picks[1..] && p.id == id;
      }
    }
  }

  lemma SameAccounts(s: State, t: State)
    requires Accounted(s)
    requires t.queue == s.queue && t.requests == s.requests && t.picks == s.picks && t.fates == s.fates
    ensures Accounted(t)
  {
    forall id: nat
      ensures Places(t, id) == if id < t.picks then 1 else 0
    {
      assert Places(s, id) == if id < s.picks then 1 else 0;
    }
  }

  // What each kind of change to the pending picks keeps.

  lemma SettledNew(s: State, t: State, fate: Fate)
    requires Accounted(s)
    requires t.queue == s.queue && t.requests == s.requests
    requires t.picks == s.picks + 1 && t.fates == s.fates[s.picks := fate]
    ensures Accounted(t)
  {
    assert Places(s, s.picks) == 0;
    forall id: nat
      ensures Places(t, id) == if id < t.picks then 1 else 0
    {
      assert Places(s, id) == if id < s.picks then 1 else 0;
    }
  }

  lemma QueuedNew(s: State, t: State, p: Pick)
    requires Accounted(s)
    requires p.id == s.picks && t.queue == s.queue + [p] && t.requests == s.requests
    requires t.picks == s.picks + 1 && t.fates == s.fates
    ensures Accounted(t)
  {
    assert Places(s, s.picks) == 0;
    assert t.queue[|s.queue|] == p;
    assert forall q :: q in t.queue <==> q in s.queue || q == p;
    forall id: nat
      ensures Places(t, id) == if id < t.picks then 1 else 0
    {
      assert Places(s, id) == if id < s.picks then 1 else 0;
      assert Queued(t, id) <==> Queued(s, id) || id == s.picks;
    }
  }

  lemma QueueSettled(s: State, t: State, fate: Fate)
    requires Accounted(s)
    requires t.queue == [] && t.requests == s.requests && t.picks == s.picks
    requires t.fates == AllTo(s.fates, s.queue, fate)
    ensures Accounted(t)
  {
    AllToSettles(s.fates, s.queue, fate);
    forall id: nat
      ensures Places(t, id) == if id < t.picks then 1 else 0
    {
      assert Places(s, id) == if id < s.picks then 1 else 0;
      assert id in t.fates <==> id in s.fates || Queued(s, id);
    }
  }

  lemma FirstSent(s: State, t: State, r: Request)
    requires Accounted(s) && PendingInOrder(s)
    requires s.queue != [] && r.pick == s.queue[0] && t.queue == s.queue[1..] && t.requests == s.requests + {r}
    requires t.picks == s.picks && t.fates == s.fates
    ensures Accounted(t)
  {
    assert Queued(s, r.pick.id) && Places(s, r.pick.id) == 1 && !Flying(s, r.pick.id);
    assert forall q :: q in s.queue <==> q == r.pick || q in t.queue;
    forall id: nat
      ensures Places(t, id) == if id < t.picks then 1 else 0
    {
      assert Places(s, id) == if id < s.picks then 1 else 0;
      assert Queued(s, id) <==> Queued(t, id) || id == r.pick.id;
      assert Flying(t, id) <==> Flying(s, id) || id == r.pick.id by {
        assert r in t.requests;
      }
      assert !Queued(t, r.pick.id);
    }
  }

  lemma FlightSettled(s: State, t: State, r: Request, fate: Fate)
    requires Accounted(s) && r in s.requests
    requires t.queue == s.queue && t.requests == s.requests - {r} && t.picks == s.picks
    requires t.fates == s.fates[r.pick.id := fate]
    ensures Accounted(t)
  {
    assert Flying(s, r.pick.id) && Places(s, r.pick.id) == 1;
    assert !Flying(t, r.pick.id);
    forall id: nat
      ensures Places(t, id) == if id < t.picks then 1 else 0
    {
      assert Places(s, id) == if id < s.picks then 1 else 0;
      assert id != r.pick.id ==> (Flying(t, id) <==> Flying(s, id));
    }
  }

  // ---- picking ----

  lemma TakeOneKeepsCore(s: State, f: File, full: bool)
    requires Core(s)
    ensures Core(TakeOne(s, f, full))
  {
    var t := TakeOne(s, f, full);
    assert Accounted(t) by {
      hide OneInFlight;
      hide PendingInOrder;
      hide PhotosBefore;
      hide Accounted;
      if t.queue == s.queue {
        SettledNew(s, t, Refused);
      } else {
        QueuedNew(s, t, Pick(s.picks, f));
      }
    }
    TakeOneKeepsPending(s, f, full);
    TakeOneKeepsPhotos(s, f, full);
  }

  lemma TakeOneKeepsPending(s: State, f: File, full: bool)
    requires OneInFlight(s) && PendingInOrder(s)
    ensures OneInFlight(TakeOne(s, f, full)) && PendingInOrder(TakeOne(s, f, full))
  {
    hide Refusal;
    var t := TakeOne(s, f, full);
    assert forall r :: Current(t, r) <==> Current(s, r);
    assert forall p :: p in t.queue ==> p in s.queue || p == Pick(s.picks, f);
  }

  lemma TakeOneKeepsPhotos(s: State, f: File, full: bool)
    requires PhotosBefore(s)
    ensures PhotosBefore(TakeOne(s, f, full))
  {
    hide Refusal;
    var t := TakeOne(s, f, full);
    assert forall r :: Current(t, r) <==> Current(s, r);
    assert forall p :: p in t.queue ==> p in s.queue || p == Pick(s.picks, f);
  }

  lemma {:induction false} TakeAllKeepsCore(s: State, files: seq<File>, full: bool)
    requires Core(s)
    ensures var t := TakeAll(s, files, full);
            Core(t) && (t.left == s.left || t.left == -1) && t.busy == s.busy
    decreases |files|
  {
    hide Core;
    if files != [] {
      TakeOneKeepsCore(s, files[0], full);
      TakeAllKeepsCore(TakeOne(s, files[0], full), files[1..], full);
    }
  }

  // ---- sending ----

  /** Messages, the count still to be told and the button are no part of
      the invariant of what is pending. */
  lemma SamePending(s: State, t: State)
    requires Core(s)
    requires t == s.(problems := t.problems, shown := t.shown, left := t.left, disabled := t.disabled)
    ensures Core(t)
  {
    SameAccounts(s, t);
    hide Accounted;
    assert forall r :: Current(t, r) <==> Current(s, r);
  }

  lemma SpilledKeepsCore(s: State)
    requires Core(s)
    ensures Core(Spilled(s))
  {
    var t := Spilled(s);
    if t.queue != s.queue || t.fates != s.fates {
      QueueSettled(s, t, ReportedNotAdded);
    } else {
      SameAccounts(s, t);
    }
    hide Accounted;
    assert forall r :: Current(t, r) <==> Current(s, r);
  }

  lemma SentKeepsCore(s: State)
    requires Core(s)
    ensures Core(Sent(s))
  {
    var t := Sent(s);
    if t != s {
      var r := Request(s.round, s.queue[0]);
      FirstSent(s, t, r);
      hide Accounted;
      assert Current(t, r);
      forall q | Current(t, q)
        ensures q == r
      {
        assert q != r ==> Current(s, q);
      }
      assert forall p :: p in t.queue ==> p in s.queue;
      assert r.pick in s.queue;
    }
  }

  lemma NextIsValid(s: State)
    requires Core(s) && s.left == 0
    ensures Valid(Next(s))
  {
    hide Core;
    SpilledKeepsCore(s);
    var t := Spilled(s);
    SamePending(t, ToldOfLast(t));
    SentKeepsCore(ToldOfLast(t));
    SamePending(Sent(ToldOfLast(t)), Next(s));
  }

  lemma UploadedIsValid(s: State, files: seq<File>)
    requires Valid(s)
    ensures Valid(Uploaded(s, files))
  {
    hide Core;
    hide Next;
    var c := Cleared(s);
    SamePending(s, c);
    var full := |s.photos| >= s.limits.photos;
    TakeAllKeepsCore(c, files, full);
    var t := TakeAll(c, files, full);
    var told := Showing(ToldOfRoom(t));
    SamePending(t, told);
    NextIsValid(told);
  }

  // ---- answers ----

  lemma AddedFacts(s: State, blobs: seq<string>, from: nat)
    ensures forall p | p in Added(s.limits, s.photos, s.keys, blobs, from) :: p.key > s.keys && p.from == Some(from)
  {
  }

  /** `Landed`, seen from the photos. */
  lemma LandedPhotosBefore(s: State, r: Request, a: Answer)
    requires OneInFlight(s) && PendingInOrder(s) && PhotosBefore(s) && Current(s, r)
    ensures PhotosBefore(Landed(s, r, a))
  {
    var t := Landed(s, r, a);
    var added := Added(s.limits, s.photos, s.keys, a.blobs, r.pick.id);
    AddedFacts(s, a.blobs, r.pick.id);
    assert forall q :: !Current(t, q) by {
      forall q
        ensures !Current(t, q)
      {
        assert Current(t, q) ==> Current(s, q) && q != r;
      }
    }
    assert forall p :: p in t.photos <==> p in s.photos || p in added;
    assert forall p :: p in t.queue ==> p in s.queue;
    forall i, j | 0 <= i < j < |t.photos|
      ensures t.photos[i].key != t.photos[j].key
    {
      assert i < |s.photos| ==> t.photos[i] == s.photos[i] && s.photos[i] in s.photos;
      assert j < |s.photos| ==> t.photos[j] == s.photos[j];
      assert i >= |s.photos| ==> t.photos[i] == added[i - |s.photos|];
      assert j >= |s.photos| ==> t.photos[j] == added[j - |s.photos|];
    }
  }

  lemma LandedAccounts(s: State, r: Request, a: Answer)
    requires Accounted(s) && r in s.requests
    ensures Accounted(Landed(s, r, a))
  {
    var t := Landed(s, r, a);
    if a.signedOut {
      var m := s.(queue := [], fates := AllTo(s.fates, s.queue, ReportedNotAdded));
      QueueSettled(s, m, ReportedNotAdded);
      FlightSettled(m, t, r, AnswerFate(a));
    } else {
      FlightSettled(s, t, r, AnswerFate(a));
    }
  }

  lemma LandedKeepsCore(s: State, r: Request, a: Answer)
    requires Core(s) && Current(s, r)
    ensures Core(Landed(s, r, a))
  {
    LandedAccounts(s, r, a);
    LandedPhotosBefore(s, r, a);
    hide PhotosBefore;
    hide Accounted;
    hide Added;
    var t := Landed(s, r, a);
    forall q
      ensures !Current(t, q)
    {
      assert Current(t, q) ==> Current(s, q) && q != r;
    }
    assert forall p :: p in t.queue ==> p in s.queue;
  }

  /** An answer of an earlier round changes nothing on the page. */
  lemma LateAnswerChangesNothing(s: State, r: Request, a: Answer)
    requires Valid(s) && r in s.requests && r.round != s.round
    ensures var t := GotAnswer(s, r, a);
            t == s.(requests := t.requests, fates := t.fates) && Valid(t)
  {
    var t := GotAnswer(s, r, a);
    FlightSettled(s, t, r, AnsweredTooLate);
    hide Accounted;
    assert forall q :: Current(t, q) <==> Current(s, q);
  }

  lemma GotAnswerIsValid(s: State, r: Request, a: Answer)
    requires Valid(s) && r in s.requests
    ensures Valid(GotAnswer(s, r, a))
  {
    if r.round != s.round {
      LateAnswerChangesNothing(s, r, a);
    } else {
      assert Current(s, r);
      LandedKeepsCore(s, r, a);
      hide Core;
      hide Next;
      var t := Landed(s, r, a);
      SamePending(t, Waited(t));
      NextIsValid(Waited(t));
    }
  }

  // ---- the list ----

  lemma RestoredIsValid(s: State, blobs: seq<(string, string)>)
    requires Valid(s)
    ensures Valid(Restored(s, blobs))
  {
    var t := Restored(s, blobs);
    QueueSettled(s, t, Discarded);
    hide Accounted;
    forall r
      ensures !Current(t, r)
    {
      assert r in s.requests ==> r.round <= s.round;
    }
    assert forall p :: p in t.photos ==> p.from.None?;
  }

  /** The photos of a list are some of another's, and no two are one. */
  predicate Within(list: seq<Photo>, all: seq<Photo>) {
    (forall p | p in list :: p in all) && DistinctKeys(list)
  }

  predicate DistinctKeys(list: seq<Photo>) {
    forall i, j | 0 <= i < j < |list| :: list[i].key != list[j].key
  }

  lemma ListIsValid(s: State, list: seq<Photo>)
    requires Valid(s) && Within(list, s.photos)
    ensures Valid(Waited(s.(photos := list)))
  {
    var t := Waited(s.(photos := list));
    SameAccounts(s, t);
    hide Accounted;
    assert forall r :: Current(t, r) <==> Current(s, r);
  }

  lemma WithoutIsWithin(photos: seq<Photo>, i: nat)
    requires i < |photos| && DistinctKeys(photos)
    ensures Within(Without(photos, i), photos)
    ensures forall p | p in Without(photos, i) :: p.key != photos[i].key
  {
    var rest := Without(photos, i);
    assert forall k | 0 <= k < |rest| :: rest[k] == photos[if k < i then k else k + 1];
  }

  lemma PutBackIsWithin(rest: seq<Photo>, p: Photo, j: nat, all: seq<Photo>)
    requires Within(rest, all) && p in all && j <= |rest| && forall q | q in rest :: q.key != p.key
    ensures Within(rest[..j] + [p] + rest[j..], all)
  {
    var list := rest[..j] + [p] + rest[j..];
    assert forall k | 0 <= k < |list| :: k != j ==> list[k] == rest[if k < j then k else k - 1];
    assert list[j] == p;
  }

  lemma {:induction false} PickedIsWithin(photos: seq<Photo>, order: seq<nat>)
    requires Distinct(order)
    ensures Within(Picked(photos, order), photos)
    ensures forall p | p in Picked(photos, order) :: p.key in order
    decreases |order|
  {
    if order != [] {
      var rest := Picked(photos, order[1..]);
      assert Distinct(order[1..]);
      PickedIsWithin(photos, order[1..]);
      var i := IndexOf(photos, order[0]);
      if i >= 0 {
        assert order[0] !in order[1..];
        PutBackIsWithin(rest, photos[i], 0, photos);
        assert rest[..0] + [photos[i]] + rest[0..] == [photos[i]] + rest;
      }
    }
  }

  /** A photo's caption is no part of what is kept track of. */
  lemma CaptionKeepsBefore(s: State, i: nat, alt: string)
    requires PhotosBefore(s) && i < |s.photos|
    ensures PhotosBefore(s.(photos := s.photos[i := s.photos[i].(alt := alt)]))
  {
    var t := s.(photos := s.photos[i := s.photos[i].(alt := alt)]);
    assert forall r :: Current(t, r) <==> Current(s, r);
    forall p | p in t.photos
      ensures exists q :: q in s.photos && q.key == p.key && q.from == p.from
    {
      var k :| 0 <= k < |t.photos| && t.photos[k] == p;
      assert s.photos[k] in s.photos;
    }
  }

  lemma CaptionedIsValid(s: State, key: nat, alt: string)
    requires Valid(s)
    ensures Valid(Captioned(s, key, alt))
  {
    var i := IndexOf(s.photos, key);
    if i >= 0 {
      CaptionKeepsBefore(s, i, alt);
      var t := s.(photos := s.photos[i := s.photos[i].(alt := alt)]);
      SameAccounts(s, t);
      hide Accounted;
      hide PhotosBefore;
      assert forall r :: Current(t, r) <==> Current(s, r);
      assert Core(t);
      hide Core;
      SamePending(t, Waited(t));
    }
  }

  lemma MoveIsWithin(photos: seq<Photo>, i: nat, j: nat)
    requires i < |photos| && j < |photos| && DistinctKeys(photos)
    ensures var rest := Without(photos, i);
            j <= |rest| && Within(rest[..j] + [photos[i]] + rest[j..], photos)
  {
    WithoutIsWithin(photos, i);
    PutBackIsWithin(Without(photos, i), photos[i], j, photos);
  }

  lemma MovedIsValid(s: State, key: nat, step: int)
    requires Valid(s)
    ensures Valid(Moved(s, key, step))
  {
    var i := IndexOf(s.photos, key);
    var j := i + step;
    assert DistinctKeys(s.photos);
    hide Core;
    hide DistinctKeys;
    hide Within;
    if i >= 0 && 0 <= j < |s.photos| {
      MoveIsWithin(s.photos, i, j);
      var rest := Without(s.photos, i);
      ListIsValid(s, rest[..j] + [s.photos[i]] + rest[j..]);
    }
  }

  lemma RemovedIsValid(s: State, key: nat)
    requires Valid(s)
    ensures Valid(Removed(s, key))
  {
    var i := IndexOf(s.photos, key);
    assert DistinctKeys(s.photos);
    hide Core;
    if i >= 0 {
      WithoutIsWithin(s.photos, i);
      ListIsValid(s, Without(s.photos, i));
    }
  }

  lemma DraggedIsValid(s: State, order: seq<nat>)
    requires Valid(s) && Distinct(order)
    ensures Valid(Dragged(s, order))
  {
    PickedIsWithin(s.photos, order);
    assert DistinctKeys(s.photos);
    hide Core;
    ListIsValid(s, if |Picked(s.photos, order)| == |s.photos| then Picked(s.photos, order) else s.photos);
  }

  // ---- every run ----

  /** Whatever happens, in whatever order: at most one request of the
      current round is in flight; every pick is in exactly one place; and
      Publish is disabled exactly while something is pending. */
  lemma StepIsValid(s: State, a: Action)
    requires Valid(s) && Enabled(s, a)
    ensures Valid(Do(s, a))
  {
    hide Valid;
    match a
    case PickFiles(files) => UploadedIsValid(s, files);
    case Arrive(request, answer) => GotAnswerIsValid(s, request, answer);
    case RestoreDraft(blobs) => RestoredIsValid(s, blobs);
    case MovePhoto(key, step) => MovedIsValid(s, key, step);
    case RemovePhoto(key) => RemovedIsValid(s, key);
    case CaptionPhoto(key, alt) => CaptionedIsValid(s, key, alt);
    case DropTile(order) => DraggedIsValid(s, order);
  }

  lemma {:induction false} RunIsValid(s: State, run: seq<Action>)
    requires Valid(s) && Runs(s, run)
    ensures Valid(After(s, run))
    decreases |run|
  {
    hide Valid;
    hide Do;
    if run != [] {
      StepIsValid(s, run[0]);
      RunIsValid(Do(s, run[0]), run[1..]);
    }
  }

  lemma OpenedIsValid(limits: Limits, tiles: seq<(string, string)>)
    ensures Valid(Opened(limits, tiles))
  {
    var s := Opened(limits, tiles);
    assert forall r :: !Current(s, r);
    assert forall p :: p in s.photos ==> p.from.None?;
    assert forall id: nat :: Places(s, id) == 0;
  }

  /** From the page as it is opened, over every interleaving. */
  lemma EveryRunIsValid(limits: Limits, tiles: seq<(string, string)>, run: seq<Action>)
    requires Runs(Opened(limits, tiles), run)
    ensures var s := After(Opened(limits, tiles), run);
            && (forall r, q | Current(s, r) && Current(s, q) :: r == q)
            && (s.busy <==> exists r :: Current(s, r))
            && (forall id: nat :: Places(s, id) == if id < s.picks then 1 else 0)
            && (s.disabled <==> Pending(s) > 0)
            && (Pending(s) > 0 <==> s.busy)
  {
    OpenedIsValid(limits, tiles);
    RunIsValid(Opened(limits, tiles), run);
  }

  // ---- the list's size and order ----

  lemma {:induction false} TakeAllPicksOnly(s: State, files: seq<File>, full: bool)
    ensures var t := TakeAll(s, files, full);
            && t.photos == s.photos && t.limits == s.limits && t.keys == s.keys
            && t.round == s.round && t.requests == s.requests
    decreases |files|
  {
    if files != [] {
      TakeAllPicksOnly(TakeOne(s, files[0], full), files[1..], full);
    }
  }

  lemma NextKeepsPhotos(s: State)
    ensures Next(s).photos == s.photos && Next(s).limits == s.limits
  {
    hide AllTo;
  }

  lemma UploadKeepsPhotos(s: State, files: seq<File>)
    ensures Uploaded(s, files).photos == s.photos && Uploaded(s, files).limits == s.limits
  {
    hide Next;
    hide TakeAll;
    var full := |s.photos| >= s.limits.photos;
    TakeAllPicksOnly(Cleared(s), files, full);
    NextKeepsPhotos(Showing(ToldOfRoom(TakeAll(Cleared(s), files, full))));
  }

  function Max(x: nat, y: nat): nat {
    if x < y then y else x
  }

  /** Only a restored draft makes the list longer than the maximum. */
  lemma NeverGrowsPastTheMaximum(s: State, a: Action)
    requires !a.RestoreDraft?
    ensures Do(s, a).limits == s.limits
    ensures |Do(s, a).photos| <= Max(|s.photos|, s.limits.photos)
  {
    if a.PickFiles? {
      hide Uploaded;
      UploadKeepsPhotos(s, a.files);
    } else if a.Arrive? && a.request.round == s.round {
      hide Next;
      NextKeepsPhotos(Waited(Landed(s, a.request, a.answer)));
    }
  }

  /** A list as long as allowed stays so, if restored drafts are. */
  lemma {:induction false} RunStaysWithinTheMaximum(s: State, run: seq<Action>)
    requires Runs(s, run) && |s.photos| <= s.limits.photos
    requires forall a | a in run && a.RestoreDraft? :: |a.blobs| <= s.limits.photos
    ensures |After(s, run).photos| <= s.limits.photos
    decreases |run|
  {
    hide Do;
    if run != [] {
      if run[0].RestoreDraft? {
        RestoredSize(s, run[0].blobs);
      } else {
        NeverGrowsPastTheMaximum(s, run[0]);
      }
      RunStaysWithinTheMaximum(Do(s, run[0]), run[1..]);
    }
  }

  lemma RestoredSize(s: State, blobs: seq<(string, string)>)
    ensures Do(s, RestoreDraft(blobs)).limits == s.limits && |Do(s, RestoreDraft(blobs)).photos| == |blobs|
  {
  }

  /** Uploaded photos stand in the order their files were picked. */
  predicate InPickedOrder(photos: seq<Photo>) {
    forall i, j | 0 <= i < j < |photos| && photos[i].from.Some? && photos[j].from.Some? ::
      photos[i].from.value <= photos[j].from.value
  }

  lemma LandedKeepsOrder(s: State, r: Request, a: Answer)
    requires Valid(s) && Current(s, r) && InPickedOrder(s.photos)
    ensures InPickedOrder(Landed(s, r, a).photos)
  {
    var t := Landed(s, r, a);
    var added := Added(s.limits, s.photos, s.keys, a.blobs, r.pick.id);
    AddedFacts(s, a.blobs, r.pick.id);
    assert forall i | 0 <= i < |t.photos| ::
        t.photos[i] == if i < |s.photos| then s.photos[i] else added[i - |s.photos|];
    assert forall p | p in s.photos && p.from.Some? :: p.from.value < r.pick.id;
  }

  /** As long as the author moves none, the photos stay in picked order. */
  lemma KeepsPickedOrder(s: State, a: Action)
    requires Valid(s) && Enabled(s, a) && InPickedOrder(s.photos) && !a.MovePhoto? && !a.DropTile?
    ensures InPickedOrder(Do(s, a).photos)
  {
    hide Valid;
    if a.PickFiles? {
      hide Uploaded;
      UploadKeepsPhotos(s, a.files);
    } else if a.Arrive? {
      AnswerKeepsOrder(s, a.request, a.answer);
    }
  }

  lemma AnswerKeepsOrder(s: State, r: Request, a: Answer)
    requires Valid(s) && r in s.requests && InPickedOrder(s.photos)
    ensures InPickedOrder(GotAnswer(s, r, a).photos)
  {
    hide Valid;
    hide InPickedOrder;
    if r.round == s.round {
      assert Current(s, r);
      LandedKeepsOrder(s, r, a);
      hide Landed;
    }
  }

  lemma {:induction false} RunKeepsPickedOrder(s: State, run: seq<Action>)
    requires Valid(s) && Runs(s, run) && InPickedOrder(s.photos)
    requires forall a | a in run :: !a.MovePhoto? && !a.DropTile?
    ensures InPickedOrder(After(s, run).photos)
    decreases |run|
  {
    hide Valid;
    hide Do;
    if run != [] {
      KeepsPickedOrder(s, run[0]);
      StepIsValid(s, run[0]);
      RunKeepsPickedOrder(Do(s, run[0]), run[1..]);
    }
  }

  // ---- nothing is dropped unsaid ----

  /** Where a picked file goes: refused with a message, or queued. */
  predicate Settles(limits: Limits, f: File, id: nat, full: bool, t: State) {
    if Refusal(limits, f).Some? then id in t.fates && t.fates[id] == Refused && Refusal(limits, f).value in t.problems
    else if full then id in t.fates && t.fates[id] == Refused && t.left == -1
    else Pick(id, f) in t.queue
  }

  lemma {:induction false} TakeAllSettles(s: State, files: seq<File>, full: bool)
    ensures var t := TakeAll(s, files, full);
            && t.picks == s.picks + |files| && t.limits == s.limits
            && (forall i | 0 <= i < |files| :: Settles(s.limits, files[i], s.picks + i, full, t))
            && (forall p | p in s.problems :: p in t.problems)
            && (forall p | p in s.queue :: p in t.queue)
            && (forall id | id in s.fates && id < s.picks :: id in t.fates && t.fates[id] == s.fates[id])
            && (s.left == -1 ==> t.left == -1)
            && (full ==> t.queue == s.queue)
    decreases |files|
  {
    if files != [] {
      var m := TakeOne(s, files[0], full);
      var t := TakeAll(s, files, full);
      TakeAllSettles(m, files[1..], full);
      assert Settles(s.limits, files[0], s.picks, full, m);
      forall i | 0 <= i < |files|
        ensures Settles(s.limits, files[i], s.picks + i, full, t)
      {
        if i > 0 {
          assert files[i] == files[1..][i - 1];
          assert Settles(s.limits, files[1..][i - 1], m.picks + (i - 1), full, t);
        }
      }
    }
  }

  predicate RefusedWith(t: State, id: nat, p: Problem) {
    id in t.fates && t.fates[id] == Refused && p in t.problems
  }

  /** Every file of a pick is refused with its own message, refused for
      want of room with a message, or from then on queued or in flight. */
  lemma EveryFileIsSettled(s: State, files: seq<File>, i: nat)
    requires Valid(s) && i < |files|
    ensures var t, f, id := Uploaded(s, files), files[i], s.picks + i;
            if f.size == 0 then RefusedWith(t, id, Empty(f.name))
            else if f.mime != "" && !("image/" <= f.mime) then RefusedWith(t, id, NotAnImage(f.name))
            else if s.limits.bytes > 0 && f.size > s.limits.bytes then RefusedWith(t, id, TooBig(f.name))
            else if |s.photos| >= s.limits.photos then RefusedWith(t, id, NoRoom)
            else Pick(id, f) in t.queue || Request(s.round, Pick(id, f)) in t.requests
    ensures Uploaded(s, files).shown == Uploaded(s, files).problems
  {
    hide Core;
    hide Next;
    var full := |s.photos| >= s.limits.photos;
    var c := Cleared(s);
    var m := TakeAll(c, files, full);
    TakeAllSettles(c, files, full);
    TakeAllPicksOnly(c, files, full);
    TakeAllKeepsBusy(c, files, full);
    assert Settles(s.limits, files[i], s.picks + i, full, m);
    NothingGivenUp(Showing(ToldOfRoom(m)));
  }

  /** With an upload going on, with room left, or with nothing queued,
      nothing is given up. */
  lemma NothingGivenUp(s: State)
    requires s.busy || |s.photos| < s.limits.photos || s.queue == []
    ensures var t := Next(s);
            && t.fates == s.fates
            && (forall p | p in s.problems :: p in t.problems)
            && (forall p | p in s.queue :: p in t.queue || Request(s.round, p) in t.requests)
            && (s.shown == s.problems ==> t.shown == t.problems)
  {
    assert s.queue != [] ==> s.queue == [s.queue[0]] + s.queue[1..];
  }

  lemma {:induction false} TakeAllKeepsBusy(s: State, files: seq<File>, full: bool)
    ensures TakeAll(s, files, full).busy == s.busy
    decreases |files|
  {
    if files != [] {
      TakeAllKeepsBusy(TakeOne(s, files[0], full), files[1..], full);
    }
  }

  /** When the list has filled up, every file still queued is reported: the
      message counts exactly the picks given up. */
  lemma GivenUpIsReported(s: State)
    requires Core(s) && s.left == 0 && !s.busy && |s.photos| >= s.limits.photos && s.queue != []
    ensures var t := Next(s);
            && t.queue == [] && !t.busy
            && t.shown == t.problems == s.problems + [LastNotAdded(|s.queue|)]
            && (forall p | p in s.queue :: p.id in t.fates && t.fates[p.id] == ReportedNotAdded)
            && (forall id | id in s.fates :: id in t.fates && t.fates[id] == s.fates[id])
  {
    AllToSettles(s.fates, s.queue, ReportedNotAdded);
    forall id | id in s.fates
      ensures !exists p :: p in s.queue && p.id == id
    {
      assert Places(s, id) <= 1;
      assert !Queued(s, id);
    }
  }

  /** An answer's photos are added while there is room, and each that is
      not is reported; nothing else joins the list. */
  lemma EveryAnsweredPhotoIsSettled(s: State, r: Request, a: Answer)
    requires Valid(s) && Current(s, r)
    ensures var t := Landed(s, r, a);
            && |t.photos| >= |s.photos| && t.photos[..|s.photos|] == s.photos
            && (forall i | |s.photos| <= i < |t.photos| ::
                  t.photos[i].blob == a.blobs[i - |s.photos|] && t.photos[i].from == Some(r.pick.id))
            && (|t.photos| - |s.photos| < |a.blobs| ==>
                  |t.photos| >= s.limits.photos && NotAdded(r.pick.file.name) in t.problems)
            && (a.signedOut ==> t.queue == [] && SignedOut(Names([r.pick] + s.queue)) in t.problems)
            && t.shown == t.problems
  {
    AnswerIsTold(s, r, a);
    hide Messages;
    hide Names;
    hide AllTo;
    hide Repeat;
  }

  lemma AnswerIsTold(s: State, r: Request, a: Answer)
    ensures var t, added := Landed(s, r, a), Added(s.limits, s.photos, s.keys, a.blobs, r.pick.id);
            && (|added| < |a.blobs| ==> NotAdded(r.pick.file.name) in t.problems)
            && (a.signedOut ==> SignedOut(Names([r.pick] + s.queue)) in t.problems)
  {
    hide Messages;
    hide Names;
    hide AllTo;
    hide Repeat;
    RepeatHolds(NotAdded(r.pick.file.name), |a.blobs| - |Added(s.limits, s.photos, s.keys, a.blobs, r.pick.id)|);
    hide Added;
  }

  lemma RepeatHolds(p: Problem, n: nat)
    ensures n > 0 ==> p in Repeat(p, n)
  {
  }

  /** Restoring a draft discards exactly what is queued, adds no message,
      and clears those on show. */
  lemma RestoreDiscardsTheQueue(s: State, blobs: seq<(string, string)>)
    requires Valid(s)
    ensures var t := Restored(s, blobs);
            && t.problems == s.problems && t.shown == []
            && forall id: nat | id < s.picks ::
                 Queued(s, id) <==> id !in s.fates && id in t.fates && t.fates[id] == Discarded
  {
    var t := Restored(s, blobs);
    AllToSettles(s.fates, s.queue, Discarded);
    forall id: nat | id < s.picks
      ensures Queued(s, id) <==> id !in s.fates && id in t.fates && t.fates[id] == Discarded
    {
      assert Places(s, id) == 1;
    }
  }
}
