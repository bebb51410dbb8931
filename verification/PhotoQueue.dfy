/** The editor's photo list and its upload queue.

    Picked files are sent one at a time; an answer brings photos and
    messages; a restored draft replaces the list and starts a new round.
    `PhotoList` holds the page's variables and updates them as the event
    handlers do; every handler is tied to a function on `State`, and what
    holds over all interleavings is proved about those functions. */
module PhotoQueue {
  import opened Wrappers

  datatype File = File(name: string, size: nat, mime: string)

  /** A file with its place among all files ever picked. */
  datatype Pick = Pick(id: nat, file: File)

  /** A photo of the list; `from` is the pick it came of, if any. */
  datatype Photo = Photo(key: nat, blob: string, alt: string, from: Option<nat>)

  datatype Request = Request(round: nat, pick: Pick)

  datatype Problem =
    | Empty(name: string)
    | NotAnImage(name: string)
    | TooBig(name: string)
    | NoRoom
    | LastNotAdded(count: int)
    | SignedOut(names: seq<string>)
    | NotAdded(name: string)
    | Told(message: string)

  /** An answer: the photos made of the file, and the server's messages. */
  datatype Answer = Answer(blobs: seq<string>, messages: seq<string>, signedOut: bool)

  /** Neither photos nor messages. */
  predicate SaysNothing(a: Answer) {
    a.blobs == [] && a.messages == [] && !a.signedOut
  }

  /** What became of a pick that is neither queued nor in flight. */
  datatype Fate = Refused | ReportedNotAdded | Answered | AnsweredEmpty | Discarded | AnsweredTooLate

  datatype Limits = Limits(bytes: nat, photos: nat)

  datatype State = State(
    limits: Limits,
    photos: seq<Photo>,
    keys: nat,
    queue: seq<Pick>,
    busy: bool,
    left: int,
    round: nat,
    problems: seq<Problem>,
    shown: seq<Problem>,
    disabled: bool,
    requests: set<Request>,
    picks: nat,
    fates: map<nat, Fate>)

  // ---- picking ----

  function Refusal(limits: Limits, f: File): Option<Problem> {
    if f.size == 0 then Some(Empty(f.name))
    else if f.mime != "" && !("image/" <= f.mime) then Some(NotAnImage(f.name))
    else if limits.bytes != 0 && f.size > limits.bytes then Some(TooBig(f.name))
    else None
  }

  function TakeOne(s: State, f: File, full: bool): State {
    var refusal := Refusal(s.limits, f);
    if refusal.Some? then
      s.(problems := s.problems + [refusal.value], picks := s.picks + 1, fates := s.fates[s.picks := Refused])
    else if full then s.(left := -1, picks := s.picks + 1, fates := s.fates[s.picks := Refused])
    else s.(queue := s.queue + [Pick(s.picks, f)], picks := s.picks + 1)
  }

  function TakeAll(s: State, files: seq<File>, full: bool): State
    decreases |files|
  {
    if files == [] then s else TakeAll(TakeOne(s, files[0], full), files[1..], full)
  }

  function Cleared(s: State): State {
    if !s.busy && s.queue == [] then s.(problems := []) else s
  }

  function ToldOfRoom(s: State): State {
    if s.left < 0 then s.(problems := s.problems + [NoRoom], left := 0) else s
  }

  /** The batch's messages are put on show. */
  function Showing(s: State): State {
    s.(shown := s.problems)
  }

  function Uploaded(s: State, files: seq<File>): State {
    Next(Showing(ToldOfRoom(TakeAll(Cleared(s), files, |s.photos| >= s.limits.photos))))
  }

  // ---- sending ----

  function AllTo(fates: map<nat, Fate>, picks: seq<Pick>, fate: Fate): map<nat, Fate>
    decreases |picks|
  {
    if picks == [] then fates else AllTo(fates[picks[0].id := fate], picks[1..], fate)
  }

  /** With no room left what is queued is given up. */
  function Spilled(s: State): State {
    if !s.busy && |s.photos| >= s.limits.photos then
      s.(left := s.left + |s.queue|, queue := [], fates := AllTo(s.fates, s.queue, ReportedNotAdded))
    else s
  }

  function ToldOfLast(s: State): State {
    if !s.busy && s.left != 0 && s.queue == [] then
      Showing(s.(problems := s.problems + [LastNotAdded(s.left)], left := 0))
    else s
  }

  function Sent(s: State): State {
    if !s.busy && s.queue != [] then
      s.(busy := true, queue := s.queue[1..], requests := s.requests + {Request(s.round, s.queue[0])})
    else s
  }

  function Pending(s: State): nat {
    |s.queue| + if s.busy then 1 else 0
  }

  function Waited(s: State): State {
    s.(disabled := Pending(s) > 0)
  }

  function Next(s: State): State {
    Waited(Sent(ToldOfLast(Spilled(s))))
  }

  // ---- answers ----

  function Names(picks: seq<Pick>): seq<string> {
    if picks == [] then [] else [picks[0].file.name] + Names(picks[1..])
  }

  function Messages(texts: seq<string>): seq<Problem> {
    if texts == [] then [] else [Told(texts[0])] + Messages(texts[1..])
  }

  /** The photos an answer adds while there is room, each with a new key. */
  function Added(limits: Limits, photos: seq<Photo>, keys: nat, blobs: seq<string>, from: nat): seq<Photo> {
    var n := if |photos| + |blobs| <= limits.photos then |blobs|
             else if |photos| <= limits.photos then limits.photos - |photos|
             else 0;
    seq(n, i requires 0 <= i < n => Photo(keys + 1 + i, blobs[i], "", Some(from)))
  }

  function Repeat(p: Problem, n: nat): seq<Problem> {
    if n == 0 then [] else Repeat(p, n - 1) + [p]
  }

  function AnswerFate(a: Answer): Fate {
    if SaysNothing(a) then AnsweredEmpty else Answered
  }

  /** An answer of this round, before what is queued is looked at again. */
  function Landed(s: State, r: Request, a: Answer): State {
    var added := Added(s.limits, s.photos, s.keys, a.blobs, r.pick.id);
    var said := Messages(a.messages) + (if a.signedOut then [SignedOut(Names([r.pick] + s.queue))] else []);
    Showing(s.(
      busy := false,
      queue := if a.signedOut then [] else s.queue,
      photos := s.photos + added,
      keys := s.keys + |added|,
      problems := s.problems + said + Repeat(NotAdded(r.pick.file.name), |a.blobs| - |added|),
      fates := (if a.signedOut then AllTo(s.fates, s.queue, ReportedNotAdded) else s.fates)
               [r.pick.id := AnswerFate(a)],
      requests := s.requests - {r}))
  }

  function GotAnswer(s: State, r: Request, a: Answer): State {
    if r.round != s.round then s.(requests := s.requests - {r}, fates := s.fates[r.pick.id := AnsweredTooLate])
    else Next(Waited(Landed(s, r, a)))
  }

  // ---- the list ----

  function Keyed(blobs: seq<(string, string)>, keys: nat): seq<Photo> {
    seq(|blobs|, i requires 0 <= i < |blobs| => Photo(keys + 1 + i, blobs[i].0, blobs[i].1, None))
  }

  function Restored(s: State, blobs: seq<(string, string)>): State {
    Waited(s.(
      photos := Keyed(blobs, s.keys),
      keys := s.keys + |blobs|,
      round := s.round + 1,
      queue := [],
      left := 0,
      busy := false,
      shown := [],
      fates := AllTo(s.fates, s.queue, Discarded)))
  }

  function IndexOf(photos: seq<Photo>, key: nat): (i: int)
    ensures -1 <= i < |photos|
    ensures i >= 0 ==> photos[i].key == key
    ensures i < 0 ==> forall p | p in photos :: p.key != key
  {
    if photos == [] then -1
    else if photos[0].key == key then 0
    else
      var i := IndexOf(photos[1..], key);
      if i < 0 then -1 else i + 1
  }

  /** The list with the photo at `i` taken out. */
  function Without(photos: seq<Photo>, i: nat): seq<Photo>
    requires i < |photos|
  {
    photos[..i] + photos[i + 1..]
  }

  function Moved(s: State, key: nat, step: int): State {
    var i := IndexOf(s.photos, key);
    var j := i + step;
    if i < 0 || j < 0 || j >= |s.photos| then s
    else
      var rest := Without(s.photos, i);
      Waited(s.(photos := rest[..j] + [s.photos[i]] + rest[j..]))
  }

  function Removed(s: State, key: nat): State {
    var i := IndexOf(s.photos, key);
    if i < 0 then s else Waited(s.(photos := Without(s.photos, i)))
  }

  function Captioned(s: State, key: nat, alt: string): State {
    var i := IndexOf(s.photos, key);
    if i < 0 then s else Waited(s.(photos := s.photos[i := s.photos[i].(alt := alt)]))
  }

  /** The photos under these keys; a key of no photo is passed over. */
  function Picked(photos: seq<Photo>, order: seq<nat>): seq<Photo> {
    if order == [] then []
    else
      var i := IndexOf(photos, order[0]);
      (if i < 0 then [] else [photos[i]]) + Picked(photos, order[1..])
  }

  /** The end of a drag: the tiles' order becomes the list's. */
  function Dragged(s: State, order: seq<nat>): State {
    var photos := Picked(s.photos, order);
    Waited(if |photos| == |s.photos| then s.(photos := photos) else s)
  }

  // ---- the page ----

  class PhotoList {
    const limits: Limits
    var photos: seq<Photo>
    var keys: nat
    var queue: seq<Pick>
    var busy: bool
    var left: int
    var round: nat
    var problems: seq<Problem>
    var shown: seq<Problem>
    var disabled: bool
    var requests: set<Request>
    var picks: nat
    ghost var fates: map<nat, Fate>

    ghost function Now(): State
      reads this
    {
      State(limits, photos, keys, queue, busy, left, round, problems, shown, disabled, requests, picks, fates)
    }

    constructor (limits: Limits, tiles: seq<(string, string)>)
      ensures Now() == State(limits, Keyed(tiles, 0), |tiles|, [], false, 0, 0, [], [], false, {}, 0, map[])
    {
      this.limits := limits;
      photos, keys := Keyed(tiles, 0), |tiles|;
      queue, busy, left, round := [], false, 0, 0;
      problems, shown, disabled := [], [], false;
      requests, picks, fates := {}, 0, map[];
    }

    method Upload(files: seq<File>)
      modifies this
      ensures Now() == Uploaded(old(Now()), files)
    {
      hide TakeOne;
      hide Next;
      if !busy && |queue| == 0 {
        problems := [];
      }
      var full := |photos| >= limits.photos;
      ghost var start := Now();
      var i := 0;
      while i < |files|
        invariant 0 <= i <= |files|
        invariant TakeAll(start, files, full) == TakeAll(Now(), files[i..], full)
      {
        var f := files[i];
        Take(f, full);
        assert files[i..][0] == f && files[i..][1..] == files[i + 1..];
        i := i + 1;
      }
      if left < 0 {
        problems := problems + [NoRoom];
        left := 0;
      }
      shown := problems;
      SendNext();
    }

    method Take(f: File, full: bool)
      modifies this
      ensures Now() == TakeOne(old(Now()), f, full)
    {
      var refusal := Refusal(limits, f);
      if refusal.Some? {
        problems := problems + [refusal.value];
        fates := fates[picks := Refused];
      } else if full {
        left := -1;
        fates := fates[picks := Refused];
      } else {
        queue := queue + [Pick(picks, f)];
      }
      picks := picks + 1;
    }

    method SendNext()
      modifies this
      ensures Now() == Next(old(Now()))
    {
      Spill();
      TellLast();
      if !busy && |queue| != 0 {
        busy := true;
        requests := requests + {Request(round, queue[0])};
        queue := queue[1..];
      }
      hide Spilled;
      hide ToldOfLast;
      Wait();
    }

    method Spill()
      modifies this`left, this`queue, this`fates
      ensures Now() == Spilled(old(Now()))
    {
      if !busy && |photos| >= limits.photos {
        left := left + |queue|;
        fates := AllTo(fates, queue, ReportedNotAdded);
        queue := [];
      }
    }

    method TellLast()
      modifies this`problems, this`left, this`shown
      ensures Now() == ToldOfLast(old(Now()))
    {
      if !busy && left != 0 && |queue| == 0 {
        problems := problems + [LastNotAdded(left)];
        left := 0;
        shown := problems;
      }
    }

    method Wait()
      modifies this`disabled
      ensures Now() == Waited(old(Now()))
    {
      disabled := |queue| + (if busy then 1 else 0) > 0;
    }

    /** The answer to `r` arrives. */
    method Hear(r: Request, a: Answer)
      modifies this
      ensures Now() == GotAnswer(old(Now()), r, a)
    {
      if r.round != round {
        requests := requests - {r};
        fates := fates[r.pick.id := AnsweredTooLate];
        return;
      }
      Land(r, a);
      Wait();
      SendNext();
    }

    /** What an answer of this round brings. */
    method Land(r: Request, a: Answer)
      modifies this
      ensures Now() == Landed(old(Now()), r, a)
    {
      hide AllTo;
      hide Names;
      hide Messages;
      hide Repeat;
      hide Added;
      requests := requests - {r};
      busy := false;
      var said := Messages(a.messages);
      var signedOut: seq<Problem> := [];
      if a.signedOut {
        signedOut := [SignedOut(Names([r.pick] + queue))];
        fates := AllTo(fates, queue, ReportedNotAdded);
        queue := [];
      }
      fates := fates[r.pick.id := AnswerFate(a)];
      var notAdded := Add(r.pick, a.blobs);
      problems := problems + (said + signedOut) + notAdded;
      shown := problems;
    }

    /** Each photo of an answer goes at the end while there is room. */
    method Add(pick: Pick, blobs: seq<string>) returns (notAdded: seq<Problem>)
      modifies this`photos, this`keys
      ensures var added := Added(limits, old(photos), old(keys), blobs, pick.id);
              && photos == old(photos) + added && keys == old(keys) + |added|
              && notAdded == Repeat(NotAdded(pick.file.name), |blobs| - |added|)
    {
      ghost var added := Added(limits, photos, keys, blobs, pick.id);
      notAdded := [];
      var i := 0;
      while i < |blobs|
        invariant 0 <= i <= |blobs|
        invariant i <= |added| ==> photos == old(photos) + added[..i] && keys == old(keys) + i && notAdded == []
        invariant i > |added| ==> photos == old(photos) + added && keys == old(keys) + |added|
        invariant i > |added| ==> notAdded == Repeat(NotAdded(pick.file.name), i - |added|)
      {
        if |photos| < limits.photos {
          keys := keys + 1;
          photos := photos + [Photo(keys, blobs[i], "", Some(pick.id))];
        } else {
          notAdded := notAdded + [NotAdded(pick.file.name)];
        }
        i := i + 1;
      }
      assert added[..|added|] == added;
    }

    method Restore(blobs: seq<(string, string)>)
      modifies this
      ensures Now() == Restored(old(Now()), blobs)
    {
      hide AllTo;
      hide Keyed;
      photos := Keyed(blobs, keys);
      keys := keys + |blobs|;
      round := round + 1;
      fates := AllTo(fates, queue, Discarded);
      queue := [];
      left := 0;
      busy := false;
      shown := [];
      Wait();
    }

    method Move(key: nat, step: int)
      modifies this
      ensures Now() == Moved(old(Now()), key, step)
    {
      var i := IndexOf(photos, key);
      var j := i + step;
      if i < 0 || j < 0 || j >= |photos| {
        return;
      }
      var photo := photos[i];
      photos := Without(photos, i);
      photos := photos[..j] + [photo] + photos[j..];
      Wait();
    }

    method Remove(key: nat)
      modifies this
      ensures Now() == Removed(old(Now()), key)
    {
      var i := IndexOf(photos, key);
      if i < 0 {
        return;
      }
      photos := Without(photos, i);
      Wait();
    }

    method Caption(key: nat, alt: string)
      modifies this
      ensures Now() == Captioned(old(Now()), key, alt)
    {
      var i := IndexOf(photos, key);
      if i >= 0 {
        photos := photos[i := photos[i].(alt := alt)];
        Wait();
      }
    }

    method EndDrag(order: seq<nat>)
      modifies this
      ensures Now() == Dragged(old(Now()), order)
    {
      var list := Picked(photos, order);
      if |list| == |photos| {
        photos := list;
      }
      Wait();
    }
  }
}
