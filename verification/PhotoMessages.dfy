/** Which messages the photo list shows, and no others. */
module PhotoMessages {
  import opened PhotoQueue
  import opened PhotoRuns
  import opened Wrappers

  /** What is wrong with a picked file by itself. */
  function Complaint(limits: Limits, f: File): seq<Problem> {
    if f.size == 0 then [Empty(f.name)]
    else if f.mime != "" && !("image/" <= f.mime) then [NotAnImage(f.name)]
    else if limits.bytes > 0 && f.size > limits.bytes then [TooBig(f.name)]
    else []
  }

  function Complaints(limits: Limits, files: seq<File>): seq<Problem> {
    if files == [] then [] else Complaint(limits, files[0]) + Complaints(limits, files[1..])
  }

  predicate SomeIsGood(limits: Limits, files: seq<File>) {
    exists f | f in files :: Complaint(limits, f) == []
  }

  lemma ComplaintIs(limits: Limits, f: File)
    ensures Complaint(limits, f) == match Refusal(limits, f) { case Some(p) => [p] case None => [] }
  {
  }

  lemma FirstOrSomeIsGood(limits: Limits, files: seq<File>)
    requires files != []
    ensures SomeIsGood(limits, files) <==> Complaint(limits, files[0]) == [] || SomeIsGood(limits, files[1..])
  {
    assert forall f :: f in files <==> f == files[0] || f in files[1..];
  }

  lemma TakeOneTells(s: State, f: File, full: bool)
    ensures var t := TakeOne(s, f, full);
      && t.problems == s.problems + Complaint(s.limits, f)
      && t.left == (if full && Complaint(s.limits, f) == [] then -1 else s.left)
      && t.busy == s.busy && t.photos == s.photos && t.limits == s.limits
      && (full ==> t.queue == s.queue)
  {
    ComplaintIs(s.limits, f);
    hide Refusal;
  }

  lemma {:induction false} TakeAllTells(s: State, files: seq<File>, full: bool)
    ensures var t := TakeAll(s, files, full);
      && t.problems == s.problems + Complaints(s.limits, files)
      && t.left == (if full && SomeIsGood(s.limits, files) then -1 else s.left)
      && t.busy == s.busy && t.photos == s.photos && t.limits == s.limits
      && (full ==> t.queue == s.queue)
    decreases |files|
  {
    if files == [] {
      assert s.problems + [] == s.problems;
    } else {
      hide TakeOne;
      hide SomeIsGood;
      hide Complaint;
      var m := TakeOne(s, files[0], full);
      TakeOneTells(s, files[0], full);
      FirstOrSomeIsGood(s.limits, files);
      TakeAllTells(m, files[1..], full);
    }
  }

  /** After a pick: the messages of the batch still going on, none of one that
      is over, a message for each file that cannot be used, and one for want
      of room if some could. */
  lemma UploadTells(s: State, files: seq<File>)
    requires Valid(s)
    ensures var t, full := Uploaded(s, files), |s.photos| >= s.limits.photos;
      && t.problems ==
           (if s.busy || s.queue != [] then s.problems else []) + Complaints(s.limits, files)
           + (if full && SomeIsGood(s.limits, files) then [NoRoom] else [])
      && t.shown == t.problems
  {
    hide Core;
    hide TakeAll;
    hide Complaints;
    hide SomeIsGood;
    var full := |s.photos| >= s.limits.photos;
    var c := Cleared(s);
    TakeAllTells(c, files, full);
    var m := Showing(ToldOfRoom(TakeAll(c, files, full)));
    NothingToAdd(m);
    assert c.problems + Complaints(s.limits, files) + [] == c.problems + Complaints(s.limits, files);
  }

  /** Nothing is given up while an upload goes on, with room left, or with
      nothing queued. */
  lemma NothingToAdd(s: State)
    requires s.left == 0 && (s.busy || |s.photos| < s.limits.photos || s.queue == [])
    ensures Next(s).problems == s.problems && Next(s).shown == s.shown
  {
    hide AllTo;
  }

  /** `n` times a message. */
  function Times(p: Problem, n: nat): (ps: seq<Problem>)
    ensures |ps| == n
  {
    seq(n, _ => p)
  }

  function Tellings(texts: seq<string>): seq<Problem> {
    seq(|texts|, i requires 0 <= i < |texts| => Told(texts[i]))
  }

  lemma {:induction false} RepeatIs(p: Problem, n: nat)
    ensures Repeat(p, n) == Times(p, n)
  {
    if n > 0 {
      RepeatIs(p, n - 1);
    }
  }

  lemma {:induction false} MessagesAre(texts: seq<string>)
    ensures Messages(texts) == Tellings(texts)
  {
    if texts != [] {
      MessagesAre(texts[1..]);
    }
  }

  /** How many more photos there is room for. */
  function RoomFor(s: State): nat {
    if |s.photos| < s.limits.photos then s.limits.photos - |s.photos| else 0
  }

  /** After an answer of this round: the server's messages, the files named
      when signed out, one for each photo there was no room for, and, when
      that left the list full, how many queued files were given up. */
  lemma AnswerTells(s: State, r: Request, a: Answer)
    requires Valid(s) && Current(s, r)
    ensures var t, names := GotAnswer(s, r, a), [r.pick.file.name] + FileNames(s.queue);
      && t.problems ==
           s.problems + Tellings(a.messages) + (if a.signedOut then [SignedOut(names)] else [])
           + Times(NotAdded(r.pick.file.name), if |a.blobs| > RoomFor(s) then |a.blobs| - RoomFor(s) else 0)
           + (if |a.blobs| >= RoomFor(s) && !a.signedOut && s.queue != [] then [LastNotAdded(|s.queue|)] else [])
      && t.shown == t.problems
  {
    hide Core;
    hide Landed;
    hide Next;
    hide Tellings;
    hide Times;
    hide FileNames;
    var t := Waited(Landed(s, r, a));
    LandedTells(s, r, a);
    LandedLeaves(s, r, a);
    NextTells(t);
    assert t.problems + [] == t.problems;
  }

  lemma LandedTells(s: State, r: Request, a: Answer)
    ensures var names := [r.pick.file.name] + FileNames(s.queue);
      Landed(s, r, a).problems ==
        s.problems + Tellings(a.messages) + (if a.signedOut then [SignedOut(names)] else [])
        + Times(NotAdded(r.pick.file.name), if |a.blobs| > RoomFor(s) then |a.blobs| - RoomFor(s) else 0)
  {
    MessagesAre(a.messages);
    NamesAre([r.pick] + s.queue);
    assert FileNames([r.pick] + s.queue) == [r.pick.file.name] + FileNames(s.queue);
    var added := Added(s.limits, s.photos, s.keys, a.blobs, r.pick.id);
    assert |a.blobs| - |added| == if |a.blobs| > RoomFor(s) then |a.blobs| - RoomFor(s) else 0;
    hide *;
    RepeatIs(NotAdded(r.pick.file.name), |a.blobs| - |added|);
    LandedSays(s, r, a);
    var out := if a.signedOut then [SignedOut(Names([r.pick] + s.queue))] else [];
    assert s.problems + (Messages(a.messages) + out) == s.problems + Messages(a.messages) + out;
  }

  lemma LandedSays(s: State, r: Request, a: Answer)
    ensures var added := Added(s.limits, s.photos, s.keys, a.blobs, r.pick.id);
      |added| <= |a.blobs| && Landed(s, r, a).problems ==
        s.problems + (Messages(a.messages) + (if a.signedOut then [SignedOut(Names([r.pick] + s.queue))] else []))
        + Repeat(NotAdded(r.pick.file.name), |a.blobs| - |added|)
  {
    hide Messages;
    hide Repeat;
    hide Names;
    hide AllTo;
  }

  lemma LandedLeaves(s: State, r: Request, a: Answer)
    requires s.left == 0
    ensures var t := Landed(s, r, a);
      && t.left == 0 && !t.busy && t.shown == t.problems && t.limits == s.limits
      && (|t.photos| >= t.limits.photos <==> |a.blobs| >= RoomFor(s))
      && t.queue == if a.signedOut then [] else s.queue
  {
    hide Messages;
    hide Repeat;
    hide Names;
    hide AllTo;
  }

  lemma NextTells(s: State)
    requires s.left == 0 && !s.busy && s.shown == s.problems
    ensures Next(s).problems == s.problems +
      (if |s.photos| >= s.limits.photos && s.queue != [] then [LastNotAdded(|s.queue|)] else [])
    ensures Next(s).shown == Next(s).problems
  {
    hide AllTo;
  }

  function FileNames(picks: seq<Pick>): seq<string> {
    seq(|picks|, i requires 0 <= i < |picks| => picks[i].file.name)
  }

  lemma {:induction false} NamesAre(picks: seq<Pick>)
    ensures Names(picks) == FileNames(picks)
  {
    if picks != [] {
      NamesAre(picks[1..]);
    }
  }
}
