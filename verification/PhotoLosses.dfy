/** Which picked files are lost: no photo of theirs is on the list or can
    reach it any more, and nothing is said of it. */
module PhotoLosses {
  import opened PhotoQueue
  import opened PhotoRuns
  import opened Wrappers

  /** In flight for a round that is over. */
  ghost predicate FlyingEarlier(s: State, id: nat) {
    exists r :: r in s.requests && r.round < s.round && r.pick.id == id
  }

  predicate LostFate(fate: Fate) {
    fate == Discarded || fate == AnsweredTooLate || fate == AnsweredEmpty
  }

  ghost predicate Lost(s: State, id: nat) {
    (id in s.fates && LostFate(s.fates[id])) || FlyingEarlier(s, id)
  }

  /** Queued, or in flight for this round. */
  ghost predicate Waits(s: State, id: nat) {
    Queued(s, id) || exists r :: Current(s, r) && r.pick.id == id
  }

  // ---- most steps lose nothing ----

  /** What was settled stays so, what is newly settled is not lost, and the
      requests of earlier rounds are the same. */
  ghost predicate LosesNothing(s: State, t: State) {
    && t.round == s.round
    && (forall id | id in s.fates :: id in t.fates && t.fates[id] == s.fates[id])
    && (forall id | id in t.fates && id !in s.fates :: !LostFate(t.fates[id]))
    && (forall r: Request | r.round < s.round :: r in t.requests <==> r in s.requests)
  }

  lemma SameLosses(s: State, t: State, id: nat)
    requires LosesNothing(s, t)
    ensures Lost(t, id) <==> Lost(s, id)
  {
    if r :| r in s.requests && r.round < s.round && r.pick.id == id {
      assert r in t.requests;
    }
  }

  lemma LosesNothingTwice(s: State, t: State, u: State)
    requires LosesNothing(s, t) && LosesNothing(t, u)
    ensures LosesNothing(s, u)
  {
  }

  /** Messages, the count still to be told and the button lose nothing. */
  lemma SameLosesNothing(s: State, t: State)
    requires t == s.(problems := t.problems, shown := t.shown, left := t.left, disabled := t.disabled)
    ensures LosesNothing(s, t)
  {
  }

  /** No pick yet to come is settled. */
  ghost predicate SettledBefore(s: State) {
    forall id | id in s.fates :: id < s.picks
  }

  lemma {:induction false} TakeAllLosesNothing(s: State, files: seq<File>, full: bool)
    requires SettledBefore(s)
    ensures LosesNothing(s, TakeAll(s, files, full))
    decreases |files|
  {
    if files != [] {
      TakeAllLosesNothing(TakeOne(s, files[0], full), files[1..], full);
    }
  }

  lemma QueueIsUnsettled(s: State)
    requires Core(s)
    ensures forall id | id in s.fates :: !exists p :: p in s.queue && p.id == id
    ensures SettledBefore(s)
  {
    forall id | id in s.fates
      ensures id < s.picks && !exists p :: p in s.queue && p.id == id
    {
      assert Places(s, id) == if id < s.picks then 1 else 0;
      assert !Queued(s, id);
    }
  }

  lemma SpilledLosesNothing(s: State)
    requires Core(s)
    ensures LosesNothing(s, Spilled(s))
  {
    QueueIsUnsettled(s);
    AllToSettles(s.fates, s.queue, ReportedNotAdded);
  }

  lemma NextLosesNothing(s: State)
    requires Core(s)
    ensures LosesNothing(s, Next(s))
  {
    SpilledLosesNothing(s);
    hide Spilled;
    hide Core;
  }

  lemma UploadLosesNothing(s: State, files: seq<File>)
    requires Valid(s)
    ensures LosesNothing(s, Uploaded(s, files))
  {
    QueueIsUnsettled(s);
    hide Core;
    hide Next;
    hide LosesNothing;
    var full := |s.photos| >= s.limits.photos;
    var c := Cleared(s);
    var t := TakeAll(c, files, full);
    var u := Showing(ToldOfRoom(t));
    SamePending(s, c);
    TakeAllKeepsCore(c, files, full);
    TakeAllLosesNothing(c, files, full);
    SamePending(t, u);
    NextLosesNothing(u);
    SameLosesNothing(s, c);
    SameLosesNothing(t, u);
    LosesNothingTwice(s, c, t);
    LosesNothingTwice(s, t, u);
    LosesNothingTwice(s, u, Next(u));
  }

  lemma LandedLosesNothing(s: State, r: Request, a: Answer)
    requires Core(s) && Current(s, r) && !SaysNothing(a)
    ensures LosesNothing(s, Landed(s, r, a))
  {
    QueueIsUnsettled(s);
    assert Flying(s, r.pick.id) && Places(s, r.pick.id) <= 1;
    assert r.pick.id !in s.fates && r.round == s.round;
    FlightLosesNothing(s, r, a);
  }

  lemma FlightLosesNothing(s: State, r: Request, a: Answer)
    requires r.pick.id !in s.fates && r.round == s.round && !SaysNothing(a)
    requires forall id | id in s.fates :: !exists p :: p in s.queue && p.id == id
    ensures LosesNothing(s, Landed(s, r, a))
  {
    hide Added;
    hide Messages;
    hide Repeat;
    hide Names;
    AllToSettles(s.fates, s.queue, ReportedNotAdded);
    var t := Landed(s, r, a);
    assert t.requests == s.requests - {r};
    forall id | id in t.fates && id !in s.fates
      ensures !LostFate(t.fates[id])
    {
      if id != r.pick.id {
        var p :| p in s.queue && p.id == id;
      }
    }
  }

  lemma AnswerLosesNothing(s: State, r: Request, a: Answer)
    requires Valid(s) && Current(s, r) && !SaysNothing(a)
    ensures LosesNothing(s, GotAnswer(s, r, a))
  {
    LandedLosesNothing(s, r, a);
    LandedKeepsCore(s, r, a);
    hide Core;
    hide Next;
    hide Landed;
    hide LosesNothing;
    var t := Landed(s, r, a);
    var u := Waited(t);
    SamePending(t, u);
    SameLosesNothing(t, u);
    NextLosesNothing(u);
    LosesNothingTwice(s, t, u);
    LosesNothingTwice(s, u, Next(u));
  }

  // ---- empty and late answers, and restores ----

  /** An answer of this round that says nothing loses the pick it is to. */
  lemma EmptyAnswerLoses(s: State, r: Request, a: Answer, id: nat)
    requires Valid(s) && Current(s, r) && SaysNothing(a)
    ensures Lost(GotAnswer(s, r, a), id) <==> Lost(s, id) || id == r.pick.id
  {
    var t := Landed(s, r, a);
    var u := Waited(t);
    EmptyLandedLoses(s, r, a, id);
    LandedKeepsCore(s, r, a);
    hide Core;
    hide Next;
    hide Landed;
    hide Lost;
    SamePending(t, u);
    SameLosesNothing(t, u);
    NextLosesNothing(u);
    SameLosses(t, u, id);
    SameLosses(u, Next(u), id);
  }

  lemma EmptyLandedLoses(s: State, r: Request, a: Answer, id: nat)
    requires Current(s, r) && SaysNothing(a)
    ensures Lost(Landed(s, r, a), id) <==> Lost(s, id) || id == r.pick.id
  {
    hide Added;
    hide Messages;
    hide Repeat;
    var t := Landed(s, r, a);
    assert t.fates == s.fates[r.pick.id := AnsweredEmpty] && t.requests == s.requests - {r};
    assert FlyingEarlier(t, id) <==> FlyingEarlier(s, id) by {
      if q :| q in s.requests && q.round < s.round && q.pick.id == id {
        assert q in t.requests;
      }
    }
  }

  /** What an answer of an earlier round brings was lost before it came. */
  lemma LateAnswerIsLost(s: State, r: Request, a: Answer, id: nat)
    requires Valid(s) && r in s.requests && r.round != s.round
    ensures Lost(GotAnswer(s, r, a), id) <==> Lost(s, id)
  {
    var t := GotAnswer(s, r, a);
    assert r.round < s.round && FlyingEarlier(s, r.pick.id);
    if id != r.pick.id {
      if q :| q in s.requests && q.round < s.round && q.pick.id == id {
        assert q in t.requests;
      }
    }
  }

  /** Restoring a draft loses exactly what waits. */
  lemma RestoreLoses(s: State, blobs: seq<(string, string)>, id: nat)
    requires Valid(s)
    ensures Lost(Restored(s, blobs), id) <==> Lost(s, id) || Waits(s, id)
  {
    var t := Restored(s, blobs);
    QueueIsUnsettled(s);
    AllToSettles(s.fates, s.queue, Discarded);
    assert Queued(s, id) <==> exists p :: p in s.queue && p.id == id;
    if r :| r in s.requests && r.pick.id == id {
      assert r in t.requests && r.round < t.round;
      assert r.round == s.round ==> Current(s, r);
    }
  }

  // ---- whole runs ----

  /** The step takes away the pick's last chance: a draft is restored while
      it waits, or an answer to it, in its round, says nothing. */
  ghost predicate LosesPick(s: State, a: Action, id: nat) {
    || (a.RestoreDraft? && Waits(s, id))
    || (AnswersEmpty(s, a) && a.request.pick.id == id)
  }

  predicate AnswersEmpty(s: State, a: Action) {
    a.Arrive? && a.request.round == s.round && SaysNothing(a.answer)
  }

  lemma StepLoses(s: State, a: Action, id: nat)
    requires Valid(s) && Enabled(s, a)
    ensures Lost(Do(s, a), id) <==> Lost(s, id) || LosesPick(s, a, id)
  {
    hide Lost;
    hide Waits;
    if a.RestoreDraft? {
      RestoreLoses(s, a.blobs, id);
    } else if AnswersEmpty(s, a) {
      assert Current(s, a.request);
      EmptyAnswerLoses(s, a.request, a.answer, id);
    } else if a.Arrive? && a.request.round != s.round {
      LateAnswerIsLost(s, a.request, a.answer, id);
    } else {
      StepLosesNothing(s, a);
      SameLosses(s, Do(s, a), id);
    }
  }

  lemma StepLosesNothing(s: State, a: Action)
    requires Valid(s) && Enabled(s, a) && !a.RestoreDraft?
    requires a.Arrive? ==> a.request.round == s.round && !SaysNothing(a.answer)
    ensures LosesNothing(s, Do(s, a))
  {
    hide Valid;
    if a.PickFiles? {
      UploadLosesNothing(s, a.files);
      hide Uploaded;
    } else if a.Arrive? {
      assert Current(s, a.request);
      AnswerLosesNothing(s, a.request, a.answer);
      hide GotAnswer;
    }
  }

  /** Some step of the run loses the pick. */
  ghost predicate SomeStepLoses(s: State, run: seq<Action>, id: nat)
    requires Runs(s, run)
    decreases |run|
  {
    run != [] && (LosesPick(s, run[0], id) || SomeStepLoses(Do(s, run[0]), run[1..], id))
  }

  /** Some restore of the run was taken while something was pending, or some
      answer said nothing in its round. */
  predicate LosesSome(s: State, run: seq<Action>)
    requires Runs(s, run)
    decreases |run|
  {
    run != [] && (StepLosesSome(s, run[0]) || LosesSome(Do(s, run[0]), run[1..]))
  }

  predicate StepLosesSome(s: State, a: Action) {
    (a.RestoreDraft? && Pending(s) > 0) || AnswersEmpty(s, a)
  }

  lemma {:induction false} RunLoses(s: State, run: seq<Action>, id: nat)
    requires Valid(s) && Runs(s, run)
    ensures Lost(After(s, run), id) <==> Lost(s, id) || SomeStepLoses(s, run, id)
    decreases |run|
  {
    hide Valid;
    hide Do;
    hide Lost;
    hide LosesPick;
    if run != [] {
      StepLoses(s, run[0], id);
      StepIsValid(s, run[0]);
      RunLoses(Do(s, run[0]), run[1..], id);
    }
  }

  lemma PendingIffWaits(s: State)
    requires Valid(s)
    ensures Pending(s) > 0 <==> exists id: nat :: Waits(s, id)
  {
    if s.queue != [] {
      assert s.queue[0] in s.queue && Queued(s, s.queue[0].id);
      assert Waits(s, s.queue[0].id);
    }
    if s.busy {
      var r :| Current(s, r);
      assert Waits(s, r.pick.id);
    }
    if id: nat :| Waits(s, id) {
      assert s.queue != [] || exists r :: Current(s, r);
    }
  }

  lemma StepLosesSomePick(s: State, a: Action)
    requires Valid(s)
    ensures StepLosesSome(s, a) <==> exists id: nat :: LosesPick(s, a, id)
  {
    PendingIffWaits(s);
    hide Valid;
    hide Pending;
    hide Waits;
    if a.RestoreDraft? && Pending(s) > 0 {
      var id: nat :| Waits(s, id);
      assert LosesPick(s, a, id);
    } else if AnswersEmpty(s, a) {
      assert LosesPick(s, a, a.request.pick.id);
    }
  }

  lemma {:induction false} SomePickLost(s: State, run: seq<Action>)
    requires Valid(s) && Runs(s, run) && LosesSome(s, run)
    ensures exists id: nat :: SomeStepLoses(s, run, id)
    decreases |run|
  {
    hide Valid;
    hide Do;
    hide LosesPick;
    hide StepLosesSome;
    StepLosesSomePick(s, run[0]);
    if StepLosesSome(s, run[0]) {
      var id: nat :| LosesPick(s, run[0], id);
      assert SomeStepLoses(s, run, id);
    } else {
      StepIsValid(s, run[0]);
      SomePickLost(Do(s, run[0]), run[1..]);
      var id: nat :| SomeStepLoses(Do(s, run[0]), run[1..], id);
      assert SomeStepLoses(s, run, id);
    }
  }

  lemma {:induction false} LostIsSome(s: State, run: seq<Action>, id: nat)
    requires Valid(s) && Runs(s, run) && SomeStepLoses(s, run, id)
    ensures LosesSome(s, run)
    decreases |run|
  {
    hide Valid;
    hide Do;
    hide LosesPick;
    hide StepLosesSome;
    StepLosesSomePick(s, run[0]);
    if !LosesPick(s, run[0], id) {
      StepIsValid(s, run[0]);
      LostIsSome(Do(s, run[0]), run[1..], id);
    }
  }

  lemma NothingLostAtFirst(limits: Limits, tiles: seq<(string, string)>, id: nat)
    ensures !Lost(Opened(limits, tiles), id)
  {
  }

  /** From the page as it is opened, over every interleaving: a pick is lost
      if and only if some draft was restored while it was queued or in
      flight, or an answer to it, in its round, said nothing. */
  lemma PickIsLostIff(limits: Limits, tiles: seq<(string, string)>, run: seq<Action>, id: nat)
    requires Runs(Opened(limits, tiles), run)
    ensures Lost(After(Opened(limits, tiles), run), id) <==> SomeStepLoses(Opened(limits, tiles), run, id)
  {
    OpenedIsValid(limits, tiles);
    NothingLostAtFirst(limits, tiles, id);
    RunLoses(Opened(limits, tiles), run, id);
  }

  /** Some pick is lost if and only if some draft was restored while an
      upload was pending, which is while Publish was disabled, or some
      answer said nothing in its round. */
  lemma SomePickIsLostIff(limits: Limits, tiles: seq<(string, string)>, run: seq<Action>)
    requires Runs(Opened(limits, tiles), run)
    ensures (exists id: nat :: Lost(After(Opened(limits, tiles), run), id)) <==> LosesSome(Opened(limits, tiles), run)
  {
    hide Lost;
    var start := Opened(limits, tiles);
    OpenedIsValid(limits, tiles);
    if id: nat :| Lost(After(start, run), id) {
      PickIsLostIff(limits, tiles, run, id);
      LostIsSome(start, run, id);
    }
    if LosesSome(start, run) {
      SomePickLost(start, run);
      var id: nat :| SomeStepLoses(start, run, id);
      PickIsLostIff(limits, tiles, run, id);
    }
  }

  // ---- no photo of a lost pick ----

  /** Every uploaded photo of the list came with an answer in its round. */
  ghost predicate Credited(s: State) {
    forall p | p in s.photos && p.from.Some? :: p.from.value in s.fates && s.fates[p.from.value] == Answered
  }

  lemma LandedEmptyIsCredited(s: State, r: Request, a: Answer)
    requires Core(s) && Current(s, r) && Credited(s) && SaysNothing(a)
    ensures Credited(Landed(s, r, a))
  {
    assert Flying(s, r.pick.id) && Places(s, r.pick.id) <= 1;
    assert r.pick.id !in s.fates;
    hide Core;
    hide Messages;
    hide Repeat;
    assert Landed(s, r, a).photos == s.photos;
  }

  lemma LandedIsCredited(s: State, r: Request, a: Answer)
    requires Core(s) && Current(s, r) && Credited(s) && !SaysNothing(a)
    ensures Credited(Landed(s, r, a))
  {
    var t := Landed(s, r, a);
    AddedFacts(s, a.blobs, r.pick.id);
    LandedLosesNothing(s, r, a);
    var added := Added(s.limits, s.photos, s.keys, a.blobs, r.pick.id);
    assert forall p | p in t.photos :: p in s.photos || p in added;
    assert t.fates[r.pick.id] == Answered;
  }

  lemma AnswerIsCredited(s: State, r: Request, a: Answer)
    requires Valid(s) && r in s.requests && Credited(s)
    ensures Credited(GotAnswer(s, r, a))
  {
    if r.round == s.round {
      assert Current(s, r);
      var t := Waited(Landed(s, r, a));
      if SaysNothing(a) {
        LandedEmptyIsCredited(s, r, a);
      } else {
        LandedIsCredited(s, r, a);
      }
      LandedKeepsCore(s, r, a);
      hide Core;
      hide Landed;
      hide Next;
      SamePending(Landed(s, r, a), t);
      NextKeepsPhotos(t);
      NextLosesNothing(t);
    } else {
      assert Flying(s, r.pick.id) && Places(s, r.pick.id) <= 1;
      hide Core;
    }
  }

  lemma StepIsCredited(s: State, a: Action)
    requires Valid(s) && Enabled(s, a) && Credited(s)
    ensures Credited(Do(s, a))
  {
    if a.PickFiles? {
      UploadLosesNothing(s, a.files);
      UploadKeepsPhotos(s, a.files);
      hide Uploaded;
    } else if a.Arrive? {
      AnswerIsCredited(s, a.request, a.answer);
    } else if !a.RestoreDraft? {
      EditKeepsSources(s, a);
    }
  }

  /** Editing the list brings no new source. */
  lemma EditKeepsSources(s: State, a: Action)
    requires Valid(s) && Enabled(s, a) && (a.MovePhoto? || a.RemovePhoto? || a.CaptionPhoto? || a.DropTile?)
    ensures Do(s, a).fates == s.fates
    ensures forall p | p in Do(s, a).photos :: exists q :: q in s.photos && q.from == p.from
  {
    hide Valid;
    hide Moved;
    if a.CaptionPhoto? {
      CaptionKeepsSources(s, a.key, a.alt);
      hide Captioned;
    } else if a.MovePhoto? {
      MoveKeepsSources(s, a.key, a.step);
    } else if a.DropTile? {
      PickedIsWithin(s.photos, a.order);
      hide Picked;
    }
  }

  lemma MoveKeepsSources(s: State, key: nat, step: int)
    ensures Moved(s, key, step).fates == s.fates
    ensures forall p | p in Moved(s, key, step).photos :: p in s.photos
  {
    var i := IndexOf(s.photos, key);
    var j := i + step;
    if i >= 0 && 0 <= j < |s.photos| {
      var rest := Without(s.photos, i);
      assert forall p | p in rest :: p in s.photos;
      assert forall p | p in rest[..j] + [s.photos[i]] + rest[j..] :: p in rest || p == s.photos[i];
    }
  }

  lemma CaptionKeepsSources(s: State, key: nat, alt: string)
    ensures Captioned(s, key, alt).fates == s.fates
    ensures forall p | p in Captioned(s, key, alt).photos :: exists q :: q in s.photos && q.from == p.from
  {
    var t := Captioned(s, key, alt);
    forall p | p in t.photos
      ensures exists q :: q in s.photos && q.from == p.from
    {
      var k :| 0 <= k < |t.photos| && t.photos[k] == p;
      assert s.photos[k] in s.photos;
    }
  }

  lemma {:induction false} RunIsCredited(s: State, run: seq<Action>)
    requires Valid(s) && Runs(s, run) && Credited(s)
    ensures Credited(After(s, run))
    decreases |run|
  {
    hide Valid;
    hide Credited;
    hide Do;
    if run != [] {
      StepIsCredited(s, run[0]);
      StepIsValid(s, run[0]);
      RunIsCredited(Do(s, run[0]), run[1..]);
    }
  }

  /** No photo of the list is of a lost pick, ever. */
  lemma LostPicksHaveNoPhoto(limits: Limits, tiles: seq<(string, string)>, run: seq<Action>, p: Photo)
    requires Runs(Opened(limits, tiles), run)
    requires p in After(Opened(limits, tiles), run).photos && p.from.Some?
    ensures !Lost(After(Opened(limits, tiles), run), p.from.value)
  {
    var start := Opened(limits, tiles);
    var s := After(start, run);
    OpenedIsValid(limits, tiles);
    RunIsCredited(start, run);
    RunIsValid(start, run);
    assert Places(s, p.from.value) <= 1;
    assert !Flying(s, p.from.value);
  }
}
