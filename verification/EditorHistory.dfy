/** Undo and redo over whole runs of the editor. */
module EditorHistory {
  import opened LineText
  import opened Editor
  import opened EditorText
  import opened Wrappers

  datatype Action =
    | Replace(text: string, start: Place, end: Place, now: int)
    | Return(off: nat, now: int)
    | Backspace(now: int)
    | DeleteForward(now: int)
    | Edit(text: string, caret: nat, now: int)
    | Undo
    | Redo
    | Activate(line: int, offset: int)
    | Leave
    | Change(text: string)

  predicate Enabled(s: State, a: Action) {
    match a
    case Replace(_, start, end, _) => In(start, s.lines) && In(end, s.lines) && NotAfter(start, end)
    case Return(off, _) => s.active.Some? && s.active.value < |s.lines| && off <= |s.lines[s.active.value]|
    case Backspace(_) => s.active.Some? && 0 < s.active.value < |s.lines|
    case DeleteForward(_) => s.active.Some? && s.active.value + 1 < |s.lines|
    case Edit(text, caret, _) => (s.active.Some? ==> s.active.value < |s.lines|) && caret <= |text|
    case Undo => true
    case Redo => true
    case Activate(_, _) => s.lines != []
    case Leave => true
    case Change(_) => true
  }

  function Do(s: State, a: Action): State
    requires Enabled(s, a)
  {
    match a
    case Replace(text, start, end, now) => ReplacedSelection(s, text, start, end, now)
    case Return(off, now) => Returned(s, off, now)
    case Backspace(now) => JoinedBack(s, now)
    case DeleteForward(now) => JoinedNext(s, now)
    case Edit(text, caret, now) => Edited(s, text, caret, now)
    case Undo => Undone(s)
    case Redo => Redone(s)
    case Activate(line, offset) => Activated(s, line, offset)
    case Leave => Deactivated(s)
    case Change(text) => Changed(s, text)
  }

  predicate Runs(s: State, run: seq<Action>)
    decreases |run|
  {
    run == [] || (Enabled(s, run[0]) && Runs(Do(s, run[0]), run[1..]))
  }

  function After(s: State, run: seq<Action>): State
    requires Runs(s, run)
    decreases |run|
  {
    if run == [] then s else After(Do(s, run[0]), run[1..])
  }

  // ---- the invariant ----

  predicate SoundSnaps(snaps: seq<Snap>) {
    forall k | 0 <= k < |snaps| :: Sound(snaps[k].lines, snaps[k].active, snaps[k].caret)
  }

  /** Lines hold no newline, the caret is in range, here and in every
      snapshot; the history is bounded; and what could be redone is only
      there while no line was edited since the last restore. */
  predicate Valid(s: State) {
    && SoundState(s)
    && SoundSnaps(s.undo) && SoundSnaps(s.redo)
    && |s.undo| + |s.redo| <= UNDO_CAP
    && (s.redo != [] ==> s.lastLine.None?)
  }

  lemma RememberedKeeps(s: State, force: bool, now: int)
    requires Valid(s)
    ensures var t := Remembered(s, force, now);
            && t.lines == s.lines && t.active == s.active && t.caret == s.caret
            && SoundSnaps(t.undo) && SoundSnaps(t.redo) && |t.undo| + |t.redo| <= UNDO_CAP
            && (t.redo != [] ==> t.lastLine.None?)
            && (force || s.active.Some? ==> t.redo == [])
  {
    hide NoBreaks;
    assert SoundSnaps(s.undo + [Shot(s)]);
  }

  lemma RestoredKeeps(s: State)
    requires Valid(s)
    ensures Valid(Undone(s)) && Valid(Redone(s))
  {
    hide Sound;
    if s.undo != [] {
      SoundReset(s, s.undo[|s.undo| - 1]);
    }
    if s.redo != [] {
      SoundReset(s, s.redo[|s.redo| - 1]);
    }
  }

  lemma SoundReset(s: State, snap: Snap)
    requires Sound(snap.lines, snap.active, snap.caret)
    ensures var t := Reset(s, snap);
            SoundState(t) && t.lines == snap.lines && t.active == snap.active && t.caret == snap.caret
  {
  }

  lemma EditsAreSound(s: State, a: Action)
    requires Valid(s) && Enabled(s, a) && !a.Undo? && !a.Redo?
    ensures SoundState(Do(s, a))
  {
    hide NoBreaks;
    if a.Replace? {
      ReplacingSplices(s, a.text, a.start, a.end, a.now);
    } else if a.Return? {
      ReturnSplices(s, a.off, a.now);
    } else if a.Backspace? {
      BackspaceSplices(s, a.now);
    } else if a.DeleteForward? {
      DeleteSplices(s, a.now);
    } else if a.Edit? && s.active.Some? {
      EditSplices(s, a.text, a.caret, a.now);
    } else if a.Change? {
      SplitSpells(a.text);
    }
  }

  /** `t` has the history of `s` once the current lines are remembered. */
  predicate RemembersAs(s: State, t: State, force: bool, now: int) {
    && (force || s.active.Some?)
    && var r := Remembered(s, force, now);
       t.undo == r.undo && t.redo == r.redo && (t.lastLine == r.lastLine || t.lastLine.None?)
  }

  /** Any other step keeps the history as it is, or as remembering leaves
      it. */
  lemma EditsRemember(s: State, a: Action)
    requires Enabled(s, a) && !a.Undo? && !a.Redo?
    ensures var t := Do(s, a);
            || (t.undo == s.undo && t.redo == s.redo && (t.lastLine == s.lastLine || t.lastLine.None?))
            || (a.Change? && t.undo == [] && t.redo == [])
            || exists force, now :: RemembersAs(s, t, force, now)
  {
    hide Remembered;
    hide Split;
    if a.Replace? || a.Return? || a.Backspace? || a.DeleteForward? {
      assert RemembersAs(s, Do(s, a), true, a.now);
    } else if a.Edit? && s.active.Some? {
      assert RemembersAs(s, Do(s, a), false, a.now);
    }
  }

  lemma StepKeepsValid(s: State, a: Action)
    requires Valid(s) && Enabled(s, a)
    ensures Valid(Do(s, a))
  {
    if a.Undo? || a.Redo? {
      RestoredKeeps(s);
    } else {
      EditsAreSound(s, a);
      EditsRemember(s, a);
      hide Do;
      hide SoundState;
      if force, now :| RemembersAs(s, Do(s, a), force, now) {
        RememberedKeeps(s, force, now);
      }
    }
  }

  lemma {:induction false} RunKeepsValid(s: State, run: seq<Action>)
    requires Valid(s) && Runs(s, run)
    ensures Valid(After(s, run))
    decreases |run|
  {
    hide Valid;
    hide Do;
    if run != [] {
      StepKeepsValid(s, run[0]);
      RunKeepsValid(Do(s, run[0]), run[1..]);
    }
  }

  /** From opening the page on any text, over any run: the lines, the
      caret and the history stay in range. */
  lemma EveryRunIsValid(text: string, run: seq<Action>)
    requires Runs(Opened(text), run)
    ensures Valid(After(Opened(text), run))
    ensures |After(Opened(text), run).undo| + |After(Opened(text), run).redo| <= 200
  {
    SplitSpells(text);
    RunKeepsValid(Opened(text), run);
  }

  // ---- undo and redo are inverse ----

  function Undos(s: State, k: nat): State
    decreases k
  {
    if k == 0 then s else Undos(Undone(s), k - 1)
  }

  function Redos(s: State, k: nat): State
    decreases k
  {
    if k == 0 then s else Redos(Redone(s), k - 1)
  }

  /** All but when and where the last edit was. */
  predicate Same(s: State, t: State) {
    s.lines == t.lines && s.active == t.active && s.caret == t.caret && s.undo == t.undo && s.redo == t.redo
  }

  lemma UndoOnce(s: State)
    requires Valid(s) && s.undo != []
    ensures var t := Undone(s);
            && t.redo == s.redo + [Shot(s)] && t.undo == s.undo[..|s.undo| - 1]
            && Shot(t) == s.undo[|s.undo| - 1]
    ensures Same(Redone(Undone(s)), s)
  {
    SoundReset(s, s.undo[|s.undo| - 1]);
    SoundReset(Undone(s), Shot(s));
    var t := Undone(s);
    assert t.redo[..|t.redo| - 1] == s.redo;
    assert t.undo + [Shot(t)] == s.undo;
  }

  lemma {:induction false} RedosOfSame(s: State, t: State, k: nat)
    requires Same(s, t)
    ensures Same(Redos(s, k), Redos(t, k))
    decreases k
  {
    if k > 0 {
      RedosOfSame(Redone(s), Redone(t), k - 1);
    }
  }

  lemma {:induction false} RedosSplit(s: State, j: nat, k: nat)
    ensures Redos(s, j + k) == Redos(Redos(s, j), k)
    decreases j
  {
    if j > 0 {
      RedosSplit(Redone(s), j - 1, k);
    }
  }

  lemma {:induction false} UndosThenRedos(s: State, k: nat)
    requires Valid(s) && k <= |s.undo|
    ensures Same(Redos(Undos(s, k), k), s)
    ensures |Undos(s, k).undo| == |s.undo| - k
    decreases k
  {
    hide Same;
    if k > 0 {
      UndoOnce(s);
      RestoredKeeps(s);
      UndosThenRedos(Undone(s), k - 1);
      RedosSplit(Undos(s, k), k - 1, 1);
      var back := Redos(Undos(s, k), k - 1);
      RedosOfSame(back, Undone(s), 1);
      assert Redos(back, 1) == Redone(back) && Redos(Undone(s), 1) == Redone(Undone(s));
      SameIsTransitive(Redone(back), Redone(Undone(s)), s);
    } else {
      SameIsTransitive(s, s, s);
    }
  }

  lemma SameIsTransitive(r: State, s: State, t: State)
    ensures Same(r, s) && Same(s, t) ==> Same(r, t)
    ensures Same(s, s)
  {
  }

  lemma {:induction false} UndosPastTheEnd(s: State, k: nat)
    requires s.undo == []
    ensures Undos(s, k) == s
  {
    if k > 0 {
      UndosPastTheEnd(s, k - 1);
    }
  }

  lemma {:induction false} UndosSplit(s: State, j: nat, k: nat)
    ensures Undos(s, j + k) == Undos(Undos(s, j), k)
    decreases j
  {
    if j > 0 {
      UndosSplit(Undone(s), j - 1, k);
    }
  }

  lemma {:induction false} RedosGrowUndo(s: State, k: nat)
    ensures |Redos(s, k).undo| >= |s.undo|
    ensures k > 0 && s.redo != [] ==> |Redos(s, k).undo| > |s.undo|
    ensures s.redo == [] ==> Redos(s, k) == s
    decreases k
  {
    if k > 0 {
      RedosGrowUndo(Redone(s), k - 1);
    }
  }

  /** As many redos as undos restore the lines, the active line, the caret
      and both stacks exactly, unless the undos ran out of snapshots with
      something left to redo. */
  lemma UndoRedoRestores(s: State, k: nat)
    requires Valid(s)
    ensures Same(Redos(Undos(s, k), k), s) <==> k <= |s.undo| || s.redo == []
  {
    var m := |s.undo|;
    if k <= m {
      UndosThenRedos(s, k);
    } else {
      UndosThenRedos(s, m);
      UndosSplit(s, m, k - m);
      UndosPastTheEnd(Undos(s, m), k - m);
      RedosSplit(Undos(s, k), m, k - m);
      var t := Redos(Undos(s, m), m);
      RedosGrowUndo(t, k - m);
    }
  }

  // ---- what undo can go back to ----

  /** `a` can be had from `h` by leaving snapshots out. */
  predicate Subsequence(a: seq<Snap>, h: seq<Snap>)
    decreases |h|
  {
    || a == []
    || (h != [] && ((a[|a| - 1] == h[|h| - 1] && Subsequence(a[..|a| - 1], h[..|h| - 1])) ||
                    Subsequence(a, h[..|h| - 1])))
  }

  lemma SubsequenceMore(a: seq<Snap>, h: seq<Snap>, x: Snap)
    requires Subsequence(a, h)
    ensures Subsequence(a, h + [x]) && Subsequence(a + [x], h + [x])
  {
    assert (h + [x])[..|h|] == h && (a + [x])[..|a|] == a;
    assert (h + [x])[|h|] == x && (a + [x])[|a|] == x;
  }

  lemma {:induction false} SubsequenceLess(a: seq<Snap>, h: seq<Snap>)
    requires a != [] && Subsequence(a, h)
    ensures Subsequence(a[1..], h) && Subsequence(a[..|a| - 1], h)
    decreases |h|
  {
    var b, g := a[..|a| - 1], h[..|h| - 1];
    if Subsequence(a, g) {
      SubsequenceLess(a, g);
    } else if b != [] {
      SubsequenceLess(b, g);
      assert a[1..][..|a| - 2] == b[1..];
      assert a[1..][|a| - 2] == a[|a| - 1];
    }
    assert a[1..] != [] ==> a[1..][..|a[1..]| - 1] == b[1..];
  }

  /** What the page has been before each step, since it was last set. */
  function History(s: State, run: seq<Action>, h: seq<Snap>): seq<Snap>
    requires Runs(s, run)
    decreases |run|
  {
    if run == [] then h
    else History(Do(s, run[0]), run[1..], if run[0].Change? then [] else h + [Shot(s)])
  }

  lemma StepKeepsHistory(s: State, a: Action, h: seq<Snap>)
    requires Valid(s) && Enabled(s, a) && Subsequence(s.undo, h)
    ensures Subsequence(Do(s, a).undo, if a.Change? then [] else h + [Shot(s)])
  {
    hide Subsequence;
    SubsequenceMore(s.undo, h, Shot(s));
    SubsequenceOfNone(h);
    if a.Undo? {
      if s.undo != [] {
        SubsequenceLess(s.undo, h + [Shot(s)]);
      }
    } else if !a.Redo? {
      EditsRemember(s, a);
      hide Do;
      var g := s.undo + [Shot(s)];
      SubsequenceLess(g, h + [Shot(s)]);
      SubsequenceOfNone([]);
    }
  }

  lemma SubsequenceOfNone(h: seq<Snap>)
    ensures Subsequence([], h)
  {
  }

  /** What undo holds are earlier states since the page was last set, in
      order: it never goes back to anything that was not there. */
  lemma {:induction false} UndoIsEarlierStates(s: State, run: seq<Action>, h: seq<Snap>)
    requires Valid(s) && Runs(s, run) && Subsequence(s.undo, h)
    ensures Subsequence(After(s, run).undo, History(s, run, h))
    decreases |run|
  {
    hide Valid;
    hide Do;
    hide Subsequence;
    if run != [] {
      StepKeepsValid(s, run[0]);
      StepKeepsHistory(s, run[0], h);
      UndoIsEarlierStates(Do(s, run[0]), run[1..], if run[0].Change? then [] else h + [Shot(s)]);
    }
  }

  // ---- redo ----

  /** A step that changes lines, and one that restores a snapshot. */
  predicate Edits(s: State, a: Action) {
    a.Replace? || a.Return? || a.Backspace? || a.DeleteForward? || (a.Edit? && s.active.Some?)
  }

  predicate Restores(s: State, a: Action) {
    (a.Undo? && s.undo != []) || (a.Redo? && s.redo != [])
  }

  /** Whether a line was edited since a snapshot was last restored. */
  function EditedSince(s: State, run: seq<Action>, edited: bool): bool
    requires Runs(s, run)
    decreases |run|
  {
    if run == [] then edited
    else EditedSince(Do(s, run[0]), run[1..], if Edits(s, run[0]) then true else edited && !Restores(s, run[0]))
  }

  lemma StepKeepsRedo(s: State, a: Action, edited: bool)
    requires Valid(s) && Enabled(s, a) && (s.redo != [] ==> !edited)
    ensures Do(s, a).redo != [] ==> !(if Edits(s, a) then true else edited && !Restores(s, a))
  {
    if Edits(s, a) {
      EditClearsRedo(s, a);
    } else if a.Activate? || a.Leave? || a.Change? {
      assert Do(s, a).redo == s.redo || Do(s, a).redo == [];
    }
  }

  /** Every edit empties redo, even one that joins the burst before it. */
  lemma EditClearsRedo(s: State, a: Action)
    requires Valid(s) && Enabled(s, a) && Edits(s, a)
    ensures Do(s, a).redo == []
  {
    hide Split;
    hide SoundState;
    hide SoundSnaps;
    RememberedKeeps(s, !a.Edit?, a.now);
    hide Remembered;
  }

  /** Something can be redone only while nothing was edited since the last
      restore. */
  lemma {:induction false} RedoOnlyAfterRestore(s: State, run: seq<Action>, edited: bool)
    requires Valid(s) && Runs(s, run) && (s.redo != [] ==> !edited)
    ensures After(s, run).redo != [] ==> !EditedSince(s, run, edited)
    decreases |run|
  {
    hide Valid;
    hide Do;
    hide Edits;
    hide Restores;
    if run != [] {
      StepKeepsValid(s, run[0]);
      StepKeepsRedo(s, run[0], edited);
      RedoOnlyAfterRestore(Do(s, run[0]), run[1..],
                           if Edits(s, run[0]) then true else edited && !Restores(s, run[0]));
    }
  }

  // ---- what one undo takes back ----

  /** Of the run so far: the page before the last burst, whether the textarea
      was set since that began, and the line and the time of the last edit,
      unless since then something was pasted, undone or redone or the line
      was left. */
  datatype Burst = Burst(before: Snap, reset: bool, recent: Option<(nat, int)>)

  /** An edit begins a burst but for typing on the line of the last edit
      less than 600 milliseconds after it. */
  predicate Begins(s: State, a: Action, b: Burst) {
    && Edits(s, a)
    && !(a.Edit? && b.recent.Some? && s.active == Some(b.recent.value.0) && a.now - b.recent.value.1 < 600)
  }

  function NextBurst(s: State, a: Action, b: Burst): Burst
    requires Enabled(s, a)
  {
    var recent :=
      if a.Replace? || Restores(s, a) || (a.Leave? && s.active.Some?) then None
      else if Edits(s, a) then Some((s.active.value, a.now))
      else b.recent;
    if Begins(s, a, b) then Burst(Shot(s), false, recent)
    else Burst(b.before, b.reset || a.Change?, recent)
  }

  function LastBurst(s: State, run: seq<Action>, b: Burst): Burst
    requires Runs(s, run)
    decreases |run|
  {
    if run == [] then b else LastBurst(Do(s, run[0]), run[1..], NextBurst(s, run[0], b))
  }

  /** The page knows when and where the last edit was; and while typing may
      still join a burst, its snapshot is the last one, or went when the
      textarea was set. */
  predicate Keeps(s: State, b: Burst) {
    && (match b.recent
        case Some((line, time)) => s.lastLine == Some(line) && s.lastEdit == time
        case None => s.lastLine == None)
    && (b.recent.Some? ==>
          if b.reset then s.undo == [] else s.undo != [] && s.undo[|s.undo| - 1] == b.before)
  }

  lemma RememberedBurst(s: State, force: bool, now: int)
    ensures var t := Remembered(s, force, now);
            && t.lastEdit == now
            && (if !force && s.active == s.lastLine && now - s.lastEdit < 600 then
                  t.undo == s.undo && t.lastLine == s.lastLine
                else t.undo != [] && t.undo[|t.undo| - 1] == Shot(s) && t.lastLine == s.active)
  {
  }

  /** What an edit leaves as the last snapshot. */
  lemma EditKeepsBurst(s: State, a: Action, b: Burst)
    requires Enabled(s, a) && Edits(s, a) && Keeps(s, b)
    ensures Keeps(Do(s, a), NextBurst(s, a, b))
    ensures Begins(s, a, b) ==> Do(s, a).undo != [] && Do(s, a).undo[|Do(s, a).undo| - 1] == Shot(s)
    ensures !Begins(s, a, b) ==> Do(s, a).undo == s.undo
  {
    hide Split;
    hide ReturnLines;
    hide Unbroken;
    RememberedBurst(s, !a.Edit?, a.now);
    hide Remembered;
  }

  lemma StepKeepsBurst(s: State, a: Action, b: Burst)
    requires Enabled(s, a) && Keeps(s, b)
    ensures Keeps(Do(s, a), NextBurst(s, a, b))
  {
    hide Split;
    if Edits(s, a) {
      EditKeepsBurst(s, a, b);
    }
  }

  lemma {:induction false} RunKeepsBurst(s: State, run: seq<Action>, b: Burst)
    requires Runs(s, run) && Keeps(s, b)
    ensures Keeps(After(s, run), LastBurst(s, run, b))
    decreases |run|
  {
    hide Do;
    hide Keeps;
    hide NextBurst;
    if run != [] {
      StepKeepsBurst(s, run[0], b);
      RunKeepsBurst(Do(s, run[0]), run[1..], NextBurst(s, run[0], b));
    }
  }

  /** What begins a burst is remembered; from the 200th on the oldest is
      forgotten for it. */
  lemma OldestIsForgotten(s: State, a: Action, b: Burst)
    requires Enabled(s, a) && Begins(s, a, b) && Keeps(s, b)
    ensures Do(s, a).undo == (if |s.undo| < 200 then s.undo else s.undo[1..]) + [Shot(s)]
  {
    hide Split;
    hide ReturnLines;
    hide Unbroken;
  }

  /** After any run, an edit can be undone if and only if it begins a burst or
      the textarea was not set since its burst began; and undoing it goes back
      to the lines, the active line and the caret from before the burst. */
  lemma EditIsUndoneIff(text: string, run: seq<Action>, a: Action)
    requires Runs(Opened(text), run)
    requires Enabled(After(Opened(text), run), a) && Edits(After(Opened(text), run), a)
    ensures var s := After(Opened(text), run);
            var burst := LastBurst(Opened(text), run, Burst(Shot(Opened(text)), false, None));
            var t := Undone(Do(s, a));
            && (t != Do(s, a) <==> Begins(s, a, burst) || !burst.reset)
            && (t != Do(s, a) ==> Shot(t) == if Begins(s, a, burst) then Shot(s) else burst.before)
  {
    var start := Opened(text);
    var first := Burst(Shot(start), false, None);
    var s := After(start, run);
    RunKeepsBurst(start, run, first);
    EditKeepsBurst(s, a, LastBurst(start, run, first));
    EveryRunIsValid(text, run);
    StepKeepsValid(s, a);
    hide Do;
    hide After;
    hide LastBurst;
    if Do(s, a).undo != [] {
      UndoOnce(Do(s, a));
    }
  }

  /** Typing again within the pause, on the same line number, after the
      textarea was set: the edit cannot be undone. */
  lemma TypingAfterSettingIsNotUndone(now: int, again: int) returns (run: seq<Action>)
    requires again - now < 600
    ensures Runs(Opened(""), run)
    ensures var s := After(Opened(""), run);
            s.lines == ["b"] && s.undo == [] && Undone(s) == s
  {
    run := [Activate(0, 0), Edit("a", 1, now), Change(""), Activate(0, 0), Edit("b", 1, again)];
    var s0 := Opened("");
    var s1 := s0.(active := Some(0));
    var s2 := State(["a"], Some(0), 1, [Shot(s1)], [], now, Some(0));
    var s3 := State([""], None, 1, [], [], now, Some(0));
    var s4 := State([""], Some(0), 0, [], [], now, Some(0));
    var s5 := State(["b"], Some(0), 1, [], [], again, Some(0));
    EmptyIsOneLine();
    assert Unbroken("a") == "a" && Unbroken("b") == "b";
    assert Leads(s0, run[0], s1);
    assert Leads(s1, run[1], s2);
    assert Leads(s2, run[2], s3);
    assert Leads(s3, run[3], s4);
    assert Leads(s4, run[4], s5);
    hide Leads;
    Follows([s0, s1, s2, s3, s4, s5], run);
  }

  lemma EmptyIsOneLine()
    ensures Split("") == [""]
  {
  }

  predicate Leads(s: State, a: Action, t: State) {
    Enabled(s, a) && Do(s, a) == t
  }

  lemma {:induction false} Follows(states: seq<State>, run: seq<Action>)
    requires |states| == |run| + 1
    requires forall k | 0 <= k < |run| :: Leads(states[k], run[k], states[k + 1])
    ensures Runs(states[0], run) && After(states[0], run) == states[|run|]
    decreases |run|
  {
    if run != [] {
      hide Do;
      hide Enabled;
      forall k | 0 <= k < |run| - 1
        ensures Leads(states[1..][k], run[1..][k], states[1..][k + 1])
      {
        assert Leads(states[k + 1], run[k + 1], states[k + 1 + 1]);
      }
      assert Leads(states[0], run[0], states[0 + 1]);
      Follows(states[1..], run[1..]);
    }
  }
}
