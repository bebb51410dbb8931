/** Where a carriage return in a line can come from, and what it costs. */
module EditorReturns {
  import opened Decimals
  import opened Wrappers
  import opened LineText
  import opened Markup
  import opened Editor
  import opened EditorText
  import opened EditorHistory

  predicate NoReturn(lines: seq<string>) {
    '\r' !in Flat(lines)
  }

  /** No line, here or in a snapshot, holds a carriage return. */
  predicate Free(s: State) {
    && NoReturn(s.lines)
    && (forall k | 0 <= k < |s.undo| :: NoReturn(s.undo[k].lines))
    && (forall k | 0 <= k < |s.redo| :: NoReturn(s.redo[k].lines))
  }

  /** Only typing can bring a carriage return. */
  predicate TypesNone(a: Action) {
    a.Edit? ==> '\r' !in a.text
  }

  lemma SplicedIsFree(text: string, i: nat, j: nat, inserted: string)
    requires i <= j <= |text| && '\r' !in text && '\r' !in inserted
    ensures '\r' !in Spliced(text, i, j, inserted)
  {
    assert forall c | c in text[..i] :: c in text;
    assert forall c | c in text[j..] :: c in text;
  }

  lemma LineIsFree(lines: seq<string>, i: nat)
    requires i < |lines| && NoReturn(lines)
    ensures '\r' !in lines[i]
  {
    var p, q := Place(i, 0), Place(i, |lines[i]|);
    FlatBetween(lines, p, q);
    FlatOfOne(lines[i]);
    assert lines[i][0..|lines[i]|] == lines[i];
    assert Between(lines, p, q) == [lines[i]];
    hide Flat;
    assert forall c | c in Flat(lines)[At(lines, p)..At(lines, q)] :: c in Flat(lines);
  }

  lemma NextPrefixIsFree(text: string)
    requires '\r' !in text
    ensures '\r' !in NextPrefix(text)
  {
    var n := Value(text[..Digits(text)]) + 1;
    ValueOfDecimal(n);
    var b := BlockOf(text);
    assert forall k | 0 <= k < |b.prefix| :: b.prefix[k] == text[k];
    assert forall c | c in b.prefix :: c in text;
    var d := Decimal(n);
    hide BlockOf;
    assert forall k | 0 <= k < |d| :: IsDigit(d[k]) && d[k] != '\r';
    assert forall k | 0 <= k < |d + ". "| :: (d + ". ")[k] == if k < |d| then d[k] else if k == |d| then '.' else ' ';
  }

  lemma ReturnIsFree(s: State, off: nat, now: int)
    requires SoundState(s) && NoReturn(s.lines) && s.active.Some? && off <= |s.lines[s.active.value]|
    ensures NoReturn(Returned(s, off, now).lines)
  {
    var i, text := s.active.value, s.lines[s.active.value];
    var inserted := Flat(ReturnPieces(text, off));
    ReturnSplices(s, off, now);
    ReturnInserts(text, off);
    LineIsFree(s.lines, i);
    NextPrefixIsFree(text);
    assert '\r' !in inserted;
    hide Flat;
    SplicedIsFree(Flat(s.lines), At(s.lines, Place(i, ReturnFrom(text, off))), At(s.lines, Place(i, off)), inserted);
  }

  lemma ReplacingIsFree(s: State, text: string, p: Place, q: Place, now: int)
    requires SoundState(s) && NoReturn(s.lines) && In(p, s.lines) && In(q, s.lines) && NotAfter(p, q)
    ensures NoReturn(ReplacedSelection(s, text, p, q, now).lines)
  {
    hide Flat;
    hide ReplacedSelection;
    ReplacingSplices(s, text, p, q, now);
    NormalHasNoReturn(text);
    SplicedIsFree(Flat(s.lines), At(s.lines, p), At(s.lines, q), Normal(text));
  }

  lemma JoiningIsFree(s: State, now: int)
    requires SoundState(s) && NoReturn(s.lines) && s.active.Some?
    ensures 0 < s.active.value ==> NoReturn(JoinedBack(s, now).lines)
    ensures s.active.value + 1 < |s.lines| ==> NoReturn(JoinedNext(s, now).lines)
  {
    hide Flat;
    hide JoinedBack;
    hide JoinedNext;
    var i, f := s.active.value, Flat(s.lines);
    if 0 < i {
      BackspaceSplices(s, now);
      SplicedIsFree(f, At(s.lines, Place(i - 1, |s.lines[i - 1]|)), At(s.lines, Place(i, 0)), "");
    }
    if i + 1 < |s.lines| {
      DeleteSplices(s, now);
      SplicedIsFree(f, At(s.lines, Place(i, |s.lines[i]|)), At(s.lines, Place(i + 1, 0)), "");
    }
  }

  lemma {:induction false} UnbrokenIsFree(text: string)
    requires '\r' !in text
    ensures '\r' !in Unbroken(text)
  {
    if text != "" {
      assert forall c | c in text[1..] :: c in text;
      UnbrokenIsFree(text[1..]);
    }
  }

  lemma TypingIsFree(s: State, text: string, caret: nat, now: int)
    requires SoundState(s) && NoReturn(s.lines) && s.active.Some? && caret <= |text| && '\r' !in text
    ensures NoReturn(Edited(s, text, caret, now).lines)
  {
    hide Flat;
    hide Edited;
    var i := s.active.value;
    EditSplices(s, text, caret, now);
    UnbrokenIsFree(text);
    SplicedIsFree(Flat(s.lines), At(s.lines, Place(i, 0)), At(s.lines, Place(i, |s.lines[i]|)), Unbroken(text));
  }

  lemma LinesStayFree(s: State, a: Action)
    requires Valid(s) && Enabled(s, a) && Free(s) && TypesNone(a) && !a.Undo? && !a.Redo?
    ensures NoReturn(Do(s, a).lines)
  {
    hide NoReturn;
    if a.Replace? {
      ReplacingIsFree(s, a.text, a.start, a.end, a.now);
    } else if a.Return? {
      ReturnIsFree(s, a.off, a.now);
    } else if a.Backspace? || a.DeleteForward? {
      JoiningIsFree(s, a.now);
    } else if a.Edit? && s.active.Some? {
      TypingIsFree(s, a.text, a.caret, a.now);
    } else if a.Change? {
      ChangedIsFree(s, a.text);
    }
  }

  lemma ChangedIsFree(s: State, text: string)
    ensures NoReturn(Changed(s, text).lines)
  {
    SplitSpells(text);
    NormalHasNoReturn(text);
  }

  lemma RestoredIsFree(s: State)
    requires Free(s)
    ensures Free(Undone(s)) && Free(Redone(s))
  {
    hide NoReturn;
  }

  lemma StepStaysFree(s: State, a: Action)
    requires Valid(s) && Enabled(s, a) && Free(s) && TypesNone(a)
    ensures Free(Do(s, a))
  {
    hide NoReturn;
    if a.Undo? || a.Redo? {
      RestoredIsFree(s);
    } else {
      LinesStayFree(s, a);
      EditsRemember(s, a);
      hide Do;
    }
  }

  lemma {:induction false} RunStaysFree(s: State, run: seq<Action>)
    requires Valid(s) && Runs(s, run) && Free(s)
    requires forall a | a in run :: TypesNone(a)
    ensures Free(After(s, run))
    decreases |run|
  {
    hide Valid;
    hide Free;
    hide Do;
    if run != [] {
      assert run[0] in run;
      StepStaysFree(s, run[0]);
      StepKeepsValid(s, run[0]);
      RunStaysFree(Do(s, run[0]), run[1..]);
    }
  }

  /** From any text and over any run, unless a carriage return is typed, no
      line holds one, and cutting any selection and pasting it back restores
      the lines. */
  lemma PastedBackUnlessTyped(text: string, run: seq<Action>, p: Place, q: Place, now: int, later: int)
    requires Runs(Opened(text), run) && forall a | a in run :: TypesNone(a)
    requires var s := After(Opened(text), run); In(p, s.lines) && In(q, s.lines) && NotAfter(p, q)
    ensures var s := After(Opened(text), run);
      var cut := ReplacedSelection(s, "", p, q, now);
      && NoReturn(s.lines) && SoundState(cut) && cut.active.Some?
      && var at := Place(cut.active.value, cut.caret);
         Pasted(cut, SelectedText(s.lines, p, q), at, at, later).lines == s.lines
  {
    hide Do;
    var start := Opened(text);
    var s := After(start, run);
    EveryRunIsValid(text, run);
    SplitSpells(text);
    NormalHasNoReturn(text);
    RunStaysFree(start, run);
    CutThenPaste(s, p, q, now, later);
    SelectedIsTheText(s.lines, p, q);
    hide Flat;
    hide SelectedText;
    hide ReplacedSelection;
    hide Pasted;
    assert forall c | c in SelectedText(s.lines, p, q) :: c in Flat(s.lines);
  }

  /** A carriage return that was typed is not pasted back as one. */
  lemma TypedReturnIsNotPastedBack(now: int, later: int)
    ensures var run := [Activate(0, 0), Edit("\r", 1, now)];
      && Runs(Opened(""), run)
      && var s := After(Opened(""), run);
         var p, q := Place(0, 0), Place(0, 1);
         && In(p, s.lines) && In(q, s.lines)
         && var cut := ReplacedSelection(s, "", p, q, now);
            && SoundState(cut) && cut.active.Some?
            && var at := Place(cut.active.value, cut.caret);
               Pasted(cut, SelectedText(s.lines, p, q), at, at, later).lines != s.lines
  {
    var run := [Activate(0, 0), Edit("\r", 1, now)];
    var s0 := Opened("");
    var s1 := Do(s0, run[0]);
    var s2 := Do(s1, run[1]);
    var p, q := Place(0, 0), Place(0, 1);
    assert s0.lines == [""] && s1.active == Some(0);
    UnbrokenKeeps("\r");
    assert s2.lines == ["\r"];
    assert run[1..] == [run[1]] && run[1..][1..] == [];
    assert Runs(s2, []) && Runs(s1, run[1..]) && After(s1, run[1..]) == s2;
    assert After(s0, run) == s2;
    CutThenPaste(s2, p, q, now, later);
    SelectedIsTheText(s2.lines, p, q);
    assert SelectedText(s2.lines, p, q) == "\r";
  }
}
