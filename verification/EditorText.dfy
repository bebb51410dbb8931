/** The editor behaves like one flat text: every edit is one splice of it,
    with the caret just after what was put in. */
module EditorText {
  import opened Wrappers
  import opened Decimals
  import opened LineText
  import opened Markup
  import opened Editor
  import MarkupMatches
  import MarkupReads

  /** What holds of the lines and the caret. */
  predicate Sound(lines: seq<string>, active: Option<nat>, caret: nat) {
    NoBreaks(lines) && (active.Some? ==> active.value < |lines| && caret <= |lines[active.value]|)
  }

  predicate SoundState(s: State) {
    Sound(s.lines, s.active, s.caret)
  }

  /** The caret's offset in the flat text. */
  function CaretAt(s: State): nat
    requires SoundState(s) && s.active.Some?
  {
    At(s.lines, Place(s.active.value, s.caret))
  }

  /** `t` is `s` with the text between two places replaced, and its caret
      just after what was put in. */
  ghost predicate Splices(s: State, t: State, p: Place, q: Place, inserted: string) {
    && In(p, s.lines) && In(q, s.lines) && At(s.lines, p) <= At(s.lines, q) <= |Flat(s.lines)|
    && SoundState(t) && t.active.Some?
    && Flat(t.lines) == Spliced(Flat(s.lines), At(s.lines, p), At(s.lines, q), inserted)
    && CaretAt(t) == At(s.lines, p) + |inserted|
  }

  lemma ReplacedSplices(s: State, t: State, p: Place, q: Place, pieces: seq<string>)
    requires NoBreaks(s.lines) && In(p, s.lines) && In(q, s.lines) && NotAfter(p, q)
    requires pieces != [] && NoBreaks(pieces)
    requires t.lines == Replaced(s.lines, p, q, pieces)
    requires t.active == Some(Behind(p, pieces).line) && t.caret == Behind(p, pieces).offset
    ensures Splices(s, t, p, q, Flat(pieces))
  {
    hide Flat;
    hide Replaced;
    hide NoBreaks;
    ReplacedIsASplice(s.lines, p, q, pieces);
    ReplacedHasNoBreaks(s.lines, p, q, pieces);
  }

  // ---- replacing a selection, cutting, pasting, typing over ----

  lemma WrappedIsGlued(before: seq<string>, left: string, pieces: seq<string>, right: string, after: seq<string>)
    requires pieces != []
    ensures before + Wrapped(left, pieces, right) + after == Glue(Glue(before + [left], pieces), [right] + after)
  {
    var g := Glue(before + [left], pieces);
    var first := pieces[0 := left + pieces[0]];
    assert (before + [left])[..|before|] == before;
    assert g == before + first;
    var last := first[|first| - 1];
    assert g[..|g| - 1] == before + first[..|first| - 1] && g[|g| - 1] == last;
    assert Wrapped(left, pieces, right) == first[..|first| - 1] + [last + right];
    assert ([right] + after)[1..] == after;
  }

  lemma WrappedIsReplaced(lines: seq<string>, p: Place, q: Place, pieces: seq<string>)
    requires In(p, lines) && In(q, lines) && NotAfter(p, q) && pieces != []
    ensures lines[..p.line] + Wrapped(lines[p.line][..p.offset], pieces, lines[q.line][q.offset..])
            + lines[q.line + 1..] ==
            Replaced(lines, p, q, pieces)
  {
    hide Wrapped;
    hide Glue;
    WrappedIsGlued(lines[..p.line], lines[p.line][..p.offset], pieces, lines[q.line][q.offset..], lines[q.line + 1..]);
  }

  /** Replacing a selection is one splice of the text; what is put in has
      its line ends normalised. */
  lemma ReplacingSplices(s: State, text: string, p: Place, q: Place, now: int)
    requires NoBreaks(s.lines) && In(p, s.lines) && In(q, s.lines) && NotAfter(p, q)
    ensures Splices(s, ReplacedSelection(s, text, p, q, now), p, q, Normal(text))
  {
    var pieces := Split(text);
    SplitSpells(text);
    ReplacingReplaces(s, text, p, q, now);
    hide Split;
    hide Replaced;
    hide ReplacedSelection;
    hide NoBreaks;
    hide Splices;
    ReplacedSplices(s, ReplacedSelection(s, text, p, q, now), p, q, pieces);
  }

  lemma ReplacingReplaces(s: State, text: string, p: Place, q: Place, now: int)
    requires In(p, s.lines) && In(q, s.lines) && NotAfter(p, q)
    ensures var t, pieces := ReplacedSelection(s, text, p, q, now), Split(text);
            && t.lines == Replaced(s.lines, p, q, pieces)
            && t.active == Some(Behind(p, pieces).line) && t.caret == Behind(p, pieces).offset
  {
    hide Split;
    hide Replaced;
    hide Wrapped;
    hide Before;
    hide Remembered;
    var pieces := Split(text);
    WrappedIsReplaced(s.lines, p, q, pieces);
    BehindIsBefore(s.lines, p, q, pieces);
  }

  /** What is copied is the part of the flat text that is selected. */
  lemma SelectedIsTheText(lines: seq<string>, p: Place, q: Place)
    requires In(p, lines) && In(q, lines) && NotAfter(p, q)
    ensures At(lines, p) <= At(lines, q) <= |Flat(lines)|
    ensures SelectedText(lines, p, q) == Flat(lines)[At(lines, p)..At(lines, q)]
  {
    FlatBetween(lines, p, q);
    var part := lines[p.line..q.line + 1];
    var cut := part[|part| - 1 := part[|part| - 1][..q.offset]];
    assert cut[0 := cut[0][p.offset..]] == Between(lines, p, q);
  }

  /** Pasting reads nothing from an empty clipboard. */
  function Pasted(s: State, text: string, p: Place, q: Place, now: int): State
    requires In(p, s.lines) && In(q, s.lines) && NotAfter(p, q)
  {
    if text == "" then s else ReplacedSelection(s, text, p, q, now)
  }

  /** Cutting a selection and pasting it back where the caret is restores
      the lines, exactly when no carriage return was selected. */
  lemma CutThenPaste(s: State, p: Place, q: Place, now: int, later: int)
    requires NoBreaks(s.lines) && In(p, s.lines) && In(q, s.lines) && NotAfter(p, q)
    ensures var cut := ReplacedSelection(s, "", p, q, now);
            && SoundState(cut) && cut.active.Some?
            && var at := Place(cut.active.value, cut.caret);
               var text := SelectedText(s.lines, p, q);
               Pasted(cut, text, at, at, later).lines == s.lines <==> '\r' !in text
  {
    hide ReplacedSelection;
    hide NoBreaks;
    hide Normal;
    var text, cut := SelectedText(s.lines, p, q), ReplacedSelection(s, "", p, q, now);
    SelectedIsTheText(s.lines, p, q);
    ReplacingSplices(s, "", p, q, now);
    NormalIff("");
    NormalIff(text);
    var at := Place(cut.active.value, cut.caret);
    var back := Pasted(cut, text, at, at, later);
    if text != "" {
      ReplacingSplices(cut, text, at, at, later);
    }
    var i, j, f := At(s.lines, p), At(s.lines, q), Flat(s.lines);
    assert Flat(back.lines) == f[..i] + Normal(text) + f[j..];
    assert f == f[..i] + text + f[j..];
    LinesOfFlat(s.lines);
    LinesOfFlat(back.lines);
    if back.lines == s.lines {
      SameMiddle(f[..i], Normal(text), text, f[j..]);
    }
  }

  lemma SameMiddle(a: string, x: string, y: string, b: string)
    requires a + x + b == a + y + b
    ensures x == y
  {
    assert |x| == |y|;
    assert (a + x + b)[|a|..|a| + |x|] == x && (a + y + b)[|a|..|a| + |y|] == y;
  }

  // ---- Return ----

  /** What Return puts in, and which characters of the line it takes out:
      none, or the whole prefix of an empty item. */
  function ReturnPieces(text: string, off: nat): (r: seq<string>)
    requires off <= |text|
    ensures r != []
  {
    var b := BlockOf(text);
    var left, right := text[..off], text[off..];
    if Listy(b) && left == b.prefix && right == "" then ["", ""]
    else
      [""] + (if b.kind.Prose? && !Blank(left) then [""] else []) +
      [if Listy(b) && left != "" && off >= |b.prefix| then NextPrefix(text) else ""]
  }

  function ReturnFrom(text: string, off: nat): (r: nat)
    requires off <= |text|
    ensures r <= off
  {
    if Listy(BlockOf(text)) && text[..off] == BlockOf(text).prefix && off == |text| then 0 else off
  }

  lemma NextPrefixHasNoBreak(text: string)
    requires '\n' !in text
    ensures '\n' !in NextPrefix(text)
  {
    var b := BlockOf(text);
    DecimalIsDigits(Value(text[..Digits(text)]) + 1);
    assert forall c | c in b.prefix :: c in text;
    var number := Decimal(Value(text[..Digits(text)]) + 1);
    assert '\n' in number + ". " ==> '\n' in number;
  }

  lemma ReturnIsReplaced(lines: seq<string>, i: nat, off: nat)
    requires i < |lines| && off <= |lines[i]|
    ensures var p, q := Place(i, ReturnFrom(lines[i], off)), Place(i, off);
            var pieces := ReturnPieces(lines[i], off);
            var (made, next) := ReturnLines(lines[i], off);
            && lines[..i] + made + lines[i + 1..] == Replaced(lines, p, q, pieces)
            && Behind(p, pieces) == Place(i + |made| - 1, next)
  {
    hide BlockOf;
    hide NextPrefix;
    var p, q := Place(i, ReturnFrom(lines[i], off)), Place(i, off);
    var pieces := ReturnPieces(lines[i], off);
    var made := ReturnLines(lines[i], off).0;
    WrappedIsReplaced(lines, p, q, pieces);
    var left, right := lines[i][..p.offset], lines[i][off..];
    assert left + "" == left && "" + right == right && "" + "" == "";
    assert Wrapped(left, pieces, right) == made;
  }

  /** Return is one splice: a newline, the blank line prose needs, and the
      next item's prefix go in at the caret; on an empty item the prefix
      goes and a newline comes in its place. */
  lemma ReturnSplices(s: State, off: nat, now: int)
    requires NoBreaks(s.lines) && s.active.Some? && s.active.value < |s.lines| && off <= |s.lines[s.active.value]|
    ensures var i, text := s.active.value, s.lines[s.active.value];
            Splices(s, Returned(s, off, now), Place(i, ReturnFrom(text, off)), Place(i, off),
                    Flat(ReturnPieces(text, off)))
  {
    var i, text := s.active.value, s.lines[s.active.value];
    var pieces := ReturnPieces(text, off);
    var p, q := Place(i, ReturnFrom(text, off)), Place(i, off);
    NextPrefixHasNoBreak(text);
    assert NoBreaks(pieces);
    ReturnIsReplaced(s.lines, i, off);
    BehindIsBefore(s.lines, p, q, pieces);
    hide ReturnLines;
    hide ReturnPieces;
    hide ReturnFrom;
    hide Replaced;
    hide Splices;
    ReplacedSplices(s, Returned(s, off, now), p, q, pieces);
  }

  lemma BlankIff(text: string, off: nat)
    requires off <= |text|
    ensures Blank(text[..off]) <==> forall k | 0 <= k < off :: text[k] in MarkupMatches.SPACES
  {
    forall k | 0 <= k < off
      ensures IsSpace(text[..off][k]) <==> text[k] in MarkupMatches.SPACES
    {
      MarkupMatches.SpacesAreListed(text[k]);
    }
  }

  /** What Return puts in, spelt out. */
  lemma ReturnInserts(text: string, off: nat)
    requires off <= |text|
    ensures var b := BlockOf(text);
            Flat(ReturnPieces(text, off)) ==
            if Listy(b) && off == |b.prefix| == |text| then "\n"
            else if Listy(b) && 0 < off && |b.prefix| <= off then "\n" + NextPrefix(text)
            else if b.kind.Prose? && (exists k | 0 <= k < off :: text[k] !in MarkupMatches.SPACES) then "\n\n"
            else "\n"
  {
    BlankIff(text, off);
    hide NextPrefix;
    hide Blank;
    var b := BlockOf(text);
    var pieces := ReturnPieces(text, off);
    assert text[..|b.prefix|] == b.prefix;
    assert pieces[1..][0] == pieces[1];
    if |pieces| == 2 {
      assert pieces == [pieces[0], pieces[1]];
      assert Flat(pieces[1..]) == pieces[1];
    } else {
      assert pieces[1..][1..] == [pieces[2]];
      assert Flat(pieces[1..]) == pieces[1] + "\n" + pieces[2];
    }
  }

  // ---- Return continues a list ----

  lemma {:induction false} ValueOfDecimal(n: nat)
    ensures forall c | c in Decimal(n) :: IsDigit(c)
    ensures forall k | 0 <= k < |Decimal(n)| :: IsDigit(Decimal(n)[k])
    ensures Value(Decimal(n)) == n
  {
    DecimalIsDigits(n);
    var d := Decimal(n);
    forall k | 0 <= k < |d|
      ensures IsDigit(d[k])
    {
      assert d[k] in d;
    }
    if n >= 10 {
      ValueOfDecimal(n / 10);
      assert d[..|d| - 1] == Decimal(n / 10);
    } else {
      assert d[..0] == "";
    }
  }

  lemma {:induction false} DigitsOf(digits: string, rest: string)
    requires forall c | c in digits :: IsDigit(c)
    requires rest == "" || !IsDigit(rest[0])
    ensures Digits(digits + rest) == |digits|
  {
    var text := digits + rest;
    if digits == "" {
      assert text == rest;
    } else {
      assert text[0] == digits[0] && digits[0] in digits;
      assert text[1..] == digits[1..] + rest;
      DigitsOf(digits[1..], rest);
    }
  }

  lemma NumberedBlock(text: string)
    requires text != "" && IsDigit(text[0])
    requires Digits(text) + 1 < |text| && text[Digits(text)] == '.' && text[Digits(text) + 1] == ' '
    ensures BlockOf(text) == Block(Numbered, text[..Digits(text) + 2], Digits(text) + 2)
  {
    var d := Digits(text);
    assert Hashes(text) == 0 && d >= 1;
    hide Digits;
    hide Hashes;
    assert text[d..][..2] == ". ";
  }

  lemma NumberedPrefix(n: nat, rest: string)
    ensures var text := Decimal(n) + ". " + rest;
            && BlockOf(text).kind == Numbered && BlockOf(text).prefix == Decimal(n) + ". "
            && Value(text[..Digits(text)]) == n
  {
    ValueOfDecimal(n);
    DecimalIsDigits(n);
    var d, tail := Decimal(n), ". " + rest;
    var text := d + ". " + rest;
    DigitsOf(d, tail);
    hide Decimal;
    hide Digits;
    hide Value;
    hide BlockOf;
    assert text == d + tail;
    assert text[0] == d[0] && d[0] in d;
    NumberedBlock(text);
    assert text[..|d|] == d && text[..|d| + 2] == d + ". ";
  }

  lemma MarkPrefix(mark: char, rest: string)
    requires mark in {'-', '*', '>'}
    ensures BlockOf([mark, ' '] + rest).prefix == [mark, ' ']
    ensures BlockOf([mark, ' '] + rest).kind == if mark == '>' then Quote else Item
  {
    var text := [mark, ' '] + rest;
    assert text[..2] == [mark, ' '];
    assert Hashes(text) == 0 && Digits(text) == 0;
  }

  /** The line Return makes under an item or a quote is of the same kind,
      with the same prefix, or in a numbered list the next number. */
  lemma ReturnContinuesTheList(text: string, rest: string)
    requires Listy(BlockOf(text))
    ensures var b, next := BlockOf(text), NextPrefix(text) + rest;
            && BlockOf(next).kind == b.kind && BlockOf(next).prefix == NextPrefix(text)
            && (b.kind.Numbered? ==> Value(next[..Digits(next)]) == Value(text[..Digits(text)]) + 1)
            && (!b.kind.Numbered? ==> BlockOf(next).prefix == b.prefix)
  {
    var b := BlockOf(text);
    if b.kind.Numbered? {
      NumberedPrefix(Value(text[..Digits(text)]) + 1, rest);
    } else {
      assert b.prefix == [b.prefix[0], ' '];
      MarkPrefix(b.prefix[0], rest);
    }
  }

  // ---- joining lines, typing ----

  lemma JoinIsReplaced(lines: seq<string>, i: nat)
    requires 0 < i < |lines|
    ensures var p := Place(i - 1, |lines[i - 1]|);
            && lines[..i - 1] + [lines[i - 1] + lines[i]] + lines[i + 1..] == Replaced(lines, p, Place(i, 0), [""])
            && Behind(p, [""]) == p
  {
    var p := Place(i - 1, |lines[i - 1]|);
    WrappedIsReplaced(lines, p, Place(i, 0), [""]);
    var left, right := lines[i - 1][..p.offset], lines[i][0..];
    assert left == lines[i - 1] && right == lines[i] && left + "" == left;
    assert Wrapped(left, [""], right) == [left + "" + right];
    assert Wrapped(lines[i - 1][..p.offset], [""], lines[i][0..]) == [lines[i - 1] + lines[i]];
  }

  /** Between a line's end and the next one's start lies one newline. */
  lemma {:induction false} NewlineBetween(lines: seq<string>, i: nat)
    requires 0 < i < |lines|
    ensures var p, q := Place(i - 1, |lines[i - 1]|), Place(i, 0);
            At(lines, q) == At(lines, p) + 1 <= |Flat(lines)| && Flat(lines)[At(lines, p)] == '\n'
  {
    var p, q := Place(i - 1, |lines[i - 1]|), Place(i, 0);
    FlatBetween(lines, p, q);
    var between := Between(lines, p, q);
    assert between == ["", ""];
    assert between[1..] == [""];
    assert Flat(between) == "\n";
    var f, a := Flat(lines), At(lines, p);
    assert f[a..At(lines, q)][0] == f[a];
  }

  /** Backspace at a line's start takes out the one newline before it. */
  lemma BackspaceSplices(s: State, now: int)
    requires NoBreaks(s.lines) && s.active.Some? && 0 < s.active.value < |s.lines|
    ensures var i := s.active.value;
            Splices(s, JoinedBack(s, now), Place(i - 1, |s.lines[i - 1]|), Place(i, 0), "")
  {
    var i := s.active.value;
    JoinIsReplaced(s.lines, i);
    BehindIsBefore(s.lines, Place(i - 1, |s.lines[i - 1]|), Place(i, 0), [""]);
    hide Replaced;
    hide Splices;
    ReplacedSplices(s, JoinedBack(s, now), Place(i - 1, |s.lines[i - 1]|), Place(i, 0), [""]);
  }

  /** Delete at a line's end takes out the one newline after it. */
  lemma DeleteSplices(s: State, now: int)
    requires NoBreaks(s.lines) && s.active.Some? && s.active.value + 1 < |s.lines|
    ensures var i := s.active.value;
            Splices(s, JoinedNext(s, now), Place(i, |s.lines[i]|), Place(i + 1, 0), "")
  {
    var i := s.active.value;
    JoinIsReplaced(s.lines, i + 1);
    BehindIsBefore(s.lines, Place(i, |s.lines[i]|), Place(i + 1, 0), [""]);
    hide Replaced;
    hide Splices;
    ReplacedSplices(s, JoinedNext(s, now), Place(i, |s.lines[i]|), Place(i + 1, 0), [""]);
  }

  /** A newline typed is a space; all else is kept. */
  lemma {:induction false} UnbrokenIs(text: string, k: nat)
    requires k < |text|
    ensures Unbroken(text)[k] == if text[k] == '\n' then ' ' else text[k]
  {
    if k > 0 {
      UnbrokenIs(text[1..], k - 1);
    }
  }

  /** Typing replaces one line's text, newlines made spaces. */
  lemma EditSplices(s: State, text: string, caret: nat, now: int)
    requires NoBreaks(s.lines) && s.active.Some? && s.active.value < |s.lines| && caret <= |text|
    ensures var i, t := s.active.value, Edited(s, text, caret, now);
            var p, q := Place(i, 0), Place(i, |s.lines[i]|);
            && At(s.lines, p) <= At(s.lines, q) <= |Flat(s.lines)|
            && Flat(t.lines) == Spliced(Flat(s.lines), At(s.lines, p), At(s.lines, q), Unbroken(text))
            && SoundState(t) && t.active == s.active && CaretAt(t) == At(s.lines, p) + caret
            && |Unbroken(text)| == |text|
            && forall k | 0 <= k < |text| :: Unbroken(text)[k] == if text[k] == '\n' then ' ' else text[k]
  {
    forall k: nat | k < |text|
      ensures Unbroken(text)[k] == if text[k] == '\n' then ' ' else text[k]
    {
      UnbrokenIs(text, k);
    }
    var i, t := s.active.value, Edited(s, text, caret, now);
    var p, q, line := Place(i, 0), Place(i, |s.lines[i]|), Unbroken(text);
    EditReplaces(s, text, caret, now);
    FlatOfOne(line);
    EditKeepsSound(s, text, caret, now);
    hide Flat;
    hide Replaced;
    hide Remembered;
    hide Unbroken;
    hide NoBreaks;
    ReplacedIsASplice(s.lines, p, q, [line]);
    CaretInLine(t.lines, i, caret);
    assert Before(t.lines, p) == Before(s.lines, p);
  }

  lemma FlatOfOne(line: string)
    ensures Flat([line]) == line
  {
  }

  lemma EditKeepsSound(s: State, text: string, caret: nat, now: int)
    requires NoBreaks(s.lines) && s.active.Some? && s.active.value < |s.lines| && caret <= |text|
    ensures SoundState(Edited(s, text, caret, now)) && Edited(s, text, caret, now).active == s.active
  {
  }

  lemma EditReplaces(s: State, text: string, caret: nat, now: int)
    requires s.active.Some? && s.active.value < |s.lines|
    ensures var i := s.active.value;
            Edited(s, text, caret, now).lines ==
            Replaced(s.lines, Place(i, 0), Place(i, |s.lines[i]|), [Unbroken(text)])
  {
    hide Replaced;
    hide Unbroken;
    var i, line := s.active.value, Unbroken(text);
    WrappedIsReplaced(s.lines, Place(i, 0), Place(i, |s.lines[i]|), [line]);
    var left, right := s.lines[i][..0], s.lines[i][|s.lines[i]|..];
    assert left + line + right == line;
    assert Wrapped(left, [line], right) == [line];
  }

  lemma CaretInLine(lines: seq<string>, i: nat, caret: nat)
    requires i < |lines| && caret <= |lines[i]|
    ensures At(lines, Place(i, caret)) == At(lines, Place(i, 0)) + caret
  {
    FlatBetween(lines, Place(i, 0), Place(i, caret));
    assert Between(lines, Place(i, 0), Place(i, caret)) == [lines[i][0..caret]];
  }

  lemma {:induction false} UnbrokenKeeps(text: string)
    requires '\n' !in text
    ensures Unbroken(text) == text
  {
    if text != "" {
      assert forall c | c in text[1..] :: c in text;
      UnbrokenKeeps(text[1..]);
    }
  }

  /** Reading the active line back from its drawing changes no line. */
  lemma RedrawnLineReadsBack(s: State, caret: nat, now: int)
    requires SoundState(s) && s.active.Some? && caret <= |s.lines[s.active.value]|
    ensures Edited(s, MarkupReads.TextOf(LineHtml(s.lines[s.active.value], true)), caret, now).lines == s.lines
  {
    hide MarkupReads.TextOf;
    hide LineHtml;
    var line := s.lines[s.active.value];
    MarkupReads.DrawingReadsBack(line);
    UnbrokenKeeps(line);
  }
}
