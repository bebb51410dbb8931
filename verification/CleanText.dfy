/** The text of a reply as it is shown: line ends normalised, control
    characters dropped, runs of blank lines collapsed, cut, trimmed. */
module CleanText {
  import opened WhiteSpace

  const MAX_TEXT_CHARS: nat := 2000

  predicate IsControl(c: char) {
    c < ' ' || '\U{7F}' <= c <= '\U{9F}'
  }

  /** `\r\n` is one newline; a return alone stays. */
  function Unix(raw: string): string {
    if raw == "" then ""
    else if raw[0] == '\r' && |raw| > 1 && raw[1] == '\n' then "\n" + Unix(raw[2..])
    else [raw[0]] + Unix(raw[1..])
  }

  predicate Dropped(c: char) {
    c != '\n' && c != '\t' && IsControl(c)
  }

  /** What is kept of the text after `newlines` newlines in a row. */
  function Kept(text: string, newlines: nat): string {
    if text == "" then ""
    else if text[0] == '\n' then (if newlines < 2 then "\n" else "") + Kept(text[1..], newlines + 1)
    else if Dropped(text[0]) then Kept(text[1..], newlines)
    else [text[0]] + Kept(text[1..], 0)
  }

  function TrimStart(s: string): (r: string)
    ensures |r| <= |s|
  {
    if s != "" && IsSpace(s[0]) then TrimStart(s[1..]) else s
  }

  function TrimEnd(s: string): (r: string)
    ensures |r| <= |s|
  {
    if s != "" && IsSpace(s[|s| - 1]) then TrimEnd(s[..|s| - 1]) else s
  }

  function Cut(s: string): (r: string)
    ensures |r| <= |s| && |r| <= MAX_TEXT_CHARS
  {
    if |s| <= MAX_TEXT_CHARS then s else s[..MAX_TEXT_CHARS]
  }

  function Clean(raw: string): string {
    TrimEnd(TrimStart(Kept(Cut(Unix(raw)), 0)))
  }

  method CleanUp(raw: string) returns (shown: string)
    ensures shown == Clean(raw)
  {
    hide Unix;
    hide Cut;
    hide TrimStart;
    hide TrimEnd;
    hide Kept;
    var text := Cut(Unix(raw));
    var out, newlines: nat := "", 0;
    var i := 0;
    while i < |text|
      invariant 0 <= i <= |text|
      invariant out + Kept(text[i..], newlines) == Kept(text, 0)
    {
      var c := text[i];
      assert text[i..] == [c] + text[i + 1..];
      KeptFirst(c, text[i + 1..], newlines);
      ghost var rest := Kept(text[i + 1..], if c == '\n' then newlines + 1 else if Dropped(c) then newlines else 0);
      assert "" + rest == rest && out + ([c] + rest) == out + [c] + rest;
      if c == '\n' {
        newlines := newlines + 1;
        if newlines <= 2 {
          out := out + [c];
        }
      } else if c == '\t' || !IsControl(c) {
        newlines := 0;
        out := out + [c];
      }
      i := i + 1;
    }
    KeptNothing(newlines);
    assert out + "" == out;
    shown := TrimEnd(TrimStart(out));
  }

  lemma KeptNothing(newlines: nat)
    ensures Kept("", newlines) == ""
  {
  }

  // ---- what is shown ----

  /** At most `room` newlines first, and nowhere more than two in a row;
      no control character but newline and tab. */
  predicate Tidy(s: string, room: int) {
    s == "" ||
    if s[0] == '\n' then room > 0 && Tidy(s[1..], room - 1)
    else !Dropped(s[0]) && Tidy(s[1..], 2)
  }

  lemma {:induction false} KeptIsTidy(text: string, newlines: nat)
    ensures Tidy(Kept(text, newlines), if newlines < 2 then 2 - newlines else 0)
    ensures |Kept(text, newlines)| <= |text|
  {
    if text != "" {
      if text[0] == '\n' {
        var rest := Kept(text[1..], newlines + 1);
        KeptIsTidy(text[1..], newlines + 1);
        assert ("\n" + rest)[1..] == rest;
        assert "" + rest == rest;
      } else if Dropped(text[0]) {
        KeptIsTidy(text[1..], newlines);
      } else {
        KeptIsTidy(text[1..], 0);
      }
    }
  }

  /** A tidy text is kept as it is. */
  lemma {:induction false} TidyIsKept(s: string, room: int, newlines: nat)
    requires Tidy(s, room) && room <= 2 && newlines + room <= 2
    ensures Kept(s, newlines) == s
  {
    if s != "" {
      if s[0] == '\n' {
        TidyIsKept(s[1..], room - 1, newlines + 1);
      } else {
        TidyIsKept(s[1..], 2, 0);
      }
    }
  }

  lemma {:induction false} TidyMore(s: string, room: int, more: int)
    requires Tidy(s, room) && room <= more
    ensures Tidy(s, more)
  {
    if s != "" && s[0] == '\n' {
      TidyMore(s[1..], room - 1, more - 1);
    }
  }

  lemma {:induction false} TidyFirst(s: string, n: nat, room: int)
    requires n <= |s| && Tidy(s, room)
    ensures Tidy(s[..n], room)
  {
    if n > 0 {
      assert s[..n][0] == s[0] && s[..n][1..] == s[1..][..n - 1];
      TidyFirst(s[1..], n - 1, if s[0] == '\n' then room - 1 else 2);
    }
  }

  lemma {:induction false} TrimStartKeeps(s: string)
    requires Tidy(s, 2)
    ensures Tidy(TrimStart(s), 2) && (TrimStart(s) != "" ==> !IsSpace(TrimStart(s)[0]))
  {
    if s != "" && IsSpace(s[0]) {
      if s[0] == '\n' {
        TidyMore(s[1..], 1, 2);
      }
      TrimStartKeeps(s[1..]);
    }
  }

  lemma {:induction false} TrimEndKeeps(s: string)
    requires Tidy(s, 2)
    ensures Tidy(TrimEnd(s), 2) && TrimEnd(s) <= s
    ensures TrimEnd(s) != "" ==> !IsSpace(TrimEnd(s)[|TrimEnd(s)| - 1])
  {
    if s != "" && IsSpace(s[|s| - 1]) {
      TidyFirst(s, |s| - 1, 2);
      TrimEndKeeps(s[..|s| - 1]);
    }
  }

  lemma {:induction false} TidyIsUnix(s: string, room: int)
    requires Tidy(s, room)
    ensures Unix(s) == s
  {
    if s != "" {
      TidyIsUnix(s[1..], if s[0] == '\n' then room - 1 else 2);
    }
  }

  /** What is shown is short, trimmed, and tidy: no control character but
      newline and tab, and never a third newline in a row. */
  lemma CleanIsTidy(raw: string)
    ensures Tidy(Clean(raw), 2) && Trimmed(Clean(raw)) && |Clean(raw)| <= MAX_TEXT_CHARS
  {
    var kept := Kept(Cut(Unix(raw)), 0);
    KeptIsTidy(Cut(Unix(raw)), 0);
    TrimStartKeeps(kept);
    TrimEndKeeps(TrimStart(kept));
    TrimmedIff(Clean(raw));
  }

  /** A text is shown as it is exactly when it is short, trimmed and tidy. */
  lemma CleanKeepsIff(raw: string)
    ensures Clean(raw) == raw <==> Tidy(raw, 2) && Trimmed(raw) && |raw| <= MAX_TEXT_CHARS
  {
    hide Clean;
    hide Unix;
    hide Kept;
    hide Tidy;
    hide TrimStart;
    hide TrimEnd;
    hide Trimmed;
    hide AllSpace;
    CleanIsTidy(raw);
    if Tidy(raw, 2) && Trimmed(raw) && |raw| <= MAX_TEXT_CHARS {
      TidyIsUnix(raw, 2);
      TidyIsKept(raw, 2, 0);
      CleanOf(raw, raw);
      NothingIsSpace();
      TrimIs("", raw, "");
      assert "" + raw + "" == raw;
    }
  }

  /** Cleaning what is shown changes nothing. */
  lemma CleanTwice(raw: string)
    ensures Clean(Clean(raw)) == Clean(raw)
  {
    CleanIsTidy(raw);
    CleanKeepsIff(Clean(raw));
  }

  // ---- what becomes of a text ----

  lemma {:induction false} TrimStartIs(before: string, s: string)
    requires AllSpace(before) && (s == "" || !IsSpace(s[0]))
    ensures TrimStart(before + s) == s
  {
    AllSpaceIff(before);
    hide IsSpace;
    if before == "" {
      assert before + s == s;
    } else {
      assert (before + s)[1..] == before[1..] + s;
      TrimStartIs(before[1..], s);
    }
  }

  lemma {:induction false} TrimEndIs(s: string, after: string)
    requires AllSpace(after) && (s == "" || !IsSpace(s[|s| - 1]))
    ensures TrimEnd(s + after) == s
  {
    AllSpaceIff(after);
    hide IsSpace;
    if after == "" {
      assert s + after == s;
    } else {
      var n := |after| - 1;
      assert (s + after)[..|s| + n] == s + after[..n];
      TrimEndIs(s, after[..n]);
    }
  }

  /** Trimming takes off the white space around a text and nothing else. */
  lemma TrimIs(before: string, s: string, after: string)
    requires AllSpace(before) && AllSpace(after) && Trimmed(s)
    ensures TrimEnd(TrimStart(before + s + after)) == s
  {
    TrimmedIff(s);
    hide IsSpace;
    if s == "" {
      assert before + s + after == (before + after) + "";
      TrimStartIs(before + after, "");
    } else {
      assert before + s + after == before + (s + after);
      TrimStartIs(before, s + after);
      TrimEndIs(s, after);
    }
  }

  /** The characters that are shown: a tab, and what is no control
      character. */
  function Visible(line: string): string {
    if line == "" then ""
    else
      var c := line[0];
      (if c == '\t' || (' ' <= c && !('\U{7F}' <= c <= '\U{9F}')) then [c] else "") + Visible(line[1..])
  }

  function Newlines(n: nat): (s: string)
    ensures |s| == n
  {
    seq(n, _ => '\n')
  }

  /** Lines with so many newlines after each but the last. */
  function Spread(lines: seq<string>, gaps: seq<nat>): string
    requires |lines| == |gaps| + 1
    decreases |gaps|
  {
    if gaps == [] then lines[0] else lines[0] + Newlines(gaps[0]) + Spread(lines[1..], gaps[1..])
  }

  /** What is visible of the lines, with one newline where there was one and
      two where there were more. */
  function Closed(lines: seq<string>, gaps: seq<nat>): string
    requires |lines| == |gaps| + 1
    decreases |gaps|
  {
    if gaps == [] then Visible(lines[0])
    else Visible(lines[0]) + (if gaps[0] == 1 then "\n" else "\n\n") + Closed(lines[1..], gaps[1..])
  }

  predicate LinesOk(lines: seq<string>) {
    forall k | 0 <= k < |lines| :: '\n' !in lines[k] && '\r' !in lines[k] && Visible(lines[k]) != ""
  }

  /** A line is kept as far as it is visible, and ends the newlines before
      it. */
  lemma {:induction false} KeptLine(line: string, rest: string, newlines: nat)
    requires '\n' !in line
    ensures Kept(line + rest, newlines) == Visible(line) + Kept(rest, if Visible(line) == "" then newlines else 0)
  {
    if line == "" {
      assert line + rest == rest;
    } else {
      assert (line + rest)[1..] == line[1..] + rest && line[0] in line;
      assert forall c | c in line[1..] :: c in line;
      KeptLine(line[1..], rest, if Dropped(line[0]) then newlines else 0);
    }
  }

  /** Of newlines in a row the first two are kept. */
  function Room(newlines: nat): nat {
    if newlines < 2 then 2 - newlines else 0
  }

  function Least(m: nat, n: nat): nat {
    if m < n then m else n
  }

  lemma NewlinesMore(n: nat, rest: string)
    ensures "\n" + (Newlines(n) + rest) == Newlines(n + 1) + rest
  {
  }

  lemma {:induction false} KeptNewlines(n: nat, rest: string, newlines: nat)
    ensures Kept(Newlines(n) + rest, newlines) == Newlines(Least(n, Room(newlines))) + Kept(rest, newlines + n)
  {
    if n == 0 {
      assert Newlines(0) + rest == rest;
      assert Newlines(0) + Kept(rest, newlines) == Kept(rest, newlines);
    } else {
      KeptNewlines(n - 1, rest, newlines + 1);
      NewlinesMore(n - 1, rest);
      KeptFirst('\n', Newlines(n - 1) + rest, newlines);
      if newlines < 2 {
        NewlinesMore(Least(n - 1, Room(newlines + 1)), Kept(rest, newlines + n));
      }
    }
  }

  lemma KeptFirst(c: char, rest: string, newlines: nat)
    ensures Kept([c] + rest, newlines) ==
            if c == '\n' then (if newlines < 2 then "\n" else "") + Kept(rest, newlines + 1)
            else if Dropped(c) then Kept(rest, newlines)
            else [c] + Kept(rest, 0)
  {
    assert ([c] + rest)[1..] == rest;
  }

  lemma JoinThree(a: string, b: string, c: string)
    ensures a + b + c == a + (b + c)
  {
  }

  /** Lines and the newlines between them, whatever came before. */
  lemma {:induction false} KeptLines(lines: seq<string>, gaps: seq<nat>, rest: string, newlines: nat)
    requires |lines| == |gaps| + 1 && LinesOk(lines) && forall k | 0 <= k < |gaps| :: gaps[k] > 0
    ensures Kept(Spread(lines, gaps) + rest, newlines) == Closed(lines, gaps) + Kept(rest, 0)
    decreases |gaps|
  {
    hide Kept;
    hide Visible;
    if gaps == [] {
      KeptLine(lines[0], rest, newlines);
    } else {
      var line, gap, more := lines[0], gaps[0], Spread(lines[1..], gaps[1..]);
      KeptLine(line, Newlines(gap) + (more + rest), newlines);
      KeptNewlines(gap, more + rest, 0);
      KeptLines(lines[1..], gaps[1..], rest, gap);
      assert Newlines(Least(gap, 2)) == if gap == 1 then "\n" else "\n\n";
      assert line + Newlines(gap) + more + rest == line + (Newlines(gap) + (more + rest));
      JoinThree(Newlines(Least(gap, 2)), Closed(lines[1..], gaps[1..]), Kept(rest, 0));
      JoinThree(Visible(line), Newlines(Least(gap, 2)) + Closed(lines[1..], gaps[1..]), Kept(rest, 0));
      JoinThree(Visible(line), Newlines(Least(gap, 2)), Closed(lines[1..], gaps[1..]));
    }
  }

  // ---- the whole of it ----

  /** Every newline written as a return and a newline. */
  function WithReturns(text: string): string {
    if text == "" then "" else (if text[0] == '\n' then "\r\n" else [text[0]]) + WithReturns(text[1..])
  }

  lemma {:induction false} UnixReads(text: string)
    requires '\r' !in text
    ensures Unix(WithReturns(text)) == text && Unix(text) == text
  {
    if text != "" {
      assert text[0] in text && forall c | c in text[1..] :: c in text;
      UnixReads(text[1..]);
      var rest := WithReturns(text[1..]);
      if text[0] == '\n' {
        assert ("\r\n" + rest)[2..] == rest;
      } else {
        assert ([text[0]] + rest)[1..] == rest;
      }
      assert text == [text[0]] + text[1..];
    }
  }

  lemma {:induction false} KeptSpace(s: string, newlines: nat)
    requires AllSpace(s)
    ensures AllSpace(Kept(s, newlines))
  {
    if s != "" {
      KeptSpace(s[1..], if s[0] == '\n' then newlines + 1 else if Dropped(s[0]) then newlines else 0);
    }
  }

  /** How many newlines in a row there are after a text. */
  function Running(text: string, newlines: nat): nat {
    if text == "" then newlines
    else Running(text[1..], if text[0] == '\n' then newlines + 1 else if Dropped(text[0]) then newlines else 0)
  }

  lemma {:induction false} KeptSplit(a: string, b: string, newlines: nat)
    ensures Kept(a + b, newlines) == Kept(a, newlines) + Kept(b, Running(a, newlines))
    decreases |a|
  {
    if a == "" {
      assert a + b == b;
      assert "" + Kept(b, newlines) == Kept(b, newlines);
    } else {
      var c, rest := a[0], a[1..];
      KeptSplit(rest, b, if c == '\n' then newlines + 1 else if Dropped(c) then newlines else 0);
      KeptFirst(c, rest + b, newlines);
      KeptFirst(c, rest, newlines);
      assert a == [c] + rest && a + b == [c] + (rest + b);
      hide Kept;
    }
  }

  /** What is shown of any lines, each with something visible, set apart by
      any newlines and with any white space around them, written either
      way: the lines as far as they are visible, and between them one
      newline where there was one and a blank line where there were more. */
  lemma CleanShows(before: string, lines: seq<string>, gaps: seq<nat>, after: string)
    requires |lines| == |gaps| + 1 && LinesOk(lines) && forall k | 0 <= k < |gaps| :: gaps[k] > 0
    requires AllSpace(before) && AllSpace(after) && '\r' !in before && '\r' !in after
    requires Trimmed(Closed(lines, gaps))
    requires |before + Spread(lines, gaps) + after| <= 2000
    ensures Clean(before + Spread(lines, gaps) + after) == Closed(lines, gaps)
    ensures Clean(WithReturns(before + Spread(lines, gaps) + after)) == Closed(lines, gaps)
  {
    var text := before + Spread(lines, gaps) + after;
    SpreadHasNoReturn(lines, gaps);
    hide *;
    UnixReads(text);
    KeptText(before, lines, gaps, after);
    CleanOf(text, text);
    CleanOf(WithReturns(text), text);
  }

  lemma NothingIsSpace()
    ensures AllSpace("")
  {
  }

  lemma CleanOf(raw: string, text: string)
    requires Unix(raw) == text && |text| <= 2000
    ensures Clean(raw) == TrimEnd(TrimStart(Kept(text, 0)))
  {
  }

  lemma KeptText(before: string, lines: seq<string>, gaps: seq<nat>, after: string)
    requires |lines| == |gaps| + 1 && LinesOk(lines) && forall k | 0 <= k < |gaps| :: gaps[k] > 0
    requires AllSpace(before) && AllSpace(after) && Trimmed(Closed(lines, gaps))
    ensures TrimEnd(TrimStart(Kept(before + Spread(lines, gaps) + after, 0))) == Closed(lines, gaps)
  {
    hide *;
    var shown := Closed(lines, gaps);
    JoinThree(before, Spread(lines, gaps), after);
    KeptSplit(before, Spread(lines, gaps) + after, 0);
    KeptLines(lines, gaps, after, Running(before, 0));
    KeptSpace(before, 0);
    KeptSpace(after, 0);
    TrimIs(Kept(before, 0), shown, Kept(after, 0));
    JoinThree(Kept(before, 0), shown, Kept(after, 0));
  }

  lemma {:induction false} SpreadHasNoReturn(lines: seq<string>, gaps: seq<nat>)
    requires |lines| == |gaps| + 1 && LinesOk(lines)
    ensures '\r' !in Spread(lines, gaps)
    decreases |gaps|
  {
    hide Visible;
    if gaps != [] {
      SpreadHasNoReturn(lines[1..], gaps[1..]);
    }
  }

  /** Past 2000 characters, a return and a newline counted as one, nothing
      is shown. */
  lemma CleanIsCut(text: string)
    requires '\r' !in text && |text| > 2000
    ensures Clean(text) == Clean(text[..2000]) && Clean(WithReturns(text)) == Clean(text[..2000])
  {
    UnixReads(text);
    assert forall c | c in text[..2000] :: c in text;
    UnixReads(text[..2000]);
  }
}
