/** A list of lines seen as one flat text. */
module LineText {
  // The editor holds one string a line; the text it stands for is the lines
  // joined by newlines. A place in the lines is a place in the text, and
  // replacing what lies between two places is one splice of the text.

  /** What the textarea's text would be. */
  function Flat(lines: seq<string>): string {
    if lines == [] then "" else if |lines| == 1 then lines[0] else lines[0] + "\n" + Flat(lines[1..])
  }

  /** Every carriage return, with a newline right after it or not, becomes
      one newline. */
  function Normal(text: string): string {
    if text == [] then []
    else if text[0] == '\r' then "\n" + Normal(if |text| > 1 && text[1] == '\n' then text[2..] else text[1..])
    else [text[0]] + Normal(text[1..])
  }

  function Lines(text: string): (lines: seq<string>)
    ensures lines != []
  {
    if text == [] then [""]
    else
      var rest := Lines(text[1..]);
      if text[0] == '\n' then [""] + rest else [[text[0]] + rest[0]] + rest[1..]
  }

  function Split(text: string): (lines: seq<string>)
    ensures lines != []
  {
    Lines(Normal(text))
  }

  predicate NoBreaks(lines: seq<string>) {
    lines != [] && forall k | 0 <= k < |lines| :: '\n' !in lines[k]
  }

  // ---- splitting and joining are inverse ----

  lemma {:induction false} FlatOfLines(text: string)
    ensures Flat(Lines(text)) == text && NoBreaks(Lines(text))
  {
    if text != [] {
      FlatOfLines(text[1..]);
      FlatOfFirst(text[0], Lines(text[1..]));
      assert text == [text[0]] + text[1..];
    }
  }

  lemma FlatOfFirst(c: char, rest: seq<string>)
    requires NoBreaks(rest)
    ensures var lines := if c == '\n' then [""] + rest else [[c] + rest[0]] + rest[1..];
            Flat(lines) == [c] + Flat(rest) && NoBreaks(lines)
  {
    if c == '\n' {
      assert ([""] + rest)[1..] == rest;
    } else {
      var lines := [[c] + rest[0]] + rest[1..];
      assert lines[1..] == rest[1..];
    }
  }

  lemma {:induction false} LinesOfLine(line: string)
    requires '\n' !in line
    ensures Lines(line) == [line]
  {
    if line != [] {
      assert forall c | c in line[1..] :: c in line;
      assert line[0] in line;
      LinesOfLine(line[1..]);
      assert [line[0]] + line[1..] == line;
    }
  }

  lemma {:induction false} LinesOfFirst(line: string, rest: string)
    requires '\n' !in line
    ensures Lines(line + "\n" + rest) == [line] + Lines(rest)
  {
    var text := line + "\n" + rest;
    if line == [] {
      assert text[1..] == rest;
    } else {
      assert text[1..] == line[1..] + "\n" + rest;
      assert forall c | c in line[1..] :: c in line;
      assert text[0] == line[0] && line[0] in line;
      LinesOfFirst(line[1..], rest);
      assert [line[0]] + line[1..] == line;
    }
  }

  lemma {:induction false} LinesOfFlat(lines: seq<string>)
    requires NoBreaks(lines)
    ensures Lines(Flat(lines)) == lines
  {
    if |lines| == 1 {
      LinesOfLine(lines[0]);
    } else {
      LinesOfFlat(lines[1..]);
      LinesOfFirst(lines[0], Flat(lines[1..]));
    }
  }

  lemma {:induction false} NormalHasNoReturn(text: string)
    ensures '\r' !in Normal(text) && |Normal(text)| <= |text|
  {
    if text != [] {
      NormalHasNoReturn(if text[0] == '\r' && |text| > 1 && text[1] == '\n' then text[2..] else text[1..]);
    }
  }

  lemma {:induction false} NormalKeeps(text: string)
    requires '\r' !in text
    ensures Normal(text) == text
  {
    if text != [] {
      NormalKeeps(text[1..]);
    }
  }

  /** A text is as split reads it exactly when it holds no carriage return. */
  lemma NormalIff(text: string)
    ensures Normal(text) == text <==> '\r' !in text
  {
    NormalHasNoReturn(text);
    if '\r' !in text {
      NormalKeeps(text);
    }
  }

  /** Splitting any text gives lines without breaks that spell the text,
      newlines normalised. */
  lemma SplitSpells(text: string)
    ensures Flat(Split(text)) == Normal(text) && NoBreaks(Split(text))
  {
    FlatOfLines(Normal(text));
  }

  // ---- line ends of any kind ----

  /** Lines with a line end of some kind after each but the last. */
  function WithEnds(lines: seq<string>, ends: seq<string>): string
    requires |lines| == |ends| + 1
    decreases |ends|
  {
    if ends == [] then lines[0] else lines[0] + ends[0] + WithEnds(lines[1..], ends[1..])
  }

  /** A newline, a carriage return, or both; the first two do not meet with
      nothing between, for that would be the third. */
  predicate EndsOk(lines: seq<string>, ends: seq<string>)
    requires |lines| == |ends| + 1
  {
    && (forall k | 0 <= k < |ends| :: ends[k] == "\n" || ends[k] == "\r" || ends[k] == "\r\n")
    && (forall k | 0 < k < |ends| && lines[k] == "" && ends[k] == "\n" :: ends[k - 1] != "\r")
  }

  lemma {:induction false} NormalAfterLine(line: string, rest: string)
    requires '\r' !in line
    ensures Normal(line + rest) == line + Normal(rest)
  {
    if line == "" {
      assert line + rest == rest;
    } else {
      assert (line + rest)[1..] == line[1..] + rest && line[0] in line;
      assert forall c | c in line[1..] :: c in line;
      NormalAfterLine(line[1..], rest);
      assert line == [line[0]] + line[1..];
    }
  }

  lemma NormalAfterEnd(end: string, rest: string)
    requires end == "\n" || end == "\r" || end == "\r\n"
    requires end == "\r" && rest != "" ==> rest[0] != '\n'
    ensures Normal(end + rest) == "\n" + Normal(rest)
  {
    assert (end + rest)[|end|..] == rest;
  }

  lemma NormalOfFirst(line: string, end: string, rest: string)
    requires '\r' !in line && (end == "\n" || end == "\r" || end == "\r\n")
    requires end == "\r" && rest != "" ==> rest[0] != '\n'
    ensures Normal(line + end + rest) == line + "\n" + Normal(rest)
  {
    NormalAfterEnd(end, rest);
    NormalAfterLine(line, end + rest);
    hide Normal;
    assert line + end + rest == line + (end + rest);
    assert line + ("\n" + Normal(rest)) == line + "\n" + Normal(rest);
  }

  predicate NoEnds(lines: seq<string>) {
    forall k | 0 <= k < |lines| :: '\n' !in lines[k] && '\r' !in lines[k]
  }

  lemma {:induction false} NormalOfEnds(lines: seq<string>, ends: seq<string>)
    requires |lines| == |ends| + 1 && EndsOk(lines, ends) && NoEnds(lines)
    ensures Normal(WithEnds(lines, ends)) == Flat(lines)
    decreases |ends|
  {
    hide Normal;
    hide EndsOk;
    if ends == [] {
      NormalKeeps(lines[0]);
    } else {
      RestEndsOk(lines, ends);
      NormalOfEnds(lines[1..], ends[1..]);
      NormalOfFirst(lines[0], ends[0], WithEnds(lines[1..], ends[1..]));
    }
  }

  lemma FirstOfEnds(lines: seq<string>, ends: seq<string>)
    requires |lines| == |ends| + 1 && EndsOk(lines, ends) && '\n' !in lines[0]
    ensures var text := WithEnds(lines, ends);
            text != "" && text[0] == '\n' ==> lines[0] == "" && ends != [] && ends[0] == "\n"
  {
    if lines[0] != "" {
      assert lines[0][0] in lines[0];
    }
  }

  /** What follows the first line end. */
  lemma RestEndsOk(lines: seq<string>, ends: seq<string>)
    requires |lines| == |ends| + 1 && EndsOk(lines, ends) && ends != [] && '\n' !in lines[1]
    ensures EndsOk(lines[1..], ends[1..])
    ensures ends[0] == "\n" || ends[0] == "\r" || ends[0] == "\r\n"
    ensures var rest := WithEnds(lines[1..], ends[1..]);
            ends[0] == "\r" && rest != "" ==> rest[0] != '\n'
  {
    assert forall k | 0 < k < |ends| :: ends[1..][k - 1] == ends[k] && lines[1..][k - 1] == lines[k];
    FirstOfEnds(lines[1..], ends[1..]);
    assert lines[1..][0] == lines[1];
  }

  /** Whatever line ends a text has, a newline, a carriage return, or both,
      in any mixture: splitting it gives exactly the lines between them. */
  lemma SplitReadsAnyEnds(lines: seq<string>, ends: seq<string>)
    requires |lines| == |ends| + 1 && EndsOk(lines, ends) && NoEnds(lines)
    ensures Split(WithEnds(lines, ends)) == lines
  {
    NormalOfEnds(lines, ends);
    LinesOfFlat(lines);
  }

  // ---- places ----

  /** A place between two characters, or at an end, of a line. */
  datatype Place = Place(line: nat, offset: nat)

  predicate In(p: Place, lines: seq<string>) {
    p.line < |lines| && p.offset <= |lines[p.line]|
  }

  predicate NotAfter(p: Place, q: Place) {
    p.line < q.line || (p.line == q.line && p.offset <= q.offset)
  }

  function Before(lines: seq<string>, p: Place): (r: seq<string>)
    requires In(p, lines)
    ensures r != []
  {
    lines[..p.line] + [lines[p.line][..p.offset]]
  }

  function Beyond(lines: seq<string>, p: Place): (r: seq<string>)
    requires In(p, lines)
    ensures r != []
  {
    [lines[p.line][p.offset..]] + lines[p.line + 1..]
  }

  /** The offset of a place in the flat text. */
  function At(lines: seq<string>, p: Place): nat
    requires In(p, lines)
  {
    |Flat(Before(lines, p))|
  }

  /** The last line of one list run into the first of another. */
  function Glue(a: seq<string>, b: seq<string>): (r: seq<string>)
    requires a != [] && b != []
    ensures r != []
  {
    a[..|a| - 1] + [a[|a| - 1] + b[0]] + b[1..]
  }

  lemma {:induction false} FlatOfGlue(a: seq<string>, b: seq<string>)
    requires a != [] && b != []
    ensures Flat(Glue(a, b)) == Flat(a) + Flat(b)
    decreases |a|
  {
    var g := Glue(a, b);
    if |a| == 1 {
      assert g == [a[0] + b[0]] + b[1..];
      assert g[1..] == b[1..];
    } else {
      FlatOfGlue(a[1..], b);
      assert g[1..] == Glue(a[1..], b);
      assert g[0] == a[0];
    }
  }

  lemma CutIsGlued(lines: seq<string>, p: Place)
    requires In(p, lines)
    ensures Glue(Before(lines, p), Beyond(lines, p)) == lines
  {
    assert lines[p.line] == lines[p.line][..p.offset] + lines[p.line][p.offset..];
  }

  lemma FlatAtPlace(lines: seq<string>, p: Place)
    requires In(p, lines)
    ensures Flat(lines) == Flat(Before(lines, p)) + Flat(Beyond(lines, p))
    ensures At(lines, p) <= |Flat(lines)|
    ensures Flat(lines)[..At(lines, p)] == Flat(Before(lines, p))
    ensures Flat(lines)[At(lines, p)..] == Flat(Beyond(lines, p))
  {
    hide Flat;
    hide Glue;
    hide Before;
    hide Beyond;
    FlatOfGlue(Before(lines, p), Beyond(lines, p));
    CutIsGlued(lines, p);
  }

  /** The lines from one place to another. */
  function Between(lines: seq<string>, p: Place, q: Place): (r: seq<string>)
    requires In(p, lines) && In(q, lines) && NotAfter(p, q)
    ensures r != []
  {
    if p.line == q.line then [lines[p.line][p.offset..q.offset]]
    else [lines[p.line][p.offset..]] + lines[p.line + 1..q.line] + [lines[q.line][..q.offset]]
  }

  lemma BetweenIsGlued(lines: seq<string>, p: Place, q: Place)
    requires In(p, lines) && In(q, lines) && NotAfter(p, q)
    ensures Glue(Before(lines, p), Between(lines, p, q)) == Before(lines, q)
  {
    if p.line == q.line {
      assert lines[p.line][..p.offset] + lines[p.line][p.offset..q.offset] == lines[p.line][..q.offset];
    } else {
      assert lines[p.line][..p.offset] + lines[p.line][p.offset..] == lines[p.line];
    }
  }

  lemma FlatBetween(lines: seq<string>, p: Place, q: Place)
    requires In(p, lines) && In(q, lines) && NotAfter(p, q)
    ensures At(lines, p) <= At(lines, q) <= |Flat(lines)|
    ensures Flat(lines)[At(lines, p)..At(lines, q)] == Flat(Between(lines, p, q))
  {
    hide Flat;
    hide Glue;
    hide Before;
    hide Beyond;
    hide Between;
    FlatOfGlue(Before(lines, p), Between(lines, p, q));
    BetweenIsGlued(lines, p, q);
    FlatAtPlace(lines, q);
    assert Flat(lines)[At(lines, p)..At(lines, q)] == Flat(lines)[..At(lines, q)][At(lines, p)..];
  }

  /** Two places of lines without breaks are one when their offsets in the
      text are. */
  lemma AtIsInjective(lines: seq<string>, p: Place, q: Place)
    requires NoBreaks(lines) && In(p, lines) && In(q, lines) && At(lines, p) == At(lines, q)
    ensures p == q
  {
    FlatAtPlace(lines, p);
    FlatAtPlace(lines, q);
    BeforeHasNoBreaks(lines, p);
    BeforeHasNoBreaks(lines, q);
    LinesOfFlat(Before(lines, p));
    LinesOfFlat(Before(lines, q));
    assert |Before(lines, p)| == p.line + 1 && |Before(lines, q)| == q.line + 1;
    assert Before(lines, p)[p.line] == Before(lines, q)[q.line];
  }

  lemma BeforeHasNoBreaks(lines: seq<string>, p: Place)
    requires NoBreaks(lines) && In(p, lines)
    ensures NoBreaks(Before(lines, p)) && NoBreaks(Beyond(lines, p))
  {
    var left, right := lines[p.line][..p.offset], lines[p.line][p.offset..];
    assert forall c | c in left :: c in lines[p.line];
    assert forall c | c in right :: c in lines[p.line];
  }

  // ---- splices ----

  /** What lies between two places replaced by other lines. */
  function Replaced(lines: seq<string>, p: Place, q: Place, pieces: seq<string>): (r: seq<string>)
    requires In(p, lines) && In(q, lines) && pieces != []
    ensures r != []
  {
    Glue(Glue(Before(lines, p), pieces), Beyond(lines, q))
  }

  /** The place just after the pieces put in at `p`. */
  function Behind(p: Place, pieces: seq<string>): Place
    requires pieces != []
  {
    var last := |pieces| - 1;
    Place(p.line + last, (if last == 0 then p.offset else 0) + |pieces[last]|)
  }

  /** A text with what lies between two offsets replaced. */
  function Spliced(text: string, i: nat, j: nat, inserted: string): string
    requires i <= j <= |text|
  {
    text[..i] + inserted + text[j..]
  }

  /** Replacing lines is one splice of the flat text, and the place behind
      the new lines is the offset just after what was put in. */
  lemma ReplacedIsASplice(lines: seq<string>, p: Place, q: Place, pieces: seq<string>)
    requires In(p, lines) && In(q, lines) && NotAfter(p, q) && pieces != []
    ensures At(lines, p) <= At(lines, q) <= |Flat(lines)|
    ensures Flat(Replaced(lines, p, q, pieces)) == Spliced(Flat(lines), At(lines, p), At(lines, q), Flat(pieces))
    ensures In(Behind(p, pieces), Replaced(lines, p, q, pieces))
    ensures At(Replaced(lines, p, q, pieces), Behind(p, pieces)) == At(lines, p) + |Flat(pieces)|
  {
    FlatBetween(lines, p, q);
    FlatAtPlace(lines, p);
    FlatAtPlace(lines, q);
    var a, b := Before(lines, p), Beyond(lines, q);
    FlatOfGlue(a, pieces);
    FlatOfGlue(Glue(a, pieces), b);
    BehindIsBefore(lines, p, q, pieces);
  }

  lemma BehindIsBefore(lines: seq<string>, p: Place, q: Place, pieces: seq<string>)
    requires In(p, lines) && In(q, lines) && pieces != []
    ensures In(Behind(p, pieces), Replaced(lines, p, q, pieces))
    ensures Before(Replaced(lines, p, q, pieces), Behind(p, pieces)) == Glue(Before(lines, p), pieces)
  {
    var g, b := Glue(Before(lines, p), pieces), Beyond(lines, q);
    var r, c := Glue(g, b), Behind(p, pieces);
    assert |g| == p.line + |pieces| && c.line == |g| - 1;
    assert |g[c.line]| == c.offset;
    assert r[c.line] == g[c.line] + b[0];
    assert r[c.line][..c.offset] == g[c.line];
    assert r[..c.line] == g[..c.line];
  }

  lemma ReplacedHasNoBreaks(lines: seq<string>, p: Place, q: Place, pieces: seq<string>)
    requires In(p, lines) && In(q, lines) && NoBreaks(lines) && NoBreaks(pieces)
    ensures NoBreaks(Replaced(lines, p, q, pieces))
  {
    BeforeHasNoBreaks(lines, p);
    BeforeHasNoBreaks(lines, q);
    GlueHasNoBreaks(Before(lines, p), pieces);
    GlueHasNoBreaks(Glue(Before(lines, p), pieces), Beyond(lines, q));
  }

  lemma GlueHasNoBreaks(a: seq<string>, b: seq<string>)
    requires NoBreaks(a) && NoBreaks(b)
    ensures NoBreaks(Glue(a, b))
  {
    var g := Glue(a, b);
    forall k | 0 <= k < |g|
      ensures '\n' !in g[k]
    {
      assert k >= |a| ==> g[k] == b[k - |a| + 1];
    }
  }
}
