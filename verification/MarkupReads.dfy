/** Drawing a line and reading it back, and where a drawn place lies in the
    source. */
module MarkupReads {
  import opened Markup
  import opened Wrappers

  // ---- the segments spell the line ----

  /** What is matched is what stands there. */
  lemma MatchIsThere(text: string)
    requires MatchAt(text).Some?
    ensures var g := MatchAt(text).value; Length(g) == |Raw(g)| && text[..Length(g)] == Raw(g)
  {
    hide LinkAt;
    hide Marked;
    var g := MatchAt(text).value;
    if g.Link? {
      var (n, m) := LinkAt(text).value;
      LinkIsThere(text, n, m);
      assert |text[1..n + 1]| == n && |text[n + 3..n + m + 3]| == m;
    } else if g.Strong? {
      MarkedIsThere(text, '*', 2);
    } else if g.Em? {
      MarkedIsThere(text, g.mark, 1);
    } else {
      MarkedIsThere(text, '`', 1);
    }
  }

  lemma MarkedIsThere(text: string, c: char, width: nat)
    requires 1 <= width <= 2 && Marked(text, c, width) > 0
    ensures var n := Marked(text, c, width);
            var mark := if width == 1 then [c] else [c, c];
            text[..n + 2 * width] == mark + text[width..n + width] + mark
  {
    hide Run;
  }

  lemma LinkIsThere(text: string, n: nat, m: nat)
    requires LinkAt(text) == Some((n, m))
    ensures text[..n + m + 4] == "[" + text[1..n + 1] + ("](" + text[n + 3..n + m + 3] + ")")
  {
    hide Run;
    hide UrlRun;
  }

  lemma {:induction false} RawsOfPlain(text: string)
    ensures Raws(PlainIfAny(text)) == text && Texts(PlainIfAny(text)) == text
  {
    if text != "" {
      assert [Plain(text)][1..] == [];
    }
  }

  lemma {:induction false} RawsSplit(a: seq<Segment>, b: seq<Segment>)
    ensures Raws(a + b) == Raws(a) + Raws(b)
    decreases |a|
  {
    hide Raw;
    if a == [] {
      assert a + b == b;
    } else {
      RawsSplit(a[1..], b);
      assert (a + b)[1..] == a[1..] + b;
    }
  }

  /** Nothing of a line is lost or reordered: the segments' sources, one
      after the other, are the line. */
  lemma {:induction false} SegmentsSpellTheLine(text: string)
    ensures Raws(Segments(text)) == text
    decreases |text|
  {
    hide MatchAt;
    hide Skipped;
    hide Length;
    hide Raw;
    var n := Skipped(text);
    RawsOfPlain(text);
    if n < |text| {
      var g := MatchAt(text[n..]).value;
      var rest := text[n + Length(g)..];
      MatchIsThere(text[n..]);
      RawsOfPlain(text[..n]);
      RawsSplit(PlainIfAny(text[..n]) + [g], Segments(rest));
      RawsSplit(PlainIfAny(text[..n]), [g]);
      SegmentsSpellTheLine(rest);
      assert Raws([g]) == Raw(g);
      assert text == text[..n] + text[n..][..Length(g)] + rest;
    }
  }

  // ---- reading a drawing ----

  /** The length of a tag, up to and with its `>`. */
  function TagLength(html: string): (n: nat)
    ensures n <= |html| && (html != [] ==> n > 0)
  {
    if html == [] then 0 else if html[0] == '>' then 1 else 1 + TagLength(html[1..])
  }

  predicate Amp(html: string) {
    |html| >= 5 && html[0] == '&' && html[1] == 'a' && html[2] == 'm' && html[3] == 'p' && html[4] == ';'
  }

  predicate AngleEntity(html: string, c: char) {
    |html| >= 4 && html[0] == '&' && html[1] == c && html[2] == 't' && html[3] == ';'
  }

  /** The text of an element with this content: tags are no text, and the
      three entities stand for their characters. */
  function TextOf(html: string): string
    decreases |html|
  {
    if html == [] then []
    else if html[0] == '<' then TextOf(html[TagLength(html)..])
    else if Amp(html) then "&" + TextOf(html[5..])
    else if AngleEntity(html, 'l') then "<" + TextOf(html[4..])
    else if AngleEntity(html, 'g') then ">" + TextOf(html[4..])
    else [html[0]] + TextOf(html[1..])
  }

  lemma {:induction false} TagLengthOf(name: string, rest: string)
    requires '>' !in name
    ensures TagLength(name + ">" + rest) == |name| + 1
  {
    var html := name + ">" + rest;
    if name != "" {
      assert html[0] == name[0] && name[0] in name;
      assert html[1..] == name[1..] + ">" + rest;
      TagLengthOf(name[1..], rest);
    }
  }

  lemma TextOfTag(name: string, rest: string)
    requires '>' !in name
    ensures TextOf("<" + name + ">" + rest) == TextOf(rest)
  {
    var html := "<" + name + ">" + rest;
    TagLengthOf("<" + name, rest);
    assert html == ("<" + name) + ">" + rest;
    assert html[|name| + 2..] == rest;
  }

  lemma TextOfOne(c: char, rest: string)
    ensures TextOf(EscapeOne(c) + rest) == [c] + TextOf(rest)
  {
    var html := EscapeOne(c) + rest;
    assert html[|EscapeOne(c)|..] == rest;
  }

  lemma {:induction false} TextOfEscaped(s: string, rest: string)
    ensures TextOf(Escape(s) + rest) == s + TextOf(rest)
  {
    hide EscapeOne;
    hide TextOf;
    if s == "" {
      assert Escape(s) + rest == rest && s + TextOf(rest) == TextOf(rest);
    } else {
      TextOfEscaped(s[1..], rest);
      TextOfOne(s[0], Escape(s[1..]) + rest);
      assert Escape(s) + rest == EscapeOne(s[0]) + (Escape(s[1..]) + rest);
      assert s + TextOf(rest) == [s[0]] + (s[1..] + TextOf(rest));
    }
  }

  /** An element around escaped text reads as that text. */
  lemma TextOfElement(open: string, s: string, close: string, rest: string)
    requires '>' !in open && '>' !in close
    ensures TextOf("<" + open + ">" + Escape(s) + "<" + close + ">" + rest) == s + TextOf(rest)
  {
    hide TextOf;
    hide Escape;
    var tail := "<" + close + ">" + rest;
    TextOfTag(close, rest);
    TextOfEscaped(s, tail);
    TextOfTag(open, Escape(s) + tail);
    assert "<" + open + ">" + Escape(s) + "<" + close + ">" + rest == "<" + open + ">" + (Escape(s) + tail);
  }

  lemma TextOfTok(s: string, rest: string)
    ensures TextOf(Tok(s) + rest) == s + TextOf(rest)
  {
    hide TextOf;
    hide Escape;
    TextOfElement("span class=\"md-tok\"", s, "/span", rest);
    assert "<span class=\"md-tok\">" == "<" + "span class=\"md-tok\"" + ">";
    assert "</span>" == "<" + "/span" + ">";
    assert Tok(s) + rest == "<" + "span class=\"md-tok\"" + ">" + Escape(s) + "<" + "/span" + ">" + rest;
  }

  lemma TextOfElementHtml(g: Segment, rest: string)
    requires !g.Plain?
    ensures TextOf(ElementHtml(g) + rest) == g.text + TextOf(rest)
  {
    hide TextOf;
    hide Escape;
    TextOfElement(Tag(g), g.text, "/" + TagName(g), rest);
    assert ElementHtml(g) + rest ==
           "<" + Tag(g) + ">" + Escape(g.text) + "<" + ("/" + TagName(g)) + ">" + rest;
  }

  lemma TextOfMarked(g: Segment, rest: string)
    requires !g.Plain?
    ensures TextOf(Tok(Opening(g)) + ElementHtml(g) + Tok(Closing(g)) + rest) == Raw(g) + TextOf(rest)
  {
    hide TextOf;
    hide Tok;
    hide ElementHtml;
    hide Opening;
    hide Closing;
    var open, element, close := Tok(Opening(g)), ElementHtml(g), Tok(Closing(g));
    TextOfTok(Closing(g), rest);
    TextOfElementHtml(g, close + rest);
    TextOfTok(Opening(g), element + (close + rest));
    assert open + element + close + rest == open + (element + (close + rest));
    assert Raw(g) + TextOf(rest) == Opening(g) + (g.text + (Closing(g) + TextOf(rest)));
  }

  lemma TextOfSegment(g: Segment, active: bool, rest: string)
    ensures TextOf(SegmentHtml(g, active) + rest) == (if active then Raw(g) else g.text) + TextOf(rest)
  {
    hide TextOf;
    hide Escape;
    hide Tok;
    hide ElementHtml;
    if g.Plain? {
      TextOfEscaped(g.text, rest);
      assert "" + g.text + "" == g.text;
    } else if active {
      TextOfMarked(g, rest);
    } else {
      TextOfElementHtml(g, rest);
    }
  }

  lemma {:induction false} TextOfSegments(segments: seq<Segment>, active: bool)
    ensures TextOf(SegmentsHtml(segments, active)) == if active then Raws(segments) else Texts(segments)
  {
    hide SegmentHtml;
    hide Raw;
    if segments != [] {
      TextOfSegments(segments[1..], active);
      TextOfSegment(segments[0], active, SegmentsHtml(segments[1..], active));
    }
  }

  lemma TextOfPrefix(b: Block, active: bool, rest: string)
    ensures TextOf(PrefixHtml(b, active) + rest) ==
            (if active then b.prefix
             else if b.kind.Item? && b.prefix != "" then "• "
             else if b.kind.Numbered? then b.prefix
             else "") + TextOf(rest)
  {
    hide TextOf;
    hide Escape;
    hide Tok;
    assert "" + rest == rest && "" + TextOf(rest) == TextOf(rest);
    if b.prefix != "" {
      if active {
        TextOfTok(b.prefix, rest);
      } else if b.kind.Item? {
        BulletIsPlain();
        BulletHtml("• ", rest);
      } else if b.kind.Numbered? {
        BulletHtml(b.prefix, rest);
      }
    }
  }

  lemma BulletIsPlain()
    ensures Escape("• ") == "• "
  {
    assert "• "[1..] == " " && " "[1..] == "";
  }

  lemma BulletHtml(s: string, rest: string)
    ensures TextOf("<span class=\"md-bullet\">" + Escape(s) + "</span>" + rest) == s + TextOf(rest)
  {
    hide TextOf;
    hide Escape;
    TextOfElement("span class=\"md-bullet\"", s, "/span", rest);
    assert "<span class=\"md-bullet\">" == "<" + "span class=\"md-bullet\"" + ">";
    assert "</span>" == "<" + "/span" + ">";
    assert "<span class=\"md-bullet\">" + Escape(s) + "</span>" + rest ==
           "<" + "span class=\"md-bullet\"" + ">" + Escape(s) + "<" + "/span" + ">" + rest;
  }

  /** Reading back the caret's line gives exactly the line, and a folded
      line shows its text without marks. */
  lemma DrawingReadsBack(text: string)
    ensures TextOf(LineHtml(text, true)) == text
    ensures TextOf(LineHtml(text, false)) == Drawn(text)
  {
    hide TextOf;
    hide LineHtml;
    hide Raws;
    hide Texts;
    hide Segments;
    hide SegmentsHtml;
    hide PrefixHtml;
    hide BlockOf;
    var b := BlockOf(text);
    var segments := Segments(text[|b.prefix|..]);
    SegmentsSpellTheLine(text[|b.prefix|..]);
    LineReads(text, b, segments, true);
    LineReads(text, b, segments, false);
    BlockFacts(text);
    assert text == b.prefix + text[|b.prefix|..];
  }

  lemma BlockFacts(text: string)
    ensures var b := BlockOf(text);
            && (b.kind.Item? || b.kind.Numbered? ==> b.prefix != "")
            && (b.kind.Item? ==> b.shown == 2 && |b.prefix| == 2)
            && (b.kind.Numbered? ==> b.shown == |b.prefix|)
            && (!b.kind.Item? && !b.kind.Numbered? ==> b.shown == 0)
            && |b.prefix| <= |text| && text[..|b.prefix|] == b.prefix
  {
  }

  lemma LineReads(text: string, b: Block, segments: seq<Segment>, active: bool)
    requires b == BlockOf(text) && segments == Segments(text[|b.prefix|..])
    ensures TextOf(LineHtml(text, active)) ==
            (if active then b.prefix
             else if b.kind.Item? && b.prefix != "" then "• "
             else if b.kind.Numbered? then b.prefix
             else "") + if active then Raws(segments) else Texts(segments)
  {
    hide TextOf;
    hide Segments;
    hide SegmentsHtml;
    hide PrefixHtml;
    hide BlockOf;
    var rest := SegmentsHtml(segments, active);
    TextOfSegments(segments, active);
    TextOfPrefix(b, active, rest);
    if PrefixHtml(b, active) + rest == "" {
      BreakReads();
    }
  }

  lemma BreakReads()
    ensures TextOf("<br>") == TextOf("")
  {
    TextOfTag("br", "");
    assert "<br>" == "<" + "br" + ">" + "";
  }

  // ---- what the browser is given ----

  /** The element each kind's text is drawn in, spelt out. */
  function Element(g: Segment): (string, string) {
    match g
    case Plain(_) => ("", "")
    case Strong(_) => ("<strong>", "</strong>")
    case Em(_, _) => ("<em>", "</em>")
    case Code(_) => ("<code class=\"md-code\">", "</code>")
    case Link(_, _) => ("<span class=\"md-link\">", "</span>")
  }

  lemma TagIs(g: Segment)
    requires !g.Plain?
    ensures "<" + Tag(g) + ">" == Element(g).0 && "</" + TagName(g) + ">" == Element(g).1
  {
    if g.Strong? {
      StrongTags();
    } else if g.Em? {
      EmTags();
    } else if g.Code? {
      CodeTags();
    } else {
      LinkTags();
    }
  }

  lemma StrongTags()
    ensures "<" + "strong" + ">" == "<strong>" && "</" + "strong" + ">" == "</strong>"
  {
  }

  lemma EmTags()
    ensures "<" + "em" + ">" == "<em>" && "</" + "em" + ">" == "</em>"
  {
  }

  lemma CodeTags()
    ensures "<" + "code class=\"md-code\"" + ">" == "<code class=\"md-code\">" && "</" + "code" + ">" == "</code>"
  {
  }

  lemma LinkTags()
    ensures "<" + "span class=\"md-link\"" + ">" == "<span class=\"md-link\">" && "</" + "span" + ">" == "</span>"
  {
  }

  /** A segment is drawn as its text in its element, with its marks around
      it where the caret is. */
  lemma SegmentIs(g: Segment, active: bool)
    ensures SegmentHtml(g, active) ==
            var (open, close) := Element(g);
            if active && !g.Plain? then Marks(Opening(g)) + (open + Escape(g.text) + close) + Marks(Closing(g))
            else open + Escape(g.text) + close
  {
    hide Escape;
    if !g.Plain? {
      TagIs(g);
      hide Tag;
      hide TagName;
      hide Element;
      hide Opening;
      hide Closing;
      ElementIs(g);
      assert Tok(Opening(g)) == Marks(Opening(g)) && Tok(Closing(g)) == Marks(Closing(g));
      hide Tok;
      hide Marks;
      hide ElementHtml;
    }
  }

  lemma ElementIs(g: Segment)
    ensures ElementHtml(g) == ("<" + Tag(g) + ">") + Escape(g.text) + ("</" + TagName(g) + ">")
  {
    hide Tag;
    hide TagName;
    hide Escape;
  }

  function Marks(s: string): string {
    "<span class=\"md-tok\">" + Escape(s) + "</span>"
  }

  /** What an unmarked line starts with in place of its prefix. */
  lemma PrefixIs(text: string)
    ensures var b := BlockOf(text);
      PrefixHtml(b, false) == (
        if b.kind.Item? then "<span class=\"md-bullet\">• </span>"
        else if b.kind.Numbered? then "<span class=\"md-bullet\">" + Escape(b.prefix) + "</span>"
        else "")
    ensures PrefixHtml(BlockOf(text), true) == if BlockOf(text).prefix == "" then "" else Marks(BlockOf(text).prefix)
  {
    hide Escape;
    assert "<span class=\"md-bullet\">" + "• " + "</span>" == "<span class=\"md-bullet\">• </span>";
  }

  /** Nothing a line says can open or close an element. */
  lemma {:induction false} EscapedHasNoTag(s: string)
    ensures '<' !in Escape(s) && '>' !in Escape(s)
  {
    if s != "" {
      EscapedHasNoTag(s[1..]);
    }
  }

  /** A line with nothing to draw is a break, so that it has a height. */
  lemma NothingIsABreak(text: string, active: bool)
    ensures LineHtml(text, active) != ""
    ensures LineHtml("", active) == "<br>"
  {
    assert BlockOf("").prefix == "" && Segments("") == [];
    hide BlockOf;
    hide Segments;
    assert "" + "" == "";
  }
}
