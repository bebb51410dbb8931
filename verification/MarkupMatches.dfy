/** What is read as markup: which block a line is, which segment stands
    where, and which of two that stand there goes first. */
module MarkupMatches {
  import opened Decimals
  import opened Markup
  import opened MarkupReads
  import opened Wrappers

  /** The characters that end a link's address, beside `)`. */
  const SPACES: string :=
    "\t\n\U{B}\U{C}\r \U{A0}\U{1680}\U{2000}\U{2001}\U{2002}\U{2003}\U{2004}\U{2005}\U{2006}\U{2007}\U{2008}" +
    "\U{2009}\U{200A}\U{2028}\U{2029}\U{202F}\U{205F}\U{3000}\U{FEFF}"

  /** Something, within a line, that `stop` does not occur in. */
  predicate Inner(text: string, stop: char) {
    text != "" && stop !in text && '\n' !in text
  }

  /** Whether a text starts with this segment, marks and all. */
  predicate Stands(g: Segment, text: string) {
    match g
    case Plain(_) => false
    case Strong(inner) => "**" + inner + "**" <= text && Inner(inner, '*')
    case Em(inner, mark) =>
      (mark == '*' || mark == '_') && [mark] + inner + [mark] <= text && Inner(inner, mark)
    case Code(inner) => "`" + inner + "`" <= text && Inner(inner, '`')
    case Link(inner, url) =>
      && "[" + inner + "](" + url + ")" <= text
      && ']' !in inner && '\n' !in inner
      && ')' !in url && forall k | 0 <= k < |url| :: url[k] !in SPACES
  }

  /** The order in which the kinds are tried. */
  function Rank(g: Segment): nat {
    match g
    case Strong(_) => 0
    case Em(_, mark) => if mark == '*' then 1 else 2
    case Code(_) => 3
    case Link(_, _) => 4
    case Plain(_) => 5
  }

  ghost predicate NoneStands(text: string) {
    forall g :: !Stands(g, text)
  }

  /** It stands there, and none that is tried before it does. */
  ghost predicate First(g: Segment, text: string) {
    Stands(g, text) && forall h | Stands(h, text) :: Rank(g) <= Rank(h)
  }

  // ---- runs of characters ----

  lemma {:induction false} RunStops(text: string, stop: char)
    ensures var n := Run(text, stop);
            && stop !in text[..n] && '\n' !in text[..n]
            && (n < |text| ==> text[n] == stop || text[n] == '\n')
  {
    if text != "" && text[0] != stop && text[0] != '\n' {
      RunStops(text[1..], stop);
      var n := Run(text[1..], stop);
      assert text[..n + 1] == [text[0]] + text[1..][..n];
    }
  }

  lemma {:induction false} RunIs(text: string, stop: char, n: nat)
    requires n < |text| && text[n] == stop && stop !in text[..n] && '\n' !in text[..n]
    ensures Run(text, stop) == n
  {
    if n > 0 {
      assert text[..n] == [text[0]] + text[1..][..n - 1];
      RunIs(text[1..], stop, n - 1);
    }
  }


  lemma SpacesAreListed(c: char)
    ensures IsSpace(c) <==> c in SPACES
  {
  }

  lemma {:induction false} UrlRunStops(text: string)
    ensures var n := UrlRun(text);
            && (forall c | c in text[..n] :: c != ')' && !IsSpace(c))
            && (n < |text| ==> text[n] == ')' || IsSpace(text[n]))
  {
    if text != "" && text[0] != ')' && !IsSpace(text[0]) {
      UrlRunStops(text[1..]);
      var n := UrlRun(text[1..]);
      assert text[..n + 1] == [text[0]] + text[1..][..n];
    }
  }

  lemma {:induction false} UrlRunIs(text: string, n: nat)
    requires n < |text| && text[n] == ')' && forall k | 0 <= k < n :: text[k] != ')' && !IsSpace(text[k])
    ensures UrlRun(text) == n
  {
    hide IsSpace;
    if n > 0 {
      UrlRunIs(text[1..], n - 1);
    }
  }

  // ---- what stands there ----

  /** `width` times a mark. */
  function Mark(c: char, width: nat): (mark: string)
    requires 1 <= width <= 2
    ensures |mark| == width
  {
    if width == 1 then [c] else [c, c]
  }

  lemma MarkedIff(text: string, c: char, width: nat, inner: string)
    requires 1 <= width <= 2 && c != '\n'
    ensures Mark(c, width) + inner + Mark(c, width) <= text && Inner(inner, c)
      <==> Marked(text, c, width) > 0 && inner == text[width..width + Marked(text, c, width)]
  {
    var mark := Mark(c, width);
    if mark + inner + mark <= text && Inner(inner, c) {
      InnerIsMarked(text, c, width, inner);
    }
    if Marked(text, c, width) > 0 {
      MarkedIsInner(text, c, width);
    }
  }

  lemma InnerIsMarked(text: string, c: char, width: nat, inner: string)
    requires 1 <= width <= 2 && Mark(c, width) + inner + Mark(c, width) <= text && Inner(inner, c)
    ensures Marked(text, c, width) == |inner| && inner == text[width..width + |inner|]
  {
    var mark, n := Mark(c, width), |inner|;
    var whole := mark + inner + mark;
    assert forall k | 0 <= k < |whole| :: text[k] == whole[k];
    assert text[width..][..n] == inner && text[width..][n] == c;
    RunIs(text[width..], c, n);
  }

  lemma MarkedIsInner(text: string, c: char, width: nat)
    requires 1 <= width <= 2 && Marked(text, c, width) > 0
    ensures var inner := text[width..width + Marked(text, c, width)];
      Mark(c, width) + inner + Mark(c, width) <= text && Inner(inner, c)
  {
    var n := Marked(text, c, width);
    RunStops(text[width..], c);
    assert text[width..][..n] == text[width..width + n];
    hide Run;
    assert text[..width] == Mark(c, width) && text[width + n..2 * width + n] == Mark(c, width);
    assert text[..2 * width + n] == text[..width] + text[width..width + n] + text[width + n..2 * width + n];
  }

  predicate LinkStands(text: string, inner: string, url: string) {
    && "[" + inner + "](" + url + ")" <= text
    && ']' !in inner && '\n' !in inner
    && ')' !in url && forall k | 0 <= k < |url| :: url[k] !in SPACES
  }

  lemma StandingLinkIsRead(text: string, inner: string, url: string)
    requires LinkStands(text, inner, url)
    ensures LinkAt(text) == Some((|inner|, |url|))
    ensures inner == text[1..|inner| + 1] && url == text[|inner| + 3..|inner| + |url| + 3]
  {
    var n, m := |inner|, |url|;
    var whole := "[" + inner + "](" + url + ")";
    assert forall k | 0 <= k < |whole| :: text[k] == whole[k];
    assert text[1..][..n] == inner && text[1..][n] == ']';
    assert text[n + 3..][..m] == url && text[n + 3..][m] == ')';
    forall k | 0 <= k < m
      ensures url[k] != ')' && !IsSpace(url[k])
    {
      assert url[k] in url;
      SpacesAreListed(url[k]);
    }
    assert forall k | 0 <= k < m :: text[n + 3..][k] == url[k];
    RunIs(text[1..], ']', n);
    UrlRunIs(text[n + 3..], m);
    hide Run;
    hide UrlRun;
    hide IsSpace;
  }

  lemma ReadLinkStands(text: string)
    requires LinkAt(text).Some?
    ensures var (n, m) := LinkAt(text).value; LinkStands(text, text[1..n + 1], text[n + 3..n + m + 3])
  {
    var (n, m) := LinkAt(text).value;
    var inner, url := text[1..n + 1], text[n + 3..n + m + 3];
    RunStops(text[1..], ']');
    assert text[1..][..n] == inner;
    AddressIsRead(text[n + 3..]);
    assert text[n + 3..][..m] == url;
    hide Run;
    hide UrlRun;
    assert "[" + inner + "](" + url + ")" == text[..n + m + 4];
  }

  lemma AddressIsRead(text: string)
    ensures var url := text[..UrlRun(text)]; ')' !in url && forall k | 0 <= k < |url| :: url[k] !in SPACES
  {
    UrlRunStops(text);
    var url := text[..UrlRun(text)];
    forall k | 0 <= k < |url|
      ensures url[k] !in SPACES
    {
      assert url[k] in url;
      SpacesAreListed(url[k]);
    }
  }

  /** What stands there, in terms of what is looked for. */
  predicate Found(g: Segment, text: string) {
    match g
    case Plain(_) => false
    case Strong(inner) => Marked(text, '*', 2) > 0 && inner == text[2..2 + Marked(text, '*', 2)]
    case Em(inner, mark) =>
      (mark == '*' || mark == '_') && Marked(text, mark, 1) > 0 && inner == text[1..1 + Marked(text, mark, 1)]
    case Code(inner) => Marked(text, '`', 1) > 0 && inner == text[1..1 + Marked(text, '`', 1)]
    case Link(inner, url) =>
      && LinkAt(text).Some?
      && var (n, m) := LinkAt(text).value;
         inner == text[1..n + 1] && url == text[n + 3..n + m + 3]
  }

  lemma StandsIff(g: Segment, text: string)
    ensures Stands(g, text) <==> Found(g, text)
  {
    hide Marked;
    hide LinkAt;
    hide Inner;
    if g.Strong? {
      MarkedIff(text, '*', 2, g.text);
    } else if g.Em? && (g.mark == '*' || g.mark == '_') {
      MarkedIff(text, g.mark, 1, g.text);
    } else if g.Code? {
      MarkedIff(text, '`', 1, g.text);
    } else if g.Link? {
      assert Stands(g, text) <==> LinkStands(text, g.text, g.url);
      if LinkStands(text, g.text, g.url) {
        StandingLinkIsRead(text, g.text, g.url);
      }
      if LinkAt(text).Some? {
        ReadLinkStands(text);
      }
    }
  }

  /** What is matched at the front of a text is what stands there and is
      tried first. */
  lemma MatchIff(text: string, g: Segment)
    ensures MatchAt(text) == Some(g) <==> First(g, text)
  {
    hide Marked;
    hide LinkAt;
    hide Stands;
    forall h
      ensures Stands(h, text) <==> Found(h, text)
    {
      StandsIff(h, text);
    }
    if MatchAt(text).Some? {
      assert Found(MatchAt(text).value, text);
    }
    if First(g, text) {
      assert Found(g, text);
      assert MatchAt(text).Some?;
      assert Rank(g) <= Rank(MatchAt(text).value);
    }
  }

  lemma NoMatchIff(text: string)
    ensures MatchAt(text).None? <==> NoneStands(text)
  {
    hide MatchAt;
    hide Stands;
    if MatchAt(text).Some? {
      MatchIff(text, MatchAt(text).value);
      assert Stands(MatchAt(text).value, text);
    } else if g :| Stands(g, text) {
      SomethingStands(text, g);
    }
  }

  lemma SomethingStands(text: string, g: Segment)
    requires Stands(g, text)
    ensures MatchAt(text).Some?
  {
    hide Marked;
    hide LinkAt;
    StandsIff(g, text);
    hide Stands;
  }

  // ---- the segments of a line ----

  /** These segments read the text from the left: plain text, something in
      which no markup starts, alternates with what stands first where it
      stands. */
  ghost predicate Reads(text: string, segments: seq<Segment>)
    decreases |segments|
  {
    if segments == [] then text == ""
    else
      var g, rest := segments[0], segments[1..];
      && Raw(g) <= text && Reads(text[|Raw(g)|..], rest)
      && if g.Plain? then
           && g.text != "" && (rest != [] ==> !rest[0].Plain?)
           && forall i | 0 <= i < |g.text| :: NoneStands(text[i..])
         else First(g, text)
  }

  lemma {:induction false} SkipsToFirst(text: string)
    ensures var n := Skipped(text);
            (forall i | 0 <= i < n :: NoneStands(text[i..])) && (n < |text| ==> !NoneStands(text[n..]))
    decreases |text|
  {
    hide MatchAt;
    hide NoneStands;
    NoMatchIff(text);
    assert text[0..] == text;
    if text != "" && MatchAt(text).None? {
      SkipsToFirst(text[1..]);
      forall i | 0 <= i < Skipped(text)
        ensures NoneStands(text[i..])
      {
        assert i > 0 ==> text[i..] == text[1..][i - 1..];
      }
      assert text[Skipped(text)..] == text[1..][Skipped(text[1..])..];
    }
  }

  /** Plain text up to where markup starts, and then what reads the rest. */
  lemma ReadsPlainFirst(text: string, n: nat, segments: seq<Segment>)
    requires n <= |text| && Reads(text[n..], segments)
    requires forall i | 0 <= i < n :: NoneStands(text[i..])
    requires segments != [] ==> !segments[0].Plain?
    ensures Reads(text, PlainIfAny(text[..n]) + segments)
  {
    hide NoneStands;
    hide First;
    if n == 0 {
      assert text[0..] == text && PlainIfAny(text[..n]) + segments == segments;
    } else {
      var all := [Plain(text[..n])] + segments;
      assert all[1..] == segments && Raw(all[0]) == text[..n];
    }
  }

  lemma {:induction false} SegmentsRead(text: string)
    ensures Reads(text, Segments(text))
    decreases |text|
  {
    hide MatchAt;
    hide Skipped;
    hide NoneStands;
    hide Raw;
    hide Length;
    hide Reads;
    var n := Skipped(text);
    SkipsToFirst(text);
    if n == |text| {
      ReadsNothing();
      assert text[n..] == "" && text[..n] == text && PlainIfAny(text) + [] == PlainIfAny(text);
      ReadsPlainFirst(text, n, []);
    } else {
      var g := MatchAt(text[n..]).value;
      var rest := text[n + Length(g)..];
      assert text[n..][Length(g)..] == rest;
      SegmentsRead(rest);
      ReadsMatch(text[n..], g, Segments(rest));
      assert ([g] + Segments(rest))[0] == g;
      ReadsPlainFirst(text, n, [g] + Segments(rest));
      assert PlainIfAny(text[..n]) + [g] + Segments(rest) == PlainIfAny(text[..n]) + ([g] + Segments(rest));
    }
  }

  lemma ReadsNothing()
    ensures Reads("", [])
  {
  }

  lemma ReadsMatch(text: string, g: Segment, rest: seq<Segment>)
    requires MatchAt(text) == Some(g) && Length(g) <= |text| && Reads(text[Length(g)..], rest)
    ensures Reads(text, [g] + rest) && !g.Plain?
  {
    MatchIff(text, g);
    MatchIsThere(text);
    hide MatchAt;
    hide Raw;
    hide Length;
    hide Stands;
    var all := [g] + rest;
    assert all[1..] == rest && text[..|Raw(g)|] == Raw(g);
  }

  lemma FirstIsOne(text: string, g: Segment, h: Segment)
    requires First(g, text) && First(h, text)
    ensures g == h
  {
    hide First;
    MatchIff(text, g);
    MatchIff(text, h);
  }

  lemma RawIsSomething(text: string, g: Segment)
    ensures (if g.Plain? then g.text != "" else Stands(g, text)) ==> |Raw(g)| > 0
  {
  }

  lemma NothingIsRead(text: string, segments: seq<Segment>)
    requires Reads(text, segments) && text == ""
    ensures segments == []
  {
    if segments != [] {
      assert |Raw(segments[0])| == 0;
      RawIsSomething(text, segments[0]);
    }
  }

  /** Plain text is read as far as no markup starts. */
  lemma PlainStops(text: string, a: seq<Segment>)
    requires Reads(text, a) && a != [] && a[0].Plain?
    ensures var n := |a[0].text|;
      && 0 < n <= |text| && text[..n] == a[0].text
      && (forall i | 0 <= i < n :: NoneStands(text[i..]))
      && (n < |text| ==> !NoneStands(text[n..]))
  {
    hide Stands;
    var n := |a[0].text|;
    assert Raw(a[0]) == a[0].text && Reads(text[n..], a[1..]);
    if n < |text| {
      assert a[1..] != [] && First(a[1], text[n..]);
    }
  }

  /** There is one way to read a text. */
  lemma {:induction false} ReadsOnce(text: string, a: seq<Segment>, b: seq<Segment>)
    requires Reads(text, a) && Reads(text, b)
    ensures a == b
    decreases |a|
  {
    hide First;
    hide NoneStands;
    hide Raw;
    if a == [] {
      NothingIsRead(text, b);
    } else if b == [] {
      NothingIsRead(text, a);
    } else {
      FirstIsSame(text, a, b);
      ReadsOnce(text[|Raw(a[0])|..], a[1..], b[1..]);
      assert a == [a[0]] + a[1..] && b == [b[0]] + b[1..];
    }
  }

  lemma FirstIsSame(text: string, a: seq<Segment>, b: seq<Segment>)
    requires Reads(text, a) && Reads(text, b) && a != [] && b != []
    ensures a[0] == b[0]
  {
    hide First;
    hide NoneStands;
    assert text[0..] == text;
    if a[0].Plain? {
      PlainStops(text, a);
      if b[0].Plain? {
        PlainStops(text, b);
      } else {
        FirstStands(text, b[0]);
      }
    } else if b[0].Plain? {
      PlainStops(text, b);
      FirstStands(text, a[0]);
    } else {
      FirstIsOne(text, a[0], b[0]);
    }
  }

  lemma FirstStands(text: string, g: Segment)
    requires First(g, text)
    ensures !NoneStands(text)
  {
    hide Stands;
  }

  /** The segments of a line are the one way to read it: leftmost markup
      first, and of two kinds that stand at one place the one tried first. */
  lemma SegmentsIff(text: string, segments: seq<Segment>)
    ensures segments == Segments(text) <==> Reads(text, segments)
  {
    hide Segments;
    hide Reads;
    SegmentsRead(text);
    if Reads(text, segments) {
      ReadsOnce(text, segments, Segments(text));
    }
  }

  // ---- the block of a line ----

  /** Whether a line starts with this block's prefix. */
  predicate BlockStands(b: Block, text: string) {
    b.prefix <= text &&
    match b.kind
    case H1 => b.prefix == "# " && b.shown == 0
    case H2 => b.prefix == "## " && b.shown == 0
    case H3 => b.prefix == "### " && b.shown == 0
    case Item => (b.prefix == "- " || b.prefix == "* ") && b.shown == 2
    case Numbered => IsNumber(b.prefix) && b.shown == |b.prefix|
    case Quote => b.prefix == "> " && b.shown == 0
    case Prose => false
  }

  /** Digits, a full stop and a space. */
  predicate IsNumber(prefix: string) {
    && |prefix| >= 3 && prefix[|prefix| - 2..] == ". "
    && forall k | 0 <= k < |prefix| - 2 :: prefix[k] in "0123456789"
  }

  lemma {:induction false} DigitsAre(text: string, n: nat)
    requires n < |text| && !IsDigit(text[n]) && forall k | 0 <= k < n :: IsDigit(text[k])
    ensures Digits(text) == n
  {
    if n > 0 {
      DigitsAre(text[1..], n - 1);
    }
  }

  lemma DigitIsListed(c: char)
    ensures IsDigit(c) <==> c in "0123456789"
  {
  }

  lemma NumberIff(text: string, prefix: string)
    ensures IsNumber(prefix) && prefix <= text
      <==> var d := Digits(text); d >= 1 && ". " <= text[d..] && prefix == text[..d + 2]
  {
    forall c
      ensures IsDigit(c) <==> c in "0123456789"
    {
      DigitIsListed(c);
    }
    if IsNumber(prefix) && prefix <= text {
      var d := |prefix| - 2;
      assert prefix == prefix[..d] + prefix[d..] && text[d] == prefix[d] == '.' && text[d + 1] == prefix[d + 1] == ' ';
      assert forall k | 0 <= k < d :: text[k] == prefix[k];
      DigitsAre(text, d);
      assert text[..d + 2] == prefix;
    }
    var d := Digits(text);
    if d >= 1 && ". " <= text[d..] && prefix == text[..d + 2] {
      assert prefix[d..] == ". ";
    }
  }

  /** A line's block is the one whose prefix it starts with, and prose when
      it starts with none. */
  lemma BlockIff(text: string, b: Block)
    ensures BlockOf(text) == b
      <==> if exists c :: BlockStands(c, text) then BlockStands(b, text) else b == Block(Prose, "", 0)
  {
    hide BlockOf;
    hide BlockStands;
    BlockOfStands(text);
    forall c: Block | BlockStands(c, text)
      ensures c == BlockOf(text)
    {
      OneBlockStands(text, c);
    }
    ProseStandsNowhere(text);
  }

  lemma ProseStandsNowhere(text: string)
    ensures !BlockStands(Block(Prose, "", 0), text)
  {
  }

  lemma BlockOfStands(text: string)
    ensures BlockOf(text) == Block(Prose, "", 0) || BlockStands(BlockOf(text), text)
  {
    hide IsNumber;
    var b, h := BlockOf(text), Hashes(text);
    if b.kind.H1? || b.kind.H2? || b.kind.H3? {
      HashesAre(text, h);
    } else if b.kind.Numbered? {
      NumberIff(text, b.prefix);
    }
  }

  lemma {:induction false} HashesAre(text: string, h: nat)
    requires h <= |text|
    ensures Hashes(text) >= h <==> forall k | 0 <= k < h :: text[k] == '#'
    ensures Hashes(text) == h && h < |text| ==> text[h] != '#'
    decreases h
  {
    if h > 0 {
      HashesAre(text[1..], h - 1);
    }
  }

  lemma OneBlockStands(text: string, b: Block)
    requires BlockStands(b, text)
    ensures BlockOf(text) == b
  {
    if b.kind.Numbered? {
      NumberIff(text, b.prefix);
      DigitIsListed(text[0]);
      assert text[0] == b.prefix[0] && b.prefix[0] in "0123456789";
      assert IsDigit(text[0]);
      hide IsNumber;
    } else if b.kind.H1? || b.kind.H2? || b.kind.H3? {
      var h := |b.prefix| - 1;
      HashesAre(text, h);
      HashesAre(text, h + 1);
      assert text[..h + 1] == b.prefix;
      assert (forall k | 0 <= k < h :: text[k] == b.prefix[k] == '#') && text[h] == b.prefix[h] == ' ';
      assert Hashes(text) == h;
      hide Hashes;
    } else {
      assert text[..|b.prefix|] == b.prefix;
    }
  }
}
