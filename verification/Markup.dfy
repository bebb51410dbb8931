/** The markup of one editor line: its block prefix, its inline segments,
    how it is drawn, and where a place in the drawing lies in the source. */
module Markup {
  import opened Decimals
  import opened Wrappers

  // ---- the block ----

  datatype Kind = H1 | H2 | H3 | Item | Numbered | Quote | Prose

  /** `shown`: how many characters of the prefix a folded line draws. */
  datatype Block = Block(kind: Kind, prefix: string, shown: nat)

  /** How many of a text's first characters are `#`. */
  function Hashes(text: string): (n: nat)
    ensures n <= |text|
  {
    if text != [] && text[0] == '#' then 1 + Hashes(text[1..]) else 0
  }

  function Digits(text: string): (n: nat)
    ensures n <= |text| && forall k | 0 <= k < n :: IsDigit(text[k])
  {
    if text != [] && IsDigit(text[0]) then 1 + Digits(text[1..]) else 0
  }

  function BlockOf(text: string): (b: Block)
    ensures b.prefix <= text
  {
    var h, d := Hashes(text), Digits(text);
    if 1 <= h <= 3 && h < |text| && text[h] == ' ' then
      Block(if h == 1 then H1 else if h == 2 then H2 else H3, text[..h + 1], 0)
    else if "- " <= text || "* " <= text then Block(Item, text[..2], 2)
    else if d >= 1 && ". " <= text[d..] then Block(Numbered, text[..d + 2], d + 2)
    else if "> " <= text then Block(Quote, text[..2], 0)
    else Block(Prose, "", 0)
  }

  // ---- the inline segments ----

  datatype Segment =
    | Plain(text: string)
    | Strong(text: string)
    | Em(text: string, mark: char)
    | Code(text: string)
    | Link(text: string, url: string)

  /** What stands in the source before the segment's text. */
  function Opening(g: Segment): string {
    match g
    case Plain(_) => ""
    case Strong(_) => "**"
    case Em(_, mark) => [mark]
    case Code(_) => "`"
    case Link(_, _) => "["
  }

  function Closing(g: Segment): string {
    match g
    case Plain(_) => ""
    case Strong(_) => "**"
    case Em(_, mark) => [mark]
    case Code(_) => "`"
    case Link(_, url) => "](" + url + ")"
  }

  function Raw(g: Segment): string {
    Opening(g) + g.text + Closing(g)
  }

  predicate IsSpace(c: char) {
    || c == ' ' || '\t' <= c <= '\r' || c == '\U{A0}' || c == '\U{FEFF}' || c == '\U{1680}'
    || '\U{2000}' <= c <= '\U{200A}' || c == '\U{2028}' || c == '\U{2029}' || c == '\U{202F}' || c == '\U{205F}'
    || c == '\U{3000}'
  }

  /** How many of a text's first characters are neither `stop` nor a
      newline. */
  function Run(text: string, stop: char): (n: nat)
    ensures n <= |text|
  {
    if text != [] && text[0] != stop && text[0] != '\n' then 1 + Run(text[1..], stop) else 0
  }

  /** The same for the address of a link, which ends at a space too. */
  function UrlRun(text: string): (n: nat)
    ensures n <= |text|
  {
    if text != [] && text[0] != ')' && !IsSpace(text[0]) then 1 + UrlRun(text[1..]) else 0
  }

  /** Whether a mark, `width` times `c`, stands at `i`. */
  predicate Has(text: string, i: nat, c: char, width: nat)
    requires 1 <= width <= 2
  {
    i + width <= |text| && text[i] == c && text[i + width - 1] == c
  }

  /** The length of the text between two marks at the front of `text`; none
      is zero, for between marks there must be something. */
  function Marked(text: string, c: char, width: nat): (n: nat)
    requires 1 <= width <= 2
    ensures n > 0 ==> n + 2 * width <= |text|
  {
    if Has(text, 0, c, width) then
      var n := Run(text[width..], c);
      if Has(text, width + n, c, width) then n else 0
    else 0
  }

  /** The lengths of a link's text and address. */
  function LinkAt(text: string): (lengths: Option<(nat, nat)>)
    ensures lengths.Some? ==> lengths.value.0 + lengths.value.1 + 4 <= |text|
  {
    if Has(text, 0, '[', 1) then
      var n := Run(text[1..], ']');
      if Has(text, n + 1, ']', 1) && Has(text, n + 2, '(', 1) then
        var m := UrlRun(text[n + 3..]);
        if Has(text, n + m + 3, ')', 1) then Some((n, m)) else None
      else None
    else None
  }

  /** How long a segment is in the source. */
  function Length(g: Segment): nat {
    match g
    case Plain(text) => |text|
    case Strong(text) => |text| + 4
    case Em(text, _) => |text| + 2
    case Code(text) => |text| + 2
    case Link(text, url) => |text| + |url| + 4
  }

  /** The segment a text starts with, the kinds tried in order. */
  function MatchAt(text: string): (g: Option<Segment>)
    ensures g.Some? ==> !g.value.Plain? && 0 < Length(g.value) <= |text|
  {
    var strong, star := Marked(text, '*', 2), Marked(text, '*', 1);
    var under, code := Marked(text, '_', 1), Marked(text, '`', 1);
    if strong > 0 then Some(Strong(text[2..strong + 2]))
    else if star > 0 then Some(Em(text[1..star + 1], '*'))
    else if under > 0 then Some(Em(text[1..under + 1], '_'))
    else if code > 0 then Some(Code(text[1..code + 1]))
    else
      var link := LinkAt(text);
      if link.None? then None
      else Some(Link(text[1..link.value.0 + 1], text[link.value.0 + 3..link.value.0 + link.value.1 + 3]))
  }

  /** How far the first match from here is; the text's length if none. */
  function Skipped(text: string): (n: nat)
    ensures n <= |text|
    ensures n < |text| ==> MatchAt(text[n..]).Some?
  {
    if text == [] || MatchAt(text).Some? then 0 else 1 + Skipped(text[1..])
  }

  function PlainIfAny(text: string): seq<Segment> {
    if text == [] then [] else [Plain(text)]
  }

  function Segments(text: string): seq<Segment>
    decreases |text|
  {
    var n := Skipped(text);
    if n == |text| then PlainIfAny(text)
    else
      var g := MatchAt(text[n..]).value;
      PlainIfAny(text[..n]) + [g] + Segments(text[n + Length(g)..])
  }

  lemma SegmentsFrom(text: string, last: nat, index: nat, g: Segment)
    requires last <= index < |text| && index == last + Skipped(text[last..])
    requires MatchAt(text[index..]) == Some(g) && index + Length(g) <= |text|
    ensures Segments(text[last..]) == PlainIfAny(text[last..index]) + [g] + Segments(text[index + Length(g)..])
  {
    hide MatchAt;
    hide Skipped;
    hide Length;
    var rest, n := text[last..], Skipped(text[last..]);
    assert rest[n..] == text[index..] && rest[..n] == text[last..index];
    assert rest[n + Length(g)..] == text[index + Length(g)..];
  }

  method SegmentsOf(text: string) returns (out: seq<Segment>)
    ensures out == Segments(text)
  {
    hide Segments;
    hide Skipped;
    hide MatchAt;
    hide Length;
    out := [];
    var last := 0;
    var n := Skipped(text);
    assert text[0..] == text;
    while last + n < |text|
      invariant 0 <= last <= |text| && n == Skipped(text[last..])
      invariant Segments(text) == out + Segments(text[last..])
      decreases |text| - last
    {
      var index := last + n;
      assert text[last..][n..] == text[index..];
      var g := MatchAt(text[index..]).value;
      SegmentsFrom(text, last, index, g);
      if index > last {
        out := out + [Plain(text[last..index])];
      }
      out := out + [g];
      last := index + Length(g);
      n := Skipped(text[last..]);
    }
    SegmentsOfPlain(text[last..]);
    if last < |text| {
      out := out + [Plain(text[last..])];
    }
  }

  lemma SegmentsOfPlain(text: string)
    requires Skipped(text) == |text|
    ensures Segments(text) == PlainIfAny(text)
  {
  }

  // ---- drawing ----

  function Raws(segments: seq<Segment>): string {
    if segments == [] then "" else Raw(segments[0]) + Raws(segments[1..])
  }

  function Texts(segments: seq<Segment>): string {
    if segments == [] then "" else segments[0].text + Texts(segments[1..])
  }

  function EscapeOne(c: char): string {
    if c == '&' then "&amp;" else if c == '<' then "&lt;" else if c == '>' then "&gt;" else [c]
  }

  function Escape(s: string): string {
    if s == [] then "" else EscapeOne(s[0]) + Escape(s[1..])
  }

  function Tok(s: string): string {
    "<span class=\"md-tok\">" + Escape(s) + "</span>"
  }

  /** The element's name, and its name with its class. */
  function TagName(g: Segment): string {
    match g
    case Plain(_) => ""
    case Strong(_) => "strong"
    case Em(_, _) => "em"
    case Code(_) => "code"
    case Link(_, _) => "span"
  }

  function Tag(g: Segment): string {
    match g
    case Code(_) => "code class=\"md-code\""
    case Link(_, _) => "span class=\"md-link\""
    case _ => TagName(g)
  }

  function ElementHtml(g: Segment): string {
    "<" + Tag(g) + ">" + Escape(g.text) + "</" + TagName(g) + ">"
  }

  function SegmentHtml(g: Segment, active: bool): string {
    if g.Plain? then Escape(g.text)
    else if active then Tok(Opening(g)) + ElementHtml(g) + Tok(Closing(g))
    else ElementHtml(g)
  }

  function SegmentsHtml(segments: seq<Segment>, active: bool): string {
    if segments == [] then "" else SegmentHtml(segments[0], active) + SegmentsHtml(segments[1..], active)
  }

  function PrefixHtml(b: Block, active: bool): string {
    if b.prefix == "" then ""
    else if active then Tok(b.prefix)
    else if b.kind.Item? then "<span class=\"md-bullet\">" + "• " + "</span>"
    else if b.kind.Numbered? then "<span class=\"md-bullet\">" + Escape(b.prefix) + "</span>"
    else ""
  }

  function LineHtml(text: string, active: bool): string {
    var b := BlockOf(text);
    var html := PrefixHtml(b, active) + SegmentsHtml(Segments(text[|b.prefix|..]), active);
    if html == "" then "<br>" else html
  }

  method DrawLine(text: string, active: bool) returns (html: string)
    ensures html == LineHtml(text, active)
  {
    var b := BlockOf(text);
    html := DrawPrefix(b, active);
    hide PrefixHtml;
    hide SegmentsHtml;
    var segments := SegmentsOf(text[|b.prefix|..]);
    html := DrawSegments(html, segments, active);
    if html == "" {
      html := "<br>";
    }
  }

  method DrawPrefix(b: Block, active: bool) returns (html: string)
    ensures html == PrefixHtml(b, active)
  {
    html := "";
    if b.prefix != "" {
      if active {
        html := html + Tok(b.prefix);
      } else if b.kind.Item? {
        html := html + "<span class=\"md-bullet\">" + "• " + "</span>";
      } else if b.kind.Numbered? {
        html := html + "<span class=\"md-bullet\">" + Escape(b.prefix) + "</span>";
      }
    }
  }

  method DrawSegments(start: string, segments: seq<Segment>, active: bool) returns (html: string)
    ensures html == start + SegmentsHtml(segments, active)
  {
    hide SegmentHtml;
    html := start;
    var i := 0;
    while i < |segments|
      invariant 0 <= i <= |segments|
      invariant html + SegmentsHtml(segments[i..], active) == start + SegmentsHtml(segments, active)
    {
      var next := SegmentHtml(segments[i], active);
      assert segments[i..][1..] == segments[i + 1..];
      assert html + (next + SegmentsHtml(segments[i + 1..], active)) ==
             html + next + SegmentsHtml(segments[i + 1..], active);
      html := html + next;
      i := i + 1;
    }
    assert html + "" == html;
  }

  /** What a folded line shows. */
  function Drawn(text: string): string {
    var b := BlockOf(text);
    (if b.kind.Item? then "• " else if b.kind.Numbered? then b.prefix else "") + Texts(Segments(text[|b.prefix|..]))
  }
}
