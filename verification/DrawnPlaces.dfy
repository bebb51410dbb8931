/** Where a place in a folded line's drawing lies in its source. */
module DrawnPlaces {
  import opened Markup
  import opened MarkupReads

  /** A place in the segments' text as a place in their sources; past the
      text, `end`. */
  function From(segments: seq<Segment>, shown: nat, raw: nat, end: nat): nat {
    if segments == [] then end
    else if shown <= |segments[0].text| then raw + |Opening(segments[0])| + shown
    else From(segments[1..], shown - |segments[0].text|, raw + |Raw(segments[0])|, end)
  }

  function ShownToRaw(text: string, shown: nat): nat {
    var b := BlockOf(text);
    if b.shown > 0 && shown <= b.shown then |b.prefix|
    else From(Segments(text[|b.prefix|..]), shown - b.shown, |b.prefix|, |text|)
  }

  method MapShown(text: string, shown: nat) returns (at: nat)
    ensures at == ShownToRaw(text, shown)
  {
    var b := BlockOf(text);
    if b.shown > 0 && shown <= b.shown {
      return |b.prefix|;
    }
    hide Segments;
    hide BlockOf;
    var segments := SegmentsOf(text[|b.prefix|..]);
    at := MapInto(segments, shown, b.shown, |b.prefix|, |text|);
  }

  /** The walk over the segments, `seen` characters in, `start` in the
      source. */
  method MapInto(segments: seq<Segment>, shown: nat, before: nat, start: nat, end: nat) returns (at: nat)
    requires before <= shown
    ensures at == From(segments, shown - before, start, end)
  {
    hide Raw;
    hide Opening;
    var raw: nat, seen: nat := start, before;
    var i := 0;
    while i < |segments|
      invariant 0 <= i <= |segments| && seen <= shown
      invariant From(segments, shown - before, start, end) == From(segments[i..], shown - seen, raw, end)
    {
      var g := segments[i];
      assert segments[i..][0] == g && segments[i..][1..] == segments[i + 1..];
      if shown <= seen + |g.text| {
        return raw + |Opening(g)| + (shown - seen);
      }
      seen := seen + |g.text|;
      raw := raw + |Raw(g)|;
      i := i + 1;
    }
    return end;
  }

  /** Past the start of the text, a place in the segments' text lies in
      their sources, just after the same character. */
  lemma {:induction false} FromLands(segments: seq<Segment>, shown: nat, raw: nat, end: nat)
    requires 0 < shown <= |Texts(segments)|
    ensures raw < From(segments, shown, raw, end) <= raw + |Raws(segments)|
    ensures Raws(segments)[From(segments, shown, raw, end) - raw - 1] == Texts(segments)[shown - 1]
    decreases |segments|
  {
    hide Opening;
    hide Closing;
    var g := segments[0];
    if shown <= |g.text| {
      assert Raw(g)[|Opening(g)| + shown - 1] == g.text[shown - 1];
    } else {
      hide Raw;
      FromLands(segments[1..], shown - |g.text|, raw + |Raw(g)|, end);
    }
  }

  lemma {:induction false} FromGrows(segments: seq<Segment>, s: nat, t: nat, raw: nat, end: nat)
    requires 0 < s < t <= |Texts(segments)|
    ensures From(segments, s, raw, end) < From(segments, t, raw, end)
    decreases |segments|
  {
    hide Opening;
    hide Closing;
    var g := segments[0];
    if s > |g.text| {
      FromGrows(segments[1..], s - |g.text|, t - |g.text|, raw + |Raw(g)|, end);
    } else if t > |g.text| {
      FromLands(segments[1..], t - |g.text|, raw + |Raw(g)|, end);
    }
  }

  lemma {:induction false} FromNeverGoesBack(segments: seq<Segment>, s: nat, t: nat, raw: nat, end: nat)
    requires s <= t && end == raw + |Raws(segments)|
    ensures raw <= From(segments, s, raw, end) <= From(segments, t, raw, end) <= end
    decreases |segments|
  {
    hide Opening;
    hide Closing;
    if segments != [] {
      var g := segments[0];
      if s > |g.text| {
        FromNeverGoesBack(segments[1..], s - |g.text|, t - |g.text|, raw + |Raw(g)|, end);
      } else if t > |g.text| {
        FromNeverGoesBack(segments[1..], t - |g.text|, t - |g.text|, raw + |Raw(g)|, end);
      }
    }
  }

  /** For every drawn place past the bullet, the place in the source is in
      range and just after the character the reader sees before it. */
  lemma ShownLandsRight(text: string, shown: nat)
    requires BlockOf(text).shown < shown <= |Drawn(text)|
    ensures var at := ShownToRaw(text, shown);
            |BlockOf(text).prefix| < at <= |text| && text[at - 1] == Drawn(text)[shown - 1]
  {
    hide Segments;
    hide BlockOf;
    hide Raws;
    hide Texts;
    hide From;
    var b := BlockOf(text);
    BlockFacts(text);
    var rest := text[|b.prefix|..];
    SegmentsSpellTheLine(rest);
    FromLands(Segments(rest), shown - b.shown, |b.prefix|, |text|);
  }

  /** Further in the drawing is further in the source. */
  lemma ShownGrows(text: string, s: nat, t: nat)
    requires BlockOf(text).shown < s < t <= |Drawn(text)|
    ensures ShownToRaw(text, s) < ShownToRaw(text, t)
  {
    hide Segments;
    hide BlockOf;
    var b := BlockOf(text);
    BlockFacts(text);
    FromGrows(Segments(text[|b.prefix|..]), s - b.shown, t - b.shown, |b.prefix|, |text|);
  }

  /** At or before the bullet, and past the drawing's end, the place is the
      start or the end of the text, so the whole map never goes back. */
  lemma ShownNeverGoesBack(text: string, s: nat, t: nat)
    requires s <= t
    ensures ShownToRaw(text, s) <= ShownToRaw(text, t) <= |text|
  {
    hide Segments;
    hide BlockOf;
    var b := BlockOf(text);
    BlockFacts(text);
    var rest := text[|b.prefix|..];
    SegmentsSpellTheLine(rest);
    if s > b.shown {
      FromNeverGoesBack(Segments(rest), s - b.shown, t - b.shown, |b.prefix|, |text|);
    } else if t > b.shown {
      FromNeverGoesBack(Segments(rest), 0, t - b.shown, |b.prefix|, |text|);
    } else {
      FromNeverGoesBack(Segments(rest), 0, 0, |b.prefix|, |text|);
    }
  }
}
