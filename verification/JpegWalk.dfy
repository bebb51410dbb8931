/** How a JPEG ends, as far as its markers tell. */
module JpegWalk {
  import opened Bytes
  import opened Wrappers

  const FF: byte := 0xFF
  const SOI: byte := 0xD8
  const EOI: byte := 0xD9
  const SOS: byte := 0xDA

  datatype JpegEnd = Whole | NoEndMarker | CutShort

  /** Markers without a segment. */
  predicate Bare(m: byte) {
    m == 0x01 || 0xD0 <= m <= 0xD8
  }

  predicate ProgressiveFrame(m: byte) {
    m == 0xC2 || m == 0xC6 || m == 0xCA || m == 0xCE
  }

  /** Past the fill bytes that may pad a marker. */
  function SkipFill(bytes: Bytes, i: nat): (j: nat)
    ensures i <= j && (i < |bytes| ==> j < |bytes|)
    decreases |bytes| - i
  {
    if Get(bytes, i) == Some(FF) && Get(bytes, i + 1) == Some(FF) then SkipFill(bytes, i + 1) else i
  }

  /** An end marker at `i` or after it. */
  predicate EndsAfter(bytes: Bytes, i: nat) {
    exists k :: i <= k < |bytes| - 1 && bytes[k] == FF && bytes[k + 1] == EOI
  }

  function Ending(ended: bool, progressive: bool): JpegEnd {
    if ended then Whole else if progressive then CutShort else NoEndMarker
  }

  datatype Step = Ends(end: JpegEnd) | GoesOn(i: nat, progressive: bool)

  /** What the marker at `i` says. */
  function ReadMarker(bytes: Bytes, i: nat, progressive: bool): (step: Step)
    ensures step.GoesOn? ==> i < step.i && i < |bytes|
  {
    var j := SkipFill(bytes, i);
    match (Get(bytes, j), Get(bytes, j + 1))
    case (Some(0xFF), Some(m)) =>
      var progressive' := progressive || ProgressiveFrame(m);
      if Bare(m) then GoesOn(j + 2, progressive)
      else if m == EOI then Ends(Whole)
      else if j + 4 > |bytes| then Ends(CutShort)
      else
        var next := j + 2 + BigEndian(bytes[j + 2], bytes[j + 3]);
        if m == SOS then Ends(Ending(EndsAfter(bytes, next), progressive'))
        else GoesOn(next, progressive')
    case (Some(0xFF), None) => Ends(CutShort)
    case (None, _) => Ends(CutShort)
    case _ => Ends(Whole)
  }

  function Walk(bytes: Bytes, i: nat, progressive: bool): JpegEnd
    decreases |bytes| - i
  {
    match ReadMarker(bytes, i, progressive)
    case Ends(end) => end
    case GoesOn(next, progressive') => Walk(bytes, next, progressive')
  }

  /** Read the markers to the first scan and look for the end after it. */
  method JpegEndOf(bytes: Bytes) returns (end: JpegEnd)
    ensures end == if [FF, SOI] <= bytes then Walk(bytes, 2, false) else Whole
  {
    if !([FF, SOI] <= bytes) {
      return Whole;
    }
    var progressive := false;
    var i := 2;
    while true
      invariant Walk(bytes, i, progressive) == Walk(bytes, 2, false)
      decreases |bytes| - i
    {
      ghost var start := i;
      while i + 1 < |bytes| && bytes[i] == FF && bytes[i + 1] == FF
        invariant start <= i && SkipFill(bytes, i) == SkipFill(bytes, start)
      {
        i := i + 1;
      }
      if i >= |bytes| || (bytes[i] == FF && i + 1 >= |bytes|) {
        return CutShort;
      }
      if bytes[i] != FF {
        return Whole;
      }
      var marker := bytes[i + 1];
      i := i + 2;
      if Bare(marker) {
        continue;
      }
      if marker == EOI {
        return Whole;
      }
      if ProgressiveFrame(marker) {
        progressive := true;
      }
      if i + 2 > |bytes| {
        return CutShort;
      }
      i := i + BigEndian(bytes[i], bytes[i + 1]);
      if marker == SOS {
        var ended := FindEnd(bytes, i);
        return if ended then Whole else if progressive then CutShort else NoEndMarker;
      }
    }
  }

  /** Whether any two neighbouring bytes from `start` on are an end marker. */
  method FindEnd(bytes: Bytes, start: nat) returns (found: bool)
    ensures found == EndsAfter(bytes, start)
  {
    var k: nat := start;
    while k + 1 < |bytes|
      invariant start <= k
      invariant forall m :: start <= m < k && m + 1 < |bytes| ==> !(bytes[m] == FF && bytes[m + 1] == EOI)
    {
      if bytes[k] == FF && bytes[k + 1] == EOI {
        return true;
      }
      k := k + 1;
    }
    found := false;
  }

  // ---- printing a single-scan JPEG (ITU-T T.81, B.1.1.2 and B.1.1.5) ----

  /** A marker with fill bytes before it, and its segment's payload if it
      has a segment. */
  datatype Segment = Segment(fill: nat, marker: byte, payload: Option<Bytes>)

  /** Entropy-coded data: an 0xFF is always escaped. */
  datatype Unit = Plain(b: byte) | Escaped | Restart(fill: nat, marker: byte)

  datatype End = End(fill: nat, after: Bytes)

  datatype Jpeg = Jpeg(segments: seq<Segment>, scanFill: nat, scanHeader: Bytes, scan: seq<Unit>, end: Option<End>)

  /** TEM, the restarts and the start of an image: no segment follows. */
  predicate StandsAlone(marker: byte) {
    marker in {0x01, 0xD0, 0xD1, 0xD2, 0xD3, 0xD4, 0xD5, 0xD6, 0xD7, 0xD8}
  }

  predicate SegmentOk(s: Segment) {
    match s.payload
    case None => StandsAlone(s.marker)
    case Some(p) => |p| + 2 < 0x10000 && !StandsAlone(s.marker) && s.marker !in {0x00, 0xD9, 0xDA, 0xFF}
  }

  predicate UnitOk(u: Unit) {
    match u
    case Plain(b) => b != 0xFF
    case Escaped => true
    case Restart(_, marker) => 0xD0 <= marker <= 0xD7
  }

  predicate JpegOk(j: Jpeg) {
    && (forall s | s in j.segments :: SegmentOk(s))
    && |j.scanHeader| + 2 < 0x10000
    && (forall u | u in j.scan :: UnitOk(u))
  }

  function Fill(n: nat): (s: Bytes)
    ensures |s| == n && forall k | 0 <= k < n :: s[k] == 0xFF
  {
    seq(n, _ => 0xFF)
  }

  function U16(n: nat): Bytes
    requires n < 0x10000
  {
    [n / 256, n % 256]
  }

  function PrintMarker(fill: nat, m: byte): Bytes {
    Fill(fill) + [0xFF, m]
  }

  function PrintSegment(s: Segment): Bytes
    requires SegmentOk(s)
  {
    match s.payload
    case None => PrintMarker(s.fill, s.marker)
    case Some(p) => PrintMarker(s.fill, s.marker) + (U16(|p| + 2) + p)
  }

  function PrintSegments(segments: seq<Segment>): Bytes
    requires forall s | s in segments :: SegmentOk(s)
  {
    if segments == [] then [] else PrintSegment(segments[0]) + PrintSegments(segments[1..])
  }

  function PrintUnit(u: Unit): Bytes {
    match u
    case Plain(b) => [b]
    case Escaped => [0xFF, 0]
    case Restart(fill, marker) => PrintMarker(fill, marker)
  }

  function PrintScan(scan: seq<Unit>): Bytes {
    if scan == [] then [] else PrintUnit(scan[0]) + PrintScan(scan[1..])
  }

  /** Up to and with the scan header's length field. */
  function PrintHead(j: Jpeg): Bytes
    requires JpegOk(j)
  {
    [0xFF, 0xD8] + PrintSegments(j.segments) + (PrintMarker(j.scanFill, 0xDA) + U16(|j.scanHeader| + 2))
  }

  /** The scan's data and the end marker, if there is one. */
  function PrintTail(j: Jpeg): Bytes
    requires JpegOk(j)
  {
    PrintScan(j.scan) + match j.end { case None => [] case Some(e) => PrintMarker(e.fill, 0xD9) }
  }

  function Print(j: Jpeg): Bytes
    requires JpegOk(j)
  {
    PrintHead(j) + j.scanHeader + PrintTail(j) + match j.end { case None => [] case Some(e) => e.after }
  }

  /** Some frame is progressive (SOF2, SOF6, SOF10 or SOF14). */
  predicate AnyProgressive(segments: seq<Segment>) {
    segments != [] &&
    ((segments[0].payload.Some? && segments[0].marker in {0xC2, 0xC6, 0xCA, 0xCE}) || AnyProgressive(segments[1..]))
  }

  // ---- one marker at a time ----

  lemma {:induction false} FillSkipped(bytes: Bytes, i: nat, n: nat)
    requires i + n < |bytes| && forall k | i <= k <= i + n :: bytes[k] == FF
    requires i + n + 1 < |bytes| ==> bytes[i + n + 1] != FF
    ensures SkipFill(bytes, i) == i + n
    decreases n
  {
    if n > 0 {
      FillSkipped(bytes, i + 1, n - 1);
    }
  }

  lemma MarkerRead(bytes: Bytes, i: nat, fill: nat, m: byte)
    requires At(bytes, i, PrintMarker(fill, m)) && m != FF
    ensures SkipFill(bytes, i) == i + fill
    ensures i + fill + 2 <= |bytes| && bytes[i + fill] == FF && bytes[i + fill + 1] == m
  {
    var printed := PrintMarker(fill, m);
    forall k | 0 <= k < fill + 2
      ensures bytes[i + k] == printed[k]
    {
      assert bytes[i..i + |printed|][k] == bytes[i + k];
    }
    forall k | i <= k <= i + fill
      ensures bytes[k] == FF
    {
      assert bytes[i + (k - i)] == printed[k - i];
    }
    assert bytes[i + (fill + 1)] == printed[fill + 1];
    FillSkipped(bytes, i, fill);
  }

  lemma LengthRead(bytes: Bytes, i: nat, n: nat)
    requires n < 0x10000 && At(bytes, i, U16(n))
    ensures i + 2 <= |bytes| && BigEndian(bytes[i], bytes[i + 1]) == n
  {
    assert bytes[i..i + 2][0] == bytes[i] && bytes[i..i + 2][1] == bytes[i + 1];
  }

  lemma MarkerLength(fill: nat, m: byte)
    ensures |PrintMarker(fill, m)| == fill + 2
  {
  }

  /** A marker, a length and a payload, as the walk finds them. */
  lemma SegmentRead(bytes: Bytes, i: nat, fill: nat, m: byte, p: Bytes)
    requires m != FF && |p| + 2 < 0x10000 && At(bytes, i, PrintMarker(fill, m) + (U16(|p| + 2) + p))
    ensures SkipFill(bytes, i) == i + fill && i + fill + 4 + |p| <= |bytes|
    ensures bytes[i + fill] == FF && bytes[i + fill + 1] == m
    ensures BigEndian(bytes[i + fill + 2], bytes[i + fill + 3]) == |p| + 2
  {
    hide SkipFill;
    hide PrintMarker;
    hide At;
    var length := U16(|p| + 2);
    MarkerLength(fill, m);
    AtSplit(bytes, i, PrintMarker(fill, m), length + p);
    MarkerRead(bytes, i, fill, m);
    AtSplit(bytes, i + fill + 2, length, p);
    LengthRead(bytes, i + fill + 2, |p| + 2);
    AtFits(bytes, i + fill + 4, p);
  }

  lemma AtFits(bytes: Bytes, i: nat, part: Bytes)
    requires At(bytes, i, part)
    ensures i + |part| <= |bytes|
  {
  }

  /** The walk steps over a whole segment, whatever its payload holds. */
  lemma StepsOverSegment(bytes: Bytes, i: nat, s: Segment, progressive: bool)
    requires SegmentOk(s) && At(bytes, i, PrintSegment(s))
    ensures ReadMarker(bytes, i, progressive) ==
            GoesOn(i + |PrintSegment(s)|, progressive || (s.payload.Some? && ProgressiveFrame(s.marker)))
  {
    hide SkipFill;
    hide EndsAfter;
    hide PrintMarker;
    hide ProgressiveFrame;
    hide At;
    hide BigEndian;
    MarkerLength(s.fill, s.marker);
    match s.payload
    case None => MarkerRead(bytes, i, s.fill, s.marker);
    case Some(p) => SegmentRead(bytes, i, s.fill, s.marker, p);
  }

  /** A file that stops before a marker is complete. */
  lemma StopsInMarker(bytes: Bytes, i: nat, fill: nat, m: byte, progressive: bool)
    requires i <= |bytes| && bytes[i..] <= PrintMarker(fill, m) && |bytes| < i + fill + 2
    ensures ReadMarker(bytes, i, progressive) == Ends(CutShort)
  {
    if i < |bytes| {
      var printed := PrintMarker(fill, m);
      var n := |bytes| - i - 1;
      forall k | i <= k <= i + n
        ensures bytes[k] == FF
      {
        assert bytes[i..][k - i] == printed[k - i];
      }
      FillSkipped(bytes, i, n);
    }
  }

  /** A file that stops inside a segment, or inside the length field of a
      scan header. */
  lemma StopsInSegment(bytes: Bytes, i: nat, fill: nat, m: byte, after: Bytes, length: nat, progressive: bool)
    requires m != FF && m != EOI && !Bare(m) && length < 0x10000
    requires i <= |bytes| && bytes[i..] <= PrintMarker(fill, m) + (U16(length) + after)
    requires |bytes| < i + fill + 2 + (if m == SOS then 2 else length)
    ensures Walk(bytes, i, progressive) == CutShort
  {
    var printed := PrintMarker(fill, m) + (U16(length) + after);
    if |bytes| < i + fill + 2 {
      assert bytes[i..] <= PrintMarker(fill, m);
      StopsInMarker(bytes, i, fill, m, progressive);
    } else {
      assert bytes[i..i + fill + 2] == printed[..fill + 2] == PrintMarker(fill, m) by {
        assert bytes[i..][..fill + 2] == bytes[i..i + fill + 2];
      }
      MarkerRead(bytes, i, fill, m);
      var j := i + fill + 2;
      if j + 2 <= |bytes| {
        assert bytes[j..j + 2] == U16(length) by {
          assert bytes[j..j + 2] == bytes[i..][fill + 2..fill + 4] == printed[fill + 2..fill + 4];
        }
        LengthRead(bytes, j, length);
        assert Get(bytes, j + length).None?;
      }
    }
  }

  // ---- the scan holds no end marker ----

  /** No two neighbours are an end marker, and no 0xFF waits at the end. */
  predicate NoEnd(s: Bytes) {
    forall k | 0 <= k < |s| - 1 :: !(s[k] == FF && s[k + 1] == EOI)
  }

  lemma UnitHasNoEnd(u: Unit)
    requires UnitOk(u)
    ensures var s := PrintUnit(u); s != [] && s[|s| - 1] != FF && NoEnd(s)
  {
    var s := PrintUnit(u);
    forall k | 0 <= k < |s| - 1
      ensures !(s[k] == FF && s[k + 1] == EOI)
    {
      if u.Restart? && k < u.fill - 1 {
        assert s[k + 1] == Fill(u.fill)[k + 1];
      }
    }
  }

  lemma {:induction false} ScanHasNoEnd(scan: seq<Unit>, fill: nat)
    requires forall u | u in scan :: UnitOk(u)
    ensures NoEnd(PrintScan(scan) + Fill(fill))
    decreases |scan|
  {
    if scan == [] {
      assert PrintScan(scan) + Fill(fill) == Fill(fill);
    } else {
      var rest := PrintScan(scan[1..]) + Fill(fill);
      ScanHasNoEnd(scan[1..], fill);
      UnitHasNoEnd(scan[0]);
      PrependKeepsNoEnd(PrintUnit(scan[0]), rest);
      assert PrintScan(scan) + Fill(fill) == PrintUnit(scan[0]) + rest;
    }
  }

  lemma PrependKeepsNoEnd(head: Bytes, s: Bytes)
    requires head != [] && head[|head| - 1] != FF && NoEnd(head) && NoEnd(s)
    ensures NoEnd(head + s)
  {
    var t := head + s;
    forall k | 0 <= k < |t| - 1
      ensures !(t[k] == FF && t[k + 1] == EOI)
    {
      if k >= |head| {
        assert t[k] == s[k - |head|] && t[k + 1] == s[k - |head| + 1];
      }
    }
  }

  // ---- whole files and cut ones ----

  /** Whether a frame seen so far is progressive, after this segment. */
  function SeenIn(progressive: bool, s: Segment): bool {
    progressive || (s.payload.Some? && ProgressiveFrame(s.marker))
  }

  function Seen(progressive: bool, segments: seq<Segment>): (r: bool)
    ensures r == (progressive || AnyProgressive(segments))
    decreases |segments|
  {
    if segments == [] then progressive else Seen(SeenIn(progressive, segments[0]), segments[1..])
  }

  lemma FirstSegment(bytes: Bytes, i: nat, segments: seq<Segment>, progressive: bool) returns (next: nat)
    requires forall s | s in segments :: SegmentOk(s)
    requires segments != [] && At(bytes, i, PrintSegments(segments))
    ensures next + |PrintSegments(segments[1..])| == i + |PrintSegments(segments)|
    ensures At(bytes, next, PrintSegments(segments[1..]))
    ensures Walk(bytes, i, progressive) == Walk(bytes, next, SeenIn(progressive, segments[0]))
  {
    hide ReadMarker;
    hide SegmentOk;
    hide PrintSegment;
    hide At;
    var s := segments[0];
    AtSplit(bytes, i, PrintSegment(s), PrintSegments(segments[1..]));
    next := i + |PrintSegment(s)|;
    StepsOverSegment(bytes, i, s, progressive);
  }

  /** The walk over the segments before the scan. */
  lemma {:induction false} StepsOverSegments(bytes: Bytes, i: nat, segments: seq<Segment>, progressive: bool, end: nat)
    requires forall s | s in segments :: SegmentOk(s)
    requires At(bytes, i, PrintSegments(segments)) && end == i + |PrintSegments(segments)|
    ensures Walk(bytes, i, progressive) == Walk(bytes, end, Seen(progressive, segments))
    decreases |segments|
  {
    if segments != [] {
      var next := FirstSegment(bytes, i, segments, progressive);
      StepsOverSegments(bytes, next, segments[1..], SeenIn(progressive, segments[0]), end);
    }
  }

  /** The read of the scan header: where its data starts. */
  lemma ReadsScanHeader(bytes: Bytes, i: nat, fill: nat, length: nat, progressive: bool)
    requires length < 0x10000 && At(bytes, i, PrintMarker(fill, SOS) + U16(length))
    ensures Walk(bytes, i, progressive) == Ending(EndsAfter(bytes, i + fill + 2 + length), progressive)
  {
    AtSplit(bytes, i, PrintMarker(fill, SOS), U16(length));
    MarkerRead(bytes, i, fill, SOS);
    LengthRead(bytes, i + fill + 2, length);
  }

  /** A file that ends, or in which no marker stands, before any scan is left
      to its decoder. */
  lemma NoScanIsWhole(segments: seq<Segment>, tail: Bytes)
    requires forall s | s in segments :: SegmentOk(s)
    requires tail != [] && (tail[0] != 0xFF || exists fill :: PrintMarker(fill, 0xD9) <= tail)
    ensures Walk([0xFF, 0xD8] + PrintSegments(segments) + tail, 2, false) == Whole
  {
    hide *;
    WholeIsAt([0xFF, 0xD8], PrintSegments(segments), tail);
    NoScanFrom([0xFF, 0xD8] + PrintSegments(segments) + tail, segments, tail);
  }

  lemma NoScanFrom(bytes: Bytes, segments: seq<Segment>, tail: Bytes)
    requires forall s | s in segments :: SegmentOk(s)
    requires tail != [] && (tail[0] != 0xFF || exists fill :: PrintMarker(fill, 0xD9) <= tail)
    requires At(bytes, 2, PrintSegments(segments)) && At(bytes, 2 + |PrintSegments(segments)|, tail)
    ensures Walk(bytes, 2, false) == Whole
  {
    hide *;
    var start := 2 + |PrintSegments(segments)|;
    StepsOverSegments(bytes, 2, segments, false, start);
    TailIsWhole(bytes, start, tail, Seen(false, segments));
  }

  lemma WholeIsAt(a: Bytes, b: Bytes, c: Bytes)
    ensures At(a + b + c, |a|, b) && At(a + b + c, |a| + |b|, c)
  {
  }

  lemma TailIsWhole(bytes: Bytes, i: nat, tail: Bytes, progressive: bool)
    requires At(bytes, i, tail) && tail != []
    requires tail[0] != 0xFF || exists fill :: PrintMarker(fill, 0xD9) <= tail
    ensures Walk(bytes, i, progressive) == Whole
  {
    AtFirst(bytes, i, tail);
    if tail[0] == 0xFF {
      var fill :| PrintMarker(fill, 0xD9) <= tail;
      var rest := tail[fill + 2..];
      assert tail == PrintMarker(fill, 0xD9) + rest;
      AtSplit(bytes, i, PrintMarker(fill, 0xD9), rest);
      MarkerRead(bytes, i, fill, 0xD9);
      hide PrintMarker;
      hide SkipFill;
    }
    hide At;
  }

  function DataStart(j: Jpeg): nat
    requires JpegOk(j)
  {
    |PrintHead(j)| + |j.scanHeader|
  }

  /** A file cut no earlier than its scan header's length field. */
  lemma ReadsPastHead(j: Jpeg, bytes: Bytes)
    requires JpegOk(j) && PrintHead(j) <= bytes
    ensures Walk(bytes, 2, false) == Ending(EndsAfter(bytes, DataStart(j)), AnyProgressive(j.segments))
  {
    var start, segments := [FF, SOI], PrintSegments(j.segments);
    var header := PrintMarker(j.scanFill, SOS) + U16(|j.scanHeader| + 2);
    assert PrintHead(j) == start + (segments + header);
    assert At(bytes, 0, PrintHead(j));
    AtSplit(bytes, 0, start, segments + header);
    AtSplit(bytes, 2, segments, header);
    StepsOverSegments(bytes, 2, j.segments, false, 2 + |segments|);
    ReadsScanHeader(bytes, 2 + |segments|, j.scanFill, |j.scanHeader| + 2, Seen(false, j.segments));
  }

  lemma StopsInThisSegment(bytes: Bytes, i: nat, s: Segment, progressive: bool)
    requires SegmentOk(s) && i <= |bytes| < i + |PrintSegment(s)| && bytes[i..] <= PrintSegment(s)
    ensures Walk(bytes, i, progressive) == CutShort
  {
    match s.payload
    case None => StopsInMarker(bytes, i, s.fill, s.marker, progressive);
    case Some(p) => StopsInSegment(bytes, i, s.fill, s.marker, p, |p| + 2, progressive);
  }

  lemma PrefixSplit(bytes: Bytes, i: nat, first: Bytes, rest: Bytes)
    requires i + |first| <= |bytes| && bytes[i..] <= first + rest
    ensures At(bytes, i, first) && bytes[i + |first|..] <= rest
  {
    assert bytes[i..i + |first|] == bytes[i..][..|first|] == (first + rest)[..|first|];
    assert bytes[i + |first|..] == bytes[i..][|first|..];
    assert rest == (first + rest)[|first|..];
  }

  /** The file stops before the scan header's length field is complete. */
  lemma {:induction false} StopsInSegments(bytes: Bytes, i: nat, segments: seq<Segment>, scanFill: nat,
                                           length: nat, progressive: bool)
    requires (forall s | s in segments :: SegmentOk(s)) && length < 0x10000
    requires i <= |bytes| && bytes[i..] <= PrintSegments(segments) + (PrintMarker(scanFill, SOS) + U16(length))
    requires |bytes| - i < |PrintSegments(segments)| + scanFill + 4
    ensures Walk(bytes, i, progressive) == CutShort
    decreases |segments|
  {
    hide ReadMarker;
    hide SegmentOk;
    hide PrintSegment;
    var header := PrintMarker(scanFill, SOS) + U16(length);
    if segments == [] {
      assert PrintSegments(segments) + header == PrintMarker(scanFill, SOS) + (U16(length) + []);
      StopsInSegment(bytes, i, scanFill, SOS, [], length, progressive);
    } else {
      var s, rest := segments[0], PrintSegments(segments[1..]) + header;
      assert PrintSegments(segments) + header == PrintSegment(s) + rest;
      var n := |PrintSegment(s)|;
      if i + n <= |bytes| {
        PrefixSplit(bytes, i, PrintSegment(s), rest);
        StepsOverSegment(bytes, i, s, progressive);
        StopsInSegments(bytes, i + n, segments[1..], scanFill, length, SeenIn(progressive, s));
      } else {
        assert bytes[i..] <= PrintSegment(s);
        StopsInThisSegment(bytes, i, s, progressive);
      }
    }
  }

  /** Every cut of a printed file before its scan header's length field is
      complete reads as cut short. */
  lemma CutHeadIsCutShort(j: Jpeg, cut: nat)
    requires JpegOk(j) && 2 <= cut < |PrintHead(j)|
    ensures cut <= |Print(j)| && [FF, SOI] <= Print(j)[..cut]
    ensures Walk(Print(j)[..cut], 2, false) == CutShort
  {
    var bytes := Print(j)[..cut];
    var start, segments := [FF, SOI], PrintSegments(j.segments);
    var header := PrintMarker(j.scanFill, SOS) + U16(|j.scanHeader| + 2);
    assert bytes == PrintHead(j)[..cut];
    assert PrintHead(j) == start + (segments + header);
    assert bytes[2..] <= segments + header;
    StopsInSegments(bytes, 2, j.segments, j.scanFill, |j.scanHeader| + 2, false);
  }

  /** No cut of the scan's data and its end marker ends early. */
  lemma NoEndInCutTail(j: Jpeg, bytes: Bytes)
    requires JpegOk(j) && bytes <= Print(j)
    requires j.end.None? || |bytes| < DataStart(j) + |PrintTail(j)|
    ensures !EndsAfter(bytes, DataStart(j))
  {
    var d := DataStart(j);
    var fill := if j.end.Some? then j.end.value.fill + 1 else 0;
    var data := PrintScan(j.scan) + Fill(fill);
    ScanHasNoEnd(j.scan, fill);
    assert forall k | 0 <= k < |data| && d + k < |Print(j)| :: Print(j)[d + k] == data[k] by {
      if j.end.Some? {
        assert PrintTail(j) == data + [EOI];
      } else {
        assert PrintTail(j) == data;
      }
    }
    if k :| d <= k < |bytes| - 1 && bytes[k] == FF && bytes[k + 1] == EOI {
      assert Print(j)[d + (k - d)] == data[k - d] && Print(j)[d + (k + 1 - d)] == data[k + 1 - d];
    }
  }

  lemma EndInWholeTail(j: Jpeg, bytes: Bytes)
    requires JpegOk(j) && bytes <= Print(j)
    requires j.end.Some? && DataStart(j) + |PrintTail(j)| <= |bytes|
    ensures EndsAfter(bytes, DataStart(j))
  {
    var k := DataStart(j) + |PrintTail(j)| - 2;
    assert PrintTail(j)[|PrintTail(j)| - 2..] == [FF, EOI];
    assert bytes[k] == Print(j)[k] == PrintTail(j)[|PrintTail(j)| - 2];
    assert bytes[k + 1] == Print(j)[k + 1] == PrintTail(j)[|PrintTail(j)| - 1];
  }

  /** Every single-scan JPEG, whatever its segments hold, printed whole or
      cut anywhere: cut short in its headers; whole with its end marker;
      and after its headers without it, cut short or missing its marker as
      its frame is progressive or not. */
  lemma EndIsRead(j: Jpeg, cut: nat)
    requires JpegOk(j) && 2 <= cut <= |Print(j)|
    ensures [FF, SOI] <= Print(j)[..cut]
    ensures Walk(Print(j)[..cut], 2, false) ==
      if cut < |PrintHead(j)| then CutShort
      else if j.end.Some? && DataStart(j) + |PrintTail(j)| <= cut then Whole
      else if AnyProgressive(j.segments) then CutShort
      else NoEndMarker
  {
    var bytes := Print(j)[..cut];
    if cut < |PrintHead(j)| {
      CutHeadIsCutShort(j, cut);
    } else {
      assert PrintHead(j) <= bytes;
      ReadsPastHead(j, bytes);
      if j.end.Some? && DataStart(j) + |PrintTail(j)| <= cut {
        EndInWholeTail(j, bytes);
      } else {
        NoEndInCutTail(j, bytes);
      }
    }
  }
}
