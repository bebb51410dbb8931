/** Whether a GIF or WebP holds more than one frame, by stepping over its
    blocks. */
module GifWalk {
  import opened Bytes
  import opened Wrappers

  const RIFF: Bytes := [0x52, 0x49, 0x46, 0x46]
  const WEBP_VP8X: Bytes := [0x57, 0x45, 0x42, 0x50, 0x56, 0x50, 0x38, 0x58]
  const GIF8: Bytes := [0x47, 0x49, 0x46, 0x38]
  const EXTENSION: byte := 0x21
  const IMAGE: byte := 0x2C
  const TRAILER: byte := 0x3B

  function Pow2(n: nat): nat {
    if n == 0 then 1 else 2 * Pow2(n - 1)
  }

  /** A colour table's bytes, from a packed field. */
  function TableSize(packed: byte): nat {
    if packed < 0x80 then 0 else 3 * Pow2(packed % 8 + 1)
  }

  /** Where the sub-blocks that start at `i` end; nowhere if the file does
      first. */
  function SkipBlocks(bytes: Bytes, i: nat): (next: Option<nat>)
    ensures next.Some? ==> i < next.value <= |bytes|
    decreases |bytes| - i
  {
    if i >= |bytes| then None
    else if bytes[i] == 0 then Some(i + 1)
    else SkipBlocks(bytes, i + 1 + bytes[i])
  }

  /** The block after the one at `i`. */
  function NextBlock(bytes: Bytes, i: nat): (next: Option<nat>)
    ensures next.Some? ==> i < next.value <= |bytes|
  {
    match Get(bytes, i)
    case Some(0x21) => SkipBlocks(bytes, i + 2)
    case Some(0x2C) =>
      (match Get(bytes, i + 9)
       case Some(packed) => SkipBlocks(bytes, i + 11 + TableSize(packed))
       case None => None)
    case _ => None
  }

  /** Whether the walk from `i` meets the frame that makes two. */
  function SecondFrame(bytes: Bytes, i: nat, frames: nat): bool
    decreases |bytes| - i
  {
    var frames' := if Get(bytes, i) == Some(IMAGE) then frames + 1 else frames;
    if frames' > 1 then true
    else match NextBlock(bytes, i)
      case Some(next) => SecondFrame(bytes, next, frames')
      case None => false
  }

  function IsAnimated(bytes: Bytes): bool {
    if RIFF <= bytes && |bytes| >= 16 && bytes[8..16] == WEBP_VP8X then
      |bytes| > 20 && (bytes[20] / 2) % 2 == 1
    else
      GIF8 <= bytes && |bytes| > 10 && SecondFrame(bytes, 13 + TableSize(bytes[10]), 0)
  }

  method PastBlocks(bytes: Bytes, start: nat) returns (next: Option<nat>)
    ensures next == SkipBlocks(bytes, start)
  {
    var i := start;
    while true
      invariant SkipBlocks(bytes, i) == SkipBlocks(bytes, start)
      decreases |bytes| - i
    {
      if i >= |bytes| {
        return None;
      }
      var len := bytes[i];
      i := i + 1;
      if len == 0 {
        return Some(i);
      }
      i := i + len;
    }
  }

  method Animated(bytes: Bytes) returns (animated: bool)
    ensures animated == IsAnimated(bytes)
  {
    if RIFF <= bytes && |bytes| >= 16 && bytes[8..16] == WEBP_VP8X {
      return |bytes| > 20 && (bytes[20] / 2) % 2 == 1;
    }
    if !(GIF8 <= bytes) || |bytes| <= 10 {
      return false;
    }
    var i := 13 + TableSize(bytes[10]);
    var frames := 0;
    while true
      invariant frames <= 1
      invariant SecondFrame(bytes, i, frames) == SecondFrame(bytes, 13 + TableSize(bytes[10]), 0)
      decreases |bytes| - i
    {
      var next: Option<nat> := None;
      if i < |bytes| && bytes[i] == EXTENSION {
        next := PastBlocks(bytes, i + 2);
      } else if i < |bytes| && bytes[i] == IMAGE {
        frames := frames + 1;
        if frames > 1 {
          return true;
        }
        if i + 9 < |bytes| {
          next := PastBlocks(bytes, i + 11 + TableSize(bytes[i + 9]));
        }
      }
      if next.None? {
        return false;
      }
      i := next.value;
    }
  }

  // ---- printing a GIF from its syntax (GIF89a, sections 15 and 18-22) ----

  datatype Colour = Colour(red: byte, green: byte, blue: byte)

  /** A colour table: none, with what then stands for its size, or colours. */
  datatype Table = NoTable(unused: byte) | Colours(colours: seq<Colour>)

  datatype Block =
    | Extension(kind: byte, data: seq<Bytes>)
    | Image(position: Bytes, flags: byte, table: Table, minCodeSize: byte, data: seq<Bytes>)

  datatype Gif = Gif(version: Bytes, size: Bytes, flags: byte, look: Bytes, table: Table, blocks: seq<Block>,
                     after: Bytes)

  predicate DataOk(data: seq<Bytes>) {
    forall d | d in data :: 0 < |d| < 256
  }

  /** How many colours there are, for each size a table may have. */
  function SizeField(colours: nat): Option<byte> {
    match colours
    case 2 => Some(0)
    case 4 => Some(1)
    case 8 => Some(2)
    case 16 => Some(3)
    case 32 => Some(4)
    case 64 => Some(5)
    case 128 => Some(6)
    case 256 => Some(7)
    case _ => None
  }

  predicate TableOk(table: Table) {
    match table
    case NoTable(unused) => unused < 8
    case Colours(colours) => SizeField(|colours|).Some?
  }

  /** The packed field: whether there is a table, four flags of no matter
      here, and its size. */
  function PackedField(table: Table, flags: byte): byte
    requires TableOk(table) && flags < 16
  {
    match table
    case NoTable(unused) => 8 * flags + unused
    case Colours(colours) => 0x80 + 8 * flags + SizeField(|colours|).value
  }

  function PrintColours(colours: seq<Colour>): (bytes: Bytes)
    ensures |bytes| == 3 * |colours|
  {
    if colours == [] then []
    else [colours[0].red, colours[0].green, colours[0].blue] + PrintColours(colours[1..])
  }

  function PrintTable(table: Table): Bytes {
    match table
    case NoTable(_) => []
    case Colours(colours) => PrintColours(colours)
  }

  predicate BlockOk(b: Block) {
    DataOk(b.data) && (b.Image? ==> |b.position| == 8 && b.flags < 16 && TableOk(b.table))
  }

  predicate GifOk(g: Gif) {
    && |g.version| == 2 && |g.size| == 4 && |g.look| == 2
    && g.flags < 16 && TableOk(g.table)
    && forall b | b in g.blocks :: BlockOk(b)
  }

  function PrintData(data: seq<Bytes>): Bytes
    requires DataOk(data)
  {
    if data == [] then [0] else [|data[0]|] + (data[0] + PrintData(data[1..]))
  }

  function PrintBlock(b: Block): Bytes
    requires BlockOk(b)
  {
    match b
    case Extension(kind, data) => [0x21, kind] + PrintData(data)
    case Image(position, flags, table, minCodeSize, data) =>
      [0x2C] + position + [PackedField(table, flags)] + PrintTable(table) + [minCodeSize] + PrintData(data)
  }

  /** The blocks, the trailer, and whatever follows it in the file. */
  function PrintBlocks(blocks: seq<Block>, after: Bytes): Bytes
    requires forall b | b in blocks :: BlockOk(b)
  {
    if blocks == [] then [0x3B] + after else PrintBlock(blocks[0]) + PrintBlocks(blocks[1..], after)
  }

  function Print(g: Gif): Bytes
    requires GifOk(g)
  {
    [0x47, 0x49, 0x46, 0x38] + g.version + g.size + [PackedField(g.table, g.flags)] + g.look
    + PrintTable(g.table) + PrintBlocks(g.blocks, g.after)
  }

  /** The walk's table size is that of the table printed. */
  lemma TableSizeIs(table: Table, flags: byte)
    requires TableOk(table) && flags < 16
    ensures TableSize(PackedField(table, flags)) == |PrintTable(table)|
  {
    PowersOfTwo();
    var packed := PackedField(table, flags);
    if table.Colours? {
      assert packed % 8 == SizeField(|table.colours|).value;
    }
    hide Pow2;
  }

  lemma PowersOfTwo()
    ensures Pow2(1) == 2 && Pow2(2) == 4 && Pow2(3) == 8 && Pow2(4) == 16
    ensures Pow2(5) == 32 && Pow2(6) == 64 && Pow2(7) == 128 && Pow2(8) == 256
  {
  }

  function Images(blocks: seq<Block>): nat {
    if blocks == [] then 0 else (if blocks[0].Image? then 1 else 0) + Images(blocks[1..])
  }

  lemma {:induction false} SkipsPrinted(bytes: Bytes, i: nat, data: seq<Bytes>)
    requires DataOk(data) && At(bytes, i, PrintData(data))
    ensures SkipBlocks(bytes, i) == Some(i + |PrintData(data)|)
    decreases |data|
  {
    AtFirst(bytes, i, PrintData(data));
    if data != [] {
      var rest := PrintData(data[1..]);
      var len: byte := |data[0]|;
      AtSplit(bytes, i, [len], data[0] + rest);
      AtSplit(bytes, i + 1, data[0], rest);
      SkipsPrinted(bytes, i + 1 + |data[0]|, data[1..]);
    }
  }

  lemma PackedAt(bytes: Bytes, i: nat, position: Bytes, packed: byte, rest: Bytes)
    requires |position| == 8 && At(bytes, i, [IMAGE] + position + [packed] + rest)
    ensures Get(bytes, i + 9) == Some(packed) && At(bytes, i + 10, rest)
  {
    var head := [IMAGE] + position;
    AtSplit(bytes, i, head + [packed], rest);
    AtSplit(bytes, i, head, [packed]);
    AtFirst(bytes, i + 9, [packed]);
  }

  lemma StepsOverExtension(bytes: Bytes, i: nat, kind: byte, data: seq<Bytes>)
    requires DataOk(data) && At(bytes, i, [EXTENSION, kind] + PrintData(data))
    ensures Get(bytes, i) == Some(EXTENSION)
    ensures NextBlock(bytes, i) == Some(i + 2 + |PrintData(data)|)
  {
    hide PrintData;
    hide SkipBlocks;
    AtFirst(bytes, i, [EXTENSION, kind] + PrintData(data));
    AtSplit(bytes, i, [EXTENSION, kind], PrintData(data));
    SkipsPrinted(bytes, i + 2, data);
  }

  /** An image's parts, as the walk finds them. */
  lemma ImageRead(bytes: Bytes, i: nat, position: Bytes, packed: byte, rest: Bytes, data: Bytes)
    requires |position| == 8 && At(bytes, i, [IMAGE] + position + [packed] + (rest + data))
    ensures Get(bytes, i) == Some(IMAGE) && Get(bytes, i + 9) == Some(packed)
    ensures At(bytes, i + 10 + |rest|, data)
  {
    hide At;
    AtFirst(bytes, i, [IMAGE] + position + [packed] + (rest + data));
    PackedAt(bytes, i, position, packed, rest + data);
    AtSplit(bytes, i + 10, rest, data);
  }

  lemma StepsOverImage(bytes: Bytes, i: nat, position: Bytes, packed: byte, table: Bytes, size: byte,
                       data: seq<Bytes>)
    requires DataOk(data) && |position| == 8 && |table| == TableSize(packed)
    requires At(bytes, i, [IMAGE] + position + [packed] + table + [size] + PrintData(data))
    ensures Get(bytes, i) == Some(IMAGE)
    ensures NextBlock(bytes, i) == Some(i + 11 + |table| + |PrintData(data)|)
  {
    hide PrintData;
    hide SkipBlocks;
    hide TableSize;
    hide At;
    var rest := table + [size];
    assert [IMAGE] + position + [packed] + table + [size] + PrintData(data) ==
           [IMAGE] + position + [packed] + (rest + PrintData(data));
    ImageRead(bytes, i, position, packed, rest, PrintData(data));
    SkipsPrinted(bytes, i + 11 + |table|, data);
  }

  lemma StepsOverBlock(bytes: Bytes, i: nat, b: Block)
    requires BlockOk(b) && At(bytes, i, PrintBlock(b))
    ensures Get(bytes, i) == Some(if b.Image? then IMAGE else EXTENSION)
    ensures NextBlock(bytes, i) == Some(i + |PrintBlock(b)|)
  {
    hide NextBlock;
    hide PrintData;
    hide TableSize;
    if b.Extension? {
      StepsOverExtension(bytes, i, b.kind, b.data);
    } else {
      TableSizeIs(b.table, b.flags);
      StepsOverImage(bytes, i, b.position, PackedField(b.table, b.flags), PrintTable(b.table), b.minCodeSize, b.data);
    }
  }

  lemma {:induction false} WalkCounts(bytes: Bytes, i: nat, blocks: seq<Block>, after: Bytes, frames: nat)
    requires forall b | b in blocks :: BlockOk(b)
    requires At(bytes, i, PrintBlocks(blocks, after)) && frames <= 1
    ensures SecondFrame(bytes, i, frames) <==> frames + Images(blocks) >= 2
    decreases |blocks|
  {
    hide PrintBlock;
    hide BlockOk;
    if blocks == [] {
      AtFirst(bytes, i, [TRAILER] + after);
    } else {
      hide NextBlock;
      var b, rest := blocks[0], PrintBlocks(blocks[1..], after);
      AtSplit(bytes, i, PrintBlock(b), rest);
      StepsOverBlock(bytes, i, b);
      var frames' := if b.Image? then frames + 1 else frames;
      if frames' <= 1 {
        WalkCounts(bytes, i + |PrintBlock(b)|, blocks[1..], after, frames');
      }
    }
  }

  /** Every printed GIF, whatever its tables, extensions, data and trailing
      bytes, reads as animated exactly when it has two images or more. */
  lemma AnimatedIffTwoImages(g: Gif)
    requires GifOk(g)
    ensures IsAnimated(Print(g)) <==> Images(g.blocks) >= 2
  {
    hide PrintBlocks;
    hide SecondFrame;
    hide TableSize;
    hide PackedField;
    hide PrintTable;
    var bytes := Print(g);
    var packed, table := PackedField(g.table, g.flags), PrintTable(g.table);
    var head := GIF8 + g.version + g.size + [packed] + g.look;
    TableSizeIs(g.table, g.flags);
    assert bytes == head + (table + PrintBlocks(g.blocks, g.after));
    assert At(bytes, 0, bytes) by {
      assert bytes[0..|bytes|] == bytes;
    }
    AtSplit(bytes, 0, head, table + PrintBlocks(g.blocks, g.after));
    AtSplit(bytes, 13, table, PrintBlocks(g.blocks, g.after));
    assert bytes[0] == head[0] && bytes[10] == head[10] && bytes[..4] == GIF8;
    WalkCounts(bytes, 13 + |table|, g.blocks, g.after, 0);
  }

  // ---- printing an extended WebP's header (RFC 9649, section 2.7) ----

  /** What its flags say it holds. */
  datatype WebP = WebP(icc: bool, alpha: bool, exif: bool, xmp: bool, animation: bool, size: Bytes, rest: Bytes)

  function Bit(on: bool, value: byte): byte {
    if on then value else 0
  }

  function PrintFlags(w: WebP): byte {
    Bit(w.icc, 0x20) + Bit(w.alpha, 0x10) + Bit(w.exif, 0x08) + Bit(w.xmp, 0x04) + Bit(w.animation, 0x02)
  }

  /** The file's header, the chunk's name and length, its flags, and all
      that follows. */
  function PrintWebP(w: WebP): Bytes
    requires |w.size| == 4
  {
    [0x52, 0x49, 0x46, 0x46] + w.size + [0x57, 0x45, 0x42, 0x50] + [0x56, 0x50, 0x38, 0x58] + [10, 0, 0, 0]
    + [PrintFlags(w)] + w.rest
  }

  /** An extended WebP reads as animated exactly when its flags say so. */
  lemma WebPIsAnimatedIff(w: WebP)
    requires |w.size| == 4
    ensures IsAnimated(PrintWebP(w)) <==> w.animation
  {
    var bytes := PrintWebP(w);
    assert bytes[..4] == RIFF && bytes[8..16] == WEBP_VP8X;
    assert bytes[20] == PrintFlags(w);
    hide SecondFrame;
  }
}
