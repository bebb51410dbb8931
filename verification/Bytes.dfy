/** Bytes, and reading them at positions that may lie past the end. */
module Bytes {
  import opened Wrappers

  type byte = b: int | 0 <= b < 256
  type Bytes = seq<byte>

  function Get(bytes: Bytes, i: nat): Option<byte> {
    if i < |bytes| then Some(bytes[i]) else None
  }

  function BigEndian(high: byte, low: byte): nat {
    var h: int := high;
    h * 256 + low
  }

  /** `part` stands in `bytes` at `i`. */
  predicate At(bytes: Bytes, i: nat, part: Bytes) {
    i + |part| <= |bytes| && bytes[i..i + |part|] == part
  }

  lemma AtSplit(bytes: Bytes, i: nat, a: Bytes, b: Bytes)
    requires At(bytes, i, a + b)
    ensures At(bytes, i, a) && At(bytes, i + |a|, b)
  {
    assert bytes[i..i + |a|] == (a + b)[..|a|] by {
      assert bytes[i..i + |a + b|][..|a|] == bytes[i..i + |a|];
    }
    assert bytes[i + |a|..i + |a| + |b|] == (a + b)[|a|..] by {
      assert bytes[i..i + |a + b|][|a|..] == bytes[i + |a|..i + |a| + |b|];
    }
  }

  lemma AtFirst(bytes: Bytes, i: nat, part: Bytes)
    requires At(bytes, i, part) && part != []
    ensures Get(bytes, i) == Some(part[0])
  {
    assert bytes[i] == bytes[i..i + |part|][0];
  }
}
