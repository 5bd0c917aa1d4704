/** Octet strings and the network-order integers that `struct.pack("!...")` writes into them. */
module Bytes {
  import opened Wrappers

  type byte = n: int | 0 <= n < 256
  type u16 = n: int | 0 <= n < 0x1_0000
  type u32 = n: int | 0 <= n < 0x1_0000_0000
  type u128 = n: int | 0 <= n < 0x1_0000_0000_0000_0000_0000_0000_0000_0000
  type bytes = seq<byte>

  function Pow256(width: nat): (p: nat)
    ensures p > 0
  {
    if width == 0 then 1 else 256 * Pow256(width - 1)
  }

  /** Big-endian octets of `v`, truncated to `width` of them. */
  function BE(width: nat, v: nat): (bs: bytes)
    ensures |bs| == width
  {
    if width == 0 then [] else BE(width - 1, v / 256) + [v % 256]
  }

  /** The number a big-endian octet string denotes. */
  function Value(bs: bytes): nat {
    if |bs| == 0 then 0 else 256 * Value(bs[..|bs| - 1]) + bs[|bs| - 1]
  }

  /** `struct.pack` of one unsigned field: `None` stands for the `struct.error` it raises. */
  function Pack(width: nat, v: int): Option<bytes> {
    if 0 <= v < Pow256(width) then Some(BE(width, v)) else None
  }

  lemma Powers()
    ensures Pow256(1) == 0x100 && Pow256(2) == 0x1_0000 && Pow256(4) == 0x1_0000_0000
    ensures Pow256(16) == 0x1_0000_0000_0000_0000_0000_0000_0000_0000
  {
    assert Pow256(4) == 0x1_0000_0000;
    assert Pow256(8) == 0x1_0000_0000 * Pow256(4);
    assert Pow256(12) == 0x1_0000_0000 * Pow256(8);
    assert Pow256(16) == 0x1_0000_0000 * Pow256(12);
  }

  /** Writing then reading a field that fits gives the field back. */
  lemma {:induction false} ValueOfBE(width: nat, v: nat)
    requires v < Pow256(width)
    ensures Value(BE(width, v)) == v
  {
    if width > 0 {
      ValueOfBE(width - 1, v / 256);
      assert BE(width, v)[..width - 1] == BE(width - 1, v / 256);
    }
  }

  /** Reading then writing gives the octets back, and what is read fits. */
  lemma {:induction false} BEOfValue(bs: bytes)
    ensures Value(bs) < Pow256(|bs|)
    ensures BE(|bs|, Value(bs)) == bs
  {
    if |bs| > 0 {
      BEOfValue(bs[..|bs| - 1]);
      assert Value(bs) / 256 == Value(bs[..|bs| - 1]);
      assert bs == bs[..|bs| - 1] + [bs[|bs| - 1]];
    }
  }

  /** `struct.unpack_from("!H", b, o)`. */
  function U16(b: bytes, o: nat): (v: u16)
    requires o + 2 <= |b|
    ensures v == Value(b[o..o + 2])
  {
    var s := b[o..o + 2];
    assert s[..1] == [b[o]];
    assert s[..1][..0] == [];
    var hi: int, lo: int := b[o], b[o + 1];
    assert Value(s[..1]) == hi;
    256 * hi + lo
  }

  /** `struct.unpack_from("!I", b, o)`. */
  function U32(b: bytes, o: nat): (v: u32)
    requires o + 4 <= |b|
    ensures v == Value(b[o..o + 4])
  {
    var s := b[o..o + 4];
    assert s[..3] == b[o..o + 3];
    assert s[..3][..2] == b[o..o + 2];
    var hi: int, mid: int, lo: int := U16(b, o), b[o + 2], b[o + 3];
    256 * (256 * hi + mid) + lo
  }

  /** The octets `U16` reads are the ones that print what it found. */
  lemma U16Read(b: bytes, o: nat)
    requires o + 2 <= |b|
    ensures b[o..o + 2] == BE(2, U16(b, o))
  {
    BEOfValue(b[o..o + 2]);
  }

  lemma U32Read(b: bytes, o: nat)
    requires o + 4 <= |b|
    ensures b[o..o + 4] == BE(4, U32(b, o))
  {
    BEOfValue(b[o..o + 4]);
  }

  /** `U16` finds what was printed there. */
  lemma U16Printed(b: bytes, o: nat, v: u16)
    requires o + 2 <= |b| && b[o..o + 2] == BE(2, v)
    ensures U16(b, o) == v
  {
    Powers();
    ValueOfBE(2, v);
  }

  lemma U32Printed(b: bytes, o: nat, v: u32)
    requires o + 4 <= |b| && b[o..o + 4] == BE(4, v)
    ensures U32(b, o) == v
  {
    Powers();
    ValueOfBE(4, v);
  }

  /** Short fields, octet by octet. */
  lemma TwoOctets(v: nat)
    requires v < 0x1_0000
    ensures BE(2, v) == [v / 256, v % 256]
  {
    assert BE(1, v / 256) == [v / 256] by { OneLast(v / 256); }
  }

  lemma OneLast(v: nat)
    requires v < 256
    ensures BE(1, v) == [v]
  {
    assert BE(0, v / 256) == [];
  }

  lemma FourOctets(v: nat)
    requires v < 0x1_0000_0000
    ensures BE(4, v) == [v / 0x100_0000, v / 0x1_0000 % 256, v / 256 % 256, v % 256]
  {
    TwoOctets(v / 256 / 256);
    assert BE(3, v / 256) == BE(2, v / 256 / 256) + [v / 256 % 256];
  }

  /** A slice of a suffix is a slice. */
  lemma Shift(b: bytes, start: nat, i: nat, j: nat)
    requires i <= j && start + j <= |b|
    ensures b[start..][i..j] == b[start + i..start + j]
  {
  }

  /** Consecutive slices glue together. */
  lemma Glue(b: bytes, i: nat, j: nat)
    requires i <= j <= |b|
    ensures b[..i] + b[i..j] == b[..j]
  {
  }
}
