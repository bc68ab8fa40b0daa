/** Bit-level views of the bytes of a JTAG vector and of the words of a 32-pin port. */
module Bits {

  /** Bit `j` of a byte, as `(b >> j) & 1`; a shift by the full width gives 0. */
  predicate Bit(b: bv8, j: nat)
    requires j <= 8
  {
    (b >> j) & 1 == 1
  }

  function Flag8(v: bool): bv8 { if v then 1 else 0 }

  function Flag32(v: bool): bv32 { if v then 1 else 0 }

  /** The level of pin `p` in a port word. */
  predicate Level(v: bv32, p: bv5)
  {
    (v >> p) & 1 == 1
  }

  /** `1 << (pin & 0x1F)` */
  function Mask(p: bv5): bv32 { 1 << p }

  /** `b |= v << j` */
  function OrAt(b: bv8, j: nat, v: bool): bv8
    requires j < 8
  {
    b | (Flag8(v) << j)
  }

  /** OR-ing a flag into position `j` touches that position only. */
  lemma OrBit(b: bv8, j: nat, v: bool, i: nat)
    requires i < 8 && j < 8
    ensures Bit(OrAt(b, j, v), i) == if i == j then v || Bit(b, i) else Bit(b, i)
  {
    if j < 4 {
      if j == 0 {} else if j == 1 {} else if j == 2 {}
    } else {
      if j == 4 {} else if j == 5 {} else if j == 6 {}
    }
  }

  lemma FlagLevel(p: bv5, v: bool, q: bv5)
    ensures Level(Flag32(v) << p, q) <==> v && p == q
  {
  }

  lemma MaskLevel(p: bv5, q: bv5)
    ensures Level(Mask(p), q) <==> p == q
  {
  }

  /** What a store to SODR or CODR does to the output levels. */
  function Raised(v: bv32, mask: bv32): bv32 { v | mask }

  function Lowered(v: bv32, mask: bv32): bv32 { v & !mask }

  lemma RaisedLevel(v: bv32, m: bv32, q: bv5)
    ensures Level(Raised(v, m), q) <==> Level(v, q) || Level(m, q)
  {
  }

  lemma LoweredLevel(v: bv32, m: bv32, q: bv5)
    ensures Level(Lowered(v, m), q) <==> Level(v, q) && !Level(m, q)
  {
  }

  /** Number of bytes that hold `bits` bits. */
  function BytesFor(bits: nat): nat { (bits + 7) / 8 }

  /** The first `n` bits of a vector, least significant byte and bit first. */
  function Unpack(bytes: seq<bv8>, n: nat): (bits: seq<bool>)
    requires n <= 8 * |bytes|
    ensures |bits| == n
  {
    seq(n, i requires 0 <= i < n => Bit(bytes[i / 8], i % 8))
  }

  /** Byte `k` of the packed form of `bits`, built from its low `j` positions. */
  function Gather(bits: seq<bool>, k: nat, j: nat): bv8
    requires j <= 8
  {
    if j == 0 then 0
    else OrAt(Gather(bits, k, j - 1), j - 1, 8 * k + j - 1 < |bits| && bits[8 * k + j - 1])
  }

  lemma GatherStep(bits: seq<bool>, k: nat, j: nat)
    requires j < 8 && 8 * k + j < |bits|
    ensures Gather(bits, k, j + 1) == OrAt(Gather(bits, k, j), j, bits[8 * k + j])
  {
  }

  lemma BytesForBound(bits: nat)
    ensures 8 * BytesFor(bits) - 8 < bits <= 8 * BytesFor(bits) || bits == BytesFor(bits) == 0
  {
  }

  lemma UnpackAt(bytes: seq<bv8>, n: nat, k: nat, j: nat)
    requires n <= 8 * |bytes| && j < 8 && 8 * k + j < n
    ensures Unpack(bytes, n)[8 * k + j] == Bit(bytes[k], j)
  {
    assert (8 * k + j) / 8 == k && (8 * k + j) % 8 == j;
  }

  /** Packs bits into bytes; the padding of the last byte is zero. */
  function Pack(bits: seq<bool>): seq<bv8>
  {
    seq(BytesFor(|bits|), k requires 0 <= k => Gather(bits, k, 8))
  }

  lemma {:induction false} GatherBit(bits: seq<bool>, k: nat, j: nat, i: nat)
    requires j <= 8 && i < 8
    ensures Bit(Gather(bits, k, j), i) == (i < j && 8 * k + i < |bits| && bits[8 * k + i])
  {
    if j > 0 {
      GatherBit(bits, k, j - 1, i);
      OrBit(Gather(bits, k, j - 1), j - 1, 8 * k + j - 1 < |bits| && bits[8 * k + j - 1], i);
    }
  }

  /** Positions beyond the last bit add nothing. */
  lemma {:induction false} GatherPadding(bits: seq<bool>, k: nat, i: nat, j: nat)
    requires i <= j <= 8 && |bits| <= 8 * k + i
    ensures Gather(bits, k, j) == Gather(bits, k, i)
  {
    if i < j {
      GatherPadding(bits, k, i, j - 1);
    }
  }

  /** `Pack` puts bit `8k + j` at position `j` of byte `k` and zeroes the rest. */
  lemma PackBit(bits: seq<bool>, k: nat, j: nat)
    requires k < BytesFor(|bits|) && j < 8
    ensures Bit(Pack(bits)[k], j) == (8 * k + j < |bits| && bits[8 * k + j])
  {
    GatherBit(bits, k, 8, j);
  }

  /** Packing is undone by unpacking. */
  lemma UnpackPack(bits: seq<bool>)
    ensures Unpack(Pack(bits), |bits|) == bits
  {
    forall i: nat | i < |bits| ensures Unpack(Pack(bits), |bits|)[i] == bits[i] {
      PackBit(bits, i / 8, i % 8);
    }
  }

  /** What a bit adds to the number that it is part of. */
  function Weight(v: bool, w: nat): nat { if v then w else 0 }

  lemma ByteSum(b: bv8)
    ensures b as nat
         == Weight(Bit(b, 0), 1) + Weight(Bit(b, 1), 2) + Weight(Bit(b, 2), 4) + Weight(Bit(b, 3), 8)
          + Weight(Bit(b, 4), 16) + Weight(Bit(b, 5), 32) + Weight(Bit(b, 6), 64) + Weight(Bit(b, 7), 128)
  {
  }

  /** A packed byte as a number: its bits in ascending order of their weights, with zeroes after the
      last one. */
  lemma PackSum(bits: seq<bool>, k: nat)
    requires k < BytesFor(|bits|)
    ensures var b := bits[8 * k..] + seq(8, _ => false);
      Pack(bits)[k] as nat
        == Weight(b[0], 1) + Weight(b[1], 2) + Weight(b[2], 4) + Weight(b[3], 8)
         + Weight(b[4], 16) + Weight(b[5], 32) + Weight(b[6], 64) + Weight(b[7], 128)
  {
    ghost var b := bits[8 * k..] + seq(8, _ => false);
    forall j: nat | j < 8 ensures Bit(Pack(bits)[k], j) == b[j] {
      PackBit(bits, k, j);
    }
    hide Bit, Pack;
    ByteSum(Pack(bits)[k]);
  }

  /** The bits that are taken from a byte, in ascending order, are those of its value. */
  lemma UnpackSum(bytes: seq<bv8>, k: nat)
    requires k < |bytes|
    ensures var b := Unpack(bytes, 8 * |bytes|)[8 * k..8 * k + 8];
      bytes[k] as nat
        == Weight(b[0], 1) + Weight(b[1], 2) + Weight(b[2], 4) + Weight(b[3], 8)
         + Weight(b[4], 16) + Weight(b[5], 32) + Weight(b[6], 64) + Weight(b[7], 128)
  {
    forall j: nat | j < 8 ensures Unpack(bytes, 8 * |bytes|)[8 * k..8 * k + 8][j] == Bit(bytes[k], j) {
      UnpackAt(bytes, 8 * |bytes|, k, j);
    }
    hide Bit, Unpack;
    ByteSum(bytes[k]);
  }
}
