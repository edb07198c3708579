/** MSB-first bit addressing of byte strings, and the radix regions committed by tree nodes. */
module Radix {
  import opened Hashing

  const KEY_BITS: nat := 256

  /** The value of bit `k` of a byte, counting from the most significant one. */
  function Weight(k: nat): (w: nat)
    requires k < 8
    ensures w > 0
  {
    if k == 0 then 128 else if k == 1 then 64 else if k == 2 then 32 else if k == 3 then 16
    else if k == 4 then 8 else if k == 5 then 4 else if k == 6 then 2 else 1
  }

  /** Bit `k` (most significant first) of one byte. */
  predicate ByteBit(b: Byte, k: nat)
    requires k < 8
  {
    (b / Weight(k)) % 2 == 1
  }

  predicate BitAt(data: Bytes, index: nat)
    requires index < |data| * 8
  {
    ByteBit(data[index / 8], index % 8)
  }

  function Bit(b: Byte, k: nat): (v: nat)
    requires k < 8
    ensures v <= 1
  {
    if ByteBit(b, k) then 1 else 0
  }

  /** Dropping one more low bit halves the quotient. */
  lemma Halving(b: Byte, k: nat)
    requires 0 < k < 8
    ensures b / Weight(k) == 2 * (b / Weight(k - 1)) + Bit(b, k)
  {
    assert (b / Weight(k)) / 2 == b / Weight(k - 1);
  }

  /** A byte is the weighted sum of its bits. */
  lemma ByteValue(b: Byte)
    ensures b == 128 * Bit(b, 0) + 64 * Bit(b, 1) + 32 * Bit(b, 2) + 16 * Bit(b, 3)
              + 8 * Bit(b, 4) + 4 * Bit(b, 5) + 2 * Bit(b, 6) + Bit(b, 7)
  {
    Halving(b, 1); Halving(b, 2); Halving(b, 3); Halving(b, 4);
    Halving(b, 5); Halving(b, 6); Halving(b, 7);
    assert b / Weight(0) == Bit(b, 0);
    assert b / Weight(7) == b;
  }

  /** A byte is determined by its eight bits. */
  lemma ByteFromBits(a: Byte, b: Byte)
    requires forall k :: 0 <= k < 8 ==> ByteBit(a, k) == ByteBit(b, k)
    ensures a == b
  {
    assert forall k :: 0 <= k < 8 ==> Bit(a, k) == Bit(b, k);
    ByteValue(a);
    ByteValue(b);
  }

  /** Byte strings of one length that agree on every bit are equal. */
  lemma EqualFromBits(a: Bytes, b: Bytes)
    requires |a| == |b|
    requires forall i :: 0 <= i < |a| * 8 ==> BitAt(a, i) == BitAt(b, i)
    ensures a == b
  {
    forall j | 0 <= j < |a| ensures a[j] == b[j] {
      forall k | 0 <= k < 8 ensures ByteBit(a[j], k) == ByteBit(b[j], k) {
        var i := j * 8 + k;
        assert i / 8 == j && i % 8 == k;
        assert BitAt(a, i) == BitAt(b, i);
      }
      ByteFromBits(a[j], b[j]);
    }
  }

  function Sum8(a: seq<nat>): (v: nat)
    requires |a| == 8
  {
    128 * a[0] + 64 * a[1] + 32 * a[2] + 16 * a[3] + 8 * a[4] + 4 * a[5] + 2 * a[6] + a[7]
  }

  /** The byte with the given bits. */
  function ByteOf(x: seq<bool>): (b: Byte)
    requires |x| == 8
  {
    Sum8(seq(8, k requires 0 <= k < 8 => if x[k] then 1 else 0))
  }

  /** Binary expansions are unique. */
  lemma UniqueExpansion(a: seq<nat>, b: seq<nat>)
    requires |a| == |b| == 8 && Sum8(a) == Sum8(b)
    requires forall k :: 0 <= k < 8 ==> a[k] <= 1 && b[k] <= 1
    ensures a == b
  {
    assert a[0] == b[0];
    assert a[1] == b[1];
    assert a[2] == b[2];
    assert a[3] == b[3];
    assert a[4] == b[4];
    assert a[5] == b[5];
    assert a[6] == b[6];
  }

  lemma BitsOfByteOf(x: seq<bool>, k: nat)
    requires |x| == 8 && k < 8
    ensures ByteBit(ByteOf(x), k) == x[k]
  {
    var b := ByteOf(x);
    ByteValue(b);
    var expected: seq<nat> := seq(8, k requires 0 <= k < 8 => if x[k] then 1 else 0);
    var actual: seq<nat> := seq(8, k requires 0 <= k < 8 => Bit(b, k));
    UniqueExpansion(expected, actual);
    assert expected[k] == actual[k];
  }

  /** The byte masked to its first `bits` bits. */
  function MaskHigh(b: Byte, bits: nat): (r: Byte)
    requires bits < 8
    ensures forall k :: 0 <= k < 8 ==> ByteBit(r, k) == (k < bits && ByteBit(b, k))
  {
    var x := seq(8, k requires 0 <= k < 8 => k < bits && ByteBit(b, k));
    assert forall k :: 0 <= k < 8 ==> ByteBit(ByteOf(x), k) == x[k] by {
      forall k | 0 <= k < 8 ensures ByteBit(ByteOf(x), k) == x[k] { BitsOfByteOf(x, k); }
    }
    ByteOf(x)
  }

  /** The canonical region of a junction at `depth`, bit by bit: bits below `depth` kept, all
      others cleared. */
  function RegionOf(key: Digest, depth: nat): (region: Digest)
    requires depth < KEY_BITS
  {
    seq(32, j requires 0 <= j < 32 =>
      ByteOf(seq(8, k requires 0 <= k < 8 => j * 8 + k < depth && BitAt(key, j * 8 + k))))
  }

  lemma RegionBits(key: Digest, depth: nat, i: nat)
    requires depth < KEY_BITS && i < KEY_BITS
    ensures BitAt(RegionOf(key, depth), i) == (i < depth && BitAt(key, i))
  {
    var j, k := i / 8, i % 8;
    BitsOfByteOf(seq(8, k requires 0 <= k < 8 => j * 8 + k < depth && BitAt(key, j * 8 + k)), k);
  }

  /** Copy whole bytes, mask the boundary byte, and leave the rest zero. */
  method PrefixRegion(key: Digest, depth: nat) returns (region: array<Byte>)
    requires depth < KEY_BITS
    ensures fresh(region) && region[..] == RegionOf(key, depth)
  {
    region := new Byte[32](_ => 0);
    var fullBytes := depth / 8;
    var prefixBits := depth % 8;
    for j := 0 to fullBytes
      invariant forall m :: 0 <= m < 32 ==> region[m] == if m < j then key[m] else 0
    {
      region[j] := key[j];
    }
    if prefixBits != 0 {
      region[fullBytes] := MaskHigh(key[fullBytes], prefixBits);
    }
    MaskNothing(key[fullBytes]);
    forall j | 0 <= j < 32 ensures region[j] == RegionOf(key, depth)[j] {
      RegionByte(key, depth, j);
    }
  }

  /** Byte `j` of the region, as the byte-wise construction computes it. */
  function RegionByteOf(key: Digest, depth: nat, j: nat): (b: Byte)
    requires depth < KEY_BITS && j < 32
  {
    if j < depth / 8 then key[j] else if j == depth / 8 then MaskHigh(key[j], depth % 8) else 0
  }

  lemma RegionByteBit(key: Digest, depth: nat, j: nat, k: nat)
    requires depth < KEY_BITS && j < 32 && k < 8
    ensures ByteBit(RegionByteOf(key, depth, j), k) == (j * 8 + k < depth && BitAt(key, j * 8 + k))
  {
    var i := j * 8 + k;
    assert i / 8 == j && i % 8 == k;
    assert !ByteBit(0, k);
  }

  lemma RegionByte(key: Digest, depth: nat, j: nat)
    requires depth < KEY_BITS && j < 32
    ensures RegionOf(key, depth)[j] == RegionByteOf(key, depth, j)
  {
    var x := seq(8, k requires 0 <= k < 8 => j * 8 + k < depth && BitAt(key, j * 8 + k));
    forall k | 0 <= k < 8 ensures ByteBit(ByteOf(x), k) == ByteBit(RegionByteOf(key, depth, j), k) {
      BitsOfByteOf(x, k);
      RegionByteBit(key, depth, j, k);
    }
    ByteFromBits(ByteOf(x), RegionByteOf(key, depth, j));
  }

  lemma MaskNothing(b: Byte)
    ensures MaskHigh(b, 0) == 0
  {
    assert forall k :: 0 <= k < 8 ==> !ByteBit(0, k);
    ByteFromBits(MaskHigh(b, 0), 0);
  }

  /** Two keys have the same region at `depth` exactly when they agree on every bit below it. */
  lemma RegionIsPrefix(a: Digest, b: Digest, depth: nat)
    requires depth < KEY_BITS
    ensures RegionOf(a, depth) == RegionOf(b, depth)
       <==> forall i :: 0 <= i < depth ==> BitAt(a, i) == BitAt(b, i)
  {
    var ra, rb := RegionOf(a, depth), RegionOf(b, depth);
    forall i | 0 <= i < KEY_BITS
      ensures BitAt(ra, i) == (i < depth && BitAt(a, i)) && BitAt(rb, i) == (i < depth && BitAt(b, i))
    {
      RegionBits(a, depth, i);
      RegionBits(b, depth, i);
    }
    if forall i :: 0 <= i < depth ==> BitAt(a, i) == BitAt(b, i) {
      EqualFromBits(ra, rb);
    }
  }
}
