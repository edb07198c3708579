/** The end-marker encoding of shard identifiers: the bits, a one, and zeros up to the next byte. */
module ShardCodec {
  import opened Hashing
  import opened Radix
  import opened Bft

  /** The bits followed by the end marker and padding. */
  function Marked(id: ShardId): (m: seq<bool>)
    ensures |m| == 8 * (|id| / 8 + 1)
    ensures id <= m && m[|id|] && forall k :: |id| < k < |m| ==> !m[k]
  {
    id + [true] + seq(7 - |id| % 8, _ => false)
  }

  function Slice(bits: seq<bool>, k: nat): (s: seq<bool>)
    requires 8 * k + 8 <= |bits|
    ensures |s| == 8
  {
    bits[8 * k..8 * k + 8]
  }

  function Encode(id: ShardId): (b: Bytes)
    ensures |b| == |id| / 8 + 1
  {
    seq(|id| / 8 + 1, k requires 0 <= k < |id| / 8 + 1 => ByteOf(Slice(Marked(id), k)))
  }

  function BitsOf(data: Bytes): (bits: seq<bool>)
    ensures |bits| == 8 * |data| && forall i :: 0 <= i < |bits| ==> bits[i] == BitAt(data, i)
  {
    seq(8 * |data|, i requires 0 <= i < 8 * |data| => BitAt(data, i))
  }

  /** The position of the lowest set bit at or before position `k`. */
  function LastOne(b: Byte, k: nat): (r: Option<nat>)
    requires k <= 8
    ensures r.Some? ==> r.value < k && ByteBit(b, r.value) && forall j :: r.value < j < k ==> !ByteBit(b, j)
    ensures r.None? ==> forall j :: 0 <= j < k ==> !ByteBit(b, j)
    decreases k, b
  {
    if k == 0 then None else if ByteBit(b, k - 1) then Some(k - 1) else LastOne(b, k - 1)
  }

  /** The bits before the end marker, if there is one in the last byte. */
  function Decode(data: Bytes): (r: Option<ShardId>) {
    if data == [] then None
    else
      match LastOne(data[|data| - 1], 8)
      case None => None
      case Some(k) => Some(BitsOf(data)[..8 * (|data| - 1) + k])
  }

  /** The decoder's loop, shifting the last byte right until a one falls out. */
  method DecodeBytes(data: Bytes) returns (r: Option<ShardId>)
    ensures r == Decode(data)
  {
    hide BitsOf, ByteBit;
    if data == [] {
      return None;
    }
    var last := data[|data| - 1];
    var shifted: nat, i := last, 8;
    LowestBit(last);
    while i >= 1
      invariant 0 <= i <= 8
      invariant i >= 1 ==> shifted == last / Weight(i - 1)
      invariant LastOne(last, 8) == LastOne(last, i)
    {
      BitByShift(last, i);
      if shifted % 2 == 1 {
        return Some(BitsOf(data)[..8 * (|data| - 1) + (i - 1)]);
      }
      shifted, i := shifted / 2, i - 1;
    }
    return None;
  }

  lemma LowestBit(b: Byte)
    ensures b == b / Weight(7)
  {
  }

  lemma BitByShift(b: Byte, i: nat)
    requires 1 <= i <= 8
    ensures (b / Weight(i - 1)) % 2 == 1 <==> ByteBit(b, i - 1)
    ensures i >= 2 ==> (b / Weight(i - 1)) / 2 == b / Weight(i - 2)
  {
    if i >= 2 {
      Halving(b, i - 1);
    }
  }

  lemma EncodedBits(id: ShardId)
    ensures BitsOf(Encode(id)) == Marked(id)
  {
    hide ByteOf, ByteBit, Marked;
    var m, bits := Marked(id), BitsOf(Encode(id));
    forall i | 0 <= i < |bits| ensures bits[i] == m[i] {
      BitsOfByteOf(Slice(m, i / 8), i % 8);
      assert 8 * (i / 8) + i % 8 == i;
    }
  }

  lemma LastByteBits(data: Bytes, k: nat)
    requires data != [] && k < 8
    ensures BitsOf(data)[8 * (|data| - 1) + k] == ByteBit(data[|data| - 1], k)
  {
    hide ByteBit;
    var i := 8 * (|data| - 1) + k;
    assert i / 8 == |data| - 1 && i % 8 == k;
  }

  /** Every identifier is read back from its encoding. */
  lemma DecodeEncode(id: ShardId)
    ensures Decode(Encode(id)) == Some(id)
  {
    hide ByteBit, Encode, Marked, BitsOf;
    var data, m, r := Encode(id), Marked(id), |id| % 8;
    EncodedBits(id);
    LastByteBits(data, r);
    assert 8 * (|data| - 1) + r == |id| && m[..|id|] == id;
    assert ByteBit(data[|data| - 1], r);
    var last := LastOne(data[|data| - 1], 8);
    if last.Some? && last.value > r {
      LastByteBits(data, last.value);
    }
  }

  /** Every accepted byte string is the encoding of what it was read as. */
  lemma EncodeDecode(data: Bytes)
    requires Decode(data).Some?
    ensures Encode(Decode(data).value) == data
  {
    hide ByteBit, Encode, BitsOf, Marked;
    var id, bits := Decode(data).value, BitsOf(data);
    var k := LastOne(data[|data| - 1], 8).value;
    assert |id| / 8 == |data| - 1 && |id| % 8 == k;
    LastByteBits(data, k);
    forall i | 0 <= i < |bits| ensures Marked(id)[i] == bits[i] {
      if i > |id| {
        LastByteBits(data, i - 8 * (|data| - 1));
      } else if i < |id| {
        assert Marked(id)[i] == id[i];
      }
    }
    EncodedBits(id);
    assert forall i :: 0 <= i < |bits| ==> BitsOf(Encode(id))[i] == bits[i];
    BitsDetermine(Encode(id), data);
  }

  lemma BitsDetermine(a: Bytes, b: Bytes)
    requires |a| == |b| && forall i :: 0 <= i < 8 * |a| ==> BitsOf(a)[i] == BitsOf(b)[i]
    ensures a == b
  {
    hide ByteBit;
    forall i | 0 <= i < |a| * 8 ensures BitAt(a, i) == BitAt(b, i) {
      assert BitsOf(a)[i] == BitsOf(b)[i];
    }
    EqualFromBits(a, b);
  }
}
