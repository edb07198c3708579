/** Heads of canonical CBOR items (section 4.2 of RFC 8949): the shortest form on the way out, and
    nothing but the shortest form on the way in.
 */
module CborHead {
  import opened Hashing

  const TWO_64: nat := 0x1_0000_0000_0000_0000

  type U64 = x: nat | x < TWO_64

  // Major types: the three high bits of the initial byte.
  const UINT: nat := 0
  const NEGINT: nat := 1
  const BYTES: nat := 2
  const TEXT: nat := 3
  const ARRAY: nat := 4
  const MAP: nat := 5
  const TAG: nat := 6
  const SIMPLE: nat := 7

  const NULL: Byte := 0xf6

  datatype CborError =
    | UnexpectedEof
    | UnsupportedAdditionalInfo
    | NonCanonicalEncoding
    | IntegerOverflow
    | LimitExceeded
    | TrailingBytes
    | UnexpectedMajorType
    | UnexpectedArrayLength
    | UnexpectedTag
    | DuplicateMapKey
    | NonCanonicalMapOrder

  datatype Result<+T> = Ok(value: T) | Err(error: CborError)
  {
    predicate IsFailure() { Err? }

    function PropagateFailure<U>(): Result<U>
      requires Err?
    {
      Err(error)
    }

    function Extract(): T
      requires Ok?
    {
      value
    }
  }

  datatype Head = Head(major: nat, arg: nat, len: nat)

  lemma Pow256Values()
    ensures Pow256(1) == 0x100 && Pow256(2) == 0x1_0000
    ensures Pow256(4) == 0x1_0000_0000 && Pow256(8) == TWO_64
  {
    assert Pow256(3) == 0x100_0000 && Pow256(5) == 0x100_0000_0000;
    assert Pow256(6) == 0x1_0000_0000_0000 && Pow256(7) == 0x100_0000_0000_0000;
  }

  /** The number of argument bytes announced by the additional information of a long head. */
  function Width(info: nat): (w: nat)
    requires 24 <= info <= 27
    ensures w == 1 || w == 2 || w == 4 || w == 8
  {
    if info == 24 then 1 else if info == 25 then 2 else if info == 26 then 4 else 8
  }

  /** The least argument for which a long head is the shortest form. */
  function Minimum(info: nat): (m: nat)
    requires 24 <= info <= 27
  {
    if info == 24 then 24 else if info == 25 then 0x100 else if info == 26 then 0x1_0000 else 0x1_0000_0000
  }

  /** The additional information with which `value` is encoded. */
  function InfoFor(value: U64): (info: nat)
    ensures info <= 27
    ensures info < 24 ==> info == value
    ensures info >= 24 ==> Minimum(info) <= value < Pow256(Width(info))
  {
    Pow256Values();
    if value < 24 then value
    else if value <= 0xff then 24
    else if value <= 0xffff then 25
    else if value <= 0xffff_ffff then 26
    else 27
  }

  function EncodeHead(major: nat, value: U64): (b: Bytes)
    requires major < 8
    ensures 1 <= |b| <= 9
  {
    var info := InfoFor(value);
    [major * 32 + info] + if info < 24 then [] else ToBE(value, Width(info))
  }

  function ReadHead(bytes: Bytes): (r: Result<Head>)
    ensures r.Ok? ==> 1 <= r.value.len <= 9 && r.value.len <= |bytes| && r.value.major < 8
  {
    if |bytes| == 0 then Err(UnexpectedEof)
    else
      var major, info := bytes[0] / 32, bytes[0] % 32;
      if info < 24 then Ok(Head(major, info, 1))
      else if info > 27 then Err(UnsupportedAdditionalInfo)
      else if |bytes| < 1 + Width(info) then Err(UnexpectedEof)
      else
        var arg := FromBE(bytes[1..1 + Width(info)]);
        if arg < Minimum(info) then Err(NonCanonicalEncoding) else Ok(Head(major, arg, 1 + Width(info)))
  }

  /** Decoding inverts encoding, whatever follows the head. */
  lemma ReadEncoded(major: nat, value: U64, rest: Bytes)
    requires major < 8
    ensures ReadHead(EncodeHead(major, value) + rest) == Ok(Head(major, value, |EncodeHead(major, value)|))
  {
    var info := InfoFor(value);
    var b := EncodeHead(major, value) + rest;
    assert b[0] == major * 32 + info && b[0] / 32 == major && b[0] % 32 == info;
    if info >= 24 {
      assert b[1..1 + Width(info)] == ToBE(value, Width(info));
      FromToBE(value, Width(info));
    }
  }

  /** Every accepted head is the canonical encoding of what it was read as. */
  lemma EncodeRead(bytes: Bytes)
    requires ReadHead(bytes).Ok?
    ensures var h := ReadHead(bytes).value;
            h.arg < TWO_64 && EncodeHead(h.major, h.arg) == bytes[..h.len]
  {
    hide ToBE, FromBE, Pow256;
    var h := ReadHead(bytes).value;
    var info := bytes[0] % 32;
    if info >= 24 {
      var argument := bytes[1..1 + Width(info)];
      ToFromBE(argument);
      Pow256Values();
      assert InfoFor(h.arg) == info;
      assert bytes[..h.len] == [bytes[0]] + argument;
    }
  }

  /** Only the bytes of the head matter. */
  lemma ReadLocal(a: Bytes, b: Bytes)
    requires ReadHead(a).Ok? && ReadHead(a).value.len <= |b| && a[..ReadHead(a).value.len] == b[..ReadHead(a).value.len]
    ensures ReadHead(b) == ReadHead(a)
  {
    var n := ReadHead(a).value.len;
    assert a[0] == a[..n][0] && b[0] == b[..n][0];
    if n > 1 {
      assert a[1..n] == a[..n][1..] && b[1..n] == b[..n][1..];
    }
  }

  lemma HeadInjective(m: nat, v: U64, s: Bytes, m': nat, v': U64, s': Bytes)
    requires m < 8 && m' < 8 && EncodeHead(m, v) + s == EncodeHead(m', v') + s'
    ensures m == m' && v == v' && s == s'
  {
    ReadEncoded(m, v, s);
    ReadEncoded(m', v', s');
    var b := EncodeHead(m, v) + s;
    var n := |EncodeHead(m, v)|;
    assert s == b[n..] && s' == b[n..];
  }

  // ---- scalar encoders ----

  function EncodeUint(v: U64): (b: Bytes) { EncodeHead(UINT, v) }

  function EncodeByteString(data: Bytes): (b: Bytes)
    requires |data| < TWO_64
  {
    EncodeHead(BYTES, |data|) + data
  }

  function EncodeTextString(data: Bytes): (b: Bytes)
    requires |data| < TWO_64
  {
    EncodeHead(TEXT, |data|) + data
  }

  function EncodeNull(): (b: Bytes) { [NULL] }

  function Concat(items: seq<Bytes>): (b: Bytes) {
    if items == [] then [] else items[0] + Concat(items[1..])
  }

  function EncodeArray(items: seq<Bytes>): (b: Bytes)
    requires |items| < TWO_64
  {
    EncodeHead(ARRAY, |items|) + Concat(items)
  }

  function EncodeTag(tag: U64, content: Bytes): (b: Bytes) { EncodeHead(TAG, tag) + content }

  lemma UintInjective(a: U64, b: U64)
    requires EncodeUint(a) == EncodeUint(b)
    ensures a == b
  {
    assert EncodeUint(a) + [] == EncodeUint(a) && EncodeUint(b) + [] == EncodeUint(b);
    HeadInjective(UINT, a, [], UINT, b, []);
  }

  lemma ByteStringInjective(a: Bytes, b: Bytes)
    requires |a| < TWO_64 && |b| < TWO_64 && EncodeByteString(a) == EncodeByteString(b)
    ensures a == b
  {
    HeadInjective(BYTES, |a|, a, BYTES, |b|, b);
  }

  lemma TextStringInjective(a: Bytes, b: Bytes)
    requires |a| < TWO_64 && |b| < TWO_64 && EncodeTextString(a) == EncodeTextString(b)
    ensures a == b
  {
    HeadInjective(TEXT, |a|, a, TEXT, |b|, b);
  }

  lemma TagInjective(t: U64, a: Bytes, t': U64, b: Bytes)
    requires EncodeTag(t, a) == EncodeTag(t', b)
    ensures t == t' && a == b
  {
    HeadInjective(TAG, t, a, TAG, t', b);
  }

  /** `null` is the head of no unsigned integer and no byte string. */
  lemma NullIsNoValue(m: nat, v: U64, s: Bytes)
    requires m < 7
    ensures EncodeHead(m, v) + s != EncodeNull()
  {
    assert (EncodeHead(m, v) + s)[0] / 32 == m;
  }
}
