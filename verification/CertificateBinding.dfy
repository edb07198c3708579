/** What a seal commits to.  The hash in a seal fixes, for every shard of a partition, the whole rest of
    the certificate: input record, technical record, configuration and both paths.  It even fixes which
    shard a key belongs to.
 */
module CertificateBinding {
  import opened Hashing
  import opened CborHead
  import opened CborScan
  import opened Bft

  // ---- preimages ----

  /** The bytes hashed for the leaf of a shard. */
  function LeafBytes(uc: UnicityCertificate): (b: Bytes) {
    InputRecordCbor(uc.inputRecord) + EncodeNullableBytes(uc.technicalRecordHash) + EncodeByteString(uc.shardConfHash)
  }

  function PairBytes(left: Data, right: Data): (b: Bytes) { EncodeByteString(left) + EncodeByteString(right) }

  /** The shard tree hash reached by the first `n` siblings. */
  function ShardAt(H: Hash, uc: UnicityCertificate, n: nat): (d: Data)
    requires n <= |uc.shardTree.siblings| && n <= |uc.shardTree.shard|
  {
    ShardFold(H, uc.shardTree.shard, uc.shardTree.siblings,
              ShardLeafHash(H, uc.inputRecord, uc.technicalRecordHash, uc.shardConfHash), n)
  }

  /** The bytes whose digest that is. */
  function ShardTop(H: Hash, uc: UnicityCertificate, n: nat): (b: Bytes)
    requires n <= |uc.shardTree.siblings| && n <= |uc.shardTree.shard|
    ensures H(b) == ShardAt(H, uc, n)
  {
    if n == 0 then LeafBytes(uc)
    else if uc.shardTree.shard[|uc.shardTree.shard| - n]
    then PairBytes(uc.shardTree.siblings[n - 1], ShardAt(H, uc, n - 1))
    else PairBytes(ShardAt(H, uc, n - 1), uc.shardTree.siblings[n - 1])
  }

  ghost function ShardHashed(H: Hash, uc: UnicityCertificate, n: nat): (s: set<Bytes>)
    requires n <= |uc.shardTree.siblings| && n <= |uc.shardTree.shard|
  {
    {ShardTop(H, uc, n)} + if n == 0 then {} else ShardHashed(H, uc, n - 1)
  }

  function PartitionLeafBytes(H: Hash, partition: U32, root: Data): (b: Bytes) {
    EncodeByteString([0x01]) + EncodeByteString(KeyBytes(partition)) + EncodeByteString(H(EncodeByteString(root)))
  }

  function PartitionNodeBytes(key: U32, left: Data, right: Data): (b: Bytes) {
    EncodeByteString([0x00]) + EncodeByteString(KeyBytes(key)) + EncodeByteString(left) + EncodeByteString(right)
  }

  /** The bytes whose digest the first `n` steps of the partition path reach. */
  function PartitionTop(H: Hash, utc: UnicityTreeCertificate, root: Data, n: nat): (b: Bytes)
    requires n <= |utc.steps|
    ensures H(b) == PartitionFold(H, utc, root, n)
  {
    if n == 0 then PartitionLeafBytes(H, utc.partition, root)
    else
      var below, step := PartitionFold(H, utc, root, n - 1), utc.steps[n - 1];
      if utc.partition > step.key then PartitionNodeBytes(step.key, step.hash, below)
      else PartitionNodeBytes(step.key, below, step.hash)
  }

  ghost function PartitionHashed(H: Hash, utc: UnicityTreeCertificate, root: Data, n: nat): (s: set<Bytes>)
    requires n <= |utc.steps|
  {
    {PartitionTop(H, utc, root, n)} + if n == 0 then {EncodeByteString(root)} else PartitionHashed(H, utc, root, n - 1)
  }

  /** Every byte string hashed to compute the hash that a certificate's seal must carry. */
  ghost function CertificateHashed(H: Hash, uc: UnicityCertificate): (s: set<Bytes>) {
    match ShardRoot(H, uc)
    case None => {}
    case Some(root) =>
      ShardHashed(H, uc, |uc.shardTree.siblings|)
      + PartitionHashed(H, uc.unicityTree, root, |uc.unicityTree.steps|)
  }

  // ---- the encodings fall apart in one way ----

  lemma ByteStringFirst(x: Data, s: Bytes, y: Data, t: Bytes)
    requires EncodeByteString(x) + s == EncodeByteString(y) + t
    ensures x == y && s == t
  {
    hide EncodeByteString, Item;
    ByteStringItem(x);
    ByteStringItem(y);
    PrefixFree(EncodeByteString(x), s, EncodeByteString(y), t);
    ByteStringInjective(x, y);
  }

  lemma PairInjective(l: Data, r: Data, l': Data, r': Data)
    requires PairBytes(l, r) == PairBytes(l', r')
    ensures l == l' && r == r'
  {
    hide EncodeByteString;
    ByteStringFirst(l, EncodeByteString(r), l', EncodeByteString(r'));
    ByteStringInjective(r, r');
  }

  lemma KeyInjective(a: U32, b: U32)
    requires KeyBytes(a) == KeyBytes(b)
    ensures a == b
  {
    Fits32(a);
    Fits32(b);
    FromToBE(a, 4);
    FromToBE(b, 4);
  }

  lemma PartitionLeafInjective(H: Hash, p: U32, r: Data, p': U32, r': Data)
    requires PartitionLeafBytes(H, p, r) == PartitionLeafBytes(H, p', r')
    ensures p == p' && H(EncodeByteString(r)) == H(EncodeByteString(r'))
  {
    hide EncodeByteString, KeyBytes;
    var d: Data, d': Data := H(EncodeByteString(r)), H(EncodeByteString(r'));
    var k: Data, k': Data := KeyBytes(p), KeyBytes(p');
    var one: Data := [0x01];
    assert PartitionLeafBytes(H, p, r) == EncodeByteString(one) + (EncodeByteString(k) + EncodeByteString(d));
    assert PartitionLeafBytes(H, p', r') == EncodeByteString(one) + (EncodeByteString(k') + EncodeByteString(d'));
    ByteStringFirst(one, EncodeByteString(k) + EncodeByteString(d), one, EncodeByteString(k') + EncodeByteString(d'));
    ByteStringFirst(k, EncodeByteString(d), k', EncodeByteString(d'));
    ByteStringInjective(d, d');
    KeyInjective(p, p');
  }

  lemma PartitionNodeInjective(k: U32, l: Data, r: Data, k': U32, l': Data, r': Data)
    requires PartitionNodeBytes(k, l, r) == PartitionNodeBytes(k', l', r')
    ensures k == k' && l == l' && r == r'
  {
    hide EncodeByteString, KeyBytes;
    var b: Data, b': Data := KeyBytes(k), KeyBytes(k');
    var zero: Data := [0x00];
    assert PartitionNodeBytes(k, l, r) == EncodeByteString(zero) + (EncodeByteString(b) + PairBytes(l, r));
    assert PartitionNodeBytes(k', l', r') == EncodeByteString(zero) + (EncodeByteString(b') + PairBytes(l', r'));
    ByteStringFirst(zero, EncodeByteString(b) + PairBytes(l, r), zero, EncodeByteString(b') + PairBytes(l', r'));
    ByteStringFirst(b, PairBytes(l, r), b', PairBytes(l', r'));
    PairInjective(l, r, l', r');
    KeyInjective(k, k');
  }

  /** No leaf of the partition tree is hashed from the same bytes as an inner node. */
  lemma LeafIsNoNode(H: Hash, p: U32, root: Data, k: U32, l: Data, r: Data)
    ensures PartitionLeafBytes(H, p, root) != PartitionNodeBytes(k, l, r)
  {
    hide EncodeByteString, KeyBytes;
    var one: Data, zero: Data := [0x01], [0x00];
    var s := EncodeByteString(KeyBytes(p)) + EncodeByteString(H(EncodeByteString(root)));
    var t := EncodeByteString(KeyBytes(k)) + PairBytes(l, r);
    assert PartitionLeafBytes(H, p, root) == EncodeByteString(one) + s;
    assert PartitionNodeBytes(k, l, r) == EncodeByteString(zero) + t;
    assert one[0] != zero[0];
    if EncodeByteString(one) + s == EncodeByteString(zero) + t {
      ByteStringFirst(one, s, zero, t);
    }
  }

  function RecordFields(ir: InputRecord): (f: seq<Bytes>)
    ensures |f| == 10
    ensures InputRecordCbor(ir) == EncodeTag(INPUT_RECORD_TAG, EncodeArray(f))
  {
    [EncodeUint(1), EncodeUint(ir.roundNumber), EncodeUint(ir.epoch),
     EncodeNullableBytes(ir.previousHash), EncodeNullableBytes(ir.hash), EncodeNullableBytes(ir.summaryValue),
     EncodeUint(ir.timestamp), EncodeNullableBytes(ir.blockHash), EncodeUint(ir.sumOfEarnedFees),
     EncodeNullableBytes(ir.executedTransactionsHash)]
  }

  lemma RecordItems(ir: InputRecord)
    ensures Items(RecordFields(ir)) && Item(InputRecordCbor(ir))
  {
    hide Item, EncodeUint, EncodeNullableBytes, EncodeArray, EncodeTag;
    UintItem(1);
    UintItem(ir.roundNumber);
    UintItem(ir.epoch);
    NullableBytesItem(ir.previousHash);
    NullableBytesItem(ir.hash);
    NullableBytesItem(ir.summaryValue);
    UintItem(ir.timestamp);
    NullableBytesItem(ir.blockHash);
    UintItem(ir.sumOfEarnedFees);
    NullableBytesItem(ir.executedTransactionsHash);
    ArrayItem(RecordFields(ir));
    TagItem(INPUT_RECORD_TAG, EncodeArray(RecordFields(ir)));
  }

  /** The encoding of an input record determines the record. */
  lemma RecordInjective(a: InputRecord, b: InputRecord)
    requires InputRecordCbor(a) == InputRecordCbor(b)
    ensures a == b
  {
    hide Item, EncodeHead, EncodeArray, EncodeTag, EncodeUint, EncodeNullableBytes, InputRecordCbor;
    var f, g := RecordFields(a), RecordFields(b);
    TagInjective(INPUT_RECORD_TAG, EncodeArray(f), INPUT_RECORD_TAG, EncodeArray(g));
    RecordItems(a);
    RecordItems(b);
    ArrayInjective(f, g);
    assert f[1] == g[1] && f[2] == g[2] && f[3] == g[3] && f[4] == g[4] && f[5] == g[5];
    assert f[6] == g[6] && f[7] == g[7] && f[8] == g[8] && f[9] == g[9];
    UintInjective(a.roundNumber, b.roundNumber);
    UintInjective(a.epoch, b.epoch);
    NullableBytesInjective(a.previousHash, b.previousHash);
    NullableBytesInjective(a.hash, b.hash);
    NullableBytesInjective(a.summaryValue, b.summaryValue);
    UintInjective(a.timestamp, b.timestamp);
    NullableBytesInjective(a.blockHash, b.blockHash);
    UintInjective(a.sumOfEarnedFees, b.sumOfEarnedFees);
    NullableBytesInjective(a.executedTransactionsHash, b.executedTransactionsHash);
  }

  /** The certificates certify the same record. */
  predicate SameRecord(a: UnicityCertificate, b: UnicityCertificate) {
    a.inputRecord == b.inputRecord && a.technicalRecordHash == b.technicalRecordHash && a.shardConfHash == b.shardConfHash
  }

  lemma LeafInjective(a: UnicityCertificate, b: UnicityCertificate)
    requires LeafBytes(a) == LeafBytes(b)
    ensures SameRecord(a, b)
  {
    hide Item, InputRecordCbor, EncodeNullableBytes, EncodeByteString;
    var ra, rb := InputRecordCbor(a.inputRecord), InputRecordCbor(b.inputRecord);
    var ta, tb := EncodeNullableBytes(a.technicalRecordHash), EncodeNullableBytes(b.technicalRecordHash);
    var ca, cb := EncodeByteString(a.shardConfHash), EncodeByteString(b.shardConfHash);
    assert LeafBytes(a) == ra + (ta + ca) && LeafBytes(b) == rb + (tb + cb);
    RecordItems(a.inputRecord);
    RecordItems(b.inputRecord);
    PrefixFree(ra, ta + ca, rb, tb + cb);
    RecordInjective(a.inputRecord, b.inputRecord);
    NullableBytesItem(a.technicalRecordHash);
    NullableBytesItem(b.technicalRecordHash);
    PrefixFree(ta, ca, tb, cb);
    NullableBytesInjective(a.technicalRecordHash, b.technicalRecordHash);
    ByteStringInjective(a.shardConfHash, b.shardConfHash);
  }

  /** No leaf of a shard tree is hashed from the same bytes as an inner node. */
  lemma RecordIsNoPair(uc: UnicityCertificate, l: Data, r: Data)
    ensures LeafBytes(uc) != PairBytes(l, r)
  {
    hide Item, EncodeHead, EncodeArray, EncodeNullableBytes;
    var body := EncodeArray(RecordFields(uc.inputRecord));
    var s := body + EncodeNullableBytes(uc.technicalRecordHash) + EncodeByteString(uc.shardConfHash);
    var t := l + EncodeByteString(r);
    assert LeafBytes(uc) == EncodeHead(TAG, INPUT_RECORD_TAG) + s;
    assert PairBytes(l, r) == EncodeHead(BYTES, |l|) + t;
    if LeafBytes(uc) == PairBytes(l, r) {
      HeadInjective(TAG, INPUT_RECORD_TAG, s, BYTES, |l|, t);
    }
  }

  // ---- the partition path ----

  ghost predicate SamePartitionAt(H: Hash, hashed: set<Bytes>, a: UnicityTreeCertificate, ra: Data, m: nat,
                                  b: UnicityTreeCertificate, rb: Data, n: nat) {
    && !Collision(H, hashed) && a.partition == b.partition && m <= |a.steps| && n <= |b.steps|
    && PartitionHashed(H, a, ra, m) <= hashed && PartitionHashed(H, b, rb, n) <= hashed
    && PartitionFold(H, a, ra, m) == PartitionFold(H, b, rb, n)
  }

  lemma PartitionStep(H: Hash, hashed: set<Bytes>, a: UnicityTreeCertificate, ra: Data, m: nat,
                      b: UnicityTreeCertificate, rb: Data, n: nat)
    requires SamePartitionAt(H, hashed, a, ra, m, b, rb, n)
    ensures m <= |a.steps| && n <= |b.steps| && (m == 0 <==> n == 0)
    ensures m > 0 && n > 0 ==> && SamePartitionAt(H, hashed, a, ra, m - 1, b, rb, n - 1)
                               && a.steps[m - 1] == b.steps[n - 1]
  {
    hide PartitionNodeBytes, PartitionLeafBytes;
    SamePreimage(H, hashed, PartitionTop(H, a, ra, m), PartitionTop(H, b, rb, n));
    if m > 0 && n > 0 {
      var s, t := a.steps[m - 1], b.steps[n - 1];
      var x, y := PartitionFold(H, a, ra, m - 1), PartitionFold(H, b, rb, n - 1);
      var right, right' := a.partition > s.key, b.partition > t.key;
      PartitionNodeInjective(s.key, if right then s.hash else x, if right then x else s.hash,
                             t.key, if right' then t.hash else y, if right' then y else t.hash);
    } else if m > 0 {
      var s, x := a.steps[m - 1], PartitionFold(H, a, ra, m - 1);
      LeafIsNoNode(H, b.partition, rb, s.key, s.hash, x);
      LeafIsNoNode(H, b.partition, rb, s.key, x, s.hash);
    } else if n > 0 {
      var t, y := b.steps[n - 1], PartitionFold(H, b, rb, n - 1);
      LeafIsNoNode(H, a.partition, ra, t.key, t.hash, y);
      LeafIsNoNode(H, a.partition, ra, t.key, y, t.hash);
    }
  }

  lemma OneMore<T>(a: seq<T>, b: seq<T>, n: nat)
    requires 0 < n <= |a| && n <= |b| && a[..n - 1] == b[..n - 1] && a[n - 1] == b[n - 1]
    ensures a[..n] == b[..n]
  {
    assert a[..n] == a[..n - 1] + [a[n - 1]] && b[..n] == b[..n - 1] + [b[n - 1]];
  }

  /** One unicity root fixes the path and the shard tree root of a partition. */
  lemma {:induction false} PartitionSame(H: Hash, hashed: set<Bytes>, a: UnicityTreeCertificate, ra: Data, m: nat,
                                         b: UnicityTreeCertificate, rb: Data, n: nat)
    requires SamePartitionAt(H, hashed, a, ra, m, b, rb, n)
    ensures m <= |a.steps| && n <= |b.steps|
    ensures m == n && a.steps[..m] == b.steps[..n] && ra == rb
    decreases m
  {
    hide SamePartitionAt;
    PartitionStep(H, hashed, a, ra, m, b, rb, n);
    if m > 0 {
      PartitionSame(H, hashed, a, ra, m - 1, b, rb, n - 1);
      OneMore(a.steps, b.steps, m);
    } else {
      PartitionLeafSame(H, hashed, a, ra, b, rb);
    }
  }

  lemma PartitionLeafSame(H: Hash, hashed: set<Bytes>, a: UnicityTreeCertificate, ra: Data, b: UnicityTreeCertificate,
                          rb: Data)
    requires SamePartitionAt(H, hashed, a, ra, 0, b, rb, 0)
    ensures ra == rb
  {
    hide PartitionLeafBytes, EncodeByteString, PartitionFold;
    SamePreimage(H, hashed, PartitionTop(H, a, ra, 0), PartitionTop(H, b, rb, 0));
    PartitionLeafInjective(H, a.partition, ra, b.partition, rb);
    SamePreimage(H, hashed, EncodeByteString(ra), EncodeByteString(rb));
    ByteStringInjective(ra, rb);
  }

  // ---- the shard path ----

  predicate Depths(uc: UnicityCertificate) { |uc.shardTree.siblings| == |uc.shardTree.shard| }

  /** `n` levels above the leaf of `a` and `n + k` levels above that of `b`, whose shard is that of `a` or
      below it, the hashes agree. */
  ghost predicate SameShardAt(H: Hash, hashed: set<Bytes>, a: UnicityCertificate, b: UnicityCertificate, n: nat, k: nat) {
    && !Collision(H, hashed) && Depths(a) && Depths(b) && n <= |a.shardTree.shard|
    && a.shardTree.shard <= b.shardTree.shard && |b.shardTree.shard| == |a.shardTree.shard| + k
    && ShardHashed(H, a, n) <= hashed && ShardHashed(H, b, n + k) <= hashed
    && ShardAt(H, a, n) == ShardAt(H, b, n + k)
  }

  lemma ShardStep(H: Hash, hashed: set<Bytes>, a: UnicityCertificate, b: UnicityCertificate, n: nat, k: nat)
    requires SameShardAt(H, hashed, a, b, n, k) && n > 0
    ensures n <= |a.shardTree.siblings| && n + k <= |b.shardTree.siblings|
    ensures SameShardAt(H, hashed, a, b, n - 1, k)
    ensures a.shardTree.siblings[n - 1] == b.shardTree.siblings[n + k - 1]
  {
    hide PairBytes, LeafBytes, ShardLeafHash, ShardNodeHash;
    SamePreimage(H, hashed, ShardTop(H, a, n), ShardTop(H, b, n + k));
    var right := a.shardTree.shard[|a.shardTree.shard| - n];
    assert right == b.shardTree.shard[|b.shardTree.shard| - (n + k)];
    var s, t := a.shardTree.siblings[n - 1], b.shardTree.siblings[n + k - 1];
    var x, y := ShardAt(H, a, n - 1), ShardAt(H, b, n + k - 1);
    PairInjective(if right then s else x, if right then x else s, if right then t else y, if right then y else t);
  }

  lemma {:induction false} ShardSame(H: Hash, hashed: set<Bytes>, a: UnicityCertificate, b: UnicityCertificate, n: nat,
                                     k: nat)
    requires SameShardAt(H, hashed, a, b, n, k)
    ensures n <= |a.shardTree.siblings| && n + k <= |b.shardTree.siblings|
    ensures k == 0 && a.shardTree.siblings[..n] == b.shardTree.siblings[..n] && SameRecord(a, b)
    decreases n
  {
    hide SameShardAt, SameRecord;
    if n > 0 {
      ShardStep(H, hashed, a, b, n, k);
      ShardSame(H, hashed, a, b, n - 1, k);
      OneMore(a.shardTree.siblings, b.shardTree.siblings, n);
    } else {
      ShardLeafSame(H, hashed, a, b, k);
    }
  }

  lemma ShardLeafSame(H: Hash, hashed: set<Bytes>, a: UnicityCertificate, b: UnicityCertificate, k: nat)
    requires SameShardAt(H, hashed, a, b, 0, k)
    ensures k <= |b.shardTree.siblings|
    ensures k == 0 && SameRecord(a, b)
  {
    hide LeafBytes, PairBytes, SameRecord, ShardLeafHash, ShardNodeHash;
    SamePreimage(H, hashed, ShardTop(H, a, 0), ShardTop(H, b, k));
    if k > 0 {
      var t, y := b.shardTree.siblings[k - 1], ShardAt(H, b, k - 1);
      RecordIsNoPair(a, t, y);
      RecordIsNoPair(a, y, t);
    } else {
      LeafInjective(a, b);
    }
  }

  // ---- binding ----

  /** One of the shards is the other one or lies in it, as is the case when both hold one key. */
  predicate Nested(a: ShardId, b: ShardId) { a <= b || b <= a }

  lemma SameRoot(H: Hash, hashed: set<Bytes>, a: UnicityCertificate, b: UnicityCertificate)
    requires !Collision(H, hashed) && CertificateHashed(H, a) <= hashed && CertificateHashed(H, b) <= hashed
    requires ComputedSealHash(H, a).Some? && ComputedSealHash(H, a) == ComputedSealHash(H, b)
    requires a.unicityTree.partition == b.unicityTree.partition
    ensures a.unicityTree == b.unicityTree && Depths(a) && Depths(b)
    ensures ShardHashed(H, a, |a.shardTree.shard|) <= hashed && ShardHashed(H, b, |b.shardTree.shard|) <= hashed
    ensures ShardAt(H, a, |a.shardTree.shard|) == ShardAt(H, b, |b.shardTree.shard|)
  {
    hide PartitionFold, PartitionHashed, ShardHashed, ShardFold, ShardLeafHash;
    var ra, rb := ShardRoot(H, a).value, ShardRoot(H, b).value;
    PartitionSame(H, hashed, a.unicityTree, ra, |a.unicityTree.steps|, b.unicityTree, rb, |b.unicityTree.steps|);
  }

  /** The hash in a seal binds everything in a certificate but the seal: two certificates of one partition
      that compute one seal hash, and whose shards can hold one key, are of the same shard and are equal
      up to their seals, unless two of the byte strings hashed for them collide. */
  lemma SealBinds(H: Hash, a: UnicityCertificate, b: UnicityCertificate)
    requires ComputedSealHash(H, a).Some? && ComputedSealHash(H, a) == ComputedSealHash(H, b)
    requires a.unicityTree.partition == b.unicityTree.partition && Nested(a.shardTree.shard, b.shardTree.shard)
    ensures a == b.(seal := a.seal) || Collision(H, CertificateHashed(H, a) + CertificateHashed(H, b))
  {
    hide ComputedSealHash, CertificateHashed, ShardHashed, ShardFold;
    var hashed := CertificateHashed(H, a) + CertificateHashed(H, b);
    if !Collision(H, hashed) {
      SameRoot(H, hashed, a, b);
      var m, n := |a.shardTree.shard|, |b.shardTree.shard|;
      if m <= n {
        ShardSame(H, hashed, a, b, m, n - m);
      } else {
        ShardSame(H, hashed, b, a, n, m - n);
      }
      assert a.shardTree.siblings[..m] == a.shardTree.siblings && b.shardTree.siblings[..n] == b.shardTree.siblings;
    }
  }

  /** The bytes the validators sign. */
  function SealBytes(seal: UnicitySeal): (b: Bytes) {
    EncodeTag(UNICITY_SEAL_TAG, EncodeArray(SealFields(seal, EncodeNull())))
  }

  /** What the validators sign binds everything in a seal but the signatures. */
  lemma SignedSeal(H: Hash, a: UnicitySeal, b: UnicitySeal)
    requires SealHash(H, a) == SealHash(H, b)
    ensures a == b.(signatures := a.signatures) || Collision(H, {SealBytes(a), SealBytes(b)})
  {
    hide Item, EncodeHead, EncodeArray, EncodeTag, EncodeUint, EncodeNullableBytes, EncodeByteString, EncodeNull;
    var f, g := SealFields(a, EncodeNull()), SealFields(b, EncodeNull());
    if SealBytes(a) == SealBytes(b) {
      TagInjective(UNICITY_SEAL_TAG, EncodeArray(f), UNICITY_SEAL_TAG, EncodeArray(g));
      SealItems(a);
      SealItems(b);
      ArrayInjective(f, g);
      assert f[1] == g[1] && f[2] == g[2] && f[3] == g[3] && f[4] == g[4] && f[5] == g[5] && f[6] == g[6];
      UintInjective(a.networkId, b.networkId);
      UintInjective(a.rootRound, b.rootRound);
      UintInjective(a.epoch, b.epoch);
      UintInjective(a.timestamp, b.timestamp);
      NullableBytesInjective(a.previousHash, b.previousHash);
      ByteStringInjective(a.hash, b.hash);
    }
  }

  lemma SealItems(seal: UnicitySeal)
    ensures Items(SealFields(seal, EncodeNull()))
  {
    hide Item, EncodeUint, EncodeNullableBytes, EncodeByteString, EncodeNull;
    UintItem(1);
    UintItem(seal.networkId);
    UintItem(seal.rootRound);
    UintItem(seal.epoch);
    UintItem(seal.timestamp);
    NullableBytesItem(seal.previousHash);
    ByteStringItem(seal.hash);
    NullItem();
  }
}
