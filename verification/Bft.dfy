/** Unicity certificates: the input record of a shard, its path through the shard tree and the
    partition tree, and the seal signed by the root validators.
 */
module Bft {
  import opened Hashing
  import opened CborHead
  import opened CborScan
  import opened CborDecode
  import opened CborMap

  /** Byte vectors are limited by what can be allocated; two of them together still have a CBOR
      length. */
  const MAX_DATA: nat := 0x4000_0000_0000_0000

  type Data = b: Bytes | |b| < MAX_DATA

  type U16 = x: nat | x < 0x1_0000
  type U32 = x: nat | x < 0x1_0000_0000

  /** A shard identifier is a bit string, most significant bit first. */
  type ShardId = seq<bool>

  const AGGREGATION_PARTITION_ID: nat := 7

  const INPUT_RECORD_TAG: U64 := 39002
  const UNICITY_SEAL_TAG: U64 := 39005

  /** Earliest plausible seal timestamp. */
  const GENESIS_TIME: nat := 1_681_971_084

  datatype InputRecord = InputRecord(
    roundNumber: U64, epoch: U64, previousHash: Option<Data>, hash: Option<Data>,
    summaryValue: Option<Data>, timestamp: U64, blockHash: Option<Data>,
    sumOfEarnedFees: U64, executedTransactionsHash: Option<Data>)

  datatype ShardTreeCertificate = ShardTreeCertificate(shard: ShardId, siblings: seq<Data>)

  datatype HashStep = HashStep(key: U32, hash: Data)

  datatype UnicityTreeCertificate = UnicityTreeCertificate(partition: U32, steps: seq<HashStep>)

  datatype Signature = Signature(node: Data, signature: Data)

  datatype UnicitySeal = UnicitySeal(
    networkId: U16, rootRound: U64, epoch: U64, timestamp: U64,
    previousHash: Option<Data>, hash: Data, signatures: seq<Signature>)

  datatype UnicityCertificate = UnicityCertificate(
    inputRecord: InputRecord, technicalRecordHash: Option<Data>, shardConfHash: Data,
    shardTree: ShardTreeCertificate, unicityTree: UnicityTreeCertificate, seal: UnicitySeal)

  // ---- encodings ----

  function EncodeNullableBytes(v: Option<Data>): (b: Bytes) {
    match v
    case None => EncodeNull()
    case Some(x) => EncodeByteString(x)
  }

  function EncodeNullableUint(v: Option<U64>): (b: Bytes) {
    match v
    case None => EncodeNull()
    case Some(x) => EncodeUint(x)
  }

  lemma NullableBytesInjective(a: Option<Data>, b: Option<Data>)
    requires EncodeNullableBytes(a) == EncodeNullableBytes(b)
    ensures a == b
  {
    if a.Some? { NullIsNoValue(BYTES, |a.value|, a.value); }
    if b.Some? { NullIsNoValue(BYTES, |b.value|, b.value); }
    if a.Some? && b.Some? { ByteStringInjective(a.value, b.value); }
  }

  lemma NullableUintInjective(a: Option<U64>, b: Option<U64>)
    requires EncodeNullableUint(a) == EncodeNullableUint(b)
    ensures a == b
  {
    if a.Some? { NullIsNoValue(UINT, a.value, []); assert EncodeUint(a.value) + [] == EncodeUint(a.value); }
    if b.Some? { NullIsNoValue(UINT, b.value, []); assert EncodeUint(b.value) + [] == EncodeUint(b.value); }
    if a.Some? && b.Some? { UintInjective(a.value, b.value); }
  }

  lemma NullableBytesItem(v: Option<Data>)
    ensures Item(EncodeNullableBytes(v))
  {
    NullItem();
    if v.Some? { ByteStringItem(v.value); }
  }

  lemma NullableUintItem(v: Option<U64>)
    ensures Item(EncodeNullableUint(v))
  {
    NullItem();
    if v.Some? { UintItem(v.value); }
  }

  function InputRecordCbor(ir: InputRecord): (b: Bytes) {
    EncodeTag(INPUT_RECORD_TAG, EncodeArray([
      EncodeUint(1), EncodeUint(ir.roundNumber), EncodeUint(ir.epoch),
      EncodeNullableBytes(ir.previousHash), EncodeNullableBytes(ir.hash), EncodeNullableBytes(ir.summaryValue),
      EncodeUint(ir.timestamp), EncodeNullableBytes(ir.blockHash), EncodeUint(ir.sumOfEarnedFees),
      EncodeNullableBytes(ir.executedTransactionsHash)]))
  }

  function SignatureEntries(signatures: seq<Signature>): (e: seq<Entry>)
    ensures |e| == |signatures|
    ensures forall i :: 0 <= i < |e| ==>
              e[i] == Entry(EncodeTextString(signatures[i].node), EncodeByteString(signatures[i].signature))
  {
    if signatures == [] then []
    else [Entry(EncodeTextString(signatures[0].node), EncodeByteString(signatures[0].signature))]
         + SignatureEntries(signatures[1..])
  }

  /** The fields of a seal, with the signature slot filled by `signatures`. */
  function SealFields(seal: UnicitySeal, signatures: Bytes): (f: seq<Bytes>)
    ensures |f| == 8
  {
    [EncodeUint(1), EncodeUint(seal.networkId), EncodeUint(seal.rootRound), EncodeUint(seal.epoch),
     EncodeUint(seal.timestamp), EncodeNullableBytes(seal.previousHash), EncodeByteString(seal.hash), signatures]
  }

  /** The complete encoding, signatures included. */
  function SealCbor(seal: UnicitySeal): (b: Bytes)
    requires 2 * |seal.signatures| < TWO_64
  {
    EncodeTag(UNICITY_SEAL_TAG, EncodeArray(SealFields(seal, EncodeMap(SignatureEntries(seal.signatures)))))
  }

  /** What the validators sign: the hash of the seal with its signature slot null. */
  function SealHash(H: Hash, seal: UnicitySeal): (d: Digest) {
    H(EncodeTag(UNICITY_SEAL_TAG, EncodeArray(SealFields(seal, EncodeNull()))))
  }

  // ---- the certificate body ----

  function OrEmpty(v: Option<Data>): (b: Data) { if v.Some? then v.value else [] }

  /** The conditional rules of an input record: outside round 0 the summary value is present and the
      time assigned; the block hash is empty exactly when the state hash is unchanged. */
  predicate RecordRules(ir: InputRecord) {
    && (ir.roundNumber != 0 ==> ir.summaryValue.Some? && ir.timestamp != 0)
    && ((OrEmpty(ir.previousHash) == OrEmpty(ir.hash)) <==> (OrEmpty(ir.blockHash) == []))
  }

  predicate CheckBody(uc: UnicityCertificate) {
    && RecordRules(uc.inputRecord)
    && uc.technicalRecordHash.Some? && |uc.technicalRecordHash.value| == 32
  }

  /** The certified state-tree root: `null` is the empty tree, anything but 32 bytes is malformed. */
  function RootHash(ir: InputRecord): (r: Option<Option<Digest>>) {
    match ir.hash
    case None => Some(None)
    case Some(b) => if |b| == 32 then Some(Some(b)) else None
  }

  /** Leaf of the shard tree. */
  function ShardLeafHash(H: Hash, ir: InputRecord, trHash: Option<Data>, confHash: Data): (d: Digest) {
    H(InputRecordCbor(ir) + EncodeNullableBytes(trHash) + EncodeByteString(confHash))
  }

  /** Inner node of the shard tree. */
  function ShardNodeHash(H: Hash, left: Data, right: Data): (d: Digest) {
    H(EncodeByteString(left) + EncodeByteString(right))
  }

  /** The root reached from `leaf` by the first `n` siblings, innermost first, along `shard`. */
  function ShardFold(H: Hash, shard: ShardId, siblings: seq<Data>, leaf: Data, n: nat): (d: Data)
    requires n <= |siblings| && n <= |shard|
  {
    if n == 0 then leaf
    else
      var below := ShardFold(H, shard, siblings, leaf, n - 1);
      if shard[|shard| - n] then ShardNodeHash(H, siblings[n - 1], below)
      else ShardNodeHash(H, below, siblings[n - 1])
  }

  /** The certificate-side recomputation of the shard tree root; one sibling per shard bit. */
  method ShardTreeRootHash(H: Hash, uc: UnicityCertificate) returns (r: Option<Data>)
    ensures r == ShardRoot(H, uc)
  {
    hide ShardLeafHash, ShardNodeHash;
    var shard, siblings := uc.shardTree.shard, uc.shardTree.siblings;
    var root: Data := ShardLeafHash(H, uc.inputRecord, uc.technicalRecordHash, uc.shardConfHash);
    if |siblings| != |shard| {
      return None;
    }
    ghost var leaf := root;
    for i := 0 to |siblings|
      invariant root == ShardFold(H, shard, siblings, leaf, i)
    {
      var isRight := shard[|shard| - (i + 1)];
      root := if isRight then ShardNodeHash(H, siblings[i], root) else ShardNodeHash(H, root, siblings[i]);
    }
    return Some(root);
  }

  function ShardRoot(H: Hash, uc: UnicityCertificate): (r: Option<Data>) {
    if |uc.shardTree.siblings| != |uc.shardTree.shard| then None
    else Some(ShardFold(H, uc.shardTree.shard, uc.shardTree.siblings,
                        ShardLeafHash(H, uc.inputRecord, uc.technicalRecordHash, uc.shardConfHash),
                        |uc.shardTree.siblings|))
  }

  lemma Fits32(x: U32)
    ensures x < Pow256(4)
  {
    Pow256Values();
  }

  function KeyBytes(key: U32): (b: Bytes)
    ensures |b| == 4
  {
    Fits32(key);
    ToBE(key, 4)
  }

  /** The partition leaf folded up the first `n` steps of its path. */
  function PartitionFold(H: Hash, utc: UnicityTreeCertificate, shardRoot: Data, n: nat): (d: Data)
    requires n <= |utc.steps|
  {
    if n == 0 then
      H(EncodeByteString([0x01]) + EncodeByteString(KeyBytes(utc.partition))
        + EncodeByteString(H(EncodeByteString(shardRoot))))
    else
      var below := PartitionFold(H, utc, shardRoot, n - 1);
      var step := utc.steps[n - 1];
      var head := EncodeByteString([0x00]) + EncodeByteString(KeyBytes(step.key));
      if utc.partition > step.key
      then H(head + EncodeByteString(step.hash) + EncodeByteString(below))
      else H(head + EncodeByteString(below) + EncodeByteString(step.hash))
  }

  /** The unicity tree root committed by a shard tree root. */
  function UnicityRoot(H: Hash, utc: UnicityTreeCertificate, shardRoot: Data): (d: Data) {
    PartitionFold(H, utc, shardRoot, |utc.steps|)
  }

  function ComputedSealHash(H: Hash, uc: UnicityCertificate): (r: Option<Data>) {
    match ShardRoot(H, uc)
    case None => None
    case Some(root) => Some(UnicityRoot(H, uc.unicityTree, root))
  }

  predicate SealShape(seal: UnicitySeal) {
    && seal.rootRound >= 1
    && seal.timestamp >= GENESIS_TIME
    && seal.signatures != []
    && forall s :: s in seal.signatures ==> s.node != [] && s.signature != []
  }
}
