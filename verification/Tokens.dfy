/** Tokens: a certified genesis and a chain of certified transfers, each rebuilt from its predecessor
    on decode, and the verification of the whole history.
 */
module Tokens {
  import opened Hashing
  import opened CborHead
  import opened CborScan
  import opened CborDecode
  import opened Bft
  import opened Quorum
  import opened Certificates
  import Radix
  import opened RadixPath

  const ENCODED_PREDICATE_TAG: U64 := 39032
  const MINT_TRANSACTION_TAG: U64 := 39041
  const TRANSFER_TRANSACTION_TAG: U64 := 39045

  const SIGNATURE_TYPE: U64 := 1
  const BURN_TYPE: U64 := 2

  /** The suffix of every mint state preimage. */
  const MINT_SUFFIX: Digest := [
    0x9e, 0x82, 0x00, 0x2c, 0x14, 0x4d, 0x7c, 0x57, 0x96, 0xc5, 0x0f, 0x6d, 0xb5, 0x0a, 0x0c, 0x7b,
    0xbd, 0x7f, 0x71, 0x7a, 0xe3, 0xaf, 0x6c, 0x6c, 0x71, 0xa3, 0xe9, 0xeb, 0xa3, 0x02, 0x27, 0x30]

  const DEFAULT_LIMITS := Limits(16 * 1024 * 1024, 64, 4096, 1_000_000)

  /** The primitives taken as given: the hash, seal signatures, the minter key of a token id, and
      whether an unlock script satisfies a public key for a state and a transaction. */
  datatype Crypto = Crypto(
    H: Hash, V: Verifier, minterKey: Digest -> Option<Data>, unlocks: (Data, Digest, Digest, Data) -> bool)

  datatype Predicate = Predicate(code: Data, parameters: Data)

  datatype Mint = Mint(
    networkId: U16, recipient: Predicate, expiresAt: Option<U64>, salt: Digest,
    tokenType: Data, justification: Option<Data>, data: Option<Data>)

  datatype Transfer = Transfer(
    sourceStateHash: Digest, lockScript: Predicate,
    recipient: Predicate, expiresAt: Option<U64>, stateMask: Data, data: Option<Data>)

  datatype CertificationData = CertificationData(
    lockScript: Predicate, sourceStateHash: Digest, transactionHash: Digest,
    expiresAt: Option<U64>, unlockScript: Data)

  datatype InclusionProof = InclusionProof(
    certification: CertificationData, referenceTime: U64, path: InclusionCertificate, uc: UnicityCertificate)

  datatype CertifiedMint = CertifiedMint(mint: Mint, proof: InclusionProof)
  datatype CertifiedTransfer = CertifiedTransfer(transfer: Transfer, proof: InclusionProof)

  datatype Token = Token(genesis: CertifiedMint, transfers: seq<CertifiedTransfer>)

  // ---- encodings and derived values ----

  function PredicateCbor(p: Predicate): (b: Bytes) {
    EncodeTag(ENCODED_PREDICATE_TAG,
              EncodeArray([EncodeUint(1), EncodeByteString(p.code), EncodeByteString(p.parameters)]))
  }

  function SignaturePredicate(key: Data): (p: Predicate) {
    Predicate(EncodeUint(SIGNATURE_TYPE), key)
  }

  function BurnPredicate(reason: Data): (p: Predicate) {
    Predicate(EncodeUint(BURN_TYPE), reason)
  }

  /** The type id in the code of a built-in predicate. */
  function BuiltinType(code: Data): (r: Option<nat>) {
    if Finish(code, DEFAULT_LIMITS).Err? then None
    else
      match ReadHead(code)
      case Ok(h) => if h.major == UINT && h.len == |code| then Some(h.arg) else None
      case Err(_) => None
  }

  function DeriveTokenId(H: Hash, networkId: U16, salt: Digest): (id: Digest) {
    H(EncodeArray([EncodeByteString(salt), EncodeUint(networkId)]))
  }

  function TokenId(H: Hash, m: Mint): (id: Digest) { DeriveTokenId(H, m.networkId, m.salt) }

  /** The source state of a mint, a function of the token id. */
  function MintState(H: Hash, id: Digest): (d: Digest) {
    H(EncodeArray([EncodeByteString(id), EncodeByteString(MINT_SUFFIX)]))
  }

  /** The state produced by spending `source` under `mask`; the preimage carries the imprint. */
  function NextState(H: Hash, source: Digest, mask: Data): (d: Digest) {
    H(EncodeArray([EncodeByteString([0, 0] + source), EncodeByteString(mask)]))
  }

  function MintFields(m: Mint): (f: seq<Bytes>)
    ensures |f| == 8
  {
    [EncodeUint(2), EncodeUint(m.networkId), PredicateCbor(m.recipient), EncodeByteString(m.salt),
     EncodeByteString(m.tokenType), EncodeNullableBytes(m.justification), EncodeNullableBytes(m.data),
     EncodeNullableUint(m.expiresAt)]
  }

  function MintCbor(m: Mint): (b: Bytes) { EncodeTag(MINT_TRANSACTION_TAG, EncodeArray(MintFields(m))) }

  /** Source state and lock script are not on the wire: they come from the predecessor. */
  function TransferFields(t: Transfer): (f: seq<Bytes>)
    ensures |f| == 5
  {
    [EncodeUint(2), PredicateCbor(t.recipient), EncodeByteString(t.stateMask), EncodeNullableBytes(t.data),
     EncodeNullableUint(t.expiresAt)]
  }

  function TransferCbor(t: Transfer): (b: Bytes) { EncodeTag(TRANSFER_TRANSACTION_TAG, EncodeArray(TransferFields(t))) }

  function StateIdPreimage(lock: Predicate, source: Digest): (b: Bytes) {
    EncodeArray([PredicateCbor(lock), EncodeByteString(source)])
  }

  /** The key under which a state's transaction is certified. */
  function StateId(H: Hash, lock: Predicate, source: Digest): (d: Digest) { H(StateIdPreimage(lock, source)) }

  function LeafValuePreimage(transactionHash: Digest, referenceTime: U64): (b: Bytes) {
    EncodeArray([EncodeByteString(transactionHash), EncodeUint(referenceTime)])
  }

  function LeafValue(H: Hash, transactionHash: Digest, referenceTime: U64): (d: Digest) {
    H(LeafValuePreimage(transactionHash, referenceTime))
  }

  // ---- the encodings determine the fields ----

  lemma PredicateItem(p: Predicate)
    ensures Item(PredicateCbor(p))
  {
    hide Item, EncodeHead, EncodeArray, EncodeTag;
    UintItem(1);
    ByteStringItem(p.code);
    ByteStringItem(p.parameters);
    ArrayItem([EncodeUint(1), EncodeByteString(p.code), EncodeByteString(p.parameters)]);
    TagItem(ENCODED_PREDICATE_TAG,
            EncodeArray([EncodeUint(1), EncodeByteString(p.code), EncodeByteString(p.parameters)]));
  }

  lemma PredicateInjective(p: Predicate, q: Predicate)
    requires PredicateCbor(p) == PredicateCbor(q)
    ensures p == q
  {
    hide Item, EncodeHead, EncodeArray, EncodeTag, EncodeByteString, EncodeUint;
    var a := [EncodeUint(1), EncodeByteString(p.code), EncodeByteString(p.parameters)];
    var b := [EncodeUint(1), EncodeByteString(q.code), EncodeByteString(q.parameters)];
    TagInjective(ENCODED_PREDICATE_TAG, EncodeArray(a), ENCODED_PREDICATE_TAG, EncodeArray(b));
    UintItem(1);
    ByteStringItem(p.code);
    ByteStringItem(p.parameters);
    ByteStringItem(q.code);
    ByteStringItem(q.parameters);
    ArrayInjective(a, b);
    assert a[1] == b[1] && a[2] == b[2];
    ByteStringInjective(p.code, q.code);
    ByteStringInjective(p.parameters, q.parameters);
  }

  lemma MintFieldItems(m: Mint)
    ensures Items(MintFields(m))
  {
    hide Item, EncodeUint, EncodeByteString, EncodeNullableBytes, EncodeNullableUint, PredicateCbor;
    UintItem(2);
    UintItem(m.networkId);
    PredicateItem(m.recipient);
    ByteStringItem(m.salt);
    ByteStringItem(m.tokenType);
    NullableBytesItem(m.justification);
    NullableBytesItem(m.data);
    NullableUintItem(m.expiresAt);
  }

  lemma MintInjective(a: Mint, b: Mint)
    requires MintCbor(a) == MintCbor(b)
    ensures a == b
  {
    hide Item, EncodeHead, EncodeArray, EncodeTag;
    hide EncodeUint, EncodeByteString, EncodeNullableBytes, EncodeNullableUint, PredicateCbor;
    TagInjective(MINT_TRANSACTION_TAG, EncodeArray(MintFields(a)), MINT_TRANSACTION_TAG, EncodeArray(MintFields(b)));
    MintFieldItems(a);
    MintFieldItems(b);
    ArrayInjective(MintFields(a), MintFields(b));
    var f, g := MintFields(a), MintFields(b);
    assert f[1] == g[1] && f[2] == g[2] && f[3] == g[3] && f[4] == g[4] && f[5] == g[5] && f[6] == g[6] && f[7] == g[7];
    UintInjective(a.networkId, b.networkId);
    PredicateInjective(a.recipient, b.recipient);
    ByteStringInjective(a.salt, b.salt);
    ByteStringInjective(a.tokenType, b.tokenType);
    NullableBytesInjective(a.justification, b.justification);
    NullableBytesInjective(a.data, b.data);
    NullableUintInjective(a.expiresAt, b.expiresAt);
  }

  lemma TransferFieldItems(t: Transfer)
    ensures Items(TransferFields(t))
  {
    hide Item, EncodeUint, EncodeByteString, EncodeNullableBytes, EncodeNullableUint, PredicateCbor;
    UintItem(2);
    PredicateItem(t.recipient);
    ByteStringItem(t.stateMask);
    NullableBytesItem(t.data);
    NullableUintItem(t.expiresAt);
  }

  lemma TransferInjective(a: Transfer, b: Transfer)
    requires TransferCbor(a) == TransferCbor(b)
    requires a.sourceStateHash == b.sourceStateHash && a.lockScript == b.lockScript
    ensures a == b
  {
    hide Item, EncodeHead, EncodeArray, EncodeTag;
    hide EncodeUint, EncodeByteString, EncodeNullableBytes, EncodeNullableUint, PredicateCbor;
    TagInjective(TRANSFER_TRANSACTION_TAG, EncodeArray(TransferFields(a)),
                 TRANSFER_TRANSACTION_TAG, EncodeArray(TransferFields(b)));
    TransferFieldItems(a);
    TransferFieldItems(b);
    ArrayInjective(TransferFields(a), TransferFields(b));
    var f, g := TransferFields(a), TransferFields(b);
    assert f[1] == g[1] && f[2] == g[2] && f[3] == g[3] && f[4] == g[4];
    PredicateInjective(a.recipient, b.recipient);
    ByteStringInjective(a.stateMask, b.stateMask);
    NullableBytesInjective(a.data, b.data);
    NullableUintInjective(a.expiresAt, b.expiresAt);
  }

  lemma LeafValueInjective(h: Digest, t: U64, h': Digest, t': U64)
    requires LeafValuePreimage(h, t) == LeafValuePreimage(h', t')
    ensures h == h' && t == t'
  {
    hide Item, EncodeHead, EncodeArray, EncodeUint, EncodeByteString;
    var a, b := [EncodeByteString(h), EncodeUint(t)], [EncodeByteString(h'), EncodeUint(t')];
    ByteStringItem(h);
    ByteStringItem(h');
    UintItem(t);
    UintItem(t');
    ArrayInjective(a, b);
    assert a[0] == b[0] && a[1] == b[1];
    ByteStringInjective(h, h');
    UintInjective(t, t');
  }

  // ---- verification ----

  /** Bit `i` of a state id, for the shard prefix test. */
  predicate IsPrefixOf(shard: ShardId, key: Digest) {
    |shard| <= 256 && forall i :: 0 <= i < |shard| ==> Radix.BitAt(key, i) == shard[i]
  }

  /** The proof certifies `stateId` at `referenceTime` under an accepted certificate. */
  ghost predicate Membership(C: Crypto, tb: TrustBase, proof: InclusionProof, stateId: Digest, referenceTime: U64) {
    && ValidTrustBase(tb)
    && StateId(C.H, proof.certification.lockScript, proof.certification.sourceStateHash) == stateId
    && (proof.certification.expiresAt.Some? ==> referenceTime < proof.certification.expiresAt.value)
    && RootHash(proof.uc.inputRecord).Some? && RootHash(proof.uc.inputRecord).value.Some?
    && proof.referenceTime == referenceTime <= proof.uc.inputRecord.timestamp
    && VerifyInclusion(C.H, proof.path, stateId,
                       LeafValue(C.H, proof.certification.transactionHash, referenceTime),
                       RootHash(proof.uc.inputRecord).value.value)
    && (proof.uc.shardTree.shard != [] ==> IsPrefixOf(proof.uc.shardTree.shard, stateId))
    && OrdinaryVerdict(C.H, C.V, tb, proof.uc) == Accepted
  }

  /** Only signature-locked states can be unlocked. */
  predicate Unlocked(C: Crypto, lock: Predicate, source: Digest, transactionHash: Digest, unlockScript: Data) {
    BuiltinType(lock.code) == Some(SIGNATURE_TYPE)
    && C.unlocks(lock.parameters, source, transactionHash, unlockScript)
  }

  /** A transaction, given by its lock, source, deadline and encoding, is certified by `proof`. */
  ghost predicate Certified(C: Crypto, tb: TrustBase, proof: InclusionProof,
                            lock: Predicate, source: Digest, expiresAt: Option<U64>, cbor: Bytes)
  {
    && proof.certification.lockScript == lock
    && proof.certification.sourceStateHash == source
    && proof.certification.expiresAt == expiresAt
    && proof.certification.transactionHash == C.H(cbor)
    && Membership(C, tb, proof, StateId(C.H, lock, source), proof.referenceTime)
    && Unlocked(C, proof.certification.lockScript, proof.certification.sourceStateHash,
                proof.certification.transactionHash, proof.certification.unlockScript)
  }

  /** The genesis is on the authority's network, locked to the minter key of its id, and certified. */
  ghost predicate GenesisCertified(C: Crypto, tb: TrustBase, g: CertifiedMint) {
    && g.mint.networkId == tb.networkId
    && C.minterKey(TokenId(C.H, g.mint)).Some?
    && var lock := SignaturePredicate(C.minterKey(TokenId(C.H, g.mint)).value);
       Certified(C, tb, g.proof, lock, MintState(C.H, TokenId(C.H, g.mint)), g.mint.expiresAt, MintCbor(g.mint))
  }

  ghost predicate TransferCertified(C: Crypto, tb: TrustBase, t: CertifiedTransfer) {
    Certified(C, tb, t.proof, t.transfer.lockScript, t.transfer.sourceStateHash, t.transfer.expiresAt,
              TransferCbor(t.transfer))
  }

  /** The history part of token verification; a mint justification is judged separately. */
  ghost predicate HistoryAccepted(C: Crypto, tb: TrustBase, token: Token) {
    && GenesisCertified(C, tb, token.genesis)
    && forall t :: t in token.transfers ==> TransferCertified(C, tb, t)
  }

  // ---- linkage ----

  /** The state hash and lock script that the `i`-th transfer must spend. */
  function StateBefore(H: Hash, token: Token, i: nat): (s: (Digest, Predicate))
    requires i <= |token.transfers|
  {
    if i == 0 then
      var id := TokenId(H, token.genesis.mint);
      (NextState(H, MintState(H, id), id), token.genesis.mint.recipient)
    else
      var t := token.transfers[i - 1].transfer;
      (NextState(H, t.sourceStateHash, t.stateMask), t.recipient)
  }

  /** Every transfer spends what its predecessor produced. */
  predicate Linked(H: Hash, token: Token) {
    forall i :: 0 <= i < |token.transfers| ==>
      (token.transfers[i].transfer.sourceStateHash, token.transfers[i].transfer.lockScript) == StateBefore(H, token, i)
  }

  /** A transfer as it stands on the wire. */
  datatype WireTransfer = WireTransfer(
    recipient: Predicate, expiresAt: Option<U64>, stateMask: Data, data: Option<Data>, proof: InclusionProof)

  function OnWire(t: CertifiedTransfer): (w: WireTransfer) {
    WireTransfer(t.transfer.recipient, t.transfer.expiresAt, t.transfer.stateMask, t.transfer.data, t.proof)
  }

  lemma LinkedAppend(H: Hash, token: Token, t: CertifiedTransfer)
    requires Linked(H, token)
    requires (t.transfer.sourceStateHash, t.transfer.lockScript) == StateBefore(H, token, |token.transfers|)
    ensures var longer := token.(transfers := token.transfers + [t]);
            && Linked(H, longer)
            && StateBefore(H, longer, |token.transfers| + 1)
               == (NextState(H, t.transfer.sourceStateHash, t.transfer.stateMask), t.transfer.recipient)
  {
    hide NextState, MintState, TokenId;
    var longer := token.(transfers := token.transfers + [t]);
    assert forall k :: 0 <= k <= |token.transfers| ==> StateBefore(H, longer, k) == StateBefore(H, token, k);
  }

  /** Decoding: the chain is rebuilt link by link, so the result is linked whatever the wire says. */
  method Rebuild(H: Hash, genesis: CertifiedMint, wire: seq<WireTransfer>) returns (token: Token)
    ensures Linked(H, token) && token.genesis == genesis && |token.transfers| == |wire|
    ensures forall i :: 0 <= i < |wire| ==> OnWire(token.transfers[i]) == wire[i]
  {
    hide Linked;
    var id := TokenId(H, genesis.mint);
    var previousState, previousLock := NextState(H, MintState(H, id), id), genesis.mint.recipient;
    token := Token(genesis, []);
    NoTransfersLinked(H, token);
    assert (previousState, previousLock) == StateBefore(H, token, 0);
    hide NextState, MintState, TokenId, StateBefore;
    for i := 0 to |wire|
      invariant token.genesis == genesis && |token.transfers| == i && Linked(H, token)
      invariant (previousState, previousLock) == StateBefore(H, token, i)
      invariant forall k :: 0 <= k < i ==> OnWire(token.transfers[k]) == wire[k]
    {
      var w := wire[i];
      var t := CertifiedTransfer(
        Transfer(previousState, previousLock, w.recipient, w.expiresAt, w.stateMask, w.data), w.proof);
      LinkedAppend(H, token, t);
      token := token.(transfers := token.transfers + [t]);
      previousState, previousLock := NextState(H, t.transfer.sourceStateHash,
                                               t.transfer.stateMask), t.transfer.recipient;
    }
  }

  lemma NoTransfersLinked(H: Hash, token: Token)
    requires token.transfers == []
    ensures Linked(H, token)
  {
  }
}
