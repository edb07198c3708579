/** Who may move a token: every step of an accepted history is signed by the owner that the previous step
    named, in time, and is certified under the key of exactly that step.
 */
module Ownership {
  import opened Hashing
  import opened CborHead
  import opened CborScan
  import opened CborDecode
  import opened Bft
  import opened Quorum
  import opened Certificates
  import opened RadixPath
  import opened Tokens
  import opened StateChain
  import TokenVerifier
  import Topology
  import Radix

  /** The code of a signature lock: the number 1. */
  predicate SignatureLock(p: Predicate) { p.code == [0x01] }

  lemma BuiltinIs(code: Data)
    ensures BuiltinType(code) == Some(SIGNATURE_TYPE) <==> code == [0x01]
  {
    hide ItemLen;
    if BuiltinType(code) == Some(SIGNATURE_TYPE) {
      EncodeRead(code);
      assert code[..|code|] == code;
    }
    OneFinishes();
  }

  lemma OneFinishes()
    ensures BuiltinType([0x01]) == Some(SIGNATURE_TYPE)
  {
    var one: Bytes := [0x01];
    assert ReadHead(one) == Ok(Head(UINT, 1, 1));
  }

  /** A step with this lock, source state, deadline and encoding is signed and certified: the lock's key has
      signed state and step; the reference time is before the deadline and not after the round; the step
      stands under its key in the tree whose root an accepted certificate of the key's shard names. */
  ghost predicate SignedStep(C: Crypto, tb: TrustBase, proof: InclusionProof, lock: Predicate, source: Digest,
                             expiresAt: Option<U64>, cbor: Bytes) {
    var key := StateId(C.H, lock, source);
    && SignatureLock(lock) && C.unlocks(lock.parameters, source, C.H(cbor), proof.certification.unlockScript)
    && (expiresAt.Some? ==> proof.referenceTime < expiresAt.value)
    && proof.referenceTime <= proof.uc.inputRecord.timestamp
    && proof.uc.inputRecord.hash.Some? && |proof.uc.inputRecord.hash.value| == 32
    && VerifyInclusion(C.H, proof.path, key, LeafValue(C.H, C.H(cbor), proof.referenceTime),
                       proof.uc.inputRecord.hash.value)
    && proof.uc.shardTree.shard <= Topology.KeyBits(key)
    && OrdinaryVerdict(C.H, C.V, tb, proof.uc) == Accepted
  }

  /** The certification data repeats the step. */
  predicate Repeats(H: Hash, c: CertificationData, lock: Predicate, source: Digest, expiresAt: Option<U64>, cbor: Bytes) {
    c.lockScript == lock && c.sourceStateHash == source && c.expiresAt == expiresAt && c.transactionHash == H(cbor)
  }

  lemma PrefixIs(shard: ShardId, key: Digest)
    ensures (shard != [] ==> IsPrefixOf(shard, key)) <==> shard <= Topology.KeyBits(key)
  {
    hide Radix.BitAt;
    var bits := Topology.KeyBits(key);
    if shard <= bits {
      assert forall i :: 0 <= i < |shard| ==> Radix.BitAt(key, i) == bits[i] == shard[i];
    }
    if IsPrefixOf(shard, key) {
      assert forall i :: 0 <= i < |shard| ==> bits[i] == shard[i];
    }
  }

  /** What the verifier accepts of one step is exactly that. */
  lemma CertifiedMeans(C: Crypto, tb: TrustBase, proof: InclusionProof, lock: Predicate, source: Digest,
                       expiresAt: Option<U64>, cbor: Bytes)
    ensures Certified(C, tb, proof, lock, source, expiresAt, cbor)
       <==> && Repeats(C.H, proof.certification, lock, source, expiresAt, cbor)
            && SignedStep(C, tb, proof, lock, source, expiresAt, cbor)
  {
    hide BuiltinType, StateId, LeafValue, VerifyInclusion, ValidTrustBase, Topology.KeyBits, IsPrefixOf, ComputedSealHash;
    hide ProperRecord, ProperSeal, Signers, OrdinaryVerdict;
    BuiltinIs(lock.code);
    PrefixIs(proof.uc.shardTree.shard, StateId(C.H, lock, source));
    OrdinaryMeans(C.H, C.V, tb, proof.uc);
  }

  /** A refusal names a rule that is broken, for this step or for its certificate. */
  lemma StepRefused(C: Crypto, tb: TrustBase, proof: InclusionProof, lock: Predicate, source: Digest,
                    expiresAt: Option<U64>, cbor: Bytes)
    ensures var key := StateId(C.H, lock, source);
            match TokenVerifier.CertifiedVerdict(C, tb, proof, lock, source, expiresAt, cbor)
            case Accepted => true
            case Rejected(CertificationDataMismatch) =>
              var c := proof.certification; (c.lockScript, c.sourceStateHash, c.expiresAt) != (lock, source, expiresAt)
            case Rejected(TransactionHashMismatch) => proof.certification.transactionHash != C.H(cbor)
            case Rejected(RequestExpired) => expiresAt.Some? && proof.referenceTime >= expiresAt.value
            case Rejected(ReferenceTimeAfterRound) => proof.referenceTime > proof.uc.inputRecord.timestamp
            case Rejected(PathInvalid) =>
              forall root: Digest :: proof.uc.inputRecord.hash == Some(root) ==>
                !VerifyInclusion(C.H, proof.path, key, LeafValue(C.H, C.H(cbor), proof.referenceTime), root)
            case Rejected(ShardMismatch) => !(proof.uc.shardTree.shard <= Topology.KeyBits(key))
            case Rejected(NotAuthenticated) =>
              !(SignatureLock(lock) && C.unlocks(lock.parameters, source, C.H(cbor), proof.certification.unlockScript))
            case Rejected(InvalidTrustBase) => !ValidTrustBase(tb)
            case Rejected(e) => OrdinaryVerdict(C.H, C.V, tb, proof.uc) == Rejected(e)
  {
    hide BuiltinType, StateId, LeafValue, VerifyInclusion, ValidTrustBase, Topology.KeyBits, IsPrefixOf, ComputedSealHash;
    hide QuorumVerdict, CheckBody, SealShape;
    BuiltinIs(lock.code);
    PrefixIs(proof.uc.shardTree.shard, StateId(C.H, lock, source));
    OrdinaryErrors(C.H, C.V, tb, proof.uc);
  }

  /** The errors of a certificate are none of those of a step. */
  lemma OrdinaryErrors(H: Hash, V: Verifier, tb: TrustBase, uc: UnicityCertificate)
    ensures match OrdinaryVerdict(H, V, tb, uc)
            case Accepted => true
            case Rejected(InvalidTrustBase) => !ValidTrustBase(tb)
            case Rejected(e) =>
              || e == PartitionMismatch || e == CertificateBodyInvalid || e == SealMalformed || e == SealNetworkMismatch
              || e == SealRootMismatch || e == QuorumNotMet
  {
    hide ComputedSealHash, CheckBody, SealShape, SealQuorum, ValidTrustBase;
  }

  /** The lock that the step before transfer `i` put on the token. */
  function OwnerBefore(token: Token, i: nat): (p: Predicate)
    requires i < |token.transfers|
  {
    if i == 0 then token.genesis.mint.recipient else token.transfers[i - 1].transfer.recipient
  }

  /** In an accepted, linked token the mint is signed by the minter key of its id, and every transfer by the
      owner that the step before it named, each over its own state and its own bytes. */
  lemma OwnersSign(C: Crypto, tb: TrustBase, token: Token)
    requires HistoryAccepted(C, tb, token) && Linked(C.H, token)
    ensures token.genesis.mint.networkId == tb.networkId && C.minterKey(TokenId(C.H, token.genesis.mint)).Some?
    ensures SignedStep(C, tb, token.genesis.proof,
                       Predicate([0x01], C.minterKey(TokenId(C.H, token.genesis.mint)).value), StateAt(C.H, token, 0),
                       token.genesis.mint.expiresAt, MintCbor(token.genesis.mint))
    ensures forall i :: 0 <= i < |token.transfers| ==>
              SignedStep(C, tb, token.transfers[i].proof, OwnerBefore(token, i), StateAt(C.H, token, i + 1),
                         token.transfers[i].transfer.expiresAt, TransferCbor(token.transfers[i].transfer))
  {
    hide SignedStep, Certified, Repeats, MintState, NextState, TokenId, MintCbor, TransferCbor;
    var g := token.genesis;
    var key := C.minterKey(TokenId(C.H, g.mint)).value;
    MinterLock(key);
    CertifiedMeans(C, tb, g.proof, SignaturePredicate(key), MintState(C.H, TokenId(C.H, g.mint)), g.mint.expiresAt,
                   MintCbor(g.mint));
    forall i | 0 <= i < |token.transfers|
      ensures SignedStep(C, tb, token.transfers[i].proof, OwnerBefore(token, i), StateAt(C.H, token, i + 1),
                         token.transfers[i].transfer.expiresAt, TransferCbor(token.transfers[i].transfer))
    {
      var t := token.transfers[i];
      assert t in token.transfers && StateBefore(C.H, token, i).1 == OwnerBefore(token, i);
      ChainOfLinked(C.H, token, i);
      CertifiedMeans(C, tb, t.proof, t.transfer.lockScript, t.transfer.sourceStateHash, t.transfer.expiresAt,
                     TransferCbor(t.transfer));
    }
  }

  lemma MinterLock(key: Data)
    ensures SignaturePredicate(key) == Predicate([0x01], key)
  {
  }

  /** A refused history names the first step that is refused, and why: too many transfers, the mint, or the
      first transfer that is not certified. */
  lemma HistoryRefused(C: Crypto, tb: TrustBase, token: Token, maxTransfers: nat)
    ensures match TokenVerifier.HistoryVerdict(C, tb, token, maxTransfers)
            case Accepted => |token.transfers| <= maxTransfers
            case Rejected(TooManyTransfers) => |token.transfers| > maxTransfers
            case Rejected(NetworkMismatch) => token.genesis.mint.networkId != tb.networkId
            case Rejected(InvalidMintLockScript) =>
              var key := C.minterKey(TokenId(C.H, token.genesis.mint));
              key.None? || token.genesis.proof.certification.lockScript != Predicate([0x01], key.value)
            case Rejected(AtGenesis(_)) => !GenesisCertified(C, tb, token.genesis)
            case Rejected(AtTransfer(i, e)) =>
              && GenesisCertified(C, tb, token.genesis) && i < |token.transfers|
              && TokenVerifier.TransferVerdict(C, tb, token.transfers[i]) == Rejected(e)
              && forall j :: 0 <= j < i ==> TransferCertified(C, tb, token.transfers[j])
            case Rejected(_) => false
  {
    hide TokenVerifier.CertifiedVerdict, GenesisCertified, TransferCertified, TokenId, MintState, MintCbor;
    hide TokenVerifier.TransfersVerdict, TokenVerifier.TransferVerdict, SignaturePredicate;
    TokenVerifier.GenesisIs(C, tb, token.genesis);
    if C.minterKey(TokenId(C.H, token.genesis.mint)).Some? {
      MinterLock(C.minterKey(TokenId(C.H, token.genesis.mint)).value);
    }
    FirstRefused(C, tb, token.transfers, 0);
  }

  lemma {:induction false} FirstRefused(C: Crypto, tb: TrustBase, transfers: seq<CertifiedTransfer>, from: nat)
    requires from <= |transfers|
    ensures match TokenVerifier.TransfersVerdict(C, tb, transfers, from)
            case Accepted => true
            case Rejected(AtTransfer(i, e)) =>
              && from <= i < |transfers| && TokenVerifier.TransferVerdict(C, tb, transfers[i]) == Rejected(e)
              && forall j :: from <= j < i ==> TransferCertified(C, tb, transfers[j])
            case Rejected(_) => false
    decreases |transfers| - from
  {
    hide TokenVerifier.CertifiedVerdict, Certified, TransferCbor;
    if from < |transfers| {
      var t := transfers[from];
      TokenVerifier.CertifiedIs(C, tb, t.proof, t.transfer.lockScript, t.transfer.sourceStateHash, t.transfer.expiresAt,
                                TransferCbor(t.transfer));
      FirstRefused(C, tb, transfers, from + 1);
    }
  }
}
