/** Verification of a token's history as it runs: one seal session is threaded through the genesis and
    every transfer, and its memos answer for certificates already seen.
 */
module TokenVerifier {
  import opened Hashing
  import opened CborHead
  import opened Bft
  import opened Quorum
  import opened Certificates
  import opened RadixPath
  import opened Tokens
  import SealMemory
  import SealSession

  /** The memo namespace of plain verification. */
  const NO_POLICY: Digest := [
    0, 0, 0, 0, 0, 0, 0, 0, 0, 0, 0, 0, 0, 0, 0, 0, 0, 0, 0, 0, 0, 0, 0, 0, 0, 0, 0, 0, 0, 0, 0, 0]

  ghost predicate Under(C: Crypto, u: SealMemory.Universe) {
    C.H == u.H && C.V == u.V && NO_POLICY in u.ordinary
  }

  /** The seals of a token are among those of the run. */
  ghost predicate Presented(u: SealMemory.Universe, token: Token) {
    token.genesis.proof.uc.seal in u.seals && forall t :: t in token.transfers ==> t.proof.uc.seal in u.seals
  }

  // ---- verdicts, each naming the first rule that is broken ----

  ghost function MembershipVerdict(C: Crypto, tb: TrustBase, proof: InclusionProof, stateId: Digest,
                                   referenceTime: U64): (v: Verdict)
  {
    var c, root := proof.certification, RootHash(proof.uc.inputRecord);
    if !ValidTrustBase(tb) then Rejected(InvalidTrustBase)
    else if StateId(C.H, c.lockScript, c.sourceStateHash) != stateId then Rejected(CertificationDataMismatch)
    else if c.expiresAt.Some? && referenceTime >= c.expiresAt.value then Rejected(RequestExpired)
    else if root.None? || root.value.None? then Rejected(PathInvalid)
    else if proof.referenceTime != referenceTime then Rejected(ReferenceTimeMismatch)
    else if referenceTime > proof.uc.inputRecord.timestamp then Rejected(ReferenceTimeAfterRound)
    else if !VerifyInclusion(C.H, proof.path, stateId, LeafValue(C.H, c.transactionHash, referenceTime),
                             root.value.value) then
      Rejected(PathInvalid)
    else if proof.uc.shardTree.shard != [] && !IsPrefixOf(proof.uc.shardTree.shard, stateId) then Rejected(ShardMismatch)
    else OrdinaryVerdict(C.H, C.V, tb, proof.uc)
  }

  ghost function CertifiedVerdict(C: Crypto, tb: TrustBase, proof: InclusionProof, lock: Predicate, source: Digest,
                                  expiresAt: Option<U64>, cbor: Bytes): (v: Verdict)
  {
    var c := proof.certification;
    if c.lockScript != lock || c.sourceStateHash != source || c.expiresAt != expiresAt then Rejected(CertificationDataMismatch)
    else if c.transactionHash != C.H(cbor) then Rejected(TransactionHashMismatch)
    else
      var v := MembershipVerdict(C, tb, proof, StateId(C.H, lock, source), proof.referenceTime);
      if v.Rejected? then v
      else if Unlocked(C, c.lockScript, c.sourceStateHash, c.transactionHash, c.unlockScript) then Accepted
      else Rejected(NotAuthenticated)
  }

  ghost function GenesisVerdict(C: Crypto, tb: TrustBase, g: CertifiedMint): (v: Verdict) {
    var id := TokenId(C.H, g.mint);
    if g.mint.networkId != tb.networkId then Rejected(NetworkMismatch)
    else if C.minterKey(id).None? then Rejected(InvalidMintLockScript)
    else
      var lock := SignaturePredicate(C.minterKey(id).value);
      if g.proof.certification.lockScript != lock then Rejected(InvalidMintLockScript)
      else
        match CertifiedVerdict(C, tb, g.proof, lock, MintState(C.H, id), g.mint.expiresAt, MintCbor(g.mint))
        case Accepted => Accepted
        case Rejected(e) => Rejected(AtGenesis(e))
  }

  ghost function TransferVerdict(C: Crypto, tb: TrustBase, t: CertifiedTransfer): (v: Verdict) {
    CertifiedVerdict(C, tb, t.proof, t.transfer.lockScript, t.transfer.sourceStateHash, t.transfer.expiresAt,
                     TransferCbor(t.transfer))
  }

  /** The first transfer from `i` on that is refused decides. */
  ghost function TransfersVerdict(C: Crypto, tb: TrustBase, transfers: seq<CertifiedTransfer>, i: nat): (v: Verdict)
    requires i <= |transfers|
    decreases |transfers| - i
  {
    if i == |transfers| then Accepted
    else
      match TransferVerdict(C, tb, transfers[i])
      case Accepted => TransfersVerdict(C, tb, transfers, i + 1)
      case Rejected(e) => Rejected(AtTransfer(i, e))
  }

  ghost function HistoryVerdict(C: Crypto, tb: TrustBase, token: Token, maxTransfers: nat): (v: Verdict) {
    if |token.transfers| > maxTransfers then Rejected(TooManyTransfers)
    else if GenesisVerdict(C, tb, token.genesis).Rejected? then GenesisVerdict(C, tb, token.genesis)
    else TransfersVerdict(C, tb, token.transfers, 0)
  }

  // ---- acceptance ----

  lemma MembershipIs(C: Crypto, tb: TrustBase, proof: InclusionProof, stateId: Digest, referenceTime: U64)
    ensures MembershipVerdict(C, tb, proof, stateId, referenceTime) == Accepted <==> Membership(C, tb, proof, stateId, referenceTime)
  {
    hide ValidTrustBase, StateId, LeafValue, VerifyInclusion, OrdinaryVerdict, IsPrefixOf;
  }

  lemma CertifiedIs(C: Crypto, tb: TrustBase, proof: InclusionProof, lock: Predicate, source: Digest,
                    expiresAt: Option<U64>, cbor: Bytes)
    ensures CertifiedVerdict(C, tb, proof, lock, source, expiresAt, cbor) == Accepted
       <==> Certified(C, tb, proof, lock, source, expiresAt, cbor)
  {
    hide Membership, MembershipVerdict, StateId, Unlocked;
    MembershipIs(C, tb, proof, StateId(C.H, lock, source), proof.referenceTime);
  }

  lemma GenesisIs(C: Crypto, tb: TrustBase, g: CertifiedMint)
    ensures GenesisVerdict(C, tb, g) == Accepted <==> GenesisCertified(C, tb, g)
  {
    hide CertifiedVerdict, Membership, Unlocked, StateId, TokenId, MintState, MintCbor;
    if C.minterKey(TokenId(C.H, g.mint)).Some? {
      CertifiedIs(C, tb, g.proof, SignaturePredicate(C.minterKey(TokenId(C.H, g.mint)).value),
                  MintState(C.H, TokenId(C.H, g.mint)), g.mint.expiresAt, MintCbor(g.mint));
    }
  }

  lemma {:induction false} TransfersAre(C: Crypto, tb: TrustBase, transfers: seq<CertifiedTransfer>, i: nat)
    requires i <= |transfers|
    ensures TransfersVerdict(C, tb, transfers, i) == Accepted
       <==> forall k :: i <= k < |transfers| ==> TransferCertified(C, tb, transfers[k])
    decreases |transfers| - i
  {
    hide CertifiedVerdict, Certified, TransferCbor;
    if i < |transfers| {
      var t := transfers[i];
      CertifiedIs(C, tb, t.proof, t.transfer.lockScript, t.transfer.sourceStateHash, t.transfer.expiresAt,
                  TransferCbor(t.transfer));
      TransfersAre(C, tb, transfers, i + 1);
    }
  }

  /** A history is accepted exactly when it is certified link by link, within the limit. */
  lemma HistoryIs(C: Crypto, tb: TrustBase, token: Token, maxTransfers: nat)
    ensures HistoryVerdict(C, tb, token, maxTransfers) == Accepted
       <==> |token.transfers| <= maxTransfers && HistoryAccepted(C, tb, token)
  {
    hide GenesisVerdict, GenesisCertified, TransferCertified, TransfersVerdict;
    GenesisIs(C, tb, token.genesis);
    TransfersAre(C, tb, token.transfers, 0);
    if forall t :: t in token.transfers ==> TransferCertified(C, tb, t) {
      assert forall k :: 0 <= k < |token.transfers| ==> token.transfers[k] in token.transfers;
    }
  }

  // ---- the code ----

  method VerifyMembership(C: Crypto, session: SealSession.SealSession, proof: InclusionProof, stateId: Digest,
                          referenceTime: U64, policy: Digest, ghost u: SealMemory.Universe)
    returns (v: Verdict)
    requires session.Valid(u) && Under(C, u) && policy in u.ordinary && proof.uc.seal in u.seals
    modifies session, session.memo, session.bodies
    ensures session.Valid(u)
    ensures v == MembershipVerdict(C, session.tb, proof, stateId, referenceTime)
  {
    hide ValidTrustBase, StateId, LeafValue, VerifyInclusion, OrdinaryVerdict, IsPrefixOf;
    hide SealMemory.Separated, SealMemory.GoodMemory;
    v := session.EnsureTrustBase();
    if v.Rejected? {
      return;
    }
    var c := proof.certification;
    if StateId(C.H, c.lockScript, c.sourceStateHash) != stateId {
      return Rejected(CertificationDataMismatch);
    }
    if c.expiresAt.Some? && referenceTime >= c.expiresAt.value {
      return Rejected(RequestExpired);
    }
    var root := RootHash(proof.uc.inputRecord);
    if root.None? || root.value.None? {
      return Rejected(PathInvalid);
    }
    if proof.referenceTime != referenceTime {
      return Rejected(ReferenceTimeMismatch);
    }
    if referenceTime > proof.uc.inputRecord.timestamp {
      return Rejected(ReferenceTimeAfterRound);
    }
    if !VerifyInclusion(C.H, proof.path, stateId, LeafValue(C.H, c.transactionHash, referenceTime), root.value.value) {
      return Rejected(PathInvalid);
    }
    var shard := proof.uc.shardTree.shard;
    if |shard| != 0 && !IsPrefixOf(shard, stateId) {
      return Rejected(ShardMismatch);
    }
    v := session.VerifyOrdinary(proof.uc, policy, u);
  }

  /** One transaction against its proof. */
  method VerifyInclusionProof(C: Crypto, session: SealSession.SealSession, proof: InclusionProof, lock: Predicate,
                              source: Digest, expiresAt: Option<U64>, cbor: Bytes, ghost u: SealMemory.Universe)
    returns (v: Verdict)
    requires session.Valid(u) && Under(C, u) && proof.uc.seal in u.seals
    modifies session, session.memo, session.bodies
    ensures session.Valid(u)
    ensures v == CertifiedVerdict(C, session.tb, proof, lock, source, expiresAt, cbor)
  {
    hide MembershipVerdict, StateId, BuiltinType, SealMemory.Separated, SealMemory.GoodMemory;
    var c := proof.certification;
    if c.lockScript != lock || c.sourceStateHash != source || c.expiresAt != expiresAt {
      return Rejected(CertificationDataMismatch);
    }
    if c.transactionHash != C.H(cbor) {
      return Rejected(TransactionHashMismatch);
    }
    v := VerifyMembership(C, session, proof, StateId(C.H, lock, source), proof.referenceTime, NO_POLICY, u);
    if v.Rejected? {
      return;
    }
    v := if Unlocked(C, c.lockScript, c.sourceStateHash, c.transactionHash,
                     c.unlockScript) then Accepted else Rejected(NotAuthenticated);
  }

  method VerifyGenesis(C: Crypto, session: SealSession.SealSession, g: CertifiedMint, ghost u: SealMemory.Universe)
    returns (v: Verdict)
    requires session.Valid(u) && Under(C, u) && g.proof.uc.seal in u.seals
    modifies session, session.memo, session.bodies
    ensures session.Valid(u)
    ensures v == GenesisVerdict(C, session.tb, g)
  {
    hide CertifiedVerdict, TokenId, MintState, MintCbor, SealMemory.Separated, SealMemory.GoodMemory;
    if g.mint.networkId != session.tb.networkId {
      return Rejected(NetworkMismatch);
    }
    var id := TokenId(C.H, g.mint);
    var key := C.minterKey(id);
    if key.None? {
      return Rejected(InvalidMintLockScript);
    }
    var lock := SignaturePredicate(key.value);
    if g.proof.certification.lockScript != lock {
      return Rejected(InvalidMintLockScript);
    }
    v := VerifyInclusionProof(C, session, g.proof, lock, MintState(C.H, id), g.mint.expiresAt, MintCbor(g.mint), u);
    if v.Rejected? {
      v := Rejected(AtGenesis(v.error));
    }
  }

  method VerifyTransfers(C: Crypto, session: SealSession.SealSession, transfers: seq<CertifiedTransfer>,
                         ghost u: SealMemory.Universe)
    returns (v: Verdict)
    requires session.Valid(u) && Under(C, u) && forall t :: t in transfers ==> t.proof.uc.seal in u.seals
    modifies session, session.memo, session.bodies
    ensures session.Valid(u)
    ensures v == TransfersVerdict(C, session.tb, transfers, 0)
  {
    hide CertifiedVerdict, TransferCbor, SealMemory.Separated, SealMemory.GoodMemory;
    for i := 0 to |transfers|
      invariant session.Valid(u)
      invariant TransfersVerdict(C, session.tb, transfers, 0) == TransfersVerdict(C, session.tb, transfers, i)
    {
      var t := transfers[i];
      assert t in transfers;
      v := VerifyInclusionProof(C, session, t.proof, t.transfer.lockScript, t.transfer.sourceStateHash,
                                t.transfer.expiresAt, TransferCbor(t.transfer), u);
      if v.Rejected? {
        return Rejected(AtTransfer(i, v.error));
      }
    }
    return Accepted;
  }

  /** The whole history, with the limit on the number of transfers.  Whatever the session has seen
      before, the verdict is the one defined without it. */
  method VerifyHistory(C: Crypto, session: SealSession.SealSession, token: Token, maxTransfers: nat,
                       ghost u: SealMemory.Universe)
    returns (v: Verdict)
    requires session.Valid(u) && Under(C, u) && Presented(u, token)
    modifies session, session.memo, session.bodies
    ensures session.Valid(u)
    ensures v == HistoryVerdict(C, session.tb, token, maxTransfers)
    ensures v == Accepted <==> |token.transfers| <= maxTransfers && HistoryAccepted(C, session.tb, token)
  {
    hide GenesisVerdict, TransfersVerdict, HistoryAccepted, SealMemory.Separated, SealMemory.GoodMemory;
    HistoryIs(C, session.tb, token, maxTransfers);
    if |token.transfers| > maxTransfers {
      return Rejected(TooManyTransfers);
    }
    v := VerifyGenesis(C, session, token.genesis, u);
    if v.Rejected? {
      return;
    }
    v := VerifyTransfers(C, session, token.transfers, u);
  }
}
