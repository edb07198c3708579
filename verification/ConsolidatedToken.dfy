/** Consolidation of a token: verify it, move its outer proofs under one seal, rebuild it from the same
    transactions, and verify the result.
 */
module ConsolidatedToken {
  import opened Hashing
  import opened CborHead
  import opened Bft
  import opened Quorum
  import opened Certificates
  import opened Tokens
  import opened Admission
  import opened Replacement
  import opened Services
  import opened Consolidate
  import opened History
  import SealEncoding
  import SealHistory
  import SealMemory
  import SealSession
  import TokenVerifier

  // ---- outer proofs ----

  function OuterProof(H: Hash, t: CertifiedTransfer): (item: ProofItem) {
    ProofItem(StateId(H, t.transfer.lockScript, t.transfer.sourceStateHash), t.proof)
  }

  function GenesisProof(C: Crypto, g: CertifiedMint): (item: ProofItem)
    requires C.minterKey(TokenId(C.H, g.mint)).Some?
  {
    var id := TokenId(C.H, g.mint);
    ProofItem(StateId(C.H, SignaturePredicate(C.minterKey(id).value), MintState(C.H, id)), g.proof)
  }

  /** The outer proofs of a token with the states they certify, genesis first. */
  function OuterProofs(C: Crypto, token: Token): (items: seq<ProofItem>)
    requires C.minterKey(TokenId(C.H, token.genesis.mint)).Some?
    ensures |items| == 1 + |token.transfers|
  {
    [GenesisProof(C, token.genesis)]
    + seq(|token.transfers|, i requires 0 <= i < |token.transfers| => OuterProof(C.H, token.transfers[i]))
  }

  lemma OuterProofAt(C: Crypto, token: Token, i: nat)
    requires C.minterKey(TokenId(C.H, token.genesis.mint)).Some? && i <= |token.transfers|
    ensures OuterProofs(C, token)[i]
         == if i == 0 then GenesisProof(C, token.genesis) else OuterProof(C.H, token.transfers[i - 1])
  {
    hide StateId, MintState, TokenId, GenesisProof, OuterProof;
  }

  /** The same transactions with new proofs. */
  function RebuildToken(token: Token, proofs: seq<InclusionProof>): (r: Token)
    requires |proofs| == 1 + |token.transfers|
  {
    Token(CertifiedMint(token.genesis.mint, proofs[0]),
          seq(|token.transfers|, i requires 0 <= i < |token.transfers| =>
            CertifiedTransfer(token.transfers[i].transfer, proofs[1 + i])))
  }

  /** A proof that keeps the certification and certifies the same state serves the same transaction. */
  lemma ReplacementCertified(C: Crypto, tb: TrustBase, original: InclusionProof, p: InclusionProof,
                             lock: Predicate, source: Digest, expiresAt: Option<U64>, cbor: Bytes)
    requires Certified(C, tb, original, lock, source, expiresAt, cbor)
    requires Agrees(original, p) && Proven(C, tb, StateId(C.H, lock, source), p)
    ensures Certified(C, tb, p, lock, source, expiresAt, cbor)
  {
    hide Membership, StateId, Unlocked;
  }

  lemma OuterProven(C: Crypto, tb: TrustBase, token: Token)
    requires HistoryAccepted(C, tb, token)
    ensures C.minterKey(TokenId(C.H, token.genesis.mint)).Some? && AllProven(C, tb, OuterProofs(C, token))
  {
    hide Membership, StateId, TokenId, MintState, MintCbor, TransferCbor, Unlocked, OuterProofs;
    var items := OuterProofs(C, token);
    forall i | 0 <= i < |items| ensures Proven(C, tb, items[i].stateId, items[i].proof) {
      OuterProofAt(C, token, i);
      if i > 0 {
        assert token.transfers[i - 1] in token.transfers;
      }
    }
  }

  // ---- the rebuilt token ----

  /** The proofs may take the place of the token's own. */
  ghost predicate Replacing(C: Crypto, tb: TrustBase, token: Token, proofs: seq<InclusionProof>)
    requires C.minterKey(TokenId(C.H, token.genesis.mint)).Some?
  {
    && |proofs| == 1 + |token.transfers|
    && forall i :: 0 <= i < |proofs| ==>
         && Agrees(OuterProofs(C, token)[i].proof, proofs[i])
         && Proven(C, tb, OuterProofs(C, token)[i].stateId, proofs[i])
  }

  lemma RebuiltGenesis(C: Crypto, tb: TrustBase, token: Token, proofs: seq<InclusionProof>)
    requires GenesisCertified(C, tb, token.genesis)
    requires C.minterKey(TokenId(C.H, token.genesis.mint)).Some? && Replacing(C, tb, token, proofs)
    ensures GenesisCertified(C, tb, RebuildToken(token, proofs).genesis)
  {
    hide Certified, Proven, StateId, TokenId, MintState, MintCbor, OuterProofs;
    OuterProofAt(C, token, 0);
    var id := TokenId(C.H, token.genesis.mint);
    ReplacementCertified(C, tb, token.genesis.proof, proofs[0], SignaturePredicate(C.minterKey(id).value),
                         MintState(C.H, id),
                         token.genesis.mint.expiresAt, MintCbor(token.genesis.mint));
  }

  lemma RebuiltTransfer(C: Crypto, tb: TrustBase, token: Token, proofs: seq<InclusionProof>, i: nat)
    requires i < |token.transfers| && TransferCertified(C, tb, token.transfers[i])
    requires C.minterKey(TokenId(C.H, token.genesis.mint)).Some? && Replacing(C, tb, token, proofs)
    ensures TransferCertified(C, tb, RebuildToken(token, proofs).transfers[i])
  {
    hide Certified, Proven, StateId, TransferCbor, TokenId, OuterProofs;
    OuterProofAt(C, token, 1 + i);
    var original := token.transfers[i];
    ReplacementCertified(C, tb, original.proof, proofs[1 + i], original.transfer.lockScript,
                         original.transfer.sourceStateHash,
                         original.transfer.expiresAt, TransferCbor(original.transfer));
  }

  lemma RebuiltLinked(H: Hash, token: Token, proofs: seq<InclusionProof>)
    requires Linked(H, token) && |proofs| == 1 + |token.transfers|
    ensures Linked(H, RebuildToken(token, proofs))
  {
    hide TokenId, MintState, NextState;
    var rebuilt := RebuildToken(token, proofs);
    assert forall i :: 0 <= i < |rebuilt.transfers| ==> rebuilt.transfers[i].transfer == token.transfers[i].transfer;
    assert forall i :: 0 <= i <= |rebuilt.transfers| ==> StateBefore(H, rebuilt, i) == StateBefore(H, token, i);
  }

  /** A token rebuilt from replaced proofs has the same history and passes history verification. */
  lemma RebuiltAccepted(C: Crypto, tb: TrustBase, token: Token, proofs: seq<InclusionProof>)
    requires HistoryAccepted(C, tb, token) && Linked(C.H, token)
    requires C.minterKey(TokenId(C.H, token.genesis.mint)).Some? && Replacing(C, tb, token, proofs)
    ensures HistoryAccepted(C, tb, RebuildToken(token, proofs)) && Linked(C.H, RebuildToken(token, proofs))
  {
    hide GenesisCertified, TransferCertified, Proven, StateId, TokenId, MintState, StateBefore, OuterProofs;
    var rebuilt := RebuildToken(token, proofs);
    RebuiltGenesis(C, tb, token, proofs);
    forall t | t in rebuilt.transfers ensures TransferCertified(C, tb, t) {
      var i :| 0 <= i < |rebuilt.transfers| && rebuilt.transfers[i] == t;
      assert token.transfers[i] in token.transfers;
      RebuiltTransfer(C, tb, token, proofs, i);
    }
    RebuiltLinked(C.H, token, proofs);
  }

  // ---- the operation ----

  datatype TokenOutcome =
    | TokenConsolidated(token: Token, summary: Summary)
    | InvalidToken
    | TokenStopped(stop: Stop)
    | ReverificationFailed

  ghost predicate SameTransactions(a: Token, b: Token) {
    && a.genesis.mint == b.genesis.mint && |a.transfers| == |b.transfers|
    && forall i :: 0 <= i < |a.transfers| ==> a.transfers[i].transfer == b.transfers[i].transfer
  }

  ghost predicate HonestFor(C: Crypto, tb: TrustBase, a: Attempt, token: Token) {
    C.minterKey(TokenId(C.H, token.genesis.mint)).Some? && Honest(C, tb, a, OuterProofs(C, token))
  }

  /** What complete verification accepts: the history, and a genesis that the callers' registry of data
      and justification verifiers accepts. */
  ghost predicate Verified(C: Crypto, tb: TrustBase, registry: CertifiedMint -> bool, token: Token, maxTransfers: nat) {
    |token.transfers| <= maxTransfers && HistoryAccepted(C, tb, token) && registry(token.genesis)
  }

  /** The registry judges the mint, not the proof that certifies it. */
  ghost predicate IgnoresProof(registry: CertifiedMint -> bool, m: Mint) {
    forall p, q :: registry(CertifiedMint(m, p)) == registry(CertifiedMint(m, q))
  }

  /** Verification in a session of its own. */
  method VerifyAfresh(C: Crypto, u: SealMemory.Universe, fingerprint: (UnicityCertificate, Digest) -> nat,
                      capacity: nat,
                      registry: CertifiedMint -> bool, token: Token, maxTransfers: nat)
    returns (ok: bool)
    requires SealMemory.Separated(u) && TokenVerifier.Under(C, u) && TokenVerifier.Presented(u, token)
    ensures ok <==> Verified(C, u.tb, registry, token, maxTransfers)
  {
    hide HistoryAccepted, SealMemory.Separated, SealMemory.GoodMemory, TokenVerifier.HistoryVerdict;
    var session := new SealSession.SealSession.ForRun(u, fingerprint, capacity);
    var v := TokenVerifier.VerifyHistory(C, session, token, maxTransfers, u);
    ok := v.Accepted? && registry(token.genesis);
  }

  /** The whole operation on a token.  Success is the same history, accepted, with one seal left.  The
      second verification can fail only if the registry, having accepted the genesis with its old proof,
      refuses it with the new one.  `liveFirst` and `liveLast` say whether the attempt is still alive before
      the first and after the second verification. */
  method ConsolidateToken(C: Crypto, u: SealMemory.Universe, fingerprint: (UnicityCertificate, Digest) -> nat,
                          capacity: nat,
                          a: Attempt, registry: CertifiedMint -> bool, token: Token, maxTransfers: nat,
                          liveFirst: bool, liveLast: bool)
    returns (r: TokenOutcome)
    requires SealMemory.Separated(u) && TokenVerifier.Under(C, u) && a.policy in u.ordinary && ValidSetup(a.setup)
    requires TokenVerifier.Presented(u, token) && forall k :: a.latest(k).Served? ==> SealsIn(u, a.latest(k).batch.proofs)
    requires Linked(C.H, token)
    ensures r.InvalidToken? <==> liveFirst && !Verified(C, u.tb, registry, token, maxTransfers)
    ensures r.TokenConsolidated? ==>
              && Verified(C, u.tb, registry, r.token, maxTransfers) && Linked(C.H, r.token)
              && SameTransactions(token, r.token) && r.summary.sealsAfter == 1
    ensures r.TokenConsolidated? ==> liveFirst && (r.summary.alreadyShared || liveLast)
    ensures r.TokenConsolidated? ==> exists root: Data :: SealHistory.AllUnder(ProofsOf(r.token), root)
    ensures r.ReverificationFailed? ==>
              registry(token.genesis) && exists p :: !registry(CertifiedMint(token.genesis.mint, p))
    ensures IgnoresProof(registry, token.genesis.mint) ==> !r.ReverificationFailed?
    ensures liveFirst && liveLast && !r.InvalidToken? && HonestFor(C, u.tb, a, token) ==>
              r.TokenConsolidated? || r.ReverificationFailed?
  {
    hide HistoryAccepted, Linked, ValidSetup, Shared, Fetched, StateId, TokenId, MintState, AllProven, Succeeded, EvidenceFits, Reason;
    hide OuterProofs, SealCode, SealHistory.AllUnder, ProofsOf;
    hide Proven, Honest, SealMemory.Separated, SealMemory.GoodMemory, TokenVerifier.HistoryVerdict;
    if !liveFirst {
      return TokenStopped(Cancelled);
    }
    var session := new SealSession.SealSession.ForRun(u, fingerprint, capacity);
    var v := TokenVerifier.VerifyHistory(C, session, token, maxTransfers, u);
    if v.Rejected? || !registry(token.genesis) {
      return InvalidToken;
    }
    assert CertifiedMint(token.genesis.mint, token.genesis.proof) == token.genesis;
    OuterProven(C, u.tb, token);
    var items := OuterProofs(C, token);
    OuterPresented(C, u, token);
    var o; ghost var seal;
    o, seal := Run(C, session, a, items, true, u);
    if o.Stopped? {
      return TokenStopped(o.stop);
    }
    SuccessSummary(C, u.tb, a, items, o, seal);
    if o.summary.alreadyShared {
      SharedUnder(C, u, token);
      return TokenConsolidated(token, o.summary);
    }
    var rebuilt := RebuildToken(token, o.proofs);
    RebuiltAccepted(C, u.tb, token, o.proofs);
    RebuiltPresented(u, token, o.proofs, seal);
    RebuiltUnder(token, o.proofs, seal);
    var ok := VerifyAfresh(C, u, fingerprint, capacity, registry, rebuilt, maxTransfers);
    if !ok {
      assert !registry(CertifiedMint(token.genesis.mint, o.proofs[0]));
      return ReverificationFailed;
    }
    if !liveLast {
      return TokenStopped(Cancelled);
    }
    return TokenConsolidated(rebuilt, o.summary);
  }

  /** Outer proofs with one seal encoding are under one seal. */
  lemma SharedUnder(C: Crypto, u: SealMemory.Universe, token: Token)
    requires C.minterKey(TokenId(C.H, token.genesis.mint)).Some? && SealMemory.Separated(u)
    requires SealsIn(u, Proofs(OuterProofs(C, token)))
    requires var proofs := Proofs(OuterProofs(C, token));
             forall p, q :: p in proofs && q in proofs ==> SealCode(p) == SealCode(q)
    ensures SealHistory.AllUnder(ProofsOf(token), token.genesis.proof.uc.seal.hash)
  {
    hide SealCode, SealMemory.Separated, OuterProofs, TokenId;
    var proofs := Proofs(OuterProofs(C, token));
    forall p | p in ProofsOf(token) ensures SealHistory.UnderSeal(p, token.genesis.proof.uc.seal.hash) {
      var i := 0;
      if p != token.genesis.proof {
        var j :| 0 <= j < |token.transfers| && token.transfers[j].proof == p;
        i := j + 1;
      }
      OuterProofAt(C, token, i);
      OuterProofAt(C, token, 0);
      assert proofs[i] in proofs && proofs[0] in proofs && proofs[i] == p && proofs[0] == token.genesis.proof;
      SameCodeSameHash(u, p, token.genesis.proof);
    }
  }

  lemma SameCodeSameHash(u: SealMemory.Universe, p: InclusionProof, q: InclusionProof)
    requires SealMemory.Separated(u) && p.uc.seal in u.seals && q.uc.seal in u.seals && SealCode(p) == SealCode(q)
    ensures p.uc.seal.hash == q.uc.seal.hash
  {
    hide SealCbor, EncodeByteString, SealMemory.Unambiguous;
    var a, b := p.uc.seal, q.uc.seal;
    assert SealEncoding.Encodable(a) && SealEncoding.Encodable(b);
    SealEncoding.SealCborFields(a, b);
    assert SealFields(a, EncodeNull())[6] == EncodeByteString(a.hash);
    assert SealFields(b, EncodeNull())[6] == EncodeByteString(b.hash);
    ByteStringInjective(a.hash, b.hash);
  }

  lemma RebuiltUnder(token: Token, proofs: seq<InclusionProof>, seal: UnicitySeal)
    requires |proofs| == 1 + |token.transfers| && forall i :: 0 <= i < |proofs| ==> proofs[i].uc.seal == seal
    ensures SealHistory.AllUnder(ProofsOf(RebuildToken(token, proofs)), seal.hash)
  {
  }

  lemma OuterPresented(C: Crypto, u: SealMemory.Universe, token: Token)
    requires C.minterKey(TokenId(C.H, token.genesis.mint)).Some? && TokenVerifier.Presented(u, token)
    ensures SealsIn(u, Proofs(OuterProofs(C, token)))
  {
    hide StateId, TokenId, MintState, OuterProofs;
    var items := OuterProofs(C, token);
    forall i | 0 <= i < |items| ensures items[i].proof.uc.seal in u.seals {
      OuterProofAt(C, token, i);
      if i > 0 {
        assert token.transfers[i - 1] in token.transfers;
      }
    }
  }

  lemma RebuiltPresented(u: SealMemory.Universe, token: Token, proofs: seq<InclusionProof>, seal: UnicitySeal)
    requires |proofs| == 1 + |token.transfers| && seal in u.seals
    requires forall i :: 0 <= i < |proofs| ==> proofs[i].uc.seal == seal
    ensures TokenVerifier.Presented(u, RebuildToken(token, proofs))
  {
  }
}
