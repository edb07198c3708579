/** One history per token: under one state-tree root, two accepted tokens with the same id cannot
    have diverged.
 */
module History {
  import opened Hashing
  import opened CborHead
  import opened Bft
  import opened Quorum
  import opened RadixPath
  import opened Tokens

  // ---- what is hashed and what is certified ----

  /** The byte strings hashed when the inclusion of a transaction is checked. */
  ghost function CertifiedHashed(H: Hash, proof: InclusionProof, cbor: Bytes): (s: set<Bytes>) {
    var c := proof.certification;
    var stateId := StateIdOf(H, proof);
    {cbor, LeafValuePreimage(c.transactionHash, proof.referenceTime)} +
    Hashed(H, AsPath(proof.path, stateId, LeafValue(H, c.transactionHash, proof.referenceTime)), stateId, 0)
  }

  function StateIdOf(H: Hash, proof: InclusionProof): (id: Digest) {
    StateId(H, proof.certification.lockScript, proof.certification.sourceStateHash)
  }

  ghost function TransfersHashed(H: Hash, transfers: seq<CertifiedTransfer>): (s: set<Bytes>) {
    if transfers == [] then {}
    else CertifiedHashed(H, transfers[0].proof, TransferCbor(transfers[0].transfer)) + TransfersHashed(H, transfers[1..])
  }

  ghost function TokenHashed(H: Hash, token: Token): (s: set<Bytes>) {
    CertifiedHashed(H, token.genesis.proof, MintCbor(token.genesis.mint)) + TransfersHashed(H, token.transfers)
  }

  lemma {:induction false} TransferHashedMember(H: Hash, transfers: seq<CertifiedTransfer>, i: nat)
    requires i < |transfers|
    ensures CertifiedHashed(H, transfers[i].proof, TransferCbor(transfers[i].transfer)) <= TransfersHashed(H, transfers)
  {
    hide CertifiedHashed;
    if i > 0 {
      TransferHashedMember(H, transfers[1..], i - 1);
    }
  }

  /** The outer proofs of a token. */
  ghost function ProofsOf(token: Token): (s: set<InclusionProof>) {
    {token.genesis.proof} + set t | t in token.transfers :: t.proof
  }

  // ---- every state is spent once ----

  /** Proofs that certify one state certify one transaction at one reference time. */
  ghost predicate SpentOnce(H: Hash, proofs: set<InclusionProof>) {
    forall p, q :: p in proofs && q in proofs && StateIdOf(H, p) == StateIdOf(H, q) ==> SameSpend(p, q)
  }

  predicate SameSpend(p: InclusionProof, q: InclusionProof) {
    p.certification.transactionHash == q.certification.transactionHash && p.referenceTime == q.referenceTime
  }

  /** The proof is against the state-tree root `root`. */
  predicate Against(proof: InclusionProof, root: Digest) {
    RootHash(proof.uc.inputRecord) == Some(Some(root))
  }

  ghost predicate AllAgainst(token: Token, root: Digest) {
    Against(token.genesis.proof, root) && forall t :: t in token.transfers ==> Against(t.proof, root)
  }

  /** An accepted proof against `root`, hashed within `hashed`. */
  ghost predicate Witnessed(C: Crypto, tb: TrustBase, hashed: set<Bytes>, root: Digest, p: InclusionProof) {
    && Membership(C, tb, p, StateIdOf(C.H, p), p.referenceTime) && Against(p, root)
    && exists cbor :: CertifiedHashed(C.H, p, cbor) <= hashed
  }

  /** Under one root this holds, unless hashes collide. */
  lemma OneSpendPerRoot(C: Crypto, tb: TrustBase, hashed: set<Bytes>, root: Digest, p: InclusionProof,
                        q: InclusionProof)
    requires !Collision(C.H, hashed)
    requires Witnessed(C, tb, hashed, root, p) && Witnessed(C, tb, hashed, root, q)
    requires StateIdOf(C.H, p) == StateIdOf(C.H, q)
    ensures SameSpend(p, q)
  {
    hide StateId, LeafValuePreimage, FoldFrom, Hashed, ValidTrustBase, Certificates.OrdinaryVerdict;
    var id := StateIdOf(C.H, p);
    var hp, hq := p.certification.transactionHash, q.certification.transactionHash;
    var vp, vq := LeafValue(C.H, hp, p.referenceTime), LeafValue(C.H, hq, q.referenceTime);
    var both := Hashed(C.H, AsPath(p.path, id, vp), id, 0) + Hashed(C.H, AsPath(q.path, id, vq), id, 0);
    InclusionUnique(C.H, p.path, q.path, id, vp, vq, root);
    if Collision(C.H, both) {
      CollisionMonotone(C.H, both, hashed);
    }
    SamePreimage(C.H, hashed, LeafValuePreimage(hp, p.referenceTime), LeafValuePreimage(hq, q.referenceTime));
    LeafValueInjective(hp, p.referenceTime, hq, q.referenceTime);
  }

  lemma OneRootSpendsOnce(C: Crypto, tb: TrustBase, hashed: set<Bytes>, root: Digest, proofs: set<InclusionProof>)
    requires !Collision(C.H, hashed) && forall p :: p in proofs ==> Witnessed(C, tb, hashed, root, p)
    ensures SpentOnce(C.H, proofs)
  {
    hide Witnessed, StateIdOf, SameSpend;
    forall p, q | p in proofs && q in proofs && StateIdOf(C.H, p) == StateIdOf(C.H, q) ensures SameSpend(p, q) {
      OneSpendPerRoot(C, tb, hashed, root, p, q);
    }
  }

  /** The proofs of an accepted token are witnessed. */
  lemma TokenWitnessed(C: Crypto, tb: TrustBase, hashed: set<Bytes>, root: Digest, token: Token, p: InclusionProof)
    requires HistoryAccepted(C, tb, token) && AllAgainst(token, root) && TokenHashed(C.H, token) <= hashed
    requires p in ProofsOf(token)
    ensures Witnessed(C, tb, hashed, root, p)
  {
    hide Membership, CertifiedHashed, Unlocked, MintState, TokenId, MintCbor, TransferCbor, StateId, Against;
    if p == token.genesis.proof {
      assert CertifiedHashed(C.H, p, MintCbor(token.genesis.mint)) <= hashed;
    } else {
      var t :| t in token.transfers && t.proof == p;
      var i :| 0 <= i < |token.transfers| && token.transfers[i] == t;
      TransferHashedMember(C.H, token.transfers, i);
      assert CertifiedHashed(C.H, p, TransferCbor(t.transfer)) <= hashed;
    }
  }

  // ---- one history ----

  /** One state is spent by one transaction at one reference time. */
  lemma OneTransactionPerState(C: Crypto, tb: TrustBase, hashed: set<Bytes>, proofs: set<InclusionProof>,
                               lock: Predicate, source: Digest,
                               p: InclusionProof, ep: Option<U64>, x: Bytes,
                               q: InclusionProof, eq: Option<U64>, y: Bytes)
    requires !Collision(C.H, hashed) && SpentOnce(C.H, proofs) && p in proofs && q in proofs
    requires Certified(C, tb, p, lock, source, ep, x) && Certified(C, tb, q, lock, source, eq, y)
    requires x in hashed && y in hashed
    ensures x == y && p.referenceTime == q.referenceTime
  {
    hide StateId, Membership, Unlocked;
    assert SameSpend(p, q);
    SamePreimage(C.H, hashed, x, y);
  }

  /** Two histories that may be compared. */
  ghost predicate Comparable(C: Crypto, tb: TrustBase, hashed: set<Bytes>, proofs: set<InclusionProof>, a: Token,
                             b: Token) {
    && !Collision(C.H, hashed) && TokenHashed(C.H, a) <= hashed && TokenHashed(C.H, b) <= hashed
    && HistoryAccepted(C, tb, a) && HistoryAccepted(C, tb, b)
    && Linked(C.H, a) && Linked(C.H, b)
    && SpentOnce(C.H, proofs) && ProofsOf(a) <= proofs && ProofsOf(b) <= proofs
    && TokenId(C.H, a.genesis.mint) == TokenId(C.H, b.genesis.mint)
  }

  lemma HashedCbor(H: Hash, proof: InclusionProof, cbor: Bytes, hashed: set<Bytes>)
    requires CertifiedHashed(H, proof, cbor) <= hashed
    ensures cbor in hashed
  {
    hide StateIdOf, LeafValuePreimage, Hashed;
    assert cbor in CertifiedHashed(H, proof, cbor);
  }

  lemma SameGenesis(C: Crypto, tb: TrustBase, hashed: set<Bytes>, proofs: set<InclusionProof>, a: Token, b: Token)
    requires Comparable(C, tb, hashed, proofs, a, b)
    ensures a.genesis.mint == b.genesis.mint && a.genesis.proof.referenceTime == b.genesis.proof.referenceTime
  {
    hide Certified, CertifiedHashed, TransfersHashed, Linked, TokenId, MintState, MintCbor, SignaturePredicate;
    hide SpentOnce;
    var id := TokenId(C.H, a.genesis.mint);
    HashedCbor(C.H, a.genesis.proof, MintCbor(a.genesis.mint), hashed);
    HashedCbor(C.H, b.genesis.proof, MintCbor(b.genesis.mint), hashed);
    OneTransactionPerState(C, tb, hashed, proofs,
                           SignaturePredicate(C.minterKey(id).value), MintState(C.H, id),
                           a.genesis.proof, a.genesis.mint.expiresAt, MintCbor(a.genesis.mint),
                           b.genesis.proof, b.genesis.mint.expiresAt, MintCbor(b.genesis.mint));
    MintInjective(a.genesis.mint, b.genesis.mint);
  }

  /** The first `n` transactions agree. */
  ghost predicate AgreeUpTo(a: Token, b: Token, n: nat) {
    && a.genesis.mint == b.genesis.mint
    && n <= |a.transfers| && n <= |b.transfers|
    && forall i :: 0 <= i < n ==>
         && a.transfers[i].transfer == b.transfers[i].transfer
         && a.transfers[i].proof.referenceTime == b.transfers[i].proof.referenceTime
  }

  /** Histories that agree so far take the same next step. */
  lemma NextStepAgrees(C: Crypto, tb: TrustBase, hashed: set<Bytes>, proofs: set<InclusionProof>, a: Token, b: Token,
                       n: nat)
    requires Comparable(C, tb, hashed, proofs, a, b) && AgreeUpTo(a, b, n)
    requires n < |a.transfers| && n < |b.transfers|
    ensures AgreeUpTo(a, b, n + 1)
  {
    hide Certified, CertifiedHashed, TransfersHashed, NextState, MintState, TokenId, TransferCbor, GenesisCertified;
    hide SpentOnce;
    var s, t := a.transfers[n], b.transfers[n];
    assert s in a.transfers && t in b.transfers;
    assert s.proof in ProofsOf(a) && t.proof in ProofsOf(b);
    assert StateBefore(C.H, a, n) == StateBefore(C.H, b, n);
    TransferHashedMember(C.H, a.transfers, n);
    TransferHashedMember(C.H, b.transfers, n);
    HashedCbor(C.H, s.proof, TransferCbor(s.transfer), hashed);
    HashedCbor(C.H, t.proof, TransferCbor(t.transfer), hashed);
    OneTransactionPerState(C, tb, hashed, proofs, s.transfer.lockScript, s.transfer.sourceStateHash,
                           s.proof, s.transfer.expiresAt, TransferCbor(s.transfer),
                           t.proof, t.transfer.expiresAt, TransferCbor(t.transfer));
    TransferInjective(s.transfer, t.transfer);
  }

  lemma {:induction false} AgreeThroughout(C: Crypto, tb: TrustBase, hashed: set<Bytes>, proofs: set<InclusionProof>,
                                           a: Token, b: Token, n: nat)
    requires Comparable(C, tb, hashed, proofs, a, b) && n <= |a.transfers| && n <= |b.transfers|
    ensures AgreeUpTo(a, b, n)
  {
    hide Comparable;
    if n == 0 {
      SameGenesis(C, tb, hashed, proofs, a, b);
    } else {
      AgreeThroughout(C, tb, hashed, proofs, a, b, n - 1);
      NextStepAgrees(C, tb, hashed, proofs, a, b, n - 1);
    }
  }

  function Shorter(a: Token, b: Token): (n: nat) {
    if |a.transfers| <= |b.transfers| then |a.transfers| else |b.transfers|
  }

  /** Across rounds: whatever roots the proofs are against, if no state was certified as spent in two
      ways, the shorter of two histories with one id is a prefix of the longer one, transaction by
      transaction and with the same reference times, unless two of the byte strings hashed by the
      verifier collide. */
  lemma OneHistoryAcrossRounds(C: Crypto, tb: TrustBase, a: Token, b: Token)
    requires HistoryAccepted(C, tb, a) && HistoryAccepted(C, tb, b)
    requires Linked(C.H, a) && Linked(C.H, b)
    requires SpentOnce(C.H, ProofsOf(a) + ProofsOf(b))
    requires TokenId(C.H, a.genesis.mint) == TokenId(C.H, b.genesis.mint)
    ensures Collision(C.H, TokenHashed(C.H, a) + TokenHashed(C.H, b)) || AgreeUpTo(a, b, Shorter(a, b))
  {
    hide HistoryAccepted, Linked, TokenHashed, SpentOnce, ProofsOf, TokenId;
    var hashed := TokenHashed(C.H, a) + TokenHashed(C.H, b);
    if !Collision(C.H, hashed) {
      AgreeThroughout(C, tb, hashed, ProofsOf(a) + ProofsOf(b), a, b, Shorter(a, b));
    }
  }

  /** Two accepted, linked tokens with one id, all of whose outer proofs are against one state-tree
      root: the shorter history is a prefix of the longer one, unless two of the byte strings hashed by
      the verifier collide.  Nothing is asked of the tree behind the root. */
  lemma OneHistory(C: Crypto, tb: TrustBase, root: Digest, a: Token, b: Token)
    requires HistoryAccepted(C, tb, a) && HistoryAccepted(C, tb, b)
    requires Linked(C.H, a) && Linked(C.H, b)
    requires AllAgainst(a, root) && AllAgainst(b, root)
    requires TokenId(C.H, a.genesis.mint) == TokenId(C.H, b.genesis.mint)
    ensures Collision(C.H, TokenHashed(C.H, a) + TokenHashed(C.H, b)) || AgreeUpTo(a, b, Shorter(a, b))
  {
    hide HistoryAccepted, Linked, TokenHashed, AllAgainst, TokenId, SpentOnce, ProofsOf, Witnessed;
    var hashed, proofs := TokenHashed(C.H, a) + TokenHashed(C.H, b), ProofsOf(a) + ProofsOf(b);
    if !Collision(C.H, hashed) {
      forall p | p in proofs ensures Witnessed(C, tb, hashed, root, p) {
        TokenWitnessed(C, tb, hashed, root, if p in ProofsOf(a) then a else b, p);
      }
      OneRootSpendsOnce(C, tb, hashed, root, proofs);
      OneHistoryAcrossRounds(C, tb, a, b);
    }
  }
}
