/** One history per seal: under one seal a state is spent once, whatever shards the proofs come from.
    A consolidated token has all its outer proofs under one seal, so that its history, and what it holds
    together with others under that seal, needs no assumption on the service.
 */
module SealHistory {
  import opened Hashing
  import opened CborHead
  import opened Bft
  import opened Quorum
  import Certificates
  import opened RadixPath
  import opened Tokens
  import opened History
  import opened CertificateBinding
  import opened Genealogy
  import Radix

  /** The certificate's seal carries `root`, the hash of a unicity tree. */
  predicate UnderSeal(proof: InclusionProof, root: Data) { proof.uc.seal.hash == root }

  ghost predicate AllUnder(proofs: set<InclusionProof>, root: Data) {
    forall p :: p in proofs ==> UnderSeal(p, root)
  }

  /** The byte strings hashed for the certificates of the proofs. */
  ghost function CertificatesHashed(H: Hash, proofs: set<InclusionProof>): (s: set<Bytes>) {
    set p, x | p in proofs && x in CertificateHashed(H, p.uc) :: x
  }

  /** An accepted proof, all of whose byte strings are in `hashed`. */
  ghost predicate Seen(C: Crypto, tb: TrustBase, hashed: set<Bytes>, p: InclusionProof) {
    && Membership(C, tb, p, StateIdOf(C.H, p), p.referenceTime)
    && CertificateHashed(C.H, p.uc) <= hashed && exists cbor :: CertifiedHashed(C.H, p, cbor) <= hashed
  }

  lemma BothPrefixes(a: ShardId, b: ShardId, id: Digest)
    requires IsPrefixOf(a, id) && IsPrefixOf(b, id)
    ensures Nested(a, b)
  {
    hide Radix.BitAt;
    if |a| <= |b| {
      assert forall i :: 0 <= i < |a| ==> a[i] == b[i];
    } else {
      assert forall i :: 0 <= i < |b| ==> a[i] == b[i];
    }
  }

  lemma SeenShard(C: Crypto, tb: TrustBase, hashed: set<Bytes>, p: InclusionProof)
    requires Seen(C, tb, hashed, p)
    ensures IsPrefixOf(p.uc.shardTree.shard, StateIdOf(C.H, p))
    ensures p.uc.unicityTree.partition == AGGREGATION_PARTITION_ID
    ensures ComputedSealHash(C.H, p.uc) == Some(p.uc.seal.hash)
    ensures RootHash(p.uc.inputRecord).Some? && RootHash(p.uc.inputRecord).value.Some?
    ensures Witnessed(C, tb, hashed, RootHash(p.uc.inputRecord).value.value, p)
  {
    hide StateId, LeafValue, VerifyInclusion, CertifiedHashed, CertificateHashed, ComputedSealHash, CheckBody;
    hide ValidTrustBase, SealShape, SealQuorum;
  }

  /** Proofs of one state under one seal are against one root, by certificates equal up to their seals, and
      certify one transaction. */
  lemma OneSpendPerSeal(C: Crypto, tb: TrustBase, hashed: set<Bytes>, root: Data, p: InclusionProof, q: InclusionProof)
    requires !Collision(C.H, hashed) && Seen(C, tb, hashed, p) && Seen(C, tb, hashed, q)
    requires UnderSeal(p, root) && UnderSeal(q, root) && StateIdOf(C.H, p) == StateIdOf(C.H, q)
    ensures SameSpend(p, q) && p.uc == q.uc.(seal := p.uc.seal)
  {
    SeenShard(C, tb, hashed, p);
    SeenShard(C, tb, hashed, q);
    BothPrefixes(p.uc.shardTree.shard, q.uc.shardTree.shard, StateIdOf(C.H, p));
    var both := CertificateHashed(C.H, p.uc) + CertificateHashed(C.H, q.uc);
    SealBinds(C.H, p.uc, q.uc);
    if Collision(C.H, both) {
      CollisionMonotone(C.H, both, hashed);
    }
    OneSpendPerRoot(C, tb, hashed, RootHash(p.uc.inputRecord).value.value, p, q);
  }

  lemma OneSealSpendsOnce(C: Crypto, tb: TrustBase, hashed: set<Bytes>, root: Data, proofs: set<InclusionProof>)
    requires !Collision(C.H, hashed) && AllUnder(proofs, root)
    requires forall p :: p in proofs ==> Seen(C, tb, hashed, p)
    ensures SpentOnce(C.H, proofs)
  {
    hide Seen, StateIdOf, SameSpend;
    forall p, q | p in proofs && q in proofs && StateIdOf(C.H, p) == StateIdOf(C.H, q) ensures SameSpend(p, q) {
      OneSpendPerSeal(C, tb, hashed, root, p, q);
    }
  }

  /** An accepted seal fixes the state root of every shard: accepted certificates of one shard whose seals
      carry one hash name the same root, and agree in everything but their seals, unless hashes collide. */
  lemma OneRootPerShard(H: Hash, V: Verifier, tb: TrustBase, a: UnicityCertificate, b: UnicityCertificate)
    requires Certificates.OrdinaryVerdict(H, V, tb, a) == Certificates.Accepted
    requires Certificates.OrdinaryVerdict(H, V, tb, b) == Certificates.Accepted
    requires a.seal.hash == b.seal.hash && a.shardTree.shard == b.shardTree.shard
    ensures (a.inputRecord.hash == b.inputRecord.hash && a == b.(seal := a.seal))
         || Collision(H, CertificateHashed(H, a) + CertificateHashed(H, b))
  {
    hide ComputedSealHash, CertificateHashed, Signers, ValidTrustBase, Certificates.OrdinaryVerdict;
    Certificates.OrdinaryMeans(H, V, tb, a);
    Certificates.OrdinaryMeans(H, V, tb, b);
    SealBinds(H, a, b);
  }

  // ---- tokens ----

  lemma CertificateIn(H: Hash, proofs: set<InclusionProof>, p: InclusionProof)
    requires p in proofs
    ensures CertificateHashed(H, p.uc) <= CertificatesHashed(H, proofs)
  {
  }

  /** The proofs of an accepted token are seen. */
  lemma TokenSeen(C: Crypto, tb: TrustBase, hashed: set<Bytes>, token: Token, p: InclusionProof)
    requires HistoryAccepted(C, tb, token) && TokenHashed(C.H, token) <= hashed
    requires p in ProofsOf(token) && CertificateHashed(C.H, p.uc) <= hashed
    ensures Seen(C, tb, hashed, p)
  {
    hide Membership, CertifiedHashed, CertificateHashed, Unlocked, MintState, TokenId, MintCbor, TransferCbor, StateId;
    if p == token.genesis.proof {
      assert CertifiedHashed(C.H, p, MintCbor(token.genesis.mint)) <= hashed;
    } else {
      var t :| t in token.transfers && t.proof == p;
      var i :| 0 <= i < |token.transfers| && token.transfers[i] == t;
      TransferHashedMember(C.H, token.transfers, i);
      assert CertifiedHashed(C.H, p, TransferCbor(t.transfer)) <= hashed;
    }
  }

  /** Two accepted, linked tokens with one id, with all outer proofs under one seal, have not diverged,
      unless two of the byte strings hashed by the verifier collide. */
  lemma OneHistoryPerSeal(C: Crypto, tb: TrustBase, root: Data, a: Token, b: Token)
    requires HistoryAccepted(C, tb, a) && HistoryAccepted(C, tb, b) && Linked(C.H, a) && Linked(C.H, b)
    requires AllUnder(ProofsOf(a), root) && AllUnder(ProofsOf(b), root)
    requires TokenId(C.H, a.genesis.mint) == TokenId(C.H, b.genesis.mint)
    ensures Collision(C.H, TokenHashed(C.H, a) + TokenHashed(C.H, b)
                           + CertificatesHashed(C.H, ProofsOf(a) + ProofsOf(b)))
         || AgreeUpTo(a, b, Shorter(a, b))
  {
    hide HistoryAccepted, Linked, TokenHashed, TokenId, SpentOnce, ProofsOf, Seen, CertificatesHashed, UnderSeal;
    var proofs := ProofsOf(a) + ProofsOf(b);
    var tokens := TokenHashed(C.H, a) + TokenHashed(C.H, b);
    var hashed := tokens + CertificatesHashed(C.H, proofs);
    if !Collision(C.H, hashed) {
      forall p | p in proofs ensures Seen(C, tb, hashed, p) {
        CertificateIn(C.H, proofs, p);
        TokenSeen(C, tb, hashed, if p in ProofsOf(a) then a else b, p);
      }
      OneSealSpendsOnce(C, tb, hashed, root, proofs);
      OneHistoryAcrossRounds(C, tb, a, b);
      if Collision(C.H, tokens) {
        CollisionMonotone(C.H, tokens, hashed);
      }
    }
  }

  // ---- value ----

  lemma {:induction false} ProvenanceSeen(S: Setting, hashed: set<Bytes>, p: Provenance, proof: InclusionProof)
    requires Genealogy.Accepted(S, p) && AllHashed(S, p) <= hashed
    requires proof in AllProofs(p) && CertificateHashed(S.C.H, proof.uc) <= hashed
    ensures Seen(S.C, S.tb, hashed, proof)
  {
    hide HistoryAccepted, Linked, TokenHashed, Justified, Seen, ProofsOf, CertificateHashed;
    hide SplitOutputs.ClaimsHashed, SplitOutputs.Shaped;
    if proof in ProofsOf(p.token) {
      TokenSeen(S.C, S.tb, hashed, p.token, proof);
    } else {
      ProvenanceSeen(S, hashed, p.source, proof);
    }
  }

  /** Conservation under one seal: accepted tokens from one issued token, none another's ancestor, all of
      whose proofs, sources included, are under one seal, together hold at most the issued amount of every
      asset, unless hashes collide.  Nothing is asked of the service. */
  lemma NothingCreatedUnderSeal(S: Setting, root: Data, family: seq<Provenance>, p: Provenance, id: Data)
    requires p in family && Unrelated(S.C.H, family)
    requires forall q :: q in family ==> Genealogy.Accepted(S, q) && Lineage(S.C.H, q)[0] == Lineage(S.C.H, p)[0]
    requires AllUnder(FamilyProofs(family), root)
    ensures Collision(S.C.H, FamilyHashed(S, family) + CertificatesHashed(S.C.H, FamilyProofs(family)))
         || Sum(S.decode, family, id) <= Amount(S.decode, Ancestor(S.C.H, p, 0), id)
  {
    hide Genealogy.Accepted, Amount, Unrelated, Lineage, Ancestor, AllHashed, AllProofs, SpentOnce, Seen, CertificatesHashed;
    hide FamilyProofs, FamilyHashed, UnderSeal;
    var tokens, proofs := FamilyHashed(S, family), FamilyProofs(family);
    var hashed := tokens + CertificatesHashed(S.C.H, proofs);
    if !Collision(S.C.H, hashed) {
      forall proof | proof in proofs ensures Seen(S.C, S.tb, hashed, proof) {
        var q := FamilyProofOf(family, proof);
        CertificateIn(S.C.H, proofs, proof);
        FamilyHashedMember(S, family, q);
        ProvenanceSeen(S, hashed, q, proof);
      }
      OneSealSpendsOnce(S.C, S.tb, hashed, root, proofs);
      NothingCreated(S, family, p, id);
      if Collision(S.C.H, tokens) {
        CollisionMonotone(S.C.H, tokens, hashed);
      }
    }
  }
}
