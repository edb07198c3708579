/** Moving inclusion proofs under another certificate: the certification and the reference time stay, the
    tree path and the certificate are new, and every result is verified.
 */
module Replacement {
  import opened Hashing
  import opened CborHead
  import opened Bft
  import opened Quorum
  import opened Certificates
  import opened RadixPath
  import opened Tokens
  import opened Topology
  import opened Admission
  import Radix
  import RadixTree
  import SealEncoding
  import SealMemory
  import SealSession
  import TokenVerifier

  /** What a service returns for the states of one shard. */
  datatype Batch<View> = Batch(proofs: seq<InclusionProof>, view: Option<View>)

  // ---- seals ----

  ghost predicate SealsIn(u: SealMemory.Universe, proofs: seq<InclusionProof>) {
    forall i :: 0 <= i < |proofs| ==> proofs[i].uc.seal in u.seals
  }

  function Proofs(items: seq<ProofItem>): (p: seq<InclusionProof>)
    ensures |p| == |items| && forall i :: 0 <= i < |p| ==> p[i] == items[i].proof
  {
    seq(|items|, i requires 0 <= i < |items| => items[i].proof)
  }

  function SealCode(p: InclusionProof): (b: Bytes) {
    if SealEncoding.Encodable(p.uc.seal) then SealCbor(p.uc.seal) else []
  }

  /** The number of different seals, by their complete encodings. */
  function DistinctSeals(proofs: seq<InclusionProof>): (n: nat) {
    |set p | p in proofs :: SealCode(p)|
  }

  lemma OneSealAll(proofs: seq<InclusionProof>)
    requires DistinctSeals(proofs) == 1
    ensures forall p, q :: p in proofs && q in proofs ==> SealCode(p) == SealCode(q)
  {
    hide SealCode;
    var codes := set p | p in proofs :: SealCode(p);
    forall p, q | p in proofs && q in proofs ensures SealCode(p) == SealCode(q) {
      assert SealCode(p) in codes && SealCode(q) in codes;
      if SealCode(p) != SealCode(q) {
        SubsetSize({SealCode(p), SealCode(q)}, codes);
      }
    }
  }

  lemma SameSealOnce(proofs: seq<InclusionProof>, seal: UnicitySeal)
    requires proofs != [] && forall i :: 0 <= i < |proofs| ==> proofs[i].uc.seal == seal
    ensures DistinctSeals(proofs) == 1
  {
    hide SealCbor;
    var codes := set p | p in proofs :: SealCode(p);
    assert proofs[0] in proofs && SealCode(proofs[0]) in codes;
    assert codes == {SealCode(proofs[0])};
  }

  // ---- evidence ----

  ghost predicate Proven(C: Crypto, tb: TrustBase, id: Digest, p: InclusionProof) {
    Membership(C, tb, p, id, p.referenceTime)
  }

  ghost predicate AllProven(C: Crypto, tb: TrustBase, items: seq<ProofItem>) {
    forall i :: 0 <= i < |items| ==> Proven(C, tb, items[i].stateId, items[i].proof)
  }

  lemma ProvenIs(C: Crypto, tb: TrustBase, id: Digest, p: InclusionProof)
    ensures TokenVerifier.MembershipVerdict(C, tb, p, id, p.referenceTime) == Accepted <==> Proven(C, tb, id, p)
  {
    hide Membership, TokenVerifier.MembershipVerdict;
    TokenVerifier.MembershipIs(C, tb, p, id, p.referenceTime);
  }

  method VerifyEvidence(C: Crypto, session: SealSession.SealSession, items: seq<ProofItem>,
                        ghost u: SealMemory.Universe)
    returns (ok: bool)
    requires session.Valid(u) && TokenVerifier.Under(C, u) && SealsIn(u, Proofs(items))
    modifies session, session.memo, session.bodies
    ensures session.Valid(u)
    ensures ok <==> AllProven(C, session.tb, items)
  {
    hide Proven, TokenVerifier.MembershipVerdict, SealMemory.Separated, SealMemory.GoodMemory;
    for i := 0 to |items|
      invariant session.Valid(u)
      invariant forall j :: 0 <= j < i ==> Proven(C, session.tb, items[j].stateId, items[j].proof)
    {
      var p := items[i].proof;
      assert Proofs(items)[i] == p;
      ProvenIs(C, session.tb, items[i].stateId, p);
      var v := TokenVerifier.VerifyMembership(C, session, p, items[i].stateId, p.referenceTime,
                                              TokenVerifier.NO_POLICY, u);
      if v.Rejected? {
        return false;
      }
    }
    return true;
  }

  // ---- replacement ----

  /** The original certification with a new path and certificate. */
  function Replaced(original: InclusionProof, served: InclusionProof, uc: UnicityCertificate): (p: InclusionProof)
    ensures p.certification == original.certification && p.referenceTime == original.referenceTime && p.uc == uc
  {
    InclusionProof(original.certification, original.referenceTime, served.path, uc)
  }

  /** A verified replacement of an input's proof under `seal`. */
  ghost predicate Replaces(C: Crypto, tb: TrustBase, item: ProofItem, p: InclusionProof, seal: UnicitySeal) {
    && p.certification == item.proof.certification && p.referenceTime == item.proof.referenceTime
    && p.uc.seal == seal && Proven(C, tb, item.stateId, p)
  }

  ghost predicate Sound(C: Crypto, tb: TrustBase, items: seq<ProofItem>, replaced: seq<Option<InclusionProof>>,
                        seal: UnicitySeal) {
    && |replaced| == |items|
    && forall i :: 0 <= i < |items| && replaced[i].Some? ==> Replaces(C, tb, items[i], replaced[i].value, seal)
  }

  /** The indexes of a group are indexes of inputs. */
  predicate Within(items: seq<ProofItem>, g: Group) {
    forall k :: 0 <= k < |g.items| ==> g.items[k] < |items|
  }

  /** Every state of the group belongs to its shard. */
  ghost predicate InShard(items: seq<ProofItem>, g: Group) {
    forall k :: 0 <= k < |g.items| ==> g.items[k] < |items| && g.shard <= KeyBits(items[g.items[k]].stateId)
  }

  /** Every served proof of the group, moved under `uc`, is bound to its original and proves its state. */
  ghost predicate GroupMoves(C: Crypto, tb: TrustBase, items: seq<ProofItem>, g: Group, served: seq<InclusionProof>,
                             uc: UnicityCertificate)
  {
    && |served| == |g.items|
    && forall k :: 0 <= k < |g.items| ==>
         && g.items[k] < |items| && Agrees(items[g.items[k]].proof, served[k])
         && Proven(C, tb, items[g.items[k]].stateId, Replaced(items[g.items[k]].proof, served[k], uc))
  }

  /** Replace the proofs of one group, verifying each under the target's policy: it succeeds exactly when
      they can be moved. */
  method Place(C: Crypto, session: SealSession.SealSession, items: seq<ProofItem>, g: Group,
               served: seq<InclusionProof>,
               uc: UnicityCertificate, policy: Digest, replaced: seq<Option<InclusionProof>>, ghost u: SealMemory.Universe)
    returns (ok: bool, out: seq<Option<InclusionProof>>)
    requires session.Valid(u) && TokenVerifier.Under(C, u) && policy in u.ordinary && uc.seal in u.seals
    requires |served| == |g.items| && Within(items, g) && Sound(C, session.tb, items, replaced, uc.seal)
    modifies session, session.memo, session.bodies
    ensures session.Valid(u)
    ensures ok ==> Sound(C, session.tb, items, out, uc.seal)
    ensures ok ==> forall k :: 0 <= k < |g.items| ==> out[g.items[k]].Some?
    ensures ok ==> forall i :: 0 <= i < |items| && replaced[i].Some? ==> out[i].Some?
    ensures ok <==> GroupMoves(C, session.tb, items, g, served, uc)
  {
    hide Proven, TokenVerifier.MembershipVerdict, SealMemory.Separated, SealMemory.GoodMemory, SealMemory.Under;
    hide GroupMoves, Movable;
    out := replaced;
    for k := 0 to |g.items|
      invariant session.Valid(u) && Sound(C, session.tb, items, out, uc.seal)
      invariant forall j :: 0 <= j < k ==> out[g.items[j]].Some?
      invariant forall i :: 0 <= i < |items| && replaced[i].Some? ==> out[i].Some?
      invariant forall j :: 0 <= j < k ==> Movable(C, session.tb, items, g, served, uc, j)
    {
      var at := g.items[k];
      MovableIs(C, session.tb, items, g, served, uc, k);
      if !Agrees(items[at].proof, served[k]) {
        return false, out;
      }
      var p := Replaced(items[at].proof, served[k], uc);
      ProvenIs(C, session.tb, items[at].stateId, p);
      var v := TokenVerifier.VerifyMembership(C, session, p, items[at].stateId, p.referenceTime, policy, u);
      if v.Rejected? {
        return false, out;
      }
      out := out[at := Some(p)];
    }
    AllMovable(C, session.tb, items, g, served, uc);
    ok := true;
  }

  ghost predicate Movable(C: Crypto, tb: TrustBase, items: seq<ProofItem>, g: Group, served: seq<InclusionProof>,
                          uc: UnicityCertificate, k: nat)
  {
    && k < |g.items| == |served| && g.items[k] < |items| && Agrees(items[g.items[k]].proof, served[k])
    && Proven(C, tb, items[g.items[k]].stateId, Replaced(items[g.items[k]].proof, served[k], uc))
  }

  lemma MovableIs(C: Crypto, tb: TrustBase, items: seq<ProofItem>, g: Group, served: seq<InclusionProof>,
                  uc: UnicityCertificate, k: nat)
    requires k < |g.items| == |served| && g.items[k] < |items|
    ensures GroupMoves(C, tb, items, g, served, uc) ==> Movable(C, tb, items, g, served, uc, k)
    ensures Movable(C, tb, items, g, served, uc, k)
       <==> && Agrees(items[g.items[k]].proof, served[k])
            && Proven(C, tb, items[g.items[k]].stateId, Replaced(items[g.items[k]].proof, served[k], uc))
  {
    hide Proven;
  }

  lemma AllMovable(C: Crypto, tb: TrustBase, items: seq<ProofItem>, g: Group, served: seq<InclusionProof>,
                   uc: UnicityCertificate)
    requires |served| == |g.items| && forall k :: 0 <= k < |g.items| ==> Movable(C, tb, items, g, served, uc, k)
    ensures GroupMoves(C, tb, items, g, served, uc)
  {
    hide Proven;
    forall k | 0 <= k < |g.items|
      ensures && g.items[k] < |items| && Agrees(items[g.items[k]].proof, served[k])
              && Proven(C, tb, items[g.items[k]].stateId, Replaced(items[g.items[k]].proof, served[k], uc))
    {
      assert Movable(C, tb, items, g, served, uc, k);
    }
  }

  // ---- an honest service ----

  /** The service returns the original certification and reference time, with a path that leads from the
      certified leaf to `root`, in a round not before the reference time. */
  ghost predicate HonestProof(H: Hash, item: ProofItem, served: InclusionProof, root: Digest, time: U64) {
    && Agrees(item.proof, served) && item.proof.referenceTime <= time
    && VerifyInclusion(H, served.path, item.stateId,
                       LeafValue(H, item.proof.certification.transactionHash, item.proof.referenceTime), root)
  }

  /** A service that keeps its certified leaves in a tree and hands out their paths is honest. */
  lemma StoreIsHonest(H: Hash, t: RadixTree.Tree, item: ProofItem, served: InclusionProof, time: U64)
    requires RadixTree.Shaped(t, 0) && RadixTree.Depths(t)
    requires RadixTree.Holds(t, item.stateId,
                             LeafValue(H, item.proof.certification.transactionHash, item.proof.referenceTime))
    requires served.certification == item.proof.certification && served.referenceTime == item.proof.referenceTime <= time
    requires served.path == RadixTree.InclusionFor(H, t, item.stateId)
    ensures HonestProof(H, item, served, RadixTree.RootOf(H, t), time)
  {
    hide LeafValue, RadixTree.RootOf, RadixTree.InclusionFor, VerifyInclusion, RadixTree.Shaped, RadixTree.Holds;
    RadixTree.StoredIsIncluded(H, t, item.stateId,
                               LeafValue(H, item.proof.certification.transactionHash, item.proof.referenceTime));
  }

  ghost predicate HonestBatch(H: Hash, items: seq<ProofItem>, g: Group, served: seq<InclusionProof>, ir: InputRecord) {
    && |served| == |g.items| && ir.hash.Some? && |ir.hash.value| == 32
    && forall k :: 0 <= k < |g.items| ==>
         g.items[k] < |items| && HonestProof(H, items[g.items[k]], served[k], ir.hash.value, ir.timestamp)
  }

  /** A proven state, honestly served under an accepted certificate of its shard, is proven there too. */
  lemma ReplacementProven(C: Crypto, tb: TrustBase, item: ProofItem, served: InclusionProof, uc: UnicityCertificate,
                          root: Digest)
    requires Proven(C, tb, item.stateId, item.proof) && HonestProof(C.H, item, served, root, uc.inputRecord.timestamp)
    requires uc.inputRecord.hash == Some(root) && OrdinaryVerdict(C.H, C.V, tb, uc) == Accepted
    requires uc.shardTree.shard <= KeyBits(item.stateId)
    ensures Proven(C, tb, item.stateId, Replaced(item.proof, served, uc))
  {
    hide ValidTrustBase, StateId, LeafValue, VerifyInclusion, OrdinaryVerdict;
    PrefixBits(uc.shardTree.shard, item.stateId);
  }

  lemma PrefixBits(shard: ShardId, id: Digest)
    requires shard <= KeyBits(id)
    ensures IsPrefixOf(shard, id)
  {
    hide Radix.BitAt;
    forall i | 0 <= i < |shard| ensures Radix.BitAt(id, i) == shard[i] {
      assert KeyBits(id)[i] == shard[i];
    }
  }

  /** What an honest service returns for proven states can be moved under the accepted certificate. */
  lemma HonestBatchMoves(C: Crypto, tb: TrustBase, items: seq<ProofItem>, g: Group, served: seq<InclusionProof>,
                         uc: UnicityCertificate)
    requires AllProven(C, tb, items) && InShard(items, g) && HonestBatch(C.H, items, g, served, uc.inputRecord)
    requires OrdinaryVerdict(C.H, C.V, tb, uc) == Accepted && uc.shardTree.shard == g.shard
    ensures GroupMoves(C, tb, items, g, served, uc)
  {
    hide Proven, OrdinaryVerdict, KeyBits, VerifyInclusion, LeafValue;
    forall k | 0 <= k < |g.items|
      ensures && Agrees(items[g.items[k]].proof, served[k])
              && Proven(C, tb, items[g.items[k]].stateId, Replaced(items[g.items[k]].proof, served[k], uc))
    {
      ReplacementProven(C, tb, items[g.items[k]], served[k], uc, uc.inputRecord.hash.value);
    }
  }
}
