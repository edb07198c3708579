/** Conservation of value over the whole genealogy of a token.

    A token is issued, or minted as an output of a split whose burned source is verified in turn.
    As long as no state was certified as spent in two ways, which is a theorem under one state-tree
    root, tokens none of which descends from another never hold more of an asset together than the
    issued token they all come from.
 */
module Genealogy {
  import opened Hashing
  import opened CborHead
  import opened CborScan
  import CborDecode
  import opened Bft
  import opened Quorum
  import opened Tokens
  import opened History
  import opened Payment
  import SplitOutputs
  import RsmstProof
  import RsmstConservation

  /** A token with the sources it was split from, back to an issued token. */
  datatype Provenance =
    | Issued(token: Token)
    | SplitFrom(token: Token, source: Provenance, proofs: seq<seq<RsmstProof.Step>>)

  /** What the bytes of a mint justification are read as. */
  datatype Justification =
    | Foreign
    | Malformed
    | SplitOf(source: Token, proofs: seq<seq<RsmstProof.Step>>)

  /** The callers' registry: how justifications are read, and the verifiers for token data and for
      justifications of other kinds. */
  datatype Registry = Registry(
    read: Data -> Justification, dataOk: CertifiedMint -> bool, foreignOk: CertifiedMint -> bool)

  /** The fixed setting of one verification. */
  datatype Setting = Setting(C: Crypto, tb: TrustBase, decode: Decoder, lim: Limits, registry: Registry)
  {
    function Rules(): (R: SplitOutputs.Rules) { SplitOutputs.Rules(C.H, decode, lim) }
  }

  /** What was hashed and which proofs were accepted. */
  datatype Transcript = Transcript(hashed: set<Bytes>, proofs: set<InclusionProof>)

  function IdOf(H: Hash, p: Provenance): (id: Digest) { TokenId(H, p.token.genesis.mint) }

  function JustificationOf(S: Setting, m: Mint): (j: Option<Justification>) {
    match m.justification
    case None => None
    case Some(bytes) => Some(S.registry.read(bytes))
  }

  /** The minted output with what its justification holds. */
  function OutputOf(p: Provenance): (o: SplitOutputs.Output)
    requires p.SplitFrom?
  {
    SplitOutputs.Output(p.source.token, p.token.genesis.mint, p.proofs)
  }

  /** The registry's part: token data, and a justification that is absent, accepted by its own verifier,
      or that of the split this token comes from. */
  ghost predicate Justified(S: Setting, p: Provenance) {
    && S.registry.dataOk(p.token.genesis)
    && match JustificationOf(S, p.token.genesis.mint)
       case None => p.Issued?
       case Some(Foreign) => p.Issued? && S.registry.foreignOk(p.token.genesis)
       case Some(Malformed) => false
       case Some(SplitOf(source, proofs)) =>
         p.SplitFrom? && p.source.token == source && p.proofs == proofs && SplitOutputs.OutputAccepted(S.Rules(), OutputOf(p))
  }

  /** History and justification are accepted, and so is, recursively, the source of a split. */
  ghost predicate Accepted(S: Setting, p: Provenance) {
    && HistoryAccepted(S.C, S.tb, p.token) && Linked(S.C.H, p.token) && Justified(S, p)
    && (p.SplitFrom? ==> Accepted(S, p.source))
  }

  /** The token ids from the issued token down to this one. */
  function Lineage(H: Hash, p: Provenance): (ids: seq<Digest>)
    ensures |ids| > 0 && ids[|ids| - 1] == IdOf(H, p)
  {
    match p
    case Issued(_) => [IdOf(H, p)]
    case SplitFrom(_, source, _) => Lineage(H, source) + [IdOf(H, p)]
  }

  function Amount(decode: Decoder, p: Provenance, id: Data): (v: nat) {
    AmountOf(SplitOutputs.AssetsOf(decode, p.token.genesis.mint), id)
  }

  function Sum(decode: Decoder, family: seq<Provenance>, id: Data): (v: nat) {
    if family == [] then 0 else Amount(decode, family[0], id) + Sum(decode, family[1..], id)
  }

  // ---- what the verifier hashed ----

  /** Every byte string hashed for a token, its allocation proofs and its sources. */
  ghost function AllHashed(S: Setting, p: Provenance): (s: set<Bytes>) {
    TokenHashed(S.C.H, p.token)
    + (if p.SplitFrom? && SplitOutputs.Shaped(S.Rules(), OutputOf(p))
       then SplitOutputs.ClaimsHashed(S.Rules(), OutputOf(p), |p.proofs|) else {})
    + (if p.SplitFrom? then AllHashed(S, p.source) else {})
  }

  ghost function FamilyHashed(S: Setting, family: seq<Provenance>): (s: set<Bytes>) {
    if family == [] then {} else AllHashed(S, family[0]) + FamilyHashed(S, family[1..])
  }

  /** The outer proofs of a token and of its sources. */
  ghost function AllProofs(p: Provenance): (s: set<InclusionProof>) {
    ProofsOf(p.token) + if p.SplitFrom? then AllProofs(p.source) else {}
  }

  ghost function FamilyProofs(family: seq<Provenance>): (s: set<InclusionProof>) {
    if family == [] then {} else AllProofs(family[0]) + FamilyProofs(family[1..])
  }

  lemma {:induction false} FamilyProofsMember(family: seq<Provenance>, p: Provenance)
    requires p in family
    ensures AllProofs(p) <= FamilyProofs(family)
  {
    hide AllProofs;
    if p != family[0] {
      FamilyProofsMember(family[1..], p);
    }
  }

  lemma {:induction false} FamilyHashedMember(S: Setting, family: seq<Provenance>, p: Provenance)
    requires p in family
    ensures AllHashed(S, p) <= FamilyHashed(S, family)
  {
    hide AllHashed;
    if p != family[0] {
      FamilyHashedMember(S, family[1..], p);
    }
  }

  // ---- one burn per token ----

  /** A burned state has no successor. */
  lemma BurnIsFinal(C: Crypto, tb: TrustBase, t: CertifiedTransfer, reason: Data)
    requires TransferCertified(C, tb, t)
    ensures t.transfer.lockScript != BurnPredicate(reason)
  {
    hide Membership, TransferCbor, CborDecode.Finish;
    ReadEncoded(UINT, BURN_TYPE, []);
    assert EncodeUint(BURN_TYPE) + [] == EncodeUint(BURN_TYPE);
  }

  lemma LockedByPredecessor(H: Hash, a: Token, b: Token, n: nat)
    requires Linked(H, b) && AgreeUpTo(a, b, n) && 0 < n < |b.transfers|
    ensures b.transfers[n].transfer.lockScript == a.transfers[n - 1].transfer.recipient
  {
    hide MintState, NextState, TokenId;
    assert (b.transfers[n].transfer.sourceStateHash, b.transfers[n].transfer.lockScript) == StateBefore(H, b, n);
  }

  lemma BurnRecipient(H: Hash, a: Token, lim: Limits)
    requires BurnManifest(H, a, lim).Some?
    ensures a.transfers != []
         && a.transfers[|a.transfers| - 1].transfer.recipient == BurnPredicate(H(ManifestCbor(BurnManifest(H, a, lim).value)))
  {
    hide ManifestOf, ManifestCbor, BurnPredicate;
  }

  /** The burn of a token ends its history. */
  lemma NothingAfterBurn(S: Setting, T: Transcript, a: Token, b: Token)
    requires Comparable(S.C, S.tb, T.hashed, T.proofs, a, b) && BurnManifest(S.C.H, a, S.lim).Some?
    ensures |b.transfers| <= |a.transfers|
  {
    hide TransferCertified, GenesisCertified, TokenHashed, Linked, AgreeUpTo, BurnManifest, TokenId;
    hide ManifestCbor, BurnPredicate;
    var n := |a.transfers|;
    if n < |b.transfers| {
      AgreeThroughout(S.C, S.tb, T.hashed, T.proofs, a, b, n);
      BurnRecipient(S.C.H, a, S.lim);
      LockedByPredecessor(S.C.H, a, b, n);
      assert b.transfers[n] in b.transfers;
      BurnIsFinal(S.C, S.tb, b.transfers[n], S.C.H(ManifestCbor(BurnManifest(S.C.H, a, S.lim).value)));
    }
  }

  /** A token is burned for one manifest. */
  lemma OneBurn(S: Setting, T: Transcript, a: Token, b: Token)
    requires Comparable(S.C, S.tb, T.hashed, T.proofs, a, b)
    requires BurnManifest(S.C.H, a, S.lim).Some? && BurnManifest(S.C.H, b, S.lim).Some?
    ensures a.genesis.mint == b.genesis.mint
    ensures BurnManifest(S.C.H, a, S.lim) == BurnManifest(S.C.H, b, S.lim)
  {
    hide TransferCertified, GenesisCertified, TokenHashed, Linked, TokenId, ManifestOf, ManifestCbor, BurnPredicate;
    NothingAfterBurn(S, T, a, b);
    NothingAfterBurn(S, T, b, a);
    AgreeThroughout(S.C, S.tb, T.hashed, T.proofs, a, b, |a.transfers|);
  }

  // ---- one split ----

  /** An accepted provenance whose hashing was free of collisions. */
  ghost predicate Good(S: Setting, T: Transcript, p: Provenance) {
    && !Collision(S.C.H, T.hashed) && AllHashed(S, p) <= T.hashed && Accepted(S, p)
    && SpentOnce(S.C.H, T.proofs) && AllProofs(p) <= T.proofs
  }

  lemma GoodComparable(S: Setting, T: Transcript, p: Provenance, q: Provenance)
    requires Good(S, T, p) && Good(S, T, q) && IdOf(S.C.H, p) == IdOf(S.C.H, q)
    ensures Comparable(S.C, S.tb, T.hashed, T.proofs, p.token, q.token)
  {
    hide HistoryAccepted, Linked, TokenHashed, SplitOutputs.ClaimsHashed, SplitOutputs.Shaped, Justified, TokenId;
  }

  lemma SameIdSameMint(S: Setting, T: Transcript, p: Provenance, q: Provenance)
    requires Good(S, T, p) && Good(S, T, q) && IdOf(S.C.H, p) == IdOf(S.C.H, q)
    ensures p.token.genesis.mint == q.token.genesis.mint
  {
    hide Good, IdOf;
    GoodComparable(S, T, p, q);
    SameGenesis(S.C, S.tb, T.hashed, T.proofs, p.token, q.token);
  }

  /** The mint fixes the provenance: its justification names the source, the source's mint the next one,
      and so on to the issued token. */
  lemma {:induction false} ProvenanceOfMint(S: Setting, p: Provenance, q: Provenance)
    requires Accepted(S, p) && Accepted(S, q) && p.token.genesis.mint == q.token.genesis.mint
    ensures p.SplitFrom? == q.SplitFrom?
    ensures p.SplitFrom? ==> p.source == q.source && p.proofs == q.proofs
    decreases p
  {
    hide HistoryAccepted, Linked, SplitOutputs.OutputAccepted;
    if p.SplitFrom? && q.SplitFrom? {
      ProvenanceOfMint(S, p.source, q.source);
    }
  }

  /** The lineage is a function of the token id. */
  lemma LineageOfId(S: Setting, T: Transcript, p: Provenance, q: Provenance)
    requires Good(S, T, p) && Good(S, T, q) && IdOf(S.C.H, p) == IdOf(S.C.H, q)
    ensures Lineage(S.C.H, p) == Lineage(S.C.H, q)
  {
    hide AllHashed, AllProofs, Accepted, SpentOnce, IdOf;
    SameIdSameMint(S, T, p, q);
    ProvenanceOfMint(S, p, q);
  }

  ghost predicate DistinctIds(H: Hash, outputs: seq<Provenance>) {
    forall i, j :: 0 <= i < j < |outputs| ==> IdOf(H, outputs[i]) != IdOf(H, outputs[j])
  }

  /** Accepted outputs of splits of one token. */
  ghost predicate Siblings(S: Setting, T: Transcript, outputs: seq<Provenance>, source: Digest) {
    && DistinctIds(S.C.H, outputs)
    && forall p :: p in outputs ==> Good(S, T, p) && p.SplitFrom? && IdOf(S.C.H, p.source) == source
  }

  function OutputsOf(outputs: seq<Provenance>): (o: seq<SplitOutputs.Output>)
    requires forall p :: p in outputs ==> p.SplitFrom?
    ensures |o| == |outputs| && forall i :: 0 <= i < |o| ==> outputs[i].SplitFrom? && o[i] == OutputOf(outputs[i])
  {
    if outputs == [] then [] else assert outputs[0] in outputs; [OutputOf(outputs[0])] + OutputsOf(outputs[1..])
  }

  lemma {:induction false} PaidIsSum(decode: Decoder, outputs: seq<Provenance>, id: Data)
    requires forall p :: p in outputs ==> p.SplitFrom?
    ensures SplitOutputs.Paid(decode, OutputsOf(outputs), id) == Sum(decode, outputs, id)
  {
    hide SplitOutputs.AssetsOf, AmountOf;
    if outputs != [] {
      assert outputs[0] in outputs;
      assert OutputsOf(outputs)[1..] == OutputsOf(outputs[1..]);
      PaidIsSum(decode, outputs[1..], id);
    }
  }

  /** An accepted split output, and what was hashed for it. */
  lemma GoodOutput(S: Setting, T: Transcript, p: Provenance)
    requires Good(S, T, p) && p.SplitFrom?
    ensures SplitOutputs.OutputAccepted(S.Rules(), OutputOf(p)) && SplitOutputs.Shaped(S.Rules(), OutputOf(p))
    ensures BurnManifest(S.C.H, p.source.token, S.lim).Some? && Good(S, T, p.source)
    ensures SplitOutputs.ClaimsHashed(S.Rules(), OutputOf(p), |p.proofs|) <= T.hashed
  {
    hide HistoryAccepted, Linked, TokenHashed, SplitOutputs.ClaimsHashed, SplitOutputs.Shaped;
    hide SplitOutputs.OutputAccepted;
    hide SpentOnce, ProofsOf, BurnManifest;
    SplitOutputs.AcceptedShaped(S.Rules(), OutputOf(p));
  }

  /** Outputs of one token cite one manifest. */
  lemma SiblingsCite(S: Setting, T: Transcript, p: Provenance, q: Provenance)
    requires Good(S, T, p) && Good(S, T, q) && p.SplitFrom? && q.SplitFrom?
    requires IdOf(S.C.H, p.source) == IdOf(S.C.H, q.source)
    ensures SplitOutputs.SameManifest(S.Rules(), OutputOf(p), OutputOf(q))
  {
    hide Good, IdOf, BurnManifest, Comparable;
    GoodOutput(S, T, p);
    GoodOutput(S, T, q);
    GoodComparable(S, T, p.source, q.source);
    OneBurn(S, T, p.source.token, q.source.token);
  }

  lemma {:induction false} ClaimsHashedWithin(H: Hash, claims: seq<RsmstProof.Claim>, hashed: set<Bytes>)
    requires forall c :: c in claims ==> RsmstProof.Hashed(H, c) <= hashed
    ensures RsmstConservation.FamilyHashed(H, claims) <= hashed
  {
    hide RsmstProof.Hashed;
    if claims != [] {
      ClaimsHashedWithin(H, claims[1..], hashed);
    }
  }

  /** One generation: the outputs of all splits of a token hold at most what the token held. */
  lemma OneGeneration(S: Setting, T: Transcript, outputs: seq<Provenance>, source: Digest, id: Data, q: Provenance)
    requires Siblings(S, T, outputs, source) && q in outputs
    ensures Sum(S.decode, outputs, id) <= Amount(S.decode, q.source, id)
  {
    hide Good, RsmstProof.Hashed, SplitOutputs.ClaimAt, SplitOutputs.ClaimsHashed, SplitOutputs.Shaped;
    hide SplitOutputs.ClaimsOn;
    hide SplitOutputs.OutputAccepted, SplitOutputs.SameManifest, TokenId, RsmstConservation.FamilyHashed, Position;
    var R, os := S.Rules(), OutputsOf(outputs);
    forall i | 0 <= i < |os| ensures SplitOutputs.OutputAccepted(R, os[i]) && SplitOutputs.SameManifest(R, os[i], OutputOf(q)) {
      assert outputs[i] in outputs;
      GoodOutput(S, T, outputs[i]);
      SiblingsCite(S, T, outputs[i], q);
    }
    SplitOutputs.WithinBurned(R, os, OutputOf(q), id);
    PaidIsSum(S.decode, outputs, id);
    var claims := SplitOutputs.ClaimsOn(R, os, id);
    forall c | c in claims ensures RsmstProof.Hashed(S.C.H, c) <= T.hashed {
      var i, k := SplitOutputs.ClaimMember(R, os, id, c);
      assert outputs[i] in outputs;
      GoodOutput(S, T, outputs[i]);
      SplitOutputs.PositionBound(SplitOutputs.AssetsOf(S.decode, os[i].mint), id);
      ShapedProofs(R, os[i]);
      SplitOutputs.ClaimHashedMember(R, os[i], |os[i].proofs|, k);
    }
    ClaimsHashedWithin(S.C.H, claims, T.hashed);
    NoCollision(S, T, q);
    if Collision(S.C.H, RsmstConservation.FamilyHashed(S.C.H, claims)) {
      CollisionMonotone(S.C.H, RsmstConservation.FamilyHashed(S.C.H, claims), T.hashed);
    }
  }

  lemma ShapedProofs(R: SplitOutputs.Rules, o: SplitOutputs.Output)
    requires SplitOutputs.Shaped(R, o)
    ensures |o.proofs| == |SplitOutputs.AssetsOf(R.decode, o.mint)|
  {
  }

  lemma NoCollision(S: Setting, T: Transcript, p: Provenance)
    requires Good(S, T, p)
    ensures !Collision(S.C.H, T.hashed)
  {
  }

  // ---- all generations ----

  /** The member of the lineage `n` generations below the issued token. */
  ghost function Ancestor(H: Hash, p: Provenance, n: nat): (q: Provenance)
    requires n < |Lineage(H, p)|
    ensures Lineage(H, q) == Lineage(H, p)[..n + 1]
  {
    match p
    case Issued(_) => p
    case SplitFrom(_, source, _) =>
      if n == |Lineage(H, p)| - 1 then p
      else
        assert Lineage(H, p)[..n + 1] == Lineage(H, source)[..n + 1];
        Ancestor(H, source, n)
  }

  lemma {:induction false} AncestorGood(S: Setting, T: Transcript, p: Provenance, n: nat)
    requires n < |Lineage(S.C.H, p)| && Good(S, T, p)
    ensures Good(S, T, Ancestor(S.C.H, p, n))
  {
    hide HistoryAccepted, Linked, TokenHashed, TokenId, Justified, SplitOutputs.ClaimsHashed, SplitOutputs.Shaped;
    if p.SplitFrom? && n < |Lineage(S.C.H, p)| - 1 {
      AncestorGood(S, T, p.source, n);
    }
  }

  lemma {:induction false} AncestorSource(H: Hash, p: Provenance, n: nat)
    requires n + 1 < |Lineage(H, p)|
    ensures Ancestor(H, p, n + 1).SplitFrom? && Ancestor(H, p, n + 1).source == Ancestor(H, p, n)
  {
    hide TokenId, IdOf;
    if n + 1 < |Lineage(H, p)| - 1 {
      AncestorSource(H, p.source, n);
    }
  }

  lemma AncestorTop(H: Hash, p: Provenance)
    ensures Ancestor(H, p, |Lineage(H, p)| - 1) == p
  {
    hide IdOf;
  }

  lemma AncestorBelow(H: Hash, p: Provenance, n: nat)
    requires n < |Lineage(H, p)| - 1
    ensures p.SplitFrom? && |Lineage(H, p)| == |Lineage(H, p.source)| + 1 && Ancestor(H, p, n) == Ancestor(H, p.source, n)
  {
    hide IdOf;
  }

  lemma OneGenerationUp(S: Setting, p: Provenance)
    requires Accepted(S, p)
    ensures p.token.genesis.mint.networkId == S.tb.networkId && S.registry.dataOk(p.token.genesis)
    ensures p.Issued? && p.token.genesis.mint.justification.Some? ==> S.registry.foreignOk(p.token.genesis)
    ensures p.SplitFrom? ==> && Accepted(S, p.source) && Burnt(S.C.H, p.source.token)
                             && SameKind(p.token.genesis.mint, p.source.token.genesis.mint)
  {
    hide Linked, TransferCertified, TokenId, Certified, SplitAccepted, Burnt;
    if p.SplitFrom? {
      SplitKeepsKind(S.C.H, S.decode, S.lim, p.source.token, p.token.genesis.mint, p.proofs);
    }
  }

  /** The `n`-th member of the lineage is accepted, data included, of one kind with `p`, and, unless it is
      `p` itself, ends in a burn. */
  ghost predicate KindAt(S: Setting, p: Provenance, n: nat)
    requires n < |Lineage(S.C.H, p)|
  {
    var q := Ancestor(S.C.H, p, n);
    && SameKind(p.token.genesis.mint, q.token.genesis.mint)
    && q.token.genesis.mint.networkId == S.tb.networkId
    && Accepted(S, q) && S.registry.dataOk(q.token.genesis)
    && (n < |Lineage(S.C.H, p)| - 1 ==> Burnt(S.C.H, q.token))
  }

  lemma KindTop(S: Setting, p: Provenance)
    requires Accepted(S, p)
    ensures KindAt(S, p, |Lineage(S.C.H, p)| - 1)
  {
    hide Accepted, Ancestor, Burnt, Lineage;
    OneGenerationUp(S, p);
    AncestorTop(S.C.H, p);
  }

  lemma KindUp(S: Setting, p: Provenance, n: nat)
    requires Accepted(S, p) && n < |Lineage(S.C.H, p)| - 1
    ensures p.SplitFrom? && n < |Lineage(S.C.H, p.source)| && Accepted(S, p.source)
    ensures KindAt(S, p.source, n) ==> KindAt(S, p, n)
  {
    hide Accepted, Ancestor, Burnt, Lineage;
    OneGenerationUp(S, p);
    AncestorBelow(S.C.H, p, n);
    AncestorTop(S.C.H, p.source);
  }

  /** Every token on the way back to the issued one is accepted, data included, of one type and on the
      authority's network, and all but the last one end in a burn. */
  lemma {:induction false} OneKind(S: Setting, p: Provenance, n: nat)
    requires Accepted(S, p) && n < |Lineage(S.C.H, p)|
    ensures KindAt(S, p, n)
    decreases p
  {
    hide *;
    if n == |Lineage(S.C.H, p)| - 1 {
      KindTop(S, p);
    } else {
      KindUp(S, p, n);
      OneKind(S, p.source, n);
    }
  }

  /** Neither token is the other one or one of its ancestors. */
  ghost predicate Apart(H: Hash, p: Provenance, q: Provenance) {
    !(Lineage(H, p) <= Lineage(H, q)) && !(Lineage(H, q) <= Lineage(H, p))
  }

  ghost predicate Unrelated(H: Hash, family: seq<Provenance>) {
    forall i, j :: 0 <= i < j < |family| ==> Apart(H, family[i], family[j])
  }

  /** In terms of ids: neither occurs in the lineage of the other. */
  lemma ApartById(S: Setting, T: Transcript, p: Provenance, q: Provenance)
    requires Good(S, T, p) && Good(S, T, q)
    ensures Apart(S.C.H, p, q)
       <==> IdOf(S.C.H, p) !in Lineage(S.C.H, q) && IdOf(S.C.H, q) !in Lineage(S.C.H, p)
  {
    hide Good, Lineage, IdOf;
    IdOnLineage(S, T, p, q);
    IdOnLineage(S, T, q, p);
  }

  lemma IdOnLineage(S: Setting, T: Transcript, p: Provenance, q: Provenance)
    requires Good(S, T, p) && Good(S, T, q)
    ensures Lineage(S.C.H, p) <= Lineage(S.C.H, q) <==> IdOf(S.C.H, p) in Lineage(S.C.H, q)
  {
    hide Good, Lineage, IdOf, Ancestor;
    var a, b := Lineage(S.C.H, p), Lineage(S.C.H, q);
    if a <= b {
      assert b[|a| - 1] == a[|a| - 1];
    }
    if n: nat :| n < |b| && b[n] == IdOf(S.C.H, p) {
      AncestorGood(S, T, q, n);
      assert Lineage(S.C.H, Ancestor(S.C.H, q, n)) == b[..n + 1];
      LineageOfId(S, T, p, Ancestor(S.C.H, q, n));
    }
  }

  /** The lineages agree on the first `n + 1` ids. */
  ghost predicate Stem(H: Hash, p: Provenance, q: Provenance, n: nat) {
    n < |Lineage(H, p)| && n < |Lineage(H, q)| && Lineage(H, p)[..n + 1] == Lineage(H, q)[..n + 1]
  }

  lemma StemGrows(H: Hash, p: Provenance, q: Provenance, n: nat, child: Digest)
    requires Stem(H, p, q, n) && Follows(H, p, n, child) && Follows(H, q, n, child)
    ensures Stem(H, p, q, n + 1)
  {
    hide Lineage;
    var a, b := Lineage(H, p), Lineage(H, q);
    assert a[..n + 2] == a[..n + 1] + [a[n + 1]];
    assert b[..n + 2] == b[..n + 1] + [b[n + 1]];
  }

  lemma StemId(H: Hash, p: Provenance, q: Provenance, n: nat)
    requires Stem(H, p, q, n)
    ensures n < |Lineage(H, p)| && n < |Lineage(H, q)| && Lineage(H, p)[n] == Lineage(H, q)[n]
  {
    hide Lineage;
    assert Lineage(H, p)[..n + 1][n] == Lineage(H, q)[..n + 1][n];
  }

  lemma StemAncestors(H: Hash, p: Provenance, q: Provenance, n: nat)
    requires Stem(H, p, q, n)
    ensures n < |Lineage(H, p)| && n < |Lineage(H, q)| && IdOf(H, Ancestor(H, p, n)) == IdOf(H, Ancestor(H, q, n))
  {
    hide Lineage, Ancestor, IdOf;
    assert Lineage(H, Ancestor(H, p, n)) == Lineage(H, Ancestor(H, q, n));
  }

  lemma StemPrefix(H: Hash, p: Provenance, q: Provenance, n: nat)
    requires Stem(H, p, q, n) && |Lineage(H, p)| == n + 1
    ensures !Apart(H, p, q)
  {
    hide Lineage;
    var a, b := Lineage(H, p), Lineage(H, q);
    assert a == a[..n + 1] == b[..n + 1];
  }

  /** Unrelated accepted tokens whose lineages agree on the first `n + 1` ids. */
  ghost predicate Clan(S: Setting, T: Transcript, family: seq<Provenance>, n: nat, max: nat) {
    && Unrelated(S.C.H, family)
    && (forall p :: p in family ==> Good(S, T, p) && n < |Lineage(S.C.H, p)| <= max)
    && (forall p, q :: p in family && q in family ==> Stem(S.C.H, p, q, n))
  }

  /** A child of the common ancestor, on the lineage of some member. */
  ghost predicate Heir(H: Hash, family: seq<Provenance>, n: nat, c: Provenance) {
    exists p :: p in family && n + 1 < |Lineage(H, p)| && c == Ancestor(H, p, n + 1)
  }

  ghost predicate Follows(H: Hash, p: Provenance, n: nat, child: Digest) {
    n + 1 < |Lineage(H, p)| && Lineage(H, p)[n + 1] == child
  }

  /** The members that descend from `child`, or those that do not. */
  ghost function Branch(H: Hash, family: seq<Provenance>, n: nat, child: Digest, inside: bool): (s: seq<Provenance>)
    ensures |s| <= |family|
    ensures forall p :: p in s ==> p in family && Follows(H, p, n, child) == inside
    ensures family != [] && Follows(H, family[0], n, child) != inside ==> |s| < |family|
  {
    if family == [] then []
    else
      var rest := Branch(H, family[1..], n, child, inside);
      if Follows(H, family[0], n, child) == inside then [family[0]] + rest else rest
  }

  lemma {:induction false} BranchSum(S: Setting, family: seq<Provenance>, n: nat, child: Digest, id: Data)
    ensures Sum(S.decode, family, id)
         == Sum(S.decode, Branch(S.C.H, family, n, child, true), id) + Sum(S.decode, Branch(S.C.H, family, n, child, false), id)
  {
    hide Follows, Amount;
    if family != [] {
      BranchSum(S, family[1..], n, child, id);
      var side := Follows(S.C.H, family[0], n, child);
      var rest := Branch(S.C.H, family[1..], n, child, side);
      assert ([family[0]] + rest)[1..] == rest;
    }
  }

  lemma {:induction false} BranchUnrelated(H: Hash, family: seq<Provenance>, n: nat, child: Digest, inside: bool)
    requires Unrelated(H, family)
    ensures Unrelated(H, Branch(H, family, n, child, inside))
  {
    hide Follows, Apart;
    if family != [] {
      BranchUnrelated(H, family[1..], n, child, inside);
      var rest := Branch(H, family[1..], n, child, inside);
      forall p | p in rest ensures Apart(H, family[0], p) {
        var k :| 0 <= k < |family[1..]| && family[1..][k] == p;
        assert family[k + 1] == p;
      }
    }
  }

  lemma OutsideClan(S: Setting, T: Transcript, family: seq<Provenance>, n: nat, max: nat, child: Digest)
    requires Clan(S, T, family, n, max)
    ensures Clan(S, T, Branch(S.C.H, family, n, child, false), n, max)
  {
    hide Good, Lineage, Unrelated, Branch, Follows, Stem;
    BranchUnrelated(S.C.H, family, n, child, false);
  }

  lemma InsideClan(S: Setting, T: Transcript, family: seq<Provenance>, n: nat, max: nat, child: Digest)
    requires Clan(S, T, family, n, max)
    ensures Clan(S, T, Branch(S.C.H, family, n, child, true), n + 1, max)
  {
    hide Good, Lineage, Unrelated, Branch, Stem;
    BranchUnrelated(S.C.H, family, n, child, true);
    var inside := Branch(S.C.H, family, n, child, true);
    forall p, q | p in inside && q in inside ensures Stem(S.C.H, p, q, n + 1) {
      StemGrows(S.C.H, p, q, n, child);
    }
  }

  /** A clan holds at most what its common ancestor held. */
  lemma {:induction false} ClanWithinAncestor(S: Setting, T: Transcript, family: seq<Provenance>, n: nat, max: nat,
                                              id: Data)
    requires Clan(S, T, family, n, max) && family != []
    ensures Sum(S.decode, family, id) <= Amount(S.decode, Ancestor(S.C.H, family[0], n), id)
    decreases max - n, |family|, 1
  {
    hide Good, Amount, Unrelated, Lineage, Ancestor, Stem;
    if i: nat :| i < |family| && |Lineage(S.C.H, family[i])| == n + 1 {
      AncestorIsMember(S, T, family, n, max, i);
      assert family[1..] == [];
      assert Sum(S.decode, family[1..], id) == 0;
    } else {
      var children := Generation(S, T, family, n, max, id);
      OneGeneration(S, T, children, Lineage(S.C.H, family[0])[n], id, children[0]);
      assert children[0] in children;
      SameAmount(S, T, family, children[0], n, max, id);
    }
  }

  /** A member that is itself the common ancestor is the only member. */
  lemma AncestorIsMember(S: Setting, T: Transcript, family: seq<Provenance>, n: nat, max: nat, i: nat)
    requires Clan(S, T, family, n, max) && i < |family| && |Lineage(S.C.H, family[i])| == n + 1
    ensures |family| == 1 && Ancestor(S.C.H, family[0], n) == family[0]
  {
    hide Good, Lineage, Stem, Apart;
    if |family| > 1 {
      var j := if i == 0 then 1 else 0;
      assert family[i] in family && family[j] in family;
      ApartSymmetric(S.C.H, family[i], family[j]);
      StemPrefix(S.C.H, family[i], family[j], n);
    }
  }

  lemma ApartSymmetric(H: Hash, p: Provenance, q: Provenance)
    ensures Apart(H, p, q) <==> Apart(H, q, p)
  {
  }

  /** Children of the common ancestor that together hold at least what the clan holds. */
  lemma Generation(S: Setting, T: Transcript, family: seq<Provenance>, n: nat, max: nat, id: Data)
    returns (children: seq<Provenance>)
    requires Clan(S, T, family, n, max)
    requires forall p :: p in family ==> n + 1 < |Lineage(S.C.H, p)|
    ensures family == [] ==> children == []
    ensures family != [] ==> children != [] && Siblings(S, T, children, Lineage(S.C.H, family[0])[n])
    ensures forall c :: c in children ==> Heir(S.C.H, family, n, c)
    ensures Sum(S.decode, family, id) <= Sum(S.decode, children, id)
    decreases max - n, |family|, 0
  {
    hide Good, Amount, Unrelated, Lineage, Ancestor, IdOf, Heir, Siblings, Stem;
    if family == [] {
      return [];
    }
    var first := family[0];
    assert first in family;
    var child := Lineage(S.C.H, first)[n + 1];
    var inside, outside := Branch(S.C.H, family, n, child, true), Branch(S.C.H, family, n, child, false);
    InsideClan(S, T, family, n, max, child);
    OutsideClan(S, T, family, n, max, child);
    BranchSum(S, family, n, child, id);
    assert Follows(S.C.H, first, n, child) && inside[0] == first;
    ClanWithinAncestor(S, T, inside, n + 1, max, id);
    var others := Generation(S, T, outside, n, max, id);
    children := [Ancestor(S.C.H, first, n + 1)] + others;
    assert children[1..] == others;
    HeirsOf(S.C.H, family, outside, n, others);
    AncestorIds(S, T, first, n);
    forall o | o in others ensures IdOf(S.C.H, o) != child {
      OutsiderDiffers(S, T, family, n, child, o);
    }
    if outside != [] {
      assert outside[0] in outside;
      StemId(S.C.H, outside[0], first, n);
    }
    SiblingsCons(S, T, Ancestor(S.C.H, first, n + 1), others, Lineage(S.C.H, first)[n]);
  }

  lemma HeirsOf(H: Hash, family: seq<Provenance>, outside: seq<Provenance>, n: nat, others: seq<Provenance>)
    requires family != [] && n + 1 < |Lineage(H, family[0])|
    requires forall p :: p in outside ==> p in family
    requires forall c :: c in others ==> Heir(H, outside, n, c)
    ensures Heir(H, family, n, Ancestor(H, family[0], n + 1))
    ensures forall c :: c in others ==> Heir(H, family, n, c)
  {
    hide Lineage, Ancestor;
    assert family[0] in family;
  }

  lemma SiblingsCons(S: Setting, T: Transcript, c: Provenance, others: seq<Provenance>, source: Digest)
    requires Good(S, T, c) && c.SplitFrom? && IdOf(S.C.H, c.source) == source
    requires others == [] || Siblings(S, T, others, source)
    requires forall o :: o in others ==> IdOf(S.C.H, o) != IdOf(S.C.H, c)
    ensures Siblings(S, T, [c] + others, source)
  {
    hide Good, IdOf;
  }

  /** Children on other branches have other ids. */
  lemma OutsiderDiffers(S: Setting, T: Transcript, family: seq<Provenance>, n: nat, child: Digest, o: Provenance)
    requires forall p :: p in family ==> Good(S, T, p)
    requires Heir(S.C.H, Branch(S.C.H, family, n, child, false), n, o)
    ensures IdOf(S.C.H, o) != child
  {
    hide Good, Lineage, Ancestor, IdOf;
    var outside := Branch(S.C.H, family, n, child, false);
    var p :| p in outside && n + 1 < |Lineage(S.C.H, p)| && o == Ancestor(S.C.H, p, n + 1);
    AncestorIds(S, T, p, n);
  }

  lemma AncestorIds(S: Setting, T: Transcript, p: Provenance, n: nat)
    requires Good(S, T, p) && n + 1 < |Lineage(S.C.H, p)|
    ensures var c := Ancestor(S.C.H, p, n + 1);
            && Good(S, T, c) && c.SplitFrom?
            && IdOf(S.C.H, c) == Lineage(S.C.H, p)[n + 1]
            && IdOf(S.C.H, c.source) == Lineage(S.C.H, p)[n]
  {
    hide Good, IdOf, Ancestor;
    AncestorGood(S, T, p, n + 1);
    AncestorSource(S.C.H, p, n);
  }

  /** The source of any child holds what the common ancestor of the clan holds. */
  lemma SameAmount(S: Setting, T: Transcript, family: seq<Provenance>, c: Provenance, n: nat, max: nat, id: Data)
    requires Clan(S, T, family, n, max) && family != []
    requires Heir(S.C.H, family, n, c)
    ensures c.SplitFrom? && Amount(S.decode, c.source, id) == Amount(S.decode, Ancestor(S.C.H, family[0], n), id)
  {
    hide Good, Unrelated, Lineage, Ancestor, TokenId, Stem;
    var p :| p in family && n + 1 < |Lineage(S.C.H, p)| && c == Ancestor(S.C.H, p, n + 1);
    var first := family[0];
    assert first in family;
    AncestorSource(S.C.H, p, n);
    AncestorGood(S, T, p, n);
    AncestorGood(S, T, first, n);
    StemAncestors(S.C.H, p, first, n);
    SameIdSameMint(S, T, Ancestor(S.C.H, p, n), Ancestor(S.C.H, first, n));
  }

  /** Conservation: accepted tokens that come from one issued token id, none of them another's ancestor,
      together hold at most the issued amount of every asset, however many splits lie in between and
      whatever roots the proofs are against, provided that no state was certified as spent in two ways
      and unless two of the byte strings hashed by the verifier collide. */
  lemma NothingCreated(S: Setting, family: seq<Provenance>, p: Provenance, id: Data)
    requires p in family && Unrelated(S.C.H, family)
    requires forall q :: q in family ==> Accepted(S, q) && Lineage(S.C.H, q)[0] == Lineage(S.C.H, p)[0]
    requires SpentOnce(S.C.H, FamilyProofs(family))
    ensures Collision(S.C.H, FamilyHashed(S, family))
         || Sum(S.decode, family, id) <= Amount(S.decode, Ancestor(S.C.H, p, 0), id)
  {
    hide Accepted, Amount, Unrelated, Lineage, Ancestor, AllHashed, AllProofs, SpentOnce;
    var T := Transcript(FamilyHashed(S, family), FamilyProofs(family));
    if !Collision(S.C.H, T.hashed) {
      forall q | q in family ensures Good(S, T, q) {
        FamilyHashedMember(S, family, q);
        FamilyProofsMember(family, q);
      }
      var max := LongestLineage(S.C.H, family);
      ClanWithinAncestor(S, T, family, 0, max, id);
      SameOrigin(S, T, p, family[0], id);
    }
  }

  /** Every proof of the token and of its sources is against `root`. */
  ghost predicate Rooted(p: Provenance, root: Digest) {
    AllAgainst(p.token, root) && (p.SplitFrom? ==> Rooted(p.source, root))
  }

  lemma {:induction false} RootedWitnessed(S: Setting, hashed: set<Bytes>, p: Provenance, root: Digest,
                                           proof: InclusionProof)
    requires Accepted(S, p) && Rooted(p, root) && AllHashed(S, p) <= hashed && proof in AllProofs(p)
    ensures Witnessed(S.C, S.tb, hashed, root, proof)
  {
    hide HistoryAccepted, Linked, AllAgainst, TokenHashed, SplitOutputs.ClaimsHashed, SplitOutputs.Shaped, Justified;
    hide Witnessed, ProofsOf;
    if proof in ProofsOf(p.token) {
      TokenWitnessed(S.C, S.tb, hashed, root, p.token, proof);
    } else {
      RootedWitnessed(S, hashed, p.source, root, proof);
    }
  }

  lemma {:induction false} FamilyProofOf(family: seq<Provenance>, proof: InclusionProof) returns (p: Provenance)
    requires proof in FamilyProofs(family)
    ensures p in family && proof in AllProofs(p)
  {
    hide AllProofs;
    if proof in AllProofs(family[0]) {
      p := family[0];
    } else {
      p := FamilyProofOf(family[1..], proof);
    }
  }

  /** Under one state-tree root, nothing is asked of the service: conservation holds for any root. */
  lemma NothingCreatedUnderRoot(S: Setting, root: Digest, family: seq<Provenance>, p: Provenance, id: Data)
    requires p in family && Unrelated(S.C.H, family)
    requires forall q :: q in family ==> Accepted(S, q) && Rooted(q, root) && Lineage(S.C.H, q)[0] == Lineage(S.C.H, p)[0]
    ensures Collision(S.C.H, FamilyHashed(S, family))
         || Sum(S.decode, family, id) <= Amount(S.decode, Ancestor(S.C.H, p, 0), id)
  {
    hide Accepted, Amount, Unrelated, Lineage, Ancestor, AllHashed, AllProofs, SpentOnce, Rooted, Witnessed;
    var hashed, proofs := FamilyHashed(S, family), FamilyProofs(family);
    if !Collision(S.C.H, hashed) {
      forall proof | proof in proofs ensures Witnessed(S.C, S.tb, hashed, root, proof) {
        var q := FamilyProofOf(family, proof);
        FamilyHashedMember(S, family, q);
        RootedWitnessed(S, hashed, q, root, proof);
      }
      OneRootSpendsOnce(S.C, S.tb, hashed, root, proofs);
      NothingCreated(S, family, p, id);
    }
  }

  lemma SameOrigin(S: Setting, T: Transcript, p: Provenance, q: Provenance, id: Data)
    requires Good(S, T, p) && Good(S, T, q) && Lineage(S.C.H, p)[0] == Lineage(S.C.H, q)[0]
    ensures Amount(S.decode, Ancestor(S.C.H, p, 0), id) == Amount(S.decode, Ancestor(S.C.H, q, 0), id)
  {
    hide Good, Ancestor, TokenId;
    AncestorGood(S, T, p, 0);
    AncestorGood(S, T, q, 0);
    SameIdSameMint(S, T, Ancestor(S.C.H, p, 0), Ancestor(S.C.H, q, 0));
  }

  lemma {:induction false} LongestLineage(H: Hash, family: seq<Provenance>) returns (max: nat)
    ensures forall p :: p in family ==> |Lineage(H, p)| <= max
  {
    hide Lineage;
    if family == [] {
      return 0;
    }
    max := LongestLineage(H, family[1..]);
    max := if |Lineage(H, family[0])| > max then |Lineage(H, family[0])| else max;
  }
}
