/** The rules by which a unicity certificate is accepted, as functions of the certificate, the
    authority and, for the strict form, the caller's context.  No memo takes part here.
 */
module Certificates {
  import opened Hashing
  import opened CborHead
  import opened Bft
  import opened Quorum

  datatype VerificationError =
    | PartitionMismatch
    | CertificateBodyInvalid
    | SealMalformed
    | SealNetworkMismatch
    | SealRootMismatch
    | InvalidTrustBase
    | QuorumNotMet
    | ShardPathInvalid
    | ConfigurationMismatch
    | UnsupportedAuthority
    | SealEpochMismatch
    | SealBeforeEpochStart
    | SealAfterAuthorityEnd
    | CertificationDataMismatch
    | TransactionHashMismatch
    | RequestExpired
    | PathInvalid
    | ReferenceTimeMismatch
    | ReferenceTimeAfterRound
    | ShardMismatch
    | NotAuthenticated
    | NetworkMismatch
    | InvalidMintLockScript
    | TooManyTransfers
    | AtGenesis(source: VerificationError)
    | AtTransfer(index: nat, source: VerificationError)

  datatype Verdict = Accepted | Rejected(error: VerificationError)

  /** What a non-inclusion verification additionally demands. */
  datatype Context = Context(shard: Option<ShardId>, shardConfHash: Option<Digest>, authorityEndRound: Option<U64>)

  /** The signature part: a usable authority and a quorum of its validators. */
  ghost function QuorumVerdict(H: Hash, V: Verifier, tb: TrustBase, seal: UnicitySeal): (v: Verdict) {
    if !ValidTrustBase(tb) then Rejected(InvalidTrustBase)
    else if SealQuorum(H, V, tb, seal) then Accepted
    else Rejected(QuorumNotMet)
  }

  /** Everything an ordinary check demands of a certificate besides its partition and its quorum. */
  ghost function BodyVerdict(H: Hash, tb: TrustBase, uc: UnicityCertificate): (v: Verdict) {
    if !CheckBody(uc) then Rejected(CertificateBodyInvalid)
    else if !SealShape(uc.seal) then Rejected(SealMalformed)
    else if uc.seal.networkId != tb.networkId then Rejected(SealNetworkMismatch)
    else if ComputedSealHash(H, uc) != Some(uc.seal.hash) then Rejected(SealRootMismatch)
    else Accepted
  }

  /** The ordinary check. */
  ghost function OrdinaryVerdict(H: Hash, V: Verifier, tb: TrustBase, uc: UnicityCertificate): (v: Verdict) {
    if uc.unicityTree.partition != AGGREGATION_PARTITION_ID then Rejected(PartitionMismatch)
    else if BodyVerdict(H, tb, uc).Rejected? then BodyVerdict(H, tb, uc)
    else QuorumVerdict(H, V, tb, uc.seal)
  }

  /** The rules on a seal, besides its quorum, for it to become the master of anything. */
  ghost function SealRules(tb: TrustBase, seal: UnicitySeal): (v: Verdict) {
    if !ValidTrustBase(tb) then Rejected(InvalidTrustBase)
    else if exists n :: n in tb.nodes && n.stake != 1 then Rejected(UnsupportedAuthority)
    else if !SealShape(seal) then Rejected(SealMalformed)
    else if seal.networkId != tb.networkId then Rejected(SealNetworkMismatch)
    else if seal.epoch != tb.epoch then Rejected(SealEpochMismatch)
    else if seal.rootRound < tb.epochStartRound then Rejected(SealBeforeEpochStart)
    else Accepted
  }

  /** Strict authentication of a seal. */
  ghost function SealVerdict(H: Hash, V: Verifier, tb: TrustBase, seal: UnicitySeal): (v: Verdict) {
    if SealRules(tb, seal).Rejected? then SealRules(tb, seal) else QuorumVerdict(H, V, tb, seal)
  }

  ghost function StrictBodyVerdict(H: Hash, uc: UnicityCertificate, c: Context): (v: Verdict) {
    if !CheckBody(uc) then Rejected(CertificateBodyInvalid)
    else if |uc.shardTree.siblings| != |uc.shardTree.shard| then Rejected(ShardPathInvalid)
    else if c.shard.Some? && c.shard.value != uc.shardTree.shard then Rejected(ShardPathInvalid)
    else if c.shardConfHash.Some? && c.shardConfHash.value != uc.shardConfHash then Rejected(ConfigurationMismatch)
    else if ComputedSealHash(H, uc) != Some(uc.seal.hash) then Rejected(SealRootMismatch)
    else Accepted
  }

  /** The strict check of non-inclusion proofs. */
  ghost function StrictVerdict(H: Hash, V: Verifier, tb: TrustBase, uc: UnicityCertificate, c: Context): (v: Verdict) {
    if uc.unicityTree.partition != AGGREGATION_PARTITION_ID then Rejected(PartitionMismatch)
    else if StrictBodyVerdict(H, uc, c).Rejected? then StrictBodyVerdict(H, uc, c)
    else if SealVerdict(H, V, tb, uc.seal).Rejected? then SealVerdict(H, V, tb, uc.seal)
    else if c.authorityEndRound.Some? && uc.seal.rootRound >= c.authorityEndRound.value then
      Rejected(SealAfterAuthorityEnd)
    else Accepted
  }

  // ---- what acceptance means, rule by rule ----

  /** An input record that describes a round of a shard properly. */
  predicate ProperRecord(uc: UnicityCertificate) {
    var ir := uc.inputRecord;
    && (ir.roundNumber > 0 ==> ir.summaryValue.Some? && ir.timestamp > 0)
    && ((ir.blockHash.None? || ir.blockHash.value == []) <==>
          (if ir.hash.Some? then ir.hash.value else []) == (if ir.previousHash.Some? then ir.previousHash.value else []))
    && uc.technicalRecordHash.Some? && |uc.technicalRecordHash.value| == 32
  }

  /** A seal of a real round, with named signatures. */
  predicate ProperSeal(seal: UnicitySeal) {
    && seal.rootRound > 0 && seal.timestamp >= 1_681_971_084 && |seal.signatures| > 0
    && forall i :: 0 <= i < |seal.signatures| ==> |seal.signatures[i].node| > 0 && |seal.signatures[i].signature| > 0
  }

  /** Enough validators of a usable authority have signed the seal, each under its own id and key. */
  ghost predicate SealSigned(H: Hash, V: Verifier, tb: TrustBase, seal: UnicitySeal) {
    && ValidTrustBase(tb) && seal.networkId == tb.networkId
    && |Signers(V, tb, SealHash(H, seal), seal.signatures)| >= tb.threshold > 0
  }

  /** An ordinary acceptance: partition, record, one sibling per shard bit, the commitment to the seal, and
      the seal itself. */
  lemma OrdinaryMeans(H: Hash, V: Verifier, tb: TrustBase, uc: UnicityCertificate)
    ensures OrdinaryVerdict(H, V, tb, uc) == Accepted
       <==> && uc.unicityTree.partition == 7 && ProperRecord(uc) && ProperSeal(uc.seal)
            && ComputedSealHash(H, uc) == Some(uc.seal.hash) && SealSigned(H, V, tb, uc.seal)
    ensures OrdinaryVerdict(H, V, tb, uc) == Accepted ==> |uc.shardTree.siblings| == |uc.shardTree.shard|
  {
    hide SealHash, UnicityRoot, ShardFold, ShardLeafHash, ValidKeys, Signers;
    AuthorityUsable(tb);
    if ValidTrustBase(tb) {
      QuorumOfSigners(V, tb, SealHash(H, uc.seal), uc.seal.signatures);
    }
  }

  /** A usable authority can reach its quorum, but not without signatures, and no two of its validators
      share an id or a key. */
  lemma AuthorityUsable(tb: TrustBase)
    ensures ValidTrustBase(tb) ==>
              && 0 < tb.threshold <= |tb.nodes| <= 4096 && (tb.version == 0 || tb.version == 1)
              && (forall i, j :: 0 <= i < |tb.nodes| && 0 <= j < |tb.nodes| && i != j ==>
                    tb.nodes[i].node != tb.nodes[j].node && tb.nodes[i].key != tb.nodes[j].key)
              && forall i :: 0 <= i < |tb.nodes| ==> 1 <= |tb.nodes[i].node| <= 256 && tb.nodes[i].stake > 0
  {
    if ValidTrustBase(tb) {
      assert forall i :: 0 <= i < |tb.nodes| ==> tb.nodes[i] in tb.nodes;
    }
  }

  /** A strict acceptance adds: unit stakes, the authority's epoch and first round, and whatever the caller's
      context pins. */
  lemma StrictMeans(H: Hash, V: Verifier, tb: TrustBase, uc: UnicityCertificate, c: Context)
    ensures StrictVerdict(H, V, tb, uc, c) == Accepted
       <==> && OrdinaryVerdict(H, V, tb, uc) == Accepted
            && (forall n :: n in tb.nodes ==> n.stake == 1)
            && uc.seal.epoch == tb.epoch && tb.epochStartRound <= uc.seal.rootRound
            && (c.shard.Some? ==> uc.shardTree.shard == c.shard.value)
            && (c.shardConfHash.Some? ==> uc.shardConfHash == c.shardConfHash.value)
            && (c.authorityEndRound.Some? ==> uc.seal.rootRound < c.authorityEndRound.value)
  {
    hide SealQuorum, UnicityRoot, ShardFold, ShardLeafHash, CheckBody, SealShape, ValidTrustBase;
  }

  /** An ordinary refusal names a rule that is broken. */
  lemma OrdinaryRefused(H: Hash, V: Verifier, tb: TrustBase, uc: UnicityCertificate)
    ensures match OrdinaryVerdict(H, V, tb, uc)
            case Accepted => true
            case Rejected(PartitionMismatch) => uc.unicityTree.partition != 7
            case Rejected(CertificateBodyInvalid) => !ProperRecord(uc)
            case Rejected(SealMalformed) => !ProperSeal(uc.seal)
            case Rejected(SealNetworkMismatch) => uc.seal.networkId != tb.networkId
            case Rejected(SealRootMismatch) => ComputedSealHash(H, uc) != Some(uc.seal.hash)
            case Rejected(InvalidTrustBase) => !ValidTrustBase(tb)
            case Rejected(QuorumNotMet) => |Signers(V, tb, SealHash(H, uc.seal), uc.seal.signatures)| < tb.threshold
            case Rejected(_) => false
  {
    hide SealHash, UnicityRoot, ShardFold, ShardLeafHash, ValidKeys, Signers, ShardRoot;
    if ValidTrustBase(tb) {
      QuorumOfSigners(V, tb, SealHash(H, uc.seal), uc.seal.signatures);
    }
  }

  /** A strict refusal names a rule that is broken. */
  lemma StrictRefused(H: Hash, V: Verifier, tb: TrustBase, uc: UnicityCertificate, c: Context)
    ensures match StrictVerdict(H, V, tb, uc, c)
            case Accepted => true
            case Rejected(PartitionMismatch) => uc.unicityTree.partition != 7
            case Rejected(CertificateBodyInvalid) => !ProperRecord(uc)
            case Rejected(ShardPathInvalid) =>
              |uc.shardTree.siblings| != |uc.shardTree.shard| || (c.shard.Some? && c.shard.value != uc.shardTree.shard)
            case Rejected(ConfigurationMismatch) => c.shardConfHash.Some? && c.shardConfHash.value != uc.shardConfHash
            case Rejected(SealRootMismatch) => ComputedSealHash(H, uc) != Some(uc.seal.hash)
            case Rejected(InvalidTrustBase) => !ValidTrustBase(tb)
            case Rejected(UnsupportedAuthority) => exists n :: n in tb.nodes && n.stake != 1
            case Rejected(SealMalformed) => !ProperSeal(uc.seal)
            case Rejected(SealNetworkMismatch) => uc.seal.networkId != tb.networkId
            case Rejected(SealEpochMismatch) => uc.seal.epoch != tb.epoch
            case Rejected(SealBeforeEpochStart) => uc.seal.rootRound < tb.epochStartRound
            case Rejected(SealAfterAuthorityEnd) =>
              c.authorityEndRound.Some? && uc.seal.rootRound >= c.authorityEndRound.value
            case Rejected(QuorumNotMet) => |Signers(V, tb, SealHash(H, uc.seal), uc.seal.signatures)| < tb.threshold
            case Rejected(_) => false
  {
    hide SealHash, UnicityRoot, ShardFold, ShardLeafHash, ValidKeys, Signers, ShardRoot;
    if ValidTrustBase(tb) {
      QuorumOfSigners(V, tb, SealHash(H, uc.seal), uc.seal.signatures);
    }
  }
}
