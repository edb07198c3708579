/** One operation's seal authentication state: an authority and two bounded memos of successes.

    What the methods answer, for any seals and certificates whatsoever, is what `SealMemory` says of the
    memory they find; where that is the plain verdict is settled there.
 */
module SealSession {
  import opened Hashing
  import opened Bft
  import opened Quorum
  import opened Certificates
  import opened SealEncoding
  import opened SealMemory
  import opened QuorumOnce
  import FifoIndex

  class SealSession {
    const H: Hash
    const V: Verifier
    const tb: TrustBase
    /** The verdict namespace of a context. */
    const digestOf: Context -> Digest
    /** An index hash of certificates; any function will do. */
    const fingerprint: (UnicityCertificate, Digest) -> nat
    var validated: bool
    const memo: FifoIndex.FifoIndex<Digest>
    const bodies: FifoIndex.FifoIndex<Body>
    var quorumChecks: nat
    var memoHits: nat
    var bodyChecks: nat
    var bodyHits: nat

    ghost predicate Ready()
      reads this, memo, bodies
    {
      && memo.Valid() && bodies.Valid() && bodies.capacity == memo.capacity
      && (validated ==> ValidTrustBase(tb))
    }

    ghost function Fixed(): (T: Terms) { Terms(H, V, tb, digestOf, fingerprint, memo.capacity) }

    ghost function Remembered(): (M: Memory)
      reads memo, bodies
    {
      Memory(memo.Entries(), bodies.Entries())
    }

    /** A session whose memory tells the truth about everything in `u`. */
    ghost predicate Valid(u: Universe)
      reads this, memo, bodies
    {
      Ready() && Separated(u) && Under(Fixed(), u) && GoodMemory(u, Remembered())
    }

    constructor (H: Hash, V: Verifier, tb: TrustBase, digestOf: Context -> Digest,
                 fingerprint: (UnicityCertificate, Digest) -> nat, capacity: nat)
      ensures Ready() && fresh(memo) && fresh(bodies) && Remembered() == EMPTY
      ensures Fixed() == Terms(H, V, tb, digestOf, fingerprint, capacity)
      ensures quorumChecks == 0
    {
      this.H, this.V, this.tb, this.digestOf, this.fingerprint := H, V, tb, digestOf, fingerprint;
      validated := false;
      memo := new FifoIndex.FifoIndex<Digest>(capacity);
      bodies := new FifoIndex.FifoIndex<Body>(capacity);
      quorumChecks, memoHits, bodyChecks, bodyHits := 0, 0, 0, 0;
    }

    /** A session for a run over `u`. */
    constructor ForRun(u: Universe, fingerprint: (UnicityCertificate, Digest) -> nat, capacity: nat)
      requires Separated(u)
      ensures Valid(u) && fresh(memo) && fresh(bodies) && H == u.H && V == u.V && tb == u.tb
    {
      this.H, this.V, this.tb, this.digestOf, this.fingerprint := u.H, u.V, u.tb, u.digestOf, fingerprint;
      validated := false;
      memo := new FifoIndex.FifoIndex<Digest>(capacity);
      bodies := new FifoIndex.FifoIndex<Body>(capacity);
      quorumChecks, memoHits, bodyChecks, bodyHits := 0, 0, 0, 0;
    }

    method EnsureTrustBase() returns (v: Verdict)
      requires Ready()
      modifies this`validated
      ensures Ready()
      ensures v == if ValidTrustBase(tb) then Accepted else Rejected(InvalidTrustBase)
    {
      if !validated {
        if !ValidTrustBase(tb) {
          return Rejected(InvalidTrustBase);
        }
        validated := true;
      }
      return Accepted;
    }

    /** Look a seal digest up in the memo. */
    method SealKnown(key: Digest) returns (hit: bool)
      requires Ready()
      modifies memo`probes
      ensures Ready() && Remembered() == old(Remembered())
      ensures hit <==> KnowsSeal(Remembered(), key)
    {
      hide ValidTrustBase, Hash8;
      hit := memo.Contains(Hash8(key), k => k == key);
      if hit {
        ghost var e :| e in memo.Entries() && e.hash == Hash8(key) && (k => k == key)(e.value);
      }
    }

    /** Whether this exact certificate already passed under `policy` in this session. */
    method BodyVerified(uc: UnicityCertificate, policy: Digest) returns (hit: bool)
      requires Ready()
      modifies this`bodyHits, bodies`probes
      ensures Ready() && Remembered() == old(Remembered())
      ensures hit <==> KnowsBody(Fixed(), Remembered(), uc, policy)
    {
      hide ValidTrustBase;
      var wanted, hash := Body(policy, uc), fingerprint(uc, policy);
      hit := bodies.Contains(hash, b => b == wanted);
      if hit {
        ghost var e :| e in bodies.Entries() && e.hash == hash && (b => b == wanted)(e.value);
        bodyHits := bodyHits + 1;
      }
    }

    /** The quorum of one seal, reusing an earlier success of the same complete encoding. */
    method RecallQuorum(seal: UnicitySeal) returns (v: Verdict)
      requires Ready() && Encodable(seal)
      modifies this`validated, this`memoHits, this`quorumChecks, memo
      ensures Ready()
      ensures Recalled(v, Remembered()) == RecallSeal(Fixed(), old(Remembered()), seal)
      ensures quorumChecks == old(quorumChecks) + SealCounts(Fixed(), old(Remembered()), seal)
    {
      hide ValidTrustBase, SealQuorum, Encodable, MemoKey, SealHash, FifoIndex.View, KnowsSeal, Hash8;
      v := EnsureTrustBase();
      if v.Rejected? {
        return;
      }
      var key := MemoKey(H, seal);
      var hit := SealKnown(key);
      if hit {
        memoHits := memoHits + 1;
        return Accepted;
      }
      quorumChecks := quorumChecks + 1;
      var met := QuorumMet(V, tb, SealHash(H, seal), seal.signatures);
      SealQuorumIs(H, V, tb, seal);
      if !met {
        return Rejected(QuorumNotMet);
      }
      memo.Insert(Hash8(key), key);
      v := Accepted;
    }

    /** Strict authentication: the per-call rules are never remembered, only the quorum is. */
    method RecallAuthenticSeal(seal: UnicitySeal) returns (v: Verdict)
      requires Ready() && Encodable(seal)
      modifies this`validated, this`memoHits, this`quorumChecks, memo
      ensures Ready()
      ensures Recalled(v, Remembered()) == RecallAuthentic(Fixed(), old(Remembered()), seal)
      ensures quorumChecks == old(quorumChecks) + AuthenticCounts(Fixed(), old(Remembered()), seal)
    {
      hide ValidTrustBase, SealShape, FifoIndex.View, RecallSeal, SealCounts, Encodable;
      v := EnsureTrustBase();
      if v.Rejected? {
        return;
      }
      if exists n | n in tb.nodes :: n.stake != 1 {
        return Rejected(UnsupportedAuthority);
      }
      if !SealShape(seal) {
        return Rejected(SealMalformed);
      }
      if seal.networkId != tb.networkId {
        return Rejected(SealNetworkMismatch);
      }
      if seal.epoch != tb.epoch {
        return Rejected(SealEpochMismatch);
      }
      if seal.rootRound < tb.epochStartRound {
        return Rejected(SealBeforeEpochStart);
      }
      v := RecallQuorum(seal);
    }

    /** The ordinary check under `policy`. */
    method RecallOrdinaryCheck(uc: UnicityCertificate, policy: Digest) returns (v: Verdict)
      requires Ready() && Encodable(uc.seal)
      modifies this, memo, bodies
      ensures Ready()
      ensures Recalled(v, Remembered()) == RecallOrdinary(Fixed(), old(Remembered()), uc, policy)
      ensures quorumChecks == old(quorumChecks) + OrdinaryCounts(Fixed(), old(Remembered()), uc, policy)
    {
      hide ValidTrustBase, SealShape, CheckBody, ComputedSealHash, FifoIndex.View, RecallSeal, SealCounts, KnowsBody, Encodable;
      if uc.unicityTree.partition != AGGREGATION_PARTITION_ID {
        return Rejected(PartitionMismatch);
      }
      var hit := BodyVerified(uc, policy);
      if hit {
        return Accepted;
      }
      bodyChecks := bodyChecks + 1;
      if !CheckBody(uc) {
        return Rejected(CertificateBodyInvalid);
      }
      if !SealShape(uc.seal) {
        return Rejected(SealMalformed);
      }
      if uc.seal.networkId != tb.networkId {
        return Rejected(SealNetworkMismatch);
      }
      if ComputedSealHash(H, uc) != Some(uc.seal.hash) {
        return Rejected(SealRootMismatch);
      }
      v := RecallQuorum(uc.seal);
      if v.Accepted? {
        bodies.Insert(fingerprint(uc, policy), Body(policy, uc));
      }
    }

    /** The strict check in the context's own namespace. */
    method RecallStrictCheck(uc: UnicityCertificate, context: Context) returns (v: Verdict)
      requires Ready() && Encodable(uc.seal)
      modifies this, memo, bodies
      ensures Ready()
      ensures Recalled(v, Remembered()) == RecallStrict(Fixed(), old(Remembered()), uc, context)
      ensures quorumChecks == old(quorumChecks) + StrictCounts(Fixed(), old(Remembered()), uc, context)
    {
      hide ValidTrustBase, CheckBody, ComputedSealHash, FifoIndex.View, RecallAuthentic, AuthenticCounts, KnowsBody, Encodable;
      if uc.unicityTree.partition != AGGREGATION_PARTITION_ID {
        return Rejected(PartitionMismatch);
      }
      var policy := digestOf(context);
      var hit := BodyVerified(uc, policy);
      if hit {
        return Accepted;
      }
      bodyChecks := bodyChecks + 1;
      if !CheckBody(uc) {
        return Rejected(CertificateBodyInvalid);
      }
      if |uc.shardTree.siblings| != |uc.shardTree.shard| {
        return Rejected(ShardPathInvalid);
      }
      if context.shard.Some? && context.shard.value != uc.shardTree.shard {
        return Rejected(ShardPathInvalid);
      }
      if context.shardConfHash.Some? && context.shardConfHash.value != uc.shardConfHash {
        return Rejected(ConfigurationMismatch);
      }
      if ComputedSealHash(H, uc) != Some(uc.seal.hash) {
        return Rejected(SealRootMismatch);
      }
      v := RecallAuthenticSeal(uc.seal);
      if v.Rejected? {
        return;
      }
      if context.authorityEndRound.Some? && uc.seal.rootRound >= context.authorityEndRound.value {
        return Rejected(SealAfterAuthorityEnd);
      }
      bodies.Insert(fingerprint(uc, policy), Body(policy, uc));
    }

    method Perform(check: Check) returns (v: Verdict)
      requires Ready() && Encodable(check.Seal())
      modifies this, memo, bodies
      ensures Ready()
      ensures Recalled(v, Remembered()) == Recall(Fixed(), old(Remembered()), check)
      ensures quorumChecks == old(quorumChecks) + Counts(Fixed(), old(Remembered()), check)
    {
      hide RecallSeal, RecallOrdinary, RecallStrict, SealCounts, OrdinaryCounts, StrictCounts, Encodable;
      match check
      case QuorumCheck(seal) => v := RecallQuorum(seal);
      case Ordinary(uc, policy) => v := RecallOrdinaryCheck(uc, policy);
      case Strict(uc, context) => v := RecallStrictCheck(uc, context);
    }

    // ---- in a session that tells the truth, the answers are the plain verdicts ----

    method AuthenticateSeal(seal: UnicitySeal, ghost u: Universe) returns (v: Verdict)
      requires Valid(u) && seal in u.seals
      modifies this`validated, this`memoHits, this`quorumChecks, memo
      ensures Valid(u)
      ensures v == SealVerdict(H, V, tb, seal)
    {
      hide Separated, GoodMemory, QuorumVerdict, RecallSeal, SealRules;
      EncodableMember(u, seal);
      SealTruthful(Fixed(), u, Remembered(), seal);
      v := RecallAuthenticSeal(seal);
    }

    method VerifyOrdinary(uc: UnicityCertificate, policy: Digest, ghost u: Universe) returns (v: Verdict)
      requires Valid(u) && uc.seal in u.seals && policy in u.ordinary
      modifies this, memo, bodies
      ensures Valid(u)
      ensures v == OrdinaryVerdict(H, V, tb, uc)
    {
      hide Separated, GoodMemory, OrdinaryVerdict, RecallOrdinary;
      EncodableMember(u, uc.seal);
      OrdinaryTruthful(Fixed(), u, Remembered(), uc, policy);
      v := RecallOrdinaryCheck(uc, policy);
    }

    method VerifyStrict(uc: UnicityCertificate, context: Context, ghost u: Universe) returns (v: Verdict)
      requires Valid(u) && uc.seal in u.seals && context in u.contexts
      modifies this, memo, bodies
      ensures Valid(u)
      ensures v == StrictVerdict(H, V, tb, uc, context)
    {
      hide Separated, GoodMemory, StrictVerdict, RecallStrict;
      EncodableMember(u, uc.seal);
      StrictTruthful(Fixed(), u, Remembered(), uc, context);
      v := RecallStrictCheck(uc, context);
    }
  }

  lemma EncodableMember(u: Universe, seal: UnicitySeal)
    requires Separated(u) && seal in u.seals
    ensures Encodable(seal)
  {
  }

  lemma SealQuorumIs(H: Hash, V: Verifier, tb: TrustBase, seal: UnicitySeal)
    ensures SealQuorum(H, V, tb, seal) <==> QuorumReached(V, tb, SealHash(H, seal), seal.signatures)
  {
  }

  // ---- every run ----

  lemma RunSnoc(T: Terms, M: Memory, checks: seq<Check>, i: nat)
    requires i < |checks| && AllEncodable(checks)
    ensures AllEncodable(checks[i..]) && AllEncodable(checks[i + 1..]) && Encodable(checks[i].Seal())
    ensures RunFrom(T, M, checks[i..])
         == [Recall(T, M, checks[i]).verdict] + RunFrom(T, Recall(T, M, checks[i]).memory, checks[i + 1..])
    ensures CountsFrom(T, M, checks[i..])
         == Counts(T, M, checks[i]) + CountsFrom(T, Recall(T, M, checks[i]).memory, checks[i + 1..])
  {
    hide Recall, RunFrom, Counts;
    assert checks[i..][0] == checks[i] && checks[i..][1..] == checks[i + 1..];
    RunStep(T, M, checks[i..]);
  }

  /** Any run of checks, with any seals: the session answers exactly as its memory makes it, and says how
      often it has counted signatures: once per seal, if all is accepted and there is room. */
  method RunChecks(T: Terms, checks: seq<Check>) returns (verdicts: seq<Verdict>, counted: nat)
    requires AllEncodable(checks)
    ensures verdicts == RunFrom(T, EMPTY, checks) && counted == CountsFrom(T, EMPTY, checks)
    ensures AllAccepted(verdicts) && |RunKeys(T, checks)| <= T.capacity ==> counted == |RunKeys(T, checks)|
  {
    hide Recall, RunFrom, Encodable, CountsFrom, Counts, RunKeys, AllAccepted;
    var session := new SealSession(T.H, T.V, T.tb, T.digestOf, T.fingerprint, T.capacity);
    verdicts := [];
    assert checks[0..] == checks;
    for i := 0 to |checks|
      invariant session.Ready() && fresh(session) && fresh(session.memo) && fresh(session.bodies)
      invariant session.Fixed() == T
      invariant AllEncodable(checks[i..])
      invariant verdicts + RunFrom(T, session.Remembered(), checks[i..]) == RunFrom(T, EMPTY, checks)
      invariant session.quorumChecks + CountsFrom(T, session.Remembered(), checks[i..]) == CountsFrom(T, EMPTY, checks)
    {
      RunSnoc(T, session.Remembered(), checks, i);
      var v := session.Perform(checks[i]);
      verdicts := verdicts + [v];
    }
    NothingMore(T, session.Remembered(), checks);
    counted := session.quorumChecks;
    assert verdicts == RunFrom(T, EMPTY, checks);
    if AllAccepted(verdicts) && |RunKeys(T, checks)| <= T.capacity {
      OncePerSeal(T, checks);
    }
  }

  /** A session that is misled: given a seal with a good and a bad signature of one validator and then
      the seal with the bad one alone, it accepts both, though the second has no quorum. */
  method MisledSession(T: Terms, seal: UnicitySeal, node: Data, good: Data, bad: Data) returns (verdicts: seq<Verdict>)
    requires good != bad && Nameable(node) && T.capacity > 0
    requires T.V == Accepting(good) && T.tb == OnlyFor(0, Signature(node, good))
    ensures verdicts == [Accepted, Accepted]
    ensures Reference(T, [QuorumCheck(seal.(signatures := [Signature(node, good), Signature(node, bad)])),
                          QuorumCheck(seal.(signatures := [Signature(node, bad)]))]) == [Accepted, Rejected(QuorumNotMet)]
  {
    hide RunFrom, Reference, OnlyFor, Accepting, Nameable;
    var once, twice := seal.(signatures := [Signature(node, bad)]), seal.(signatures := [Signature(node, good), Signature(node, bad)]);
    RepeatedIdsMislead(T.H, T.digestOf, T.fingerprint, T.capacity, seal, node, good, bad);
    var counted;
    verdicts, counted := RunChecks(T, [QuorumCheck(twice), QuorumCheck(once)]);
  }

  lemma NothingMore(T: Terms, M: Memory, checks: seq<Check>)
    ensures AllEncodable(checks[|checks|..]) && RunFrom(T, M, checks[|checks|..]) == []
    ensures CountsFrom(T, M, checks[|checks|..]) == 0
  {
  }
}
