/** What a session of remembered successes answers, as a function of the checks put to it, and exactly
    when its answers are those reached without memory.
 */
module SealMemory {
  import opened Hashing
  import opened CborHead
  import opened CborMap
  import opened Bft
  import opened Quorum
  import opened Certificates
  import opened SealEncoding
  import FifoIndex

  // ---- keys ----

  /** The ASCII bytes of "unicity-token/seal-memo/v1". */
  const MEMO_DOMAIN: Bytes := [
    0x75, 0x6e, 0x69, 0x63, 0x69, 0x74, 0x79, 0x2d, 0x74, 0x6f, 0x6b, 0x65, 0x6e, 0x2f, 0x73, 0x65, 0x61, 0x6c,
    0x2d, 0x6d, 0x65, 0x6d, 0x6f, 0x2f, 0x76, 0x31]

  /** The memo key preimage: domain, length and the complete seal encoding. */
  function MemoPreimage(seal: UnicitySeal): (b: Bytes)
    requires Encodable(seal)
  {
    MEMO_DOMAIN + ToBE(|SealCbor(seal)| % Pow256(8), 8) + SealCbor(seal)
  }

  function MemoKey(H: Hash, seal: UnicitySeal): (k: Digest)
    requires Encodable(seal)
  {
    H(MemoPreimage(seal))
  }

  lemma MemoPreimageInjective(a: UnicitySeal, b: UnicitySeal)
    requires Encodable(a) && Encodable(b) && MemoPreimage(a) == MemoPreimage(b)
    ensures SealCbor(a) == SealCbor(b)
  {
    hide SealCbor;
    var n := |MEMO_DOMAIN| + 8;
    assert MemoPreimage(a)[n..] == SealCbor(a);
    assert MemoPreimage(b)[n..] == SealCbor(b);
  }

  /** The index hash of a memo key: its first eight bytes, little-endian. */
  function Hash8(key: Digest): (h: nat) {
    FromBE([key[7], key[6], key[5], key[4], key[3], key[2], key[1], key[0]])
  }

  // ---- memory ----

  /** A certificate that passed under a policy. */
  datatype Body = Body(policy: Digest, uc: UnicityCertificate)

  /** The two bounded queues, oldest entry first. */
  datatype Memory = Memory(seals: seq<FifoIndex.Entry<Digest>>, bodies: seq<FifoIndex.Entry<Body>>)

  const EMPTY := Memory([], [])

  /** What a session is fixed to: primitives, authority, the namespaces of contexts, an index hash of
      certificates (any function will do), and the capacity. */
  datatype Terms = Terms(
    H: Hash, V: Verifier, tb: TrustBase, digestOf: Context -> Digest,
    fingerprint: (UnicityCertificate, Digest) -> nat, capacity: nat)

  ghost predicate KnowsSeal(M: Memory, key: Digest) {
    exists e :: e in M.seals && e.hash == Hash8(key) && e.value == key
  }

  ghost predicate KnowsBody(T: Terms, M: Memory, uc: UnicityCertificate, policy: Digest) {
    exists e :: e in M.bodies && e.hash == T.fingerprint(uc, policy) && e.value == Body(policy, uc)
  }

  ghost function WithSeal(T: Terms, M: Memory, key: Digest): (M': Memory) {
    M.(seals := FifoIndex.Enqueue(M.seals, T.capacity, FifoIndex.Entry(Hash8(key), key)))
  }

  ghost function WithBody(T: Terms, M: Memory, uc: UnicityCertificate, policy: Digest): (M': Memory) {
    M.(bodies := FifoIndex.Enqueue(M.bodies, T.capacity, FifoIndex.Entry(T.fingerprint(uc, policy), Body(policy, uc))))
  }

  datatype Recalled = Recalled(verdict: Verdict, memory: Memory)

  /** The quorum of a seal: a remembered success of the same key is not checked again. */
  ghost function RecallSeal(T: Terms, M: Memory, seal: UnicitySeal): (r: Recalled)
    requires Encodable(seal)
  {
    if !ValidTrustBase(T.tb) then Recalled(Rejected(InvalidTrustBase), M)
    else if KnowsSeal(M, MemoKey(T.H, seal)) then Recalled(Accepted, M)
    else if SealQuorum(T.H, T.V, T.tb, seal) then Recalled(Accepted, WithSeal(T, M, MemoKey(T.H, seal)))
    else Recalled(Rejected(QuorumNotMet), M)
  }

  /** Strict authentication: the rules are applied every time, only the quorum is remembered. */
  ghost function RecallAuthentic(T: Terms, M: Memory, seal: UnicitySeal): (r: Recalled)
    requires Encodable(seal)
  {
    if SealRules(T.tb, seal).Rejected? then Recalled(SealRules(T.tb, seal), M) else RecallSeal(T, M, seal)
  }

  /** The ordinary check under `policy`. */
  ghost function RecallOrdinary(T: Terms, M: Memory, uc: UnicityCertificate, policy: Digest): (r: Recalled)
    requires Encodable(uc.seal)
  {
    if uc.unicityTree.partition != AGGREGATION_PARTITION_ID then Recalled(Rejected(PartitionMismatch), M)
    else if KnowsBody(T, M, uc, policy) then Recalled(Accepted, M)
    else if BodyVerdict(T.H, T.tb, uc).Rejected? then Recalled(BodyVerdict(T.H, T.tb, uc), M)
    else
      var r := RecallSeal(T, M, uc.seal);
      if r.verdict.Rejected? then r else Recalled(Accepted, WithBody(T, r.memory, uc, policy))
  }

  /** The strict check, in the namespace of its context. */
  ghost function RecallStrict(T: Terms, M: Memory, uc: UnicityCertificate, c: Context): (r: Recalled)
    requires Encodable(uc.seal)
  {
    if uc.unicityTree.partition != AGGREGATION_PARTITION_ID then Recalled(Rejected(PartitionMismatch), M)
    else if KnowsBody(T, M, uc, T.digestOf(c)) then Recalled(Accepted, M)
    else if StrictBodyVerdict(T.H, uc, c).Rejected? then Recalled(StrictBodyVerdict(T.H, uc, c), M)
    else
      var r := RecallAuthentic(T, M, uc.seal);
      if r.verdict.Rejected? then r
      else if c.authorityEndRound.Some? && uc.seal.rootRound >= c.authorityEndRound.value then
        Recalled(Rejected(SealAfterAuthorityEnd), r.memory)
      else Recalled(Accepted, WithBody(T, r.memory, uc, T.digestOf(c)))
  }

  // ---- runs ----

  datatype Check =
    | QuorumCheck(seal: UnicitySeal)
    | Ordinary(uc: UnicityCertificate, policy: Digest)
    | Strict(uc: UnicityCertificate, context: Context)
  {
    function Seal(): (s: UnicitySeal) { if QuorumCheck? then seal else uc.seal }
  }

  ghost function Recall(T: Terms, M: Memory, check: Check): (r: Recalled)
    requires Encodable(check.Seal())
  {
    match check
    case QuorumCheck(seal) => RecallSeal(T, M, seal)
    case Ordinary(uc, policy) => RecallOrdinary(T, M, uc, policy)
    case Strict(uc, context) => RecallStrict(T, M, uc, context)
  }

  ghost predicate AllEncodable(checks: seq<Check>) {
    forall i :: 0 <= i < |checks| ==> Encodable(checks[i].Seal())
  }

  /** The verdicts of a run that starts with memory `M`. */
  ghost function RunFrom(T: Terms, M: Memory, checks: seq<Check>): (verdicts: seq<Verdict>)
    requires AllEncodable(checks)
    decreases checks
  {
    if checks == [] then []
    else
      assert Encodable(checks[0].Seal());
      var r := Recall(T, M, checks[0]);
      [r.verdict] + RunFrom(T, r.memory, checks[1..])
  }

  /** The verdict without any memory. */
  ghost function VerdictOf(T: Terms, check: Check): (v: Verdict) {
    match check
    case QuorumCheck(seal) => QuorumVerdict(T.H, T.V, T.tb, seal)
    case Ordinary(uc, _) => OrdinaryVerdict(T.H, T.V, T.tb, uc)
    case Strict(uc, context) => StrictVerdict(T.H, T.V, T.tb, uc, context)
  }

  ghost function Reference(T: Terms, checks: seq<Check>): (verdicts: seq<Verdict>)
    decreases checks
  {
    if checks == [] then [] else [VerdictOf(T, checks[0])] + Reference(T, checks[1..])
  }

  /** With nothing remembered, a check gives the plain verdict. */
  lemma NothingRecalled(T: Terms, M: Memory, check: Check)
    requires Encodable(check.Seal()) && M.seals == [] && M.bodies == []
    ensures Recall(T, M, check).verdict == VerdictOf(T, check)
  {
    hide ValidTrustBase, SealQuorum, MemoKey, Hash8, SealShape, CheckBody, ComputedSealHash;
  }

  /** A session of capacity 0 is the reference. */
  lemma {:induction false} WithoutCapacity(T: Terms, checks: seq<Check>)
    requires T.capacity == 0 && AllEncodable(checks)
    ensures RunFrom(T, EMPTY, checks) == Reference(T, checks)
    decreases checks
  {
    if checks != [] {
      assert Encodable(checks[0].Seal());
      NothingRecalled(T, EMPTY, checks[0]);
      NothingKept(T, checks[0]);
      WithoutCapacity(T, checks[1..]);
    }
  }

  lemma NothingKept(T: Terms, check: Check)
    requires T.capacity == 0 && Encodable(check.Seal())
    ensures Recall(T, EMPTY, check).memory == EMPTY
  {
    hide ValidTrustBase, SealQuorum, MemoKey, Hash8, SealShape, CheckBody, ComputedSealHash, SealRules;
  }

  // ---- when memory changes nothing ----

  /** Everything a run presents to a session, and the digests that name its contexts. */
  datatype Universe = Universe(
    H: Hash, V: Verifier, tb: TrustBase,
    seals: set<UnicitySeal>, ordinary: set<Digest>, contexts: set<Context>, digestOf: Context -> Digest)

  /** Seals with one encoding have the same entries. */
  ghost predicate Unambiguous(seals: set<UnicitySeal>) {
    forall a, b :: a in seals && b in seals && Encodable(a) && Encodable(b) && SealCbor(a) == SealCbor(b) ==>
      SameEntries(a, b)
  }

  /** The memo keys do not collide, and the policy namespaces of ordinary checks and of the contexts are
      different. */
  ghost predicate KeysSeparate(H: Hash, seals: set<UnicitySeal>, ordinary: set<Digest>, contexts: set<Context>,
                               digestOf: Context -> Digest)
  {
    && (forall s :: s in seals ==> Encodable(s))
    && !Collision(H, set s | s in seals && Encodable(s) :: MemoPreimage(s))
    && (forall c :: c in contexts ==> digestOf(c) !in ordinary)
    && (forall c, c' :: c in contexts && c' in contexts && digestOf(c) == digestOf(c') ==> c == c')
  }

  ghost predicate Separated(u: Universe) {
    KeysSeparate(u.H, u.seals, u.ordinary, u.contexts, u.digestOf) && Unambiguous(u.seals)
  }

  /** Decoded seals, and all others that give no id two signatures, are unambiguous. */
  lemma ConsistentUnambiguous(seals: set<UnicitySeal>)
    requires forall s :: s in seals ==> Encodable(s) && Consistent(s)
    ensures Unambiguous(seals)
  {
    hide SealCbor, Consistent, SameEntries;
    forall a, b | a in seals && b in seals && Encodable(a) && Encodable(b) && SealCbor(a) == SealCbor(b)
      ensures SameEntries(a, b)
    {
      ConsistentSameEntries(a, b);
    }
  }

  /** Among seals presented together with what their encodings are read back as, the condition is one a
      caller can check seal by seal: no id carries two different signatures. */
  lemma UnambiguousExactly(H: Hash, seals: set<UnicitySeal>)
    requires forall s :: s in seals ==> Encodable(s) && Reread(s) in seals
    ensures Unambiguous(seals) <==> forall s :: s in seals ==> Consistent(s)
  {
    hide SealCbor, SealHash, Consistent, SameEntries, Reread;
    if forall s :: s in seals ==> Consistent(s) {
      ConsistentUnambiguous(seals);
    }
    if Unambiguous(seals) {
      forall s | s in seals ensures Consistent(s) {
        RereadSame(H, s);
        SameAsReread(s);
      }
    }
  }

  /** A memo entry that may be trusted. */
  ghost predicate GoodSeal(u: Universe, key: Digest) {
    ValidTrustBase(u.tb)
    && exists s :: s in u.seals && Encodable(s) && key == MemoKey(u.H, s) && SealQuorum(u.H, u.V, u.tb, s)
  }

  ghost predicate GoodBody(u: Universe, policy: Digest, uc: UnicityCertificate) {
    && (policy in u.ordinary ==> OrdinaryVerdict(u.H, u.V, u.tb, uc) == Accepted)
    && (forall c :: c in u.contexts && u.digestOf(c) == policy ==> StrictVerdict(u.H, u.V, u.tb, uc, c) == Accepted)
  }

  ghost predicate GoodMemory(u: Universe, M: Memory) {
    && (forall e :: e in M.seals ==> GoodSeal(u, e.value))
    && (forall e :: e in M.bodies ==> GoodBody(u, e.value.policy, e.value.uc))
  }

  /** A remembered key speaks for every seal of the run that has it. */
  lemma TrustedKey(u: Universe, seal: UnicitySeal)
    requires Separated(u) && seal in u.seals && Encodable(seal) && GoodSeal(u, MemoKey(u.H, seal))
    ensures SealQuorum(u.H, u.V, u.tb, seal)
  {
    hide SealQuorum, ValidTrustBase, MemoPreimage, SealCbor, SameEntries;
    var known :| known in u.seals && Encodable(known) && MemoKey(u.H, seal) == MemoKey(u.H, known)
              && SealQuorum(u.H, u.V, u.tb, known);
    var keys := set s | s in u.seals && Encodable(s) :: MemoPreimage(s);
    assert MemoPreimage(known) in keys && MemoPreimage(seal) in keys;
    SamePreimage(u.H, keys, MemoPreimage(known), MemoPreimage(seal));
    MemoPreimageInjective(known, seal);
    EncodingDetermines(u.H, known, seal);
    SameEntriesAgree(u.H, u.V, u.tb, known, seal);
  }

  ghost predicate Under(T: Terms, u: Universe) {
    T.H == u.H && T.V == u.V && T.tb == u.tb && T.digestOf == u.digestOf
  }

  lemma EnqueueMembers<X(!new)>(queue: seq<FifoIndex.Entry<X>>, capacity: nat, e: FifoIndex.Entry<X>)
    ensures forall x :: x in FifoIndex.Enqueue(queue, capacity, e) ==> x in queue || x == e
  {
  }

  /** The quorum answered from a good memory is right, and the memory stays good. */
  lemma SealTruthful(T: Terms, u: Universe, M: Memory, seal: UnicitySeal)
    requires Separated(u) && Under(T, u) && GoodMemory(u, M) && seal in u.seals && Encodable(seal)
    ensures RecallSeal(T, M, seal).verdict == QuorumVerdict(T.H, T.V, T.tb, seal)
    ensures GoodMemory(u, RecallSeal(T, M, seal).memory)
  {
    hide SealQuorum, ValidTrustBase, MemoKey, Separated, Hash8, GoodBody, FifoIndex.Enqueue;
    var key := MemoKey(T.H, seal);
    if KnowsSeal(M, key) {
      TrustedKey(u, seal);
    }
    EnqueueMembers(M.seals, T.capacity, FifoIndex.Entry(Hash8(key), key));
  }

  lemma BodyKept(T: Terms, u: Universe, M: Memory, uc: UnicityCertificate, policy: Digest)
    requires GoodMemory(u, M) && GoodBody(u, policy, uc)
    ensures GoodMemory(u, WithBody(T, M, uc, policy))
  {
    hide GoodSeal, GoodBody, FifoIndex.Enqueue;
    EnqueueMembers(M.bodies, T.capacity, FifoIndex.Entry(T.fingerprint(uc, policy), Body(policy, uc)));
  }

  lemma OrdinaryIsGood(u: Universe, policy: Digest, uc: UnicityCertificate)
    requires Separated(u) && policy in u.ordinary && OrdinaryVerdict(u.H, u.V, u.tb, uc) == Accepted
    ensures GoodBody(u, policy, uc)
  {
    hide OrdinaryVerdict, StrictVerdict, Unambiguous;
  }

  lemma StrictIsGood(u: Universe, context: Context, uc: UnicityCertificate)
    requires Separated(u) && context in u.contexts && StrictVerdict(u.H, u.V, u.tb, uc, context) == Accepted
    ensures GoodBody(u, u.digestOf(context), uc)
  {
    hide OrdinaryVerdict, StrictVerdict, Unambiguous;
  }

  lemma OrdinaryTruthful(T: Terms, u: Universe, M: Memory, uc: UnicityCertificate, policy: Digest)
    requires Separated(u) && Under(T, u) && GoodMemory(u, M) && uc.seal in u.seals && Encodable(uc.seal)
    requires policy in u.ordinary
    ensures RecallOrdinary(T, M, uc, policy).verdict == OrdinaryVerdict(T.H, T.V, T.tb, uc)
    ensures GoodMemory(u, RecallOrdinary(T, M, uc, policy).memory)
  {
    hide Separated, RecallSeal, QuorumVerdict, BodyVerdict, GoodSeal, StrictVerdict, WithBody;
    SealTruthful(T, u, M, uc.seal);
    if OrdinaryVerdict(T.H, T.V, T.tb, uc) == Accepted {
      OrdinaryIsGood(u, policy, uc);
      if RecallSeal(T, M, uc.seal).verdict.Accepted? {
        BodyKept(T, u, RecallSeal(T, M, uc.seal).memory, uc, policy);
      }
    }
  }

  lemma StrictTruthful(T: Terms, u: Universe, M: Memory, uc: UnicityCertificate, c: Context)
    requires Separated(u) && Under(T, u) && GoodMemory(u, M) && uc.seal in u.seals && Encodable(uc.seal)
    requires c in u.contexts
    ensures RecallStrict(T, M, uc, c).verdict == StrictVerdict(T.H, T.V, T.tb, uc, c)
    ensures GoodMemory(u, RecallStrict(T, M, uc, c).memory)
  {
    hide Separated, RecallSeal, QuorumVerdict, StrictBodyVerdict, GoodSeal, OrdinaryVerdict, WithBody, SealRules;
    SealTruthful(T, u, M, uc.seal);
    if StrictVerdict(T.H, T.V, T.tb, uc, c) == Accepted {
      StrictIsGood(u, c, uc);
      BodyKept(T, u, RecallSeal(T, M, uc.seal).memory, uc, T.digestOf(c));
    }
  }

  ghost predicate Presents(u: Universe, check: Check) {
    && check.Seal() in u.seals
    && (check.Ordinary? ==> check.policy in u.ordinary)
    && (check.Strict? ==> check.context in u.contexts)
  }

  ghost predicate AllPresented(u: Universe, checks: seq<Check>) {
    AllEncodable(checks) && forall i :: 0 <= i < |checks| ==> Presents(u, checks[i])
  }

  lemma {:induction false} RunTruthful(T: Terms, u: Universe, M: Memory, checks: seq<Check>)
    requires Separated(u) && Under(T, u) && GoodMemory(u, M)
    requires AllEncodable(checks) && forall i :: 0 <= i < |checks| ==> Presents(u, checks[i])
    ensures RunFrom(T, M, checks) == Reference(T, checks)
    decreases checks
  {
    hide Separated, GoodMemory, RecallSeal, RecallOrdinary, RecallStrict, QuorumVerdict, OrdinaryVerdict, StrictVerdict;
    if checks != [] {
      var check := checks[0];
      assert Presents(u, check) && Encodable(check.Seal());
      match check {
        case QuorumCheck(seal) => SealTruthful(T, u, M, seal);
        case Ordinary(uc, policy) => OrdinaryTruthful(T, u, M, uc, policy);
        case Strict(uc, context) => StrictTruthful(T, u, M, uc, context);
      }
      RunTruthful(T, u, Recall(T, M, check).memory, checks[1..]);
    }
  }

  // ---- and when it does ----

  /** The run "first `a`, then `b`": both are accepted once `a` is, the second one from memory. */
  lemma SecondFromMemory(T: Terms, a: UnicitySeal, b: UnicitySeal)
    requires Encodable(a) && Encodable(b) && SealCbor(a) == SealCbor(b) && T.capacity > 0
    requires ValidTrustBase(T.tb) && SealQuorum(T.H, T.V, T.tb, a)
    ensures RunFrom(T, EMPTY, [QuorumCheck(a), QuorumCheck(b)]) == [Accepted, Accepted]
  {
    hide ValidTrustBase, SealQuorum, SealCbor, Hash8;
    var key := MemoKey(T.H, a);
    var first := RecallSeal(T, EMPTY, a);
    assert first == Recalled(Accepted, WithSeal(T, EMPTY, key));
    var entry := FifoIndex.Entry(Hash8(key), key);
    assert first.memory.seals == [] + [entry];
    assert entry in first.memory.seals && KnowsSeal(first.memory, MemoKey(T.H, b));
    var checks := [QuorumCheck(a), QuorumCheck(b)];
    RunStep(T, EMPTY, checks);
    assert checks[1..] == [QuorumCheck(b)];
    RunStep(T, first.memory, [QuorumCheck(b)]);
  }

  lemma RunStep(T: Terms, M: Memory, checks: seq<Check>)
    requires checks != [] && AllEncodable(checks)
    ensures Encodable(checks[0].Seal()) && AllEncodable(checks[1..])
    ensures RunFrom(T, M, checks) == [Recall(T, M, checks[0]).verdict] + RunFrom(T, Recall(T, M, checks[0]).memory, checks[1..])
    ensures Reference(T, checks) == [VerdictOf(T, checks[0])] + Reference(T, checks[1..])
    ensures |checks| == 1 ==> |RunFrom(T, Recall(T, M, checks[0]).memory,
                                       checks[1..])| == 0 && |Reference(T, checks[1..])| == 0
  {
    hide Recall, VerdictOf;
    assert Encodable(checks[0].Seal());
  }

  lemma TwoReferences(T: Terms, a: UnicitySeal, b: UnicitySeal)
    requires Encodable(a) && Encodable(b)
    ensures Reference(T, [QuorumCheck(a), QuorumCheck(b)]) == [QuorumVerdict(T.H, T.V, T.tb, a), QuorumVerdict(T.H, T.V, T.tb, b)]
  {
    hide QuorumVerdict, Recall;
    var checks := [QuorumCheck(a), QuorumCheck(b)];
    RunStep(T, EMPTY, checks);
    assert checks[1..] == [QuorumCheck(b)];
    RunStep(T, EMPTY, [QuorumCheck(b)]);
  }

  /** Two seals with one encoding of which only the first has an entry `s`: some authority accepts the
      second from memory that the reference rejects. */
  lemma AmbiguityMisleads(H: Hash, digestOf: Context -> Digest, fingerprint: (UnicityCertificate, Digest) -> nat,
                          capacity: nat,
                          a: UnicitySeal, b: UnicitySeal, s: Signature)
    requires Encodable(a) && Encodable(b) && SealCbor(a) == SealCbor(b) && capacity > 0
    requires Nameable(s.node) && s in a.signatures && s !in b.signatures
    ensures var T := Terms(H, Accepting(s.signature), OnlyFor(0, s), digestOf, fingerprint, capacity);
            && RunFrom(T, EMPTY, [QuorumCheck(a), QuorumCheck(b)]) == [Accepted, Accepted]
            && Reference(T, [QuorumCheck(a), QuorumCheck(b)]) == [Accepted, Rejected(QuorumNotMet)]
  {
    hide ValidTrustBase, SealQuorum, SealCbor, Accepting, OnlyFor;
    var T := Terms(H, Accepting(s.signature), OnlyFor(0, s), digestOf, fingerprint, capacity);
    OnlyEntryCounts(H, 0, s, a);
    OnlyEntryCounts(H, 0, s, b);
    SecondFromMemory(T, a, b);
    TwoReferences(T, a, b);
  }

  /** No authority is misled by any run over the given seals, policies and contexts. */
  ghost predicate Transparent(H: Hash, seals: set<UnicitySeal>, ordinary: set<Digest>, contexts: set<Context>,
                              digestOf: Context -> Digest, fingerprint: (UnicityCertificate, Digest) -> nat, capacity: nat)
  {
    forall V: Verifier, tb: TrustBase, checks: seq<Check> ::
      AllPresented(Universe(H, V, tb, seals, ordinary, contexts, digestOf), checks) ==>
        RunFrom(Terms(H, V, tb, digestOf, fingerprint, capacity), EMPTY, checks)
        == Reference(Terms(H, V, tb, digestOf, fingerprint, capacity), checks)
  }

  /** With memo keys that do not collide and a memory that holds anything at all, the memo never changes a
      verdict, for any authority and over every run, exactly when seals with one encoding have the same
      entries. */
  lemma TransparentExactly(H: Hash, seals: set<UnicitySeal>, ordinary: set<Digest>, contexts: set<Context>,
                           digestOf: Context -> Digest, fingerprint: (UnicityCertificate, Digest) -> nat, capacity: nat)
    requires KeysSeparate(H, seals, ordinary, contexts, digestOf) && capacity > 0
    ensures Transparent(H, seals, ordinary, contexts, digestOf, fingerprint, capacity) <==> Unambiguous(seals)
  {
    hide KeysSeparate, Transparent, SealCbor, SameEntries;
    if Unambiguous(seals) {
      UnambiguousTransparent(H, seals, ordinary, contexts, digestOf, fingerprint, capacity);
    }
    if Transparent(H, seals, ordinary, contexts, digestOf, fingerprint, capacity) {
      forall a, b | a in seals && b in seals && Encodable(a) && Encodable(b) && SealCbor(a) == SealCbor(b)
        ensures SameEntries(a, b)
      {
        NotMisled(H, seals, ordinary, contexts, digestOf, fingerprint, capacity, a, b);
      }
    }
  }

  lemma UnambiguousTransparent(H: Hash, seals: set<UnicitySeal>, ordinary: set<Digest>, contexts: set<Context>,
                               digestOf: Context -> Digest, fingerprint: (UnicityCertificate, Digest) -> nat, capacity: nat)
    requires KeysSeparate(H, seals, ordinary, contexts, digestOf) && Unambiguous(seals)
    ensures Transparent(H, seals, ordinary, contexts, digestOf, fingerprint, capacity)
  {
    hide RunFrom, Reference, KeysSeparate, Unambiguous, AllEncodable, Presents, GoodSeal, GoodBody;
    forall V: Verifier, tb: TrustBase, checks: seq<Check>
      | AllPresented(Universe(H, V, tb, seals, ordinary, contexts, digestOf), checks)
      ensures RunFrom(Terms(H, V, tb, digestOf, fingerprint, capacity), EMPTY, checks)
           == Reference(Terms(H, V, tb, digestOf, fingerprint, capacity), checks)
    {
      var T, u := Terms(H, V, tb, digestOf, fingerprint, capacity), Universe(H, V, tb, seals, ordinary, contexts, digestOf);
      assert Under(T, u) && Separated(u) && GoodMemory(u, EMPTY);
      RunTruthful(T, u, EMPTY, checks);
    }
  }

  lemma NotMisled(H: Hash, seals: set<UnicitySeal>, ordinary: set<Digest>, contexts: set<Context>,
                  digestOf: Context -> Digest,
                  fingerprint: (UnicityCertificate, Digest) -> nat, capacity: nat, a: UnicitySeal, b: UnicitySeal)
    requires Transparent(H, seals, ordinary, contexts, digestOf, fingerprint, capacity) && capacity > 0
    requires a in seals && b in seals && Encodable(a) && Encodable(b) && SealCbor(a) == SealCbor(b)
    ensures SameEntries(a, b)
  {
    hide RunFrom, Reference, SealCbor, Nameable;
    forall s: Signature | Nameable(s.node) ensures s in a.signatures <==> s in b.signatures {
      if s in a.signatures && s !in b.signatures {
        MisleadingRun(H, seals, ordinary, contexts, digestOf, fingerprint, capacity, a, b, s);
      } else if s in b.signatures && s !in a.signatures {
        MisleadingRun(H, seals, ordinary, contexts, digestOf, fingerprint, capacity, b, a, s);
      }
    }
  }

  lemma MisleadingRun(H: Hash, seals: set<UnicitySeal>, ordinary: set<Digest>, contexts: set<Context>,
                      digestOf: Context -> Digest,
                      fingerprint: (UnicityCertificate, Digest) -> nat, capacity: nat, a: UnicitySeal, b: UnicitySeal, s: Signature)
    requires a in seals && b in seals && Encodable(a) && Encodable(b) && SealCbor(a) == SealCbor(b) && capacity > 0
    requires Nameable(s.node) && s in a.signatures && s !in b.signatures
    ensures !Transparent(H, seals, ordinary, contexts, digestOf, fingerprint, capacity)
  {
    hide RunFrom, Reference, SealCbor, Nameable, OnlyFor, Accepting;
    var V, tb, checks := Accepting(s.signature), OnlyFor(0, s), [QuorumCheck(a), QuorumCheck(b)];
    AmbiguityMisleads(H, digestOf, fingerprint, capacity, a, b, s);
    var u := Universe(H, V, tb, seals, ordinary, contexts, digestOf);
    assert AllEncodable(checks) && forall i :: 0 <= i < |checks| ==> Presents(u, checks[i]);
    var T := Terms(H, V, tb, digestOf, fingerprint, capacity);
    assert RunFrom(T, EMPTY, checks)[1] != Reference(T, checks)[1];
  }

  /** A concrete failing run: a seal with a good and a bad signature of one validator, then the seal with
      the bad one alone.  The memory accepts both; without memory the second is rejected. */
  lemma RepeatedIdsMislead(H: Hash, digestOf: Context -> Digest, fingerprint: (UnicityCertificate, Digest) -> nat,
                           capacity: nat,
                           seal: UnicitySeal, node: Data, good: Data, bad: Data)
    requires good != bad && Nameable(node) && capacity > 0
    ensures var once := seal.(signatures := [Signature(node, bad)]);
            var twice := seal.(signatures := [Signature(node, good), Signature(node, bad)]);
            var T := Terms(H, Accepting(good), OnlyFor(0, Signature(node, good)), digestOf, fingerprint, capacity);
            && SealCbor(once) == SealCbor(twice)
            && RunFrom(T, EMPTY, [QuorumCheck(twice), QuorumCheck(once)]) == [Accepted, Accepted]
            && Reference(T, [QuorumCheck(twice), QuorumCheck(once)]) == [Accepted, Rejected(QuorumNotMet)]
  {
    hide SealCbor, SealHash, RunFrom, Reference, Accepting, OnlyFor, Nameable, LastOf;
    var g, b := Signature(node, good), Signature(node, bad);
    var once, twice := seal.(signatures := [b]), seal.(signatures := [g, b]);
    LastOfTwo(g, b);
    assert Reread(twice) == once;
    RereadSame(H, twice);
    AmbiguityMisleads(H, digestOf, fingerprint, capacity, twice, once, g);
  }
}
