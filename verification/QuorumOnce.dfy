/** The work that remembering saves: with room for all seals of a run, the signatures of every seal are
    counted once.
 */
module QuorumOnce {
  import opened Hashing
  import opened Bft
  import opened Quorum
  import opened Certificates
  import opened SealEncoding
  import opened SealMemory
  import FifoIndex

  // ---- how often signatures are counted ----

  ghost function SealCounts(T: Terms, M: Memory, seal: UnicitySeal): (n: nat)
    requires Encodable(seal)
  {
    if ValidTrustBase(T.tb) && !KnowsSeal(M, MemoKey(T.H, seal)) then 1 else 0
  }

  ghost function AuthenticCounts(T: Terms, M: Memory, seal: UnicitySeal): (n: nat)
    requires Encodable(seal)
  {
    if SealRules(T.tb, seal).Rejected? then 0 else SealCounts(T, M, seal)
  }

  ghost function OrdinaryCounts(T: Terms, M: Memory, uc: UnicityCertificate, policy: Digest): (n: nat)
    requires Encodable(uc.seal)
  {
    if uc.unicityTree.partition != AGGREGATION_PARTITION_ID || KnowsBody(T, M, uc, policy)
       || BodyVerdict(T.H, T.tb, uc).Rejected? then 0
    else SealCounts(T, M, uc.seal)
  }

  ghost function StrictCounts(T: Terms, M: Memory, uc: UnicityCertificate, c: Context): (n: nat)
    requires Encodable(uc.seal)
  {
    if uc.unicityTree.partition != AGGREGATION_PARTITION_ID || KnowsBody(T, M, uc, T.digestOf(c))
       || StrictBodyVerdict(T.H, uc, c).Rejected? then 0
    else AuthenticCounts(T, M, uc.seal)
  }

  ghost function Counts(T: Terms, M: Memory, check: Check): (n: nat)
    requires Encodable(check.Seal())
  {
    match check
    case QuorumCheck(seal) => SealCounts(T, M, seal)
    case Ordinary(uc, policy) => OrdinaryCounts(T, M, uc, policy)
    case Strict(uc, context) => StrictCounts(T, M, uc, context)
  }

  ghost function CountsFrom(T: Terms, M: Memory, checks: seq<Check>): (n: nat)
    requires AllEncodable(checks)
    decreases checks
  {
    if checks == [] then 0
    else
      assert Encodable(checks[0].Seal());
      Counts(T, M, checks[0]) + CountsFrom(T, Recall(T, M, checks[0]).memory, checks[1..])
  }

  // ---- what is remembered ----

  ghost function Keys(M: Memory): (k: set<Digest>) { set e | e in M.seals :: e.value }

  /** Every remembered key stands once, under its own index hash; there is room for all `keys`; and the
      seals of remembered certificates are remembered. */
  ghost predicate Tidy(T: Terms, M: Memory, keys: set<Digest>) {
    && |M.seals| == |Keys(M)| && Keys(M) <= keys && |keys| <= T.capacity
    && (forall e :: e in M.seals ==> e.hash == Hash8(e.value))
    && forall e :: e in M.bodies ==> Encodable(e.value.uc.seal) && MemoKey(T.H, e.value.uc.seal) in Keys(M)
  }

  /** What one step does to the memory. */
  ghost predicate Learned(T: Terms, M: Memory, M': Memory, keys: set<Digest>, key: Digest, n: nat) {
    && Tidy(T, M', keys) && |M'.seals| == |M.seals| + n && Keys(M') == Keys(M) + {key}
  }

  lemma KnownKey(T: Terms, M: Memory, keys: set<Digest>, key: Digest)
    requires Tidy(T, M, keys)
    ensures KnowsSeal(M, key) <==> key in Keys(M)
  {
    hide Hash8, MemoKey;
  }

  lemma StrictlyInside(a: set<Digest>, b: set<Digest>, x: Digest)
    requires a <= b && x in b && x !in a
    ensures |a| < |b|
  {
    SubsetSize(a + {x}, b);
  }

  lemma SealLearned(T: Terms, M: Memory, keys: set<Digest>, seal: UnicitySeal)
    requires Encodable(seal) && Tidy(T, M, keys) && MemoKey(T.H, seal) in keys
    requires RecallSeal(T, M, seal).verdict == Accepted
    ensures Learned(T, M, RecallSeal(T, M, seal).memory, keys, MemoKey(T.H, seal), SealCounts(T, M, seal))
    ensures RecallSeal(T, M, seal).memory.bodies == M.bodies
  {
    hide Hash8, MemoKey, ValidTrustBase, SealQuorum, KnowsSeal, Encodable;
    var key, M' := MemoKey(T.H, seal), RecallSeal(T, M, seal).memory;
    KnownKey(T, M, keys, key);
    if key in Keys(M) {
      assert Keys(M) == Keys(M) + {key};
    } else {
      StrictlyInside(Keys(M), keys, key);
      var entry := FifoIndex.Entry(Hash8(key), key);
      assert M'.seals == M.seals + [entry];
      assert Keys(M') == Keys(M) + {key};
    }
  }

  lemma BodyLearned(T: Terms, M: Memory, keys: set<Digest>, uc: UnicityCertificate, policy: Digest)
    requires Tidy(T, M, keys) && Encodable(uc.seal) && MemoKey(T.H, uc.seal) in Keys(M)
    ensures Tidy(T, WithBody(T, M, uc, policy), keys)
    ensures WithBody(T, M, uc, policy).seals == M.seals
  {
    hide Hash8, MemoKey, Encodable;
    var M' := WithBody(T, M, uc, policy);
    assert Keys(M') == Keys(M);
    forall e | e in M'.bodies ensures Encodable(e.value.uc.seal) && MemoKey(T.H, e.value.uc.seal) in Keys(M) {
      if e !in M.bodies {
        assert e.value == Body(policy, uc);
      }
    }
  }

  lemma KnownBody(T: Terms, M: Memory, keys: set<Digest>, uc: UnicityCertificate, policy: Digest)
    requires Tidy(T, M, keys) && Encodable(uc.seal) && KnowsBody(T, M, uc, policy)
    ensures Learned(T, M, M, keys, MemoKey(T.H, uc.seal), 0)
  {
    hide Hash8, MemoKey, Encodable;
    assert Keys(M) == Keys(M) + {MemoKey(T.H, uc.seal)};
  }

  lemma OrdinaryLearned(T: Terms, M: Memory, keys: set<Digest>, uc: UnicityCertificate, policy: Digest)
    requires Encodable(uc.seal) && Tidy(T, M, keys) && MemoKey(T.H, uc.seal) in keys
    requires RecallOrdinary(T, M, uc, policy).verdict == Accepted
    ensures Learned(T, M, RecallOrdinary(T, M, uc, policy).memory, keys, MemoKey(T.H, uc.seal),
                    OrdinaryCounts(T, M, uc, policy))
  {
    hide Hash8, MemoKey, RecallSeal, SealCounts, Tidy, KnowsBody, BodyVerdict, Encodable, WithBody, Keys;
    if KnowsBody(T, M, uc, policy) {
      KnownBody(T, M, keys, uc, policy);
    } else {
      SealLearned(T, M, keys, uc.seal);
      BodyLearned(T, RecallSeal(T, M, uc.seal).memory, keys, uc, policy);
      SameKeys(RecallSeal(T, M, uc.seal).memory, WithBody(T, RecallSeal(T, M, uc.seal).memory, uc, policy));
    }
  }

  lemma SameKeys(a: Memory, b: Memory)
    requires a.seals == b.seals
    ensures Keys(a) == Keys(b)
  {
  }

  lemma StrictLearned(T: Terms, M: Memory, keys: set<Digest>, uc: UnicityCertificate, c: Context)
    requires Encodable(uc.seal) && Tidy(T, M, keys) && MemoKey(T.H, uc.seal) in keys
    requires RecallStrict(T, M, uc, c).verdict == Accepted
    ensures Learned(T, M, RecallStrict(T, M, uc, c).memory, keys, MemoKey(T.H, uc.seal), StrictCounts(T, M, uc, c))
  {
    hide Hash8, MemoKey, RecallSeal, SealCounts, Tidy, KnowsBody, StrictBodyVerdict, SealRules, Encodable, WithBody, Keys;
    var policy := T.digestOf(c);
    if KnowsBody(T, M, uc, policy) {
      KnownBody(T, M, keys, uc, policy);
    } else {
      SealLearned(T, M, keys, uc.seal);
      BodyLearned(T, RecallSeal(T, M, uc.seal).memory, keys, uc, policy);
      SameKeys(RecallSeal(T, M, uc.seal).memory, WithBody(T, RecallSeal(T, M, uc.seal).memory, uc, policy));
    }
  }

  lemma StepLearned(T: Terms, M: Memory, keys: set<Digest>, check: Check)
    requires Encodable(check.Seal()) && Tidy(T, M, keys) && MemoKey(T.H, check.Seal()) in keys
    requires Recall(T, M, check).verdict == Accepted
    ensures Learned(T, M, Recall(T, M, check).memory, keys, MemoKey(T.H, check.Seal()), Counts(T, M, check))
  {
    hide MemoKey, RecallSeal, RecallOrdinary, RecallStrict, SealCounts, OrdinaryCounts, StrictCounts, Tidy, Encodable;
    hide Learned;
    match check {
      case QuorumCheck(seal) => SealLearned(T, M, keys, seal);
      case Ordinary(uc, policy) => OrdinaryLearned(T, M, keys, uc, policy);
      case Strict(uc, context) => StrictLearned(T, M, keys, uc, context);
    }
  }

  // ---- a run ----

  /** The memo keys of the seals of a run. */
  ghost function RunKeys(T: Terms, checks: seq<Check>): (k: set<Digest>)
    requires AllEncodable(checks)
    decreases checks
  {
    if checks == [] then {}
    else
      assert Encodable(checks[0].Seal());
      {MemoKey(T.H, checks[0].Seal())} + RunKeys(T, checks[1..])
  }

  ghost predicate AllAccepted(verdicts: seq<Verdict>) {
    forall i :: 0 <= i < |verdicts| ==> verdicts[i] == Accepted
  }

  lemma {:induction false} RunLearned(T: Terms, M: Memory, keys: set<Digest>, checks: seq<Check>)
    requires AllEncodable(checks) && Tidy(T, M, keys) && RunKeys(T, checks) <= keys
    requires AllAccepted(RunFrom(T, M, checks))
    ensures CountsFrom(T, M, checks) + |Keys(M)| == |Keys(M) + RunKeys(T, checks)|
    decreases checks
  {
    hide MemoKey, Recall, Counts, Encodable, Keys, Tidy;
    if checks == [] {
      assert Keys(M) + RunKeys(T, checks) == Keys(M);
    } else {
      AcceptedStep(T, M, checks);
      var check := checks[0];
      var M', key := Recall(T, M, check).memory, MemoKey(T.H, check.Seal());
      StepLearned(T, M, keys, check);
      TidySize(T, M, keys);
      TidySize(T, M', keys);
      RunLearned(T, M', keys, checks[1..]);
      assert Keys(M) + RunKeys(T, checks) == Keys(M') + RunKeys(T, checks[1..]);
    }
  }

  lemma TidySize(T: Terms, M: Memory, keys: set<Digest>)
    requires Tidy(T, M, keys)
    ensures |M.seals| == |Keys(M)|
  {
  }

  lemma AcceptedStep(T: Terms, M: Memory, checks: seq<Check>)
    requires checks != [] && AllEncodable(checks) && AllAccepted(RunFrom(T, M, checks))
    ensures Encodable(checks[0].Seal()) && AllEncodable(checks[1..])
    ensures Recall(T, M, checks[0]).verdict == Accepted
    ensures AllAccepted(RunFrom(T, Recall(T, M, checks[0]).memory, checks[1..]))
  {
    hide Recall, Encodable;
    RunStep(T, M, checks);
    var all := RunFrom(T, M, checks);
    var rest := RunFrom(T, Recall(T, M, checks[0]).memory, checks[1..]);
    assert all[0] == Recall(T, M, checks[0]).verdict;
    assert forall i :: 0 <= i < |rest| ==> rest[i] == all[i + 1];
  }

  /** In a run of accepted checks of any kind and order, with room for all its seals, signatures are counted
      exactly once for every different seal key. */
  lemma OncePerSeal(T: Terms, checks: seq<Check>)
    requires AllEncodable(checks) && AllAccepted(RunFrom(T, EMPTY, checks)) && |RunKeys(T, checks)| <= T.capacity
    ensures CountsFrom(T, EMPTY, checks) == |RunKeys(T, checks)|
  {
    hide RunFrom, RunKeys, CountsFrom, Encodable, MemoKey, Hash8;
    RunLearned(T, EMPTY, RunKeys(T, checks), checks);
    assert Keys(EMPTY) + RunKeys(T, checks) == RunKeys(T, checks);
  }
}
