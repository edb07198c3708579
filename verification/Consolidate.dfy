/** One consolidation attempt: all outer proofs of a token are moved under one seal.  Wave one fetches
    the latest batch of the master shard and authenticates its partition view; wave two fetches, from
    every other shard, the batch at exactly the root the view names.
 */
module Consolidate {
  import opened Hashing
  import opened CborHead
  import opened Bft
  import opened Quorum
  import opened Certificates
  import opened Tokens
  import opened ShardPass
  import opened Assemble
  import opened Admission
  import opened Replacement
  import opened Services
  import Topology
  import SealMemory
  import SealSession
  import TokenVerifier

  datatype Summary = Summary(
    alreadyShared: bool, shards: nat, requests: nat, masterRound: Option<nat>, sealsAfter: nat,
    certificatesDerived: nat)

  datatype Outcome = Consolidated(proofs: seq<InclusionProof>, summary: Summary) | Stopped(stop: Stop)

  /** The admitted inputs, their groups, and for every input its first occurrence and its shard. */
  datatype Plan = Plan(items: seq<ProofItem>, groups: seq<Group>, firstOf: seq<nat>, shardOf: seq<nat>)

  // ---- the plan ----

  ghost predicate Planned(a: Attempt, plan: Plan) {
    && ValidSetup(a.setup) && GroupsOf(a.setup, plan.items, plan.groups, plan.firstOf, plan.shardOf)
    && Admitted(a.setup, plan.items, |plan.items|) && plan.items != []
    && forall k :: 0 <= k < |plan.groups| ==> |plan.groups[k].items| > 0 && InShard(plan.items, plan.groups[k])
  }

  lemma GroupInShard(a: Attempt, items: seq<ProofItem>, groups: seq<Group>, k: nat)
    requires ValidSetup(a.setup) && groups == GroupsBelow(a.setup, items, |a.setup.shards|) && k < |groups|
    ensures |groups[k].items| > 0 && InShard(items, groups[k])
  {
    hide IsFirst, Topology.Canonical, Topology.KeyBits, Members, GroupsBelow;
    var s := GroupIs(a.setup, items, |a.setup.shards|, k);
    var m := Members(a.setup, items, |items|, s);
    forall j | 0 <= j < |m| ensures m[j] < |items| && groups[k].shard <= Topology.KeyBits(items[m[j]].stateId) {
      RouteLands(a.setup.shards, items[m[j]].stateId);
    }
  }

  lemma PlanIs(a: Attempt, plan: Plan)
    requires ValidSetup(a.setup) && GroupsOf(a.setup, plan.items, plan.groups, plan.firstOf, plan.shardOf)
    requires Admitted(a.setup, plan.items, |plan.items|) && plan.items != []
    ensures Planned(a, plan) && |plan.shardOf| == |plan.items| && |a.setup.shards| == |a.setup.endpointOf|
    ensures plan.groups == GroupsBelow(a.setup, plan.items, |a.setup.shards|)
  {
    hide Admitted, InShard, GroupsBelow, FirstIndex, Route, Topology.Canonical;
    forall k | 0 <= k < |plan.groups| ensures |plan.groups[k].items| > 0 && InShard(plan.items, plan.groups[k]) {
      GroupInShard(a, plan.items, plan.groups, k);
    }
  }

  /** What a plan says about each group. */
  lemma GroupFacts(a: Attempt, plan: Plan)
    requires Planned(a, plan)
    ensures plan.items != [] && |plan.firstOf| == |plan.items| == |plan.shardOf|
    ensures forall k :: 0 <= k < |plan.groups| ==> |plan.groups[k].items| > 0 && Within(plan.items, plan.groups[k])
    ensures forall k :: 0 <= k < |plan.groups| ==> InShard(plan.items, plan.groups[k])
  {
    hide ValidSetup, Admitted, GroupsBelow, FirstIndex, Route, Topology.KeyBits;
    forall k | 0 <= k < |plan.groups| ensures Within(plan.items, plan.groups[k]) {
      assert InShard(plan.items, plan.groups[k]);
    }
  }

  /** Every place of every group is filled. */
  ghost predicate Filled(groups: seq<Group>, replaced: seq<Option<InclusionProof>>) {
    forall k :: 0 <= k < |groups| ==> GroupFilled(groups[k], replaced)
  }

  ghost predicate GroupFilled(g: Group, replaced: seq<Option<InclusionProof>>) {
    forall j :: 0 <= j < |g.items| ==> g.items[j] < |replaced| && replaced[g.items[j]].Some?
  }

  lemma StillFilled(g: Group, before: seq<Option<InclusionProof>>, after: seq<Option<InclusionProof>>)
    requires GroupFilled(g, before) && |after| == |before|
    requires forall i :: 0 <= i < |before| && before[i].Some? ==> after[i].Some?
    ensures GroupFilled(g, after)
  {
  }

  /** Once every group is placed, the lookup of every input's first occurrence succeeds. */
  lemma LookupsSucceed(a: Attempt, plan: Plan, replaced: seq<Option<InclusionProof>>, i: nat)
    requires Planned(a, plan) && |replaced| == |plan.items| && i < |plan.items| && Filled(plan.groups, replaced)
    ensures |plan.firstOf| == |plan.items| && plan.firstOf[i] <= i && replaced[plan.firstOf[i]].Some?
    ensures plan.items[plan.firstOf[i]].stateId == plan.items[i].stateId
    ensures plan.items[plan.firstOf[i]].proof.certification == plan.items[i].proof.certification
    ensures plan.items[plan.firstOf[i]].proof.referenceTime == plan.items[i].proof.referenceTime
  {
    hide Topology.KeyBits, Topology.Canonical, Members, FirstIndex, GroupsBelow, Distinct, Route, InShard;
    FirstIsFirst(plan.items, i);
    assert Admits(a.setup, plan.items, i);
    var k, at := EveryStateGrouped(a.setup, plan.items, plan.groups, plan.firstOf, plan.shardOf, i);
    assert GroupFilled(plan.groups[k], replaced);
  }

  /** Every input gets the replacement of its first occurrence. */
  method Collect(plan: Plan, replaced: seq<Option<InclusionProof>>,
                 ghost a: Attempt, ghost C: Crypto, ghost tb: TrustBase, ghost seal: UnicitySeal)
    returns (proofs: seq<InclusionProof>)
    requires Planned(a, plan) && Sound(C, tb, plan.items, replaced, seal) && Filled(plan.groups, replaced)
    ensures AllReplaced(C, tb, plan.items, proofs, seal)
  {
    hide Planned, Proven, Filled;
    proofs := [];
    for i := 0 to |plan.items|
      invariant |proofs| == i
      invariant forall j :: 0 <= j < i ==> Replaces(C, tb, plan.items[j], proofs[j], seal)
    {
      LookupsSucceed(a, plan, replaced, i);
      proofs := proofs + [replaced[plan.firstOf[i]].value];
    }
  }

  // ---- results ----

  ghost predicate AllReplaced(C: Crypto, tb: TrustBase, items: seq<ProofItem>, proofs: seq<InclusionProof>,
                              seal: UnicitySeal) {
    |proofs| == |items| && forall i :: 0 <= i < |items| ==> Replaces(C, tb, items[i], proofs[i], seal)
  }

  ghost predicate NotNewer(items: seq<ProofItem>, round: nat) {
    forall i :: 0 <= i < |items| ==> items[i].proof.uc.seal.rootRound <= round
  }

  /** A fetched target: all proofs replaced, in the order of the inputs, under one accepted seal at least
      as new as any input's, for one request per participating shard. */
  ghost predicate Fetched(C: Crypto, tb: TrustBase, items: seq<ProofItem>, groups: seq<Group>,
                          proofs: seq<InclusionProof>,
                          s: Summary, seal: UnicitySeal)
  {
    && AllReplaced(C, tb, items, proofs, seal) && NotNewer(items, seal.rootRound)
    && SealVerdict(C.H, C.V, tb, seal) == Accepted
    && !s.alreadyShared && s.masterRound == Some(seal.rootRound) && s.sealsAfter == 1
    && s.shards == |groups| && s.requests == |groups|
  }

  lemma FetchedIntro(C: Crypto, tb: TrustBase, items: seq<ProofItem>, groups: seq<Group>, proofs: seq<InclusionProof>,
                     bound: nat, seal: UnicitySeal, derived: nat)
    requires items != [] && AllReplaced(C, tb, items, proofs, seal) && NotNewer(items, bound)
    requires bound <= seal.rootRound && SealVerdict(C.H, C.V, tb, seal) == Accepted
    ensures Fetched(C, tb, items, groups, proofs,
                    Summary(false, |groups|, |groups|, Some(seal.rootRound), DistinctSeals(proofs), derived), seal)
  {
    hide Proven, SealVerdict, DistinctSeals;
    SameSealOnce(proofs, seal);
  }

  // ---- evidence ----

  /** The evidence is of the configured partition, of the shard its state routes to, and matches the
      pins. */
  predicate InContext(a: Attempt, uc: UnicityCertificate, shard: nat) {
    && uc.unicityTree.partition == AGGREGATION_PARTITION_ID
    && shard < |a.setup.shards| && uc.shardTree.shard == a.setup.shards[shard]
    && (uc.shardTree.shard in a.pins.confHashes ==> a.pins.confHashes[uc.shardTree.shard] == uc.shardConfHash)
  }

  method EvidenceInContext(a: Attempt, items: seq<ProofItem>, shardOf: seq<nat>) returns (ok: bool)
    requires |shardOf| == |items|
    ensures ok <==> forall i :: 0 <= i < |items| ==> InContext(a, items[i].proof.uc, shardOf[i])
  {
    for i := 0 to |items|
      invariant forall j :: 0 <= j < i ==> InContext(a, items[j].proof.uc, shardOf[j])
    {
      if !InContext(a, items[i].proof.uc, shardOf[i]) {
        return false;
      }
    }
    return true;
  }

  /** The newest round among the inputs. */
  ghost function MaxRound(items: seq<ProofItem>): (r: nat) {
    if items == [] then 0
    else
      var rest, last := MaxRound(items[..|items| - 1]), items[|items| - 1].proof.uc.seal.rootRound;
      if last > rest then last else rest
  }

  lemma {:induction false} MaxRoundIs(items: seq<ProofItem>, round: nat)
    requires NotNewer(items, round)
    ensures MaxRound(items) <= round
    ensures (exists i :: 0 <= i < |items| && items[i].proof.uc.seal.rootRound == round) ==> MaxRound(items) == round
  {
    if items != [] {
      var init := items[..|items| - 1];
      MaxRoundIs(init, round);
      if i :| 0 <= i < |items| && items[i].proof.uc.seal.rootRound == round {
        if i < |init| {
          assert init[i].proof.uc.seal.rootRound == round;
        }
      }
    }
  }

  /** The newest round among the inputs and the shard of the first input that has it. */
  method NewestRound(items: seq<ProofItem>, shardOf: seq<nat>) returns (round: nat, shard: nat)
    requires items != [] && |shardOf| == |items|
    ensures NotNewer(items, round)
    ensures exists i :: 0 <= i < |items| && items[i].proof.uc.seal.rootRound == round && shard == shardOf[i]
                     && forall j :: 0 <= j < i ==> items[j].proof.uc.seal.rootRound < round
  {
    var best := 0;
    for i := 1 to |items|
      invariant 0 <= best < i
      invariant forall j :: 0 <= j < i ==> items[j].proof.uc.seal.rootRound <= items[best].proof.uc.seal.rootRound
      invariant forall j :: 0 <= j < best ==> items[j].proof.uc.seal.rootRound < items[best].proof.uc.seal.rootRound
    {
      if items[i].proof.uc.seal.rootRound > items[best].proof.uc.seal.rootRound {
        best := i;
      }
    }
    return items[best].proof.uc.seal.rootRound, shardOf[best];
  }

  // ---- honest services ----

  /** The view has the group's shard, and the service answers for the record the view holds of it. */
  ghost predicate HonestGroup(H: Hash, leaves: seq<ViewLeaf>, items: seq<ProofItem>, g: Group,
                              served: seq<InclusionProof>) {
    && g.shard in ShardIds(leaves)
    && forall l :: l in leaves && l.shard == g.shard ==> HonestBatch(H, items, g, served, l.inputRecord)
  }

  /** The view names `root` for the shard. */
  ghost predicate RootIn(leaves: seq<ViewLeaf>, shard: ShardId, root: Digest) {
    exists l :: l in leaves && l.shard == shard && l.inputRecord.hash == Some(root)
  }

  /** The view has the shard, with a certified 32-byte root. */
  ghost predicate HasRoot(leaves: seq<ViewLeaf>, shard: ShardId) {
    && shard in ShardIds(leaves)
    && forall l :: l in leaves && l.shard == shard ==> l.inputRecord.hash.Some? && |l.inputRecord.hash.value| == 32
  }

  /** The answer to a request for an exact root. */
  ghost predicate HonestPeer(H: Hash, leaves: seq<ViewLeaf>, items: seq<ProofItem>, g: Group, r: Response,
                             root: Digest) {
    && r.Served? && Within(items, g) && BatchOk(g, items, r.batch, Some(root))
    && HonestGroup(H, leaves, items, g, r.batch.proofs)
  }

  /** All services answer honestly for the records of the view. */
  ghost predicate HonestMove(H: Hash, a: Attempt, plan: Plan, mi: nat, served: seq<InclusionProof>,
                             leaves: seq<ViewLeaf>) {
    && mi < |plan.groups| && HonestGroup(H, leaves, plan.items, plan.groups[mi], served)
    && (forall k :: 0 <= k < |plan.groups| && k != mi ==> HasRoot(leaves, plan.groups[k].shard))
    && (forall k, root :: 0 <= k < |plan.groups| && k != mi && RootIn(leaves, plan.groups[k].shard, root) ==>
          HonestPeer(H, leaves, plan.items, plan.groups[k], a.exact(k, root), root))
  }

  /** A certificate derived for an honestly served group can carry the group's proofs. */
  lemma HonestGroupMoves(C: Crypto, tb: TrustBase, view: AuthenticatedView, labels: seq<Pending>, t: Full,
                         items: seq<ProofItem>, g: Group, served: seq<InclusionProof>, uc: UnicityCertificate)
    requires Authenticated(C.H, C.V, tb, view, labels, t) && AllProven(C, tb, items) && InShard(items, g)
    requires HonestGroup(C.H, view.leaves, items, g, served)
    requires exists l :: && l in view.leaves && l.shard == g.shard
                         && uc == DerivedFor(C.H, l, t, view.unicityTree, view.seal)
    ensures GroupMoves(C, tb, items, g, served, uc)
  {
    hide Authenticated, AllProven, InShard, HonestBatch, OrdinaryVerdict, StrictVerdict, GroupMoves;
    var l :| l in view.leaves && l.shard == g.shard && uc == DerivedFor(C.H, l, t, view.unicityTree, view.seal);
    var i :| 0 <= i < |view.leaves| && view.leaves[i] == l;
    DerivedAccepted(C.H, C.V, tb, view, labels, t, i);
    HonestBatchMoves(C, tb, items, g, served, uc);
  }

  // ---- placing groups under a view ----

  /** The state in which the proofs of a plan are moved: an open session, and proven evidence. */
  ghost predicate Open(C: Crypto, session: SealSession.SealSession, u: SealMemory.Universe, a: Attempt,
                       items: seq<ProofItem>)
    reads session, session.memo, session.bodies
  {
    && session.Valid(u) && TokenVerifier.Under(C, u) && a.policy in u.ordinary
    && AllProven(C, session.tb, items)
  }

  lemma OpenParts(C: Crypto, session: SealSession.SealSession, u: SealMemory.Universe, a: Attempt,
                  items: seq<ProofItem>)
    requires Open(C, session, u, a, items)
    ensures session.Valid(u) && C.H == session.H && C.V == session.V
  {
    hide SealMemory.Separated, SealMemory.GoodMemory, AllProven;
  }

  /** An authenticated view with its seal among those of the run. */
  ghost predicate Target(C: Crypto, tb: TrustBase, u: SealMemory.Universe, view: AuthenticatedView,
                         labels: seq<Pending>, t: Full) {
    view.seal in u.seals && Authenticated(C.H, C.V, tb, view, labels, t)
  }

  lemma DerivedSeals(H: Hash, view: AuthenticatedView, shard: ShardId, t: Full, uc: UnicityCertificate)
    requires exists l :: l in view.leaves && l.shard == shard && uc == DerivedFor(H, l, t, view.unicityTree, view.seal)
    ensures uc.seal == view.seal
  {
  }

  /** Derive the certificate of one group's shard and replace the group's proofs under it. */
  method PlaceGroup(C: Crypto, session: SealSession.SealSession, a: Attempt, items: seq<ProofItem>, g: Group,
                    served: seq<InclusionProof>, view: AuthenticatedView, replaced: seq<Option<InclusionProof>>,
                    ghost u: SealMemory.Universe, ghost labels: seq<Pending>, ghost t: Full)
    returns (ok: bool, out: seq<Option<InclusionProof>>)
    requires Open(C, session, u, a, items) && Target(C, session.tb, u, view, labels, t)
    requires |served| == |g.items| && InShard(items, g) && Sound(C, session.tb, items, replaced, view.seal)
    modifies session, session.memo, session.bodies
    ensures Open(C, session, u, a, items)
    ensures ok ==> Sound(C, session.tb, items, out, view.seal) && GroupFilled(g, out)
    ensures ok ==> forall i :: 0 <= i < |items| && replaced[i].Some? ==> out[i].Some?
    ensures HonestGroup(C.H, view.leaves, items, g, served) ==> ok
  {
    hide Authenticated, AllProven, GroupMoves, DerivedFor, Replaces, OrdinaryVerdict, Topology.KeyBits;
    hide SealMemory.Separated, SealMemory.GoodMemory, HonestGroup;
    OpenParts(C, session, u, a, items);
    var uc := CertificateOf(C.H, view, g.shard, C.V, session.tb, labels, t);
    if uc.None? {
      NotHonest(C.H, view.leaves, items, g, served);
      return false, replaced;
    }
    DerivedSeals(C.H, view, g.shard, t, uc.value);
    if HonestGroup(C.H, view.leaves, items, g, served) {
      HonestGroupMoves(C, session.tb, view, labels, t, items, g, served, uc.value);
    }
    ok, out := Place(C, session, items, g, served, uc.value, a.policy, replaced, u);
  }

  lemma NotHonest(H: Hash, leaves: seq<ViewLeaf>, items: seq<ProofItem>, g: Group, served: seq<InclusionProof>)
    requires g.shard !in ShardIds(leaves)
    ensures !HonestGroup(H, leaves, items, g, served)
  {
  }

  /** Some group is of a shard that the view does not have. */
  ghost predicate Unserved(leaves: seq<ViewLeaf>, groups: seq<Group>) {
    exists k: nat :: k < |groups| && groups[k].shard !in ShardIds(leaves)
  }

  /** Some group is of a shard that the pinned scheme does not have. */
  ghost predicate Unpinned(a: Attempt, groups: seq<Group>) {
    exists k: nat :: k < |groups| && if a.pins.scheme == [] then groups[k].shard != [] else groups[k].shard !in a.pins.scheme
  }

  /** Why moving groups under a view stops. */
  ghost predicate MoveReason(a: Attempt, leaves: seq<ViewLeaf>, groups: seq<Group>, stop: Stop) {
    Real(a, stop) || (stop == Configuration && Unserved(leaves, groups))
  }

  /** The exact root of every other participating shard, from the authenticated view. */
  method PeerJobs(view: AuthenticatedView, groups: seq<Group>, master: nat,
                  ghost H: Hash, ghost V: Verifier, ghost tb: TrustBase, ghost labels: seq<Pending>, ghost t: Full)
    returns (stop: Option<Stop>, jobs: seq<Job>)
    requires Authenticated(H, V, tb, view, labels, t) && master < |groups|
    ensures stop.None? ==> JobsFor(jobs, |groups|, master)
    ensures stop.Some? ==> stop == Some(Integrity) || (stop == Some(Configuration) && Unserved(view.leaves, groups))
    ensures stop.None? ==>
              forall j :: 0 <= j < |jobs| ==> RootIn(view.leaves, groups[jobs[j].group].shard, jobs[j].root)
    ensures (forall k :: 0 <= k < |groups| && k != master ==> HasRoot(view.leaves, groups[k].shard)) ==> stop.None?
  {
    hide Authenticated;
    jobs := [];
    for k := 0 to |groups|
      invariant JobsFor(jobs, k, master)
      invariant forall j :: 0 <= j < |jobs| ==>
                  jobs[j].group < |groups| && RootIn(view.leaves, groups[jobs[j].group].shard, jobs[j].root)
    {
      if k != master {
        var at := LeafOf(view, groups[k].shard, H, V, tb, labels, t);
        if at.None? {
          return Some(Configuration), jobs;
        }
        assert view.leaves[at.value] in view.leaves;
        var hash := view.leaves[at.value].inputRecord.hash;
        if hash.None? || |hash.value| != 32 {
          return Some(Integrity), jobs;
        }
        jobs := jobs + [Job(k, hash.value)];
      }
    }
    return None, jobs;
  }

  /** Every job was answered honestly. */
  ghost predicate HonestPeers(H: Hash, leaves: seq<ViewLeaf>, plan: Plan, jobs: seq<Job>, results: seq<Response>) {
    && |results| == |jobs|
    && forall j :: 0 <= j < |jobs| ==>
         && jobs[j].group < |plan.groups|
         && HonestPeer(H, leaves, plan.items, plan.groups[jobs[j].group], results[j], jobs[j].root)
  }

  /** The service of group `j` was asked for the very root the view names, and its answer is for that root. */
  ghost predicate PeerAsked(a: Attempt, items: seq<ProofItem>, leaves: seq<ViewLeaf>, groups: seq<Group>, j: nat)
    requires j < |groups|
  {
    exists root: Digest ::
      && RootIn(leaves, groups[j].shard, root) && a.exact(j, root).Served?
      && var batch := a.exact(j, root).batch;
         && batch.view.None? && AllBound(items, groups[j], batch.proofs)
         && (batch.proofs != [] ==> batch.proofs[0].uc.inputRecord.hash == Some(root))
  }

  ghost predicate PeersAsked(a: Attempt, items: seq<ProofItem>, leaves: seq<ViewLeaf>, groups: seq<Group>, master: nat) {
    forall j: nat :: j < |groups| && j != master ==> PeerAsked(a, items, leaves, groups, j)
  }

  /** One proof per state of the group, bound to the original, all under one certificate. */
  ghost predicate AllBound(items: seq<ProofItem>, g: Group, served: seq<InclusionProof>) {
    && |served| == |g.items|
    && forall k :: 0 <= k < |g.items| ==>
         g.items[k] < |items| && BoundTo(items[g.items[k]].proof, served[k]) && served[k].uc == served[0].uc
  }

  lemma BatchBound(g: Group, items: seq<ProofItem>, batch: Batch<PartitionView>, root: Option<Digest>)
    requires Within(items, g) && BatchOk(g, items, batch, root)
    ensures AllBound(items, g, batch.proofs)
  {
  }

  lemma PeersWereAsked(a: Attempt, leaves: seq<ViewLeaf>, plan: Plan, jobs: seq<Job>, results: seq<Response>, mi: nat)
    requires mi < |plan.groups| && JobsFor(jobs, |plan.groups|, mi) && |results| == |jobs|
    requires forall k :: 0 <= k < |plan.groups| ==> Within(plan.items, plan.groups[k])
    requires forall j :: 0 <= j < |jobs| ==>
               && jobs[j].group < |plan.groups| && RootIn(leaves, plan.groups[jobs[j].group].shard, jobs[j].root)
               && results[j].Served? && results[j] == a.exact(jobs[j].group, jobs[j].root)
               && BatchOk(plan.groups[jobs[j].group], plan.items, results[j].batch, Some(jobs[j].root))
    ensures PeersAsked(a, plan.items, leaves, plan.groups, mi)
  {
    hide Others, RootIn;
    forall k: nat | k < |plan.groups| && k != mi ensures PeerAsked(a, plan.items, leaves, plan.groups, k) {
      var j := OthersAll(|plan.groups|, mi, k);
      assert jobs[j].group == k;
    }
  }

  /** Check and place the batches of the other shards, in the order of the jobs. */
  method PlacePeers(C: Crypto, session: SealSession.SealSession, a: Attempt, plan: Plan, jobs: seq<Job>,
                    results: seq<Response>, view: AuthenticatedView, replaced: seq<Option<InclusionProof>>,
                    ghost u: SealMemory.Universe, ghost labels: seq<Pending>, ghost t: Full)
    returns (stop: Option<Stop>, out: seq<Option<InclusionProof>>)
    requires Open(C, session, u, a, plan.items) && Target(C, session.tb, u, view, labels, t) && Planned(a, plan)
    requires |results| == |jobs| && forall j :: 0 <= j < |jobs| ==> jobs[j].group < |plan.groups| && results[j].Served?
    requires Sound(C, session.tb, plan.items, replaced, view.seal)
    modifies session, session.memo, session.bodies
    ensures Open(C, session, u, a, plan.items)
    ensures stop.None? ==> Sound(C, session.tb, plan.items, out, view.seal)
    ensures stop.None? ==> forall i :: 0 <= i < |plan.items| && replaced[i].Some? ==> out[i].Some?
    ensures forall k :: 0 <= k < |plan.groups| ==> Within(plan.items, plan.groups[k])
    ensures stop.None? ==> forall j :: 0 <= j < |jobs| ==>
                             BatchOk(plan.groups[jobs[j].group], plan.items, results[j].batch, Some(jobs[j].root))
    ensures stop.None? ==> forall j :: 0 <= j < |jobs| ==> GroupFilled(plan.groups[jobs[j].group], out)
    ensures HonestPeers(C.H, view.leaves, plan, jobs, results) ==> stop.None?
    ensures stop.Some? ==> stop == Some(Integrity) || stop == Some(InvalidResponse)
  {
    hide Open, Target, Planned, Replaces, BatchOk, HonestGroup, InShard, GroupFilled;
    GroupFacts(a, plan);
    out := replaced;
    for i := 0 to |jobs|
      invariant Open(C, session, u, a, plan.items) && Sound(C, session.tb, plan.items, out, view.seal)
      invariant forall j :: 0 <= j < |plan.items| && replaced[j].Some? ==> out[j].Some?
      invariant forall j :: 0 <= j < i ==> GroupFilled(plan.groups[jobs[j].group], out)
      invariant forall j :: 0 <= j < i ==>
                  BatchOk(plan.groups[jobs[j].group], plan.items, results[j].batch, Some(jobs[j].root))
    {
      var g, batch := plan.groups[jobs[i].group], results[i].batch;
      stop := CheckBatch(g, plan.items, batch, Some(jobs[i].root));
      if stop.Some? {
        return;
      }
      BatchSize(g, plan.items, batch, Some(jobs[i].root));
      ghost var before := out;
      var ok;
      ok, out := PlaceGroup(C, session, a, plan.items, g, batch.proofs, view, out, u, labels, t);
      if !ok {
        return Some(Integrity), out;
      }
      forall j | 0 <= j < i ensures GroupFilled(plan.groups[jobs[j].group], out) {
        StillFilled(plan.groups[jobs[j].group], before, out);
      }
    }
    stop := None;
  }

  lemma AllFilled(groups: seq<Group>, jobs: seq<Job>, master: nat, out: seq<Option<InclusionProof>>)
    requires master < |groups| && JobsFor(jobs, |groups|, master) && GroupFilled(groups[master], out)
    requires forall j :: 0 <= j < |jobs| ==> jobs[j].group < |groups| && GroupFilled(groups[jobs[j].group], out)
    ensures Filled(groups, out)
  {
    hide Others, GroupFilled;
    forall k | 0 <= k < |groups| ensures GroupFilled(groups[k], out) {
      if k != master {
        var i := OthersAll(|groups|, master, k);
        assert jobs[i].group == k;
      }
    }
  }

  lemma HonestJobs(H: Hash, a: Attempt, plan: Plan, mi: nat, served: seq<InclusionProof>, leaves: seq<ViewLeaf>,
                   jobs: seq<Job>)
    requires mi < |plan.groups| && JobsFor(jobs, |plan.groups|, mi)
    requires forall j :: 0 <= j < |jobs| ==> RootIn(leaves, plan.groups[jobs[j].group].shard, jobs[j].root)
    ensures HonestMove(H, a, plan, mi, served, leaves) ==>
              forall j :: 0 <= j < |jobs| ==>
                HonestPeer(H, leaves, plan.items, plan.groups[jobs[j].group], a.exact(jobs[j].group, jobs[j].root),
                           jobs[j].root)
  {
    hide Others, HonestPeer, HonestGroup, RootIn;
  }

  lemma HonestParts(H: Hash, a: Attempt, plan: Plan, mi: nat, served: seq<InclusionProof>, leaves: seq<ViewLeaf>)
    requires mi < |plan.groups|
    ensures HonestMove(H, a, plan, mi, served, leaves) ==>
              && HonestGroup(H, leaves, plan.items, plan.groups[mi], served)
              && forall k :: 0 <= k < |plan.groups| && k != mi ==> HasRoot(leaves, plan.groups[k].shard)
  {
  }

  lemma PeerServed(H: Hash, leaves: seq<ViewLeaf>, items: seq<ProofItem>, g: Group, r: Response, root: Digest)
    ensures HonestPeer(H, leaves, items, g, r, root) ==> r.Served?
  {
  }

  lemma JobGroups(jobs: seq<Job>, n: nat, master: nat)
    requires JobsFor(jobs, n, master)
    ensures forall j :: 0 <= j < |jobs| ==> jobs[j].group < n
    ensures |jobs| == if master < n then n - 1 else n
  {
  }

  /** Fetch the other shards' batches at the exact roots and place them. */
  method MovePeers(C: Crypto, session: SealSession.SealSession, a: Attempt, plan: Plan, mi: nat,
                   view: AuthenticatedView,
                   placed: seq<Option<InclusionProof>>, start: nat, count: nat,
                   ghost served: seq<InclusionProof>, ghost u: SealMemory.Universe, ghost labels: seq<Pending>,
                   ghost t: Full)
    returns (stop: Option<Stop>, out: seq<Option<InclusionProof>>, tick: nat, requests: nat)
    requires Open(C, session, u, a, plan.items) && Target(C, session.tb, u, view, labels, t) && Planned(a, plan)
    requires mi < |plan.groups| && count == 1
    requires Sound(C, session.tb, plan.items, placed, view.seal) && GroupFilled(plan.groups[mi], placed)
    modifies session, session.memo, session.bodies
    ensures Open(C, session, u, a, plan.items)
    ensures stop.None? ==> requests == |plan.groups|
    ensures stop.Some? ==> MoveReason(a, view.leaves, plan.groups, stop.value)
    ensures stop.None? ==> PeersAsked(a, plan.items, view.leaves, plan.groups, mi)
    ensures stop.None? ==> tick == start + 2 * (|plan.groups| - 1) && Alive(a.live, start, tick + 1)
    ensures stop.None? ==> Sound(C, session.tb, plan.items, out, view.seal) && Filled(plan.groups, out)
    ensures Uncancelled(a) && HonestMove(C.H, a, plan, mi, served, view.leaves) ==> stop.None?
  {
    hide Open, Planned, Replaces, Authenticated, Others, HonestGroup, HonestPeer, HasRoot, RootIn, HonestMove, JobsFor;
    hide GroupFilled, Filled;
    HonestParts(C.H, a, plan, mi, served, view.leaves);
    out, tick, requests := placed, start, count;
    var jobs;
    stop, jobs := PeerJobs(view, plan.groups, mi, C.H, C.V, session.tb, labels, t);
    if stop.Some? {
      return;
    }
    JobGroups(jobs, |plan.groups|, mi);
    HonestJobs(C.H, a, plan, mi, served, view.leaves, jobs);
    forall j | 0 <= j < |jobs|
      ensures HonestPeer(C.H, view.leaves, plan.items, plan.groups[jobs[j].group],
                         a.exact(jobs[j].group, jobs[j].root), jobs[j].root)
          ==> a.exact(jobs[j].group, jobs[j].root).Served?
    {
      PeerServed(C.H, view.leaves, plan.items, plan.groups[jobs[j].group], a.exact(jobs[j].group, jobs[j].root),
                 jobs[j].root);
    }
    var results;
    results, tick, requests := FetchAll(a, jobs, start, requests);
    stop := FirstStop(results);
    if stop.Some? {
      WaveReason(a, results, stop.value, tick);
      return Some(if a.live(tick) then stop.value else Cancelled), out, tick, requests;
    }
    if !a.live(tick) {
      DeadIsReal(a, tick);
      return Some(Cancelled), out, tick, requests;
    }
    stop, out := PlacePeers(C, session, a, plan, jobs, results, view, placed, u, labels, t);
    if stop.None? {
      StillFilled(plan.groups[mi], placed, out);
      AllFilled(plan.groups, jobs, mi, out);
      PeersWereAsked(a, view.leaves, plan, jobs, results, mi);
    }
  }

  lemma DeadIsReal(a: Attempt, tick: nat)
    ensures !a.live(tick) ==> Real(a, Cancelled)
  {
  }

  /** What a failed wave reports is what ended it. */
  lemma WaveReason(a: Attempt, results: seq<Response>, stop: Stop, tick: nat)
    requires AbortedAfter(results) && exists j: nat :: Reported(results, j) && results[j] == Failed(stop)
    requires !AllServed(results) ==> exists k: nat :: Origin(results, k) && Real(a, results[k].stop)
    ensures Real(a, stop) && (!a.live(tick) ==> Real(a, Cancelled))
  {
    hide Real, AbortedAfter;
    DeadIsReal(a, tick);
    var j: nat :| Reported(results, j) && results[j] == Failed(stop);
    assert !results[j].Served?;
    var k: nat :| Origin(results, k) && Real(a, results[k].stop);
    OriginReported(results, j, k);
  }

  /** Move every group under the authenticated view: the master's first, then the peers'. */
  method MoveAll(C: Crypto, session: SealSession.SealSession, a: Attempt, plan: Plan, mi: nat,
                 served: seq<InclusionProof>,
                 view: AuthenticatedView, start: nat, count: nat,
                 ghost u: SealMemory.Universe, ghost labels: seq<Pending>, ghost t: Full)
    returns (stop: Option<Stop>, proofs: seq<InclusionProof>, requests: nat)
    requires Open(C, session, u, a, plan.items) && Target(C, session.tb, u, view, labels, t) && Planned(a, plan)
    requires mi < |plan.groups| && |served| == |plan.groups[mi].items| && count == 1
    modifies session, session.memo, session.bodies
    ensures Open(C, session, u, a, plan.items)
    ensures stop.None? ==> requests == |plan.groups| && AllReplaced(C, session.tb, plan.items, proofs, view.seal)
    ensures stop.Some? ==> MoveReason(a, view.leaves, plan.groups, stop.value)
    ensures stop.None? ==> PeersAsked(a, plan.items, view.leaves, plan.groups, mi)
    ensures stop.None? ==> Alive(a.live, start, start + 2 * |plan.groups|)
    ensures Uncancelled(a) && HonestMove(C.H, a, plan, mi, served, view.leaves) ==> stop.None?
  {
    hide Open, Target, Planned, Replaces, HonestGroup, HasRoot, HonestMove, GroupFilled, Filled, InShard, AllReplaced;
    HonestParts(C.H, a, plan, mi, served, view.leaves);
    GroupFacts(a, plan);
    proofs, requests := [], count;
    var replaced: seq<Option<InclusionProof>> := seq(|plan.items|, _ => None);
    var ok, tick;
    ok, replaced := PlaceGroup(C, session, a, plan.items, plan.groups[mi], served, view, replaced, u, labels, t);
    if !ok {
      return Some(Integrity), proofs, requests;
    }
    stop, replaced, tick, requests := MovePeers(C, session, a, plan, mi, view, replaced, start, count, served, u,
                                                labels, t);
    if stop.Some? {
      return;
    }
    proofs := Collect(plan, replaced, a, C, session.tb, view.seal);
    DeadIsReal(a, tick + 1);
    stop := if a.live(tick + 1) then None else Some(Cancelled);
  }

  // ---- a sharded target ----

  /** The master's batch: bound to its request, with its seal among those of the run. */
  ghost predicate Fresh(u: SealMemory.Universe, plan: Plan, mi: nat, batch: Batch<PartitionView>) {
    && mi < |plan.groups| && Within(plan.items, plan.groups[mi]) && |plan.groups[mi].items| > 0
    && BatchOk(plan.groups[mi], plan.items, batch, None) && SealsIn(u, batch.proofs)
  }

  lemma FreshParts(u: SealMemory.Universe, plan: Plan, mi: nat, batch: Batch<PartitionView>)
    requires Fresh(u, plan, mi, batch)
    ensures mi < |plan.groups| && |batch.proofs| == |plan.groups[mi].items| > 0 && batch.proofs[0].uc.seal in u.seals
  {
  }

  /** The view is well formed, commits to the seal of the batch, the seal is accepted and new enough, and
      all services answer for the records of the view. */
  ghost predicate HonestView(C: Crypto, tb: TrustBase, a: Attempt, plan: Plan, mi: nat, batch: Batch<PartitionView>,
                             candidate: PartitionView, bound: nat)
  {
    && batch.proofs != [] && StructureOk(candidate, Some(a.pins)) && bound <= batch.proofs[0].uc.seal.rootRound
    && SealVerdict(C.H, C.V, tb, batch.proofs[0].uc.seal) == Accepted
    && (exists t :: Commits(C.H, candidate, batch.proofs[0].uc, t))
    && HonestMove(C.H, a, plan, mi, batch.proofs, candidate.leaves)
  }

  lemma AuthenticatedSeal(H: Hash, V: Verifier, tb: TrustBase, view: AuthenticatedView, labels: seq<Pending>, t: Full)
    requires Authenticated(H, V, tb, view, labels, t)
    ensures SealVerdict(H, V, tb, view.seal) == Accepted
  {
  }

  /** An authenticated view has the shards of the pinned scheme. */
  lemma PinnedView(a: Attempt, view: PartitionView, groups: seq<Group>)
    requires StructureOk(view, Some(a.pins))
    ensures Unserved(view.leaves, groups) ==> Unpinned(a, groups)
  {
    hide CheckBounds, ConfigurationsMatch, Topology.Admissible;
    var ids := ShardIds(view.leaves);
    assert a.pins.scheme == [] ==> ids == [[]] && ids[0] in ids;
    if k: nat :| k < |groups| && groups[k].shard !in ids {
      assert a.pins.scheme != [] ==> multiset(ids) == multiset(a.pins.scheme);
      assert groups[k].shard !in multiset(ids);
    }
  }

  /** Authenticate the master's view, then move everything under it. */
  method RunView(C: Crypto, session: SealSession.SealSession, a: Attempt, plan: Plan, mi: nat,
                 batch: Batch<PartitionView>,
                 candidate: PartitionView, bound: nat, tick: nat, count: nat, ghost u: SealMemory.Universe)
    returns (o: Outcome, ghost seal: UnicitySeal)
    requires Open(C, session, u, a, plan.items) && Planned(a, plan) && Fresh(u, plan, mi, batch) && count == 1
    requires NotNewer(plan.items, bound)
    modifies session, session.memo, session.bodies
    ensures Open(C, session, u, a, plan.items)
    ensures o.Consolidated? ==> Fetched(C, session.tb, plan.items, plan.groups, o.proofs, o.summary,
                                        seal) && seal in u.seals
    ensures o.Consolidated? ==> && batch.proofs != [] && seal == batch.proofs[0].uc.seal
                                && o.summary.certificatesDerived == o.summary.requests == |plan.groups|
                                && PeersAsked(a, plan.items, candidate.leaves, plan.groups, mi)
                                && !o.summary.alreadyShared
                                && Alive(a.live, tick, tick + 1 + 2 * |plan.groups|)
    ensures o.Stopped? ==> Real(a, o.stop) || (o.stop == Configuration && Unpinned(a, plan.groups))
    ensures Uncancelled(a) && HonestView(C, session.tb, a, plan, mi, batch, candidate, bound) ==> o.Consolidated?
  {
    hide Planned, Fresh, AllReplaced, SealVerdict, Authenticated, StructureOk, Commits, Fetched, DistinctSeals;
    hide HonestMove;
    hide SealMemory.Separated, SealMemory.GoodMemory, AllProven, NotNewer;
    OpenParts(C, session, u, a, plan.items);
    FreshParts(u, plan, mi, batch);
    var enclosing := batch.proofs[0].uc;
    seal := enclosing.seal;
    var authenticated, e;
    ghost var labels, t;
    authenticated, e, labels, t := Authenticate(session, candidate, enclosing, Some(a.pins), u);
    if authenticated.None? {
      return Stopped(Integrity), seal;
    }
    var view := authenticated.value;
    PinnedView(a, candidate, plan.groups);
    DeadIsReal(a, tick);
    AuthenticatedSeal(C.H, C.V, session.tb, view, labels, t);
    if view.seal.rootRound < bound {
      return Stopped(Unavailable), seal;
    }
    if !a.live(tick) {
      return Stopped(Cancelled), seal;
    }
    hide Open;
    var stop, proofs, requests := MoveAll(C, session, a, plan, mi, batch.proofs, view, tick + 1, count, u, labels, t);
    if stop.Some? {
      return Stopped(stop.value), seal;
    }
    GroupFacts(a, plan);
    FetchedIntro(C, session.tb, plan.items, plan.groups, proofs, bound, seal, |plan.groups|);
    var s := Summary(false, |plan.groups|, requests, Some(view.seal.rootRound), DistinctSeals(proofs), |plan.groups|);
    return Consolidated(proofs, s), seal;
  }

  // ---- an unsharded target ----

  /** The unsharded partition needs no view: the batch's own certificate is the target. */
  ghost predicate DirectTarget(H: Hash, V: Verifier, tb: TrustBase, pins: Pins, uc: UnicityCertificate) {
    && uc.shardTree.shard == [] && uc.shardTree.siblings == []
    && uc.unicityTree.partition == AGGREGATION_PARTITION_ID
    && ([] in pins.confHashes ==> pins.confHashes[[]] == uc.shardConfHash)
    && ComputedSealHash(H, uc) == Some(uc.seal.hash)
    && SealVerdict(H, V, tb, uc.seal) == Accepted
  }

  method AuthenticateDirect(session: SealSession.SealSession, pins: Pins, uc: UnicityCertificate,
                            ghost u: SealMemory.Universe)
    returns (ok: bool)
    requires session.Valid(u) && uc.seal in u.seals
    modifies session, session.memo, session.bodies
    ensures session.Valid(u)
    ensures ok <==> DirectTarget(session.H, session.V, session.tb, pins, uc)
  {
    hide SealVerdict, ComputedSealHash, SealMemory.Separated, SealMemory.GoodMemory;
    if uc.shardTree.shard != [] || uc.shardTree.siblings != [] || uc.unicityTree.partition != AGGREGATION_PARTITION_ID {
      return false;
    }
    if [] in pins.confHashes && pins.confHashes[[]] != uc.shardConfHash {
      return false;
    }
    if ComputedSealHash(session.H, uc) != Some(uc.seal.hash) {
      return false;
    }
    var v := session.AuthenticateSeal(uc.seal, u);
    return v.Accepted?;
  }

  /** The configuration is unsharded, and the service's own certificate is well formed, commits to its
      accepted and new enough seal, and is what the service answers for. */
  ghost predicate HonestDirect(C: Crypto, tb: TrustBase, a: Attempt, plan: Plan, mi: nat, batch: Batch<PartitionView>,
                               bound: nat) {
    && |a.setup.shards| == 1 && |plan.groups| == 1 && mi == 0 && plan.groups[0].shard == [] && batch.proofs != []
    && var uc := batch.proofs[0].uc;
       && DirectTarget(C.H, C.V, tb, a.pins, uc) && CheckBody(uc) && bound <= uc.seal.rootRound
       && HonestBatch(C.H, plan.items, plan.groups[0], batch.proofs, uc.inputRecord)
  }

  /** A well-formed direct target passes the ordinary check. */
  lemma DirectAccepted(H: Hash, V: Verifier, tb: TrustBase, pins: Pins, uc: UnicityCertificate)
    requires DirectTarget(H, V, tb, pins, uc) && CheckBody(uc)
    ensures OrdinaryVerdict(H, V, tb, uc) == Accepted
  {
    hide ComputedSealHash, CheckBody, SealShape, ValidTrustBase, SealQuorum;
  }

  lemma HonestDirectMoves(C: Crypto, tb: TrustBase, a: Attempt, plan: Plan, mi: nat, batch: Batch<PartitionView>,
                          bound: nat)
    requires HonestDirect(C, tb, a, plan, mi, batch, bound) && AllProven(C, tb, plan.items)
    requires InShard(plan.items, plan.groups[0])
    ensures GroupMoves(C, tb, plan.items, plan.groups[0], batch.proofs, batch.proofs[0].uc)
  {
    hide AllProven, InShard, HonestBatch, OrdinaryVerdict, SealVerdict, ComputedSealHash, GroupMoves, CheckBody;
    DirectAccepted(C.H, C.V, tb, a.pins, batch.proofs[0].uc);
    HonestBatchMoves(C, tb, plan.items, plan.groups[0], batch.proofs, batch.proofs[0].uc);
  }

  lemma DirectSeal(H: Hash, V: Verifier, tb: TrustBase, pins: Pins, uc: UnicityCertificate)
    requires DirectTarget(H, V, tb, pins, uc)
    ensures SealVerdict(H, V, tb, uc.seal) == Accepted
  {
  }

  /** Move the only group under the batch's own certificate. */
  method MoveDirect(C: Crypto, session: SealSession.SealSession, a: Attempt, plan: Plan, served: seq<InclusionProof>,
                    uc: UnicityCertificate, ghost u: SealMemory.Universe)
    returns (ok: bool, proofs: seq<InclusionProof>)
    requires Open(C, session, u, a, plan.items) && Planned(a, plan) && uc.seal in u.seals
    requires |plan.groups| == 1 && |served| == |plan.groups[0].items|
    modifies session, session.memo, session.bodies
    ensures Open(C, session, u, a, plan.items)
    ensures ok ==> AllReplaced(C, session.tb, plan.items, proofs, uc.seal)
    ensures GroupMoves(C, session.tb, plan.items, plan.groups[0], served, uc) ==> ok
  {
    hide Planned, AllReplaced, Replaces, GroupMoves, SealMemory.Separated, SealMemory.GoodMemory, AllProven, Filled;
    hide GroupFilled;
    OpenParts(C, session, u, a, plan.items);
    GroupFacts(a, plan);
    proofs := [];
    var replaced: seq<Option<InclusionProof>> := seq(|plan.items|, _ => None);
    ok, replaced := Place(C, session, plan.items, plan.groups[0], served, uc, a.policy, replaced, u);
    if ok {
      OnlyGroup(plan.groups, plan.items, replaced);
      proofs := Collect(plan, replaced, a, C, session.tb, uc.seal);
    }
  }

  /** The master's own certificate, for one request. */
  method RunDirect(C: Crypto, session: SealSession.SealSession, a: Attempt, plan: Plan, mi: nat,
                   batch: Batch<PartitionView>,
                   bound: nat, tick: nat, requests: nat, ghost u: SealMemory.Universe)
    returns (o: Outcome, ghost seal: UnicitySeal)
    requires Open(C, session, u, a, plan.items) && Planned(a, plan) && Fresh(u, plan, mi, batch) && requests == 1
    requires NotNewer(plan.items, bound)
    modifies session, session.memo, session.bodies
    ensures Open(C, session, u, a, plan.items)
    ensures o.Consolidated? ==> Fetched(C, session.tb, plan.items, plan.groups, o.proofs, o.summary,
                                        seal) && seal in u.seals
    ensures o.Consolidated? ==> && batch.proofs != [] && seal == batch.proofs[0].uc.seal
                                && o.summary.certificatesDerived == 0 && o.summary.requests == |plan.groups| == 1
                                && !o.summary.alreadyShared
                                && Alive(a.live, tick, tick + 2)
    ensures o.Stopped? ==> Real(a, o.stop)
    ensures Uncancelled(a) && HonestDirect(C, session.tb, a, plan, mi, batch, bound) ==> o.Consolidated?
  {
    hide Planned, Fresh, AllReplaced, Replaces, SealVerdict, ComputedSealHash, Fetched, DistinctSeals, GroupMoves;
    hide CheckBody;
    hide SealMemory.Separated, SealMemory.GoodMemory, AllProven, NotNewer, InShard, HonestBatch, Filled, GroupFilled;
    hide Said, Interrupted, DirectTarget;
    OpenParts(C, session, u, a, plan.items);
    FreshParts(u, plan, mi, batch);
    GroupFacts(a, plan);
    var mg, uc := plan.groups[mi], batch.proofs[0].uc;
    seal := uc.seal;
    if |a.setup.shards| != 1 || |mg.shard| != 0 || |plan.groups| != 1 {
      return Stopped(Integrity), seal;
    }
    DeadIsReal(a, tick);
    DeadIsReal(a, tick + 1);
    if HonestDirect(C, session.tb, a, plan, mi, batch, bound) {
      HonestDirectMoves(C, session.tb, a, plan, mi, batch, bound);
    }
    var ok := AuthenticateDirect(session, a.pins, uc, u);
    if !ok {
      return Stopped(Integrity), seal;
    }
    DirectSeal(C.H, C.V, session.tb, a.pins, uc);
    if uc.seal.rootRound < bound {
      return Stopped(Unavailable), seal;
    }
    if !a.live(tick) {
      return Stopped(Cancelled), seal;
    }
    var proofs;
    ok, proofs := MoveDirect(C, session, a, plan, batch.proofs, uc, u);
    if !ok {
      return Stopped(Integrity), seal;
    }
    if !a.live(tick + 1) {
      return Stopped(Cancelled), seal;
    }
    FetchedIntro(C, session.tb, plan.items, plan.groups, proofs, bound, seal, 0);
    return Consolidated(proofs, Summary(false, |plan.groups|, requests, Some(uc.seal.rootRound), DistinctSeals(proofs),
                                        0)), seal;
  }

  lemma OnlyGroup(groups: seq<Group>, items: seq<ProofItem>, replaced: seq<Option<InclusionProof>>)
    requires |groups| == 1 && |replaced| == |items| && Within(items, groups[0])
    requires forall k :: 0 <= k < |groups[0].items| ==> replaced[groups[0].items[k]].Some?
    ensures Filled(groups, replaced)
  {
  }

  // ---- the attempt ----

  /** The inputs already share a seal that is acceptable as a target, and are returned as they are. */
  ghost predicate Shared(C: Crypto, tb: TrustBase, items: seq<ProofItem>, proofs: seq<InclusionProof>, s: Summary) {
    && proofs == Proofs(items) && AllProven(C, tb, items)
    && s.alreadyShared && s.requests == 0 && s.sealsAfter == 1
    && (forall p, q :: p in proofs && q in proofs ==> SealCode(p) == SealCode(q))
    && items != [] && SealVerdict(C.H, C.V, tb, items[0].proof.uc.seal) == Accepted
  }

  /** The `i`-th input is the first one of the newest round. */
  ghost predicate FirstNewest(items: seq<ProofItem>, i: nat) {
    && i < |items| && NotNewer(items, items[i].proof.uc.seal.rootRound)
    && forall j :: 0 <= j < i ==> items[j].proof.uc.seal.rootRound < items[i].proof.uc.seal.rootRound
  }

  /** The shard whose service decides: the configured master, or else the one that the first input of the
      newest round routes to. */
  ghost predicate Decides(a: Attempt, items: seq<ProofItem>, shard: ShardId) {
    match a.master
    case Some(master) => shard == master
    case None => exists i: nat :: FirstNewest(items, i) && RoutedTo(a.setup, items[i].stateId, shard)
  }

  ghost predicate RoutedTo(setup: Setup, id: Digest, shard: ShardId) {
    Route(setup.shards, id) < |setup.shards| && shard == setup.shards[Route(setup.shards, id)]
  }

  lemma OneDecides(a: Attempt, items: seq<ProofItem>, s: ShardId, t: ShardId)
    requires Decides(a, items, s) && Decides(a, items, t)
    ensures s == t
  {
    hide Route;
    if a.master.None? {
      var i: nat :| FirstNewest(items, i) && RoutedTo(a.setup, items[i].stateId, s);
      var j: nat :| FirstNewest(items, j) && RoutedTo(a.setup, items[j].stateId, t);
      assert i == j;
    }
  }

  /** The target seal is the one that the deciding service's latest batch carries.  If that batch came with a
      view, a certificate is derived for every group, and every other service was asked for the root that
      the view names. */
  ghost predicate ServedBy(a: Attempt, items: seq<ProofItem>, groups: seq<Group>, s: Summary, seal: UnicitySeal) {
    exists k: nat ::
      && k < |groups| && Decides(a, items, groups[k].shard)
      && a.latest(k).Served? && AllBound(items, groups[k], a.latest(k).batch.proofs)
      && a.latest(k).batch.proofs != [] && seal == a.latest(k).batch.proofs[0].uc.seal
      && s.certificatesDerived == (if a.latest(k).batch.view.Some? then |groups| else 0)
      && (a.latest(k).batch.view.Some? ==> PeersAsked(a, items, a.latest(k).batch.view.value.leaves, groups, k))
  }

  /** How many checkpoints a successful attempt passes after the inputs are admitted. */
  function Passed(s: Summary): (n: nat)
    ensures n >= 2
  {
    if s.alreadyShared then 2 else 2 * s.requests + if s.certificatesDerived == 0 then 4 else 5
  }

  /** What success means. */
  ghost predicate Succeeded(C: Crypto, tb: TrustBase, a: Attempt, items: seq<ProofItem>, o: Outcome,
                            seal: UnicitySeal) {
    && o.Consolidated? && ValidSetup(a.setup)
    && (Shared(C, tb, items, o.proofs, o.summary)
        || (&& Fetched(C, tb, items, GroupsBelow(a.setup, items, |a.setup.shards|), o.proofs, o.summary, seal)
            && ServedBy(a, items, GroupsBelow(a.setup, items, |a.setup.shards|), o.summary, seal)))
    && o.summary.shards == |GroupsBelow(a.setup, items, |a.setup.shards|)|
    && Alive(a.live, 0, Checkpoints(|items|) + Passed(o.summary))
  }

  /** The services' latest answers and the inputs are among the seals of the run. */
  ghost predicate Presented(u: SealMemory.Universe, a: Attempt, items: seq<ProofItem>) {
    SealsIn(u, Proofs(items)) && forall k :: a.latest(k).Served? ==> SealsIn(u, a.latest(k).batch.proofs)
  }

  method FindMaster(groups: seq<Group>, shard: ShardId) returns (r: Option<nat>)
    ensures r.Some? ==> r.value < |groups| && groups[r.value].shard == shard
    ensures r.None? ==> forall k :: 0 <= k < |groups| ==> groups[k].shard != shard
  {
    for k := 0 to |groups|
      invariant forall j :: 0 <= j < k ==> groups[j].shard != shard
    {
      if groups[k].shard == shard {
        return Some(k);
      }
    }
    return None;
  }

  /** The service of group `k`, asked for its latest batch, leads to a target no older than `bound`. */
  ghost predicate HonestMaster(C: Crypto, tb: TrustBase, a: Attempt, plan: Plan, k: nat, bound: nat) {
    && k < |plan.groups| && Within(plan.items, plan.groups[k]) && a.latest(k).Served?
    && var batch := a.latest(k).batch;
       && BatchOk(plan.groups[k], plan.items, batch, None) && batch.proofs != []
       && if batch.view.None? then HonestDirect(C, tb, a, plan, k, batch, bound)
          else HonestView(C, tb, a, plan, k, batch, batch.view.value, bound)
  }

  /** Fetch the master's latest batch and continue with or without a view. */
  method RunTarget(C: Crypto, session: SealSession.SealSession, a: Attempt, plan: Plan, mi: nat, bound: nat, start: nat,
                   ghost u: SealMemory.Universe)
    returns (o: Outcome, ghost seal: UnicitySeal)
    requires Open(C, session, u, a, plan.items) && Planned(a, plan) && Presented(u, a, plan.items) && mi < |plan.groups|
    requires NotNewer(plan.items, bound)
    modifies session, session.memo, session.bodies
    ensures Open(C, session, u, a, plan.items)
    ensures o.Consolidated? ==> Fetched(C, session.tb, plan.items, plan.groups, o.proofs, o.summary,
                                        seal) && seal in u.seals
    ensures o.Consolidated? ==> && a.latest(mi).Served? && a.latest(mi).batch.proofs != []
                                && AllBound(plan.items, plan.groups[mi], a.latest(mi).batch.proofs)
                                && seal == a.latest(mi).batch.proofs[0].uc.seal
                                && o.summary.certificatesDerived
                                   == (if a.latest(mi).batch.view.Some? then |plan.groups| else 0)
                                && (a.latest(mi).batch.view.Some? ==>
                                      PeersAsked(a, plan.items, a.latest(mi).batch.view.value.leaves, plan.groups, mi))
    ensures o.Consolidated? ==> Alive(a.live, start, start + Passed(o.summary) - 2)
    ensures o.Stopped? ==> Real(a, o.stop) || (o.stop == Configuration && Unpinned(a, plan.groups))
    ensures Uncancelled(a) && HonestMaster(C, session.tb, a, plan, mi, bound) ==> o.Consolidated?
  {
    hide Open, Planned, Fetched, BatchOk, AllBound, PeersAsked, HonestDirect, HonestView, NotNewer, InShard;
    GroupFacts(a, plan);
    seal := plan.items[0].proof.uc.seal;
    var r, tick, requests := Fetch(a.live, a.latest(mi), start, 0);
    if r.Failed? {
      DeadIsReal(a, start);
      DeadIsReal(a, start + 1);
      return Stopped(r.stop), seal;
    }
    var batch := r.batch;
    var refused := CheckBatch(plan.groups[mi], plan.items, batch, None);
    if refused.Some? {
      return Stopped(refused.value), seal;
    }
    BatchBound(plan.groups[mi], plan.items, batch, None);
    BatchSize(plan.groups[mi], plan.items, batch, None);
    if batch.view.None? {
      DirectUnsharded(C, session.tb, a, plan, mi, batch, bound);
      if batch.proofs[0].uc.shardTree.shard != [] {
        return Stopped(Unavailable), seal;
      }
      o, seal := RunDirect(C, session, a, plan, mi, batch, bound, tick, requests, u);
    } else {
      o, seal := RunView(C, session, a, plan, mi, batch, batch.view.value, bound, tick, requests, u);
    }
  }

  lemma DirectUnsharded(C: Crypto, tb: TrustBase, a: Attempt, plan: Plan, mi: nat, batch: Batch<PartitionView>,
                        bound: nat)
    requires batch.proofs != []
    ensures HonestDirect(C, tb, a, plan, mi, batch, bound) ==> batch.proofs[0].uc.shardTree.shard == []
  {
    hide HonestBatch, ComputedSealHash, SealVerdict, CheckBody;
  }

  /** The configured master serves none of the inputs, or the pinned scheme lacks one of their shards. */
  ghost predicate Misconfigured(a: Attempt, groups: seq<Group>, stop: Stop) {
    stop == Configuration && (Unpinned(a, groups) || MasterMissing(a, groups))
  }

  /** The inputs can be returned as they are. */
  ghost predicate Reusable(C: Crypto, tb: TrustBase, items: seq<ProofItem>) {
    && items != [] && DistinctSeals(Proofs(items)) == 1
    && SealVerdict(C.H, C.V, tb, items[0].proof.uc.seal) == Accepted
  }

  /** The inputs share one seal, and it may serve as the target. */
  method ReuseShared(C: Crypto, session: SealSession.SealSession, a: Attempt, items: seq<ProofItem>, shards: nat,
                     ghost u: SealMemory.Universe)
    returns (o: Option<Outcome>)
    requires Open(C, session, u, a, items) && SealsIn(u, Proofs(items)) && items != []
    modifies session, session.memo, session.bodies
    ensures Open(C, session, u, a, items)
    ensures o.Some? <==> Reusable(C, session.tb, items)
    ensures o.Some? ==> o.value.Consolidated? && o.value.summary.alreadyShared && o.value.summary.shards == shards && Shared(C, session.tb, items, o.value.proofs, o.value.summary)
  {
    hide AllProven, SealVerdict, SealCode, SealMemory.Separated, SealMemory.GoodMemory;
    OpenParts(C, session, u, a, items);
    if DistinctSeals(Proofs(items)) != 1 {
      return None;
    }
    assert Proofs(items)[0].uc.seal in u.seals;
    var v := session.AuthenticateSeal(items[0].proof.uc.seal, u);
    if v.Rejected? {
      return None;
    }
    OneSealAll(Proofs(items));
    return Some(Consolidated(Proofs(items), Summary(true, shards, 0, None, 1, 0)));
  }

  /** A configured master participates, the deciding service leads to a target, and nothing interrupts the
      attempt. */
  ghost predicate HonestServices(C: Crypto, tb: TrustBase, a: Attempt, plan: Plan) {
    && Uncancelled(a)
    && !MasterMissing(a, plan.groups)
    && (forall k: nat :: k < |plan.groups| && Decides(a, plan.items, plan.groups[k].shard) ==>
          HonestMaster(C, tb, a, plan, k, MaxRound(plan.items)))
  }

  /** The configured master serves none of the inputs. */
  ghost predicate MasterMissing(a: Attempt, groups: seq<Group>) {
    a.master.Some? && !Participates(groups, a.master.value)
  }

  ghost predicate Participates(groups: seq<Group>, shard: ShardId) {
    exists k :: 0 <= k < |groups| && groups[k].shard == shard
  }

  /** The shard of any input participates. */
  lemma NewestParticipates(a: Attempt, plan: Plan, newest: nat)
    requires Planned(a, plan) && |plan.shardOf| == |plan.items| && newest < |a.setup.shards|
    requires exists i :: 0 <= i < |plan.items| && newest == plan.shardOf[i]
    ensures Participates(plan.groups, a.setup.shards[newest])
  {
    hide GroupsOf, Admitted, Topology.Canonical, InShard;
    var i :| 0 <= i < |plan.items| && newest == plan.shardOf[i];
    var k, at := EveryStateGrouped(a.setup, plan.items, plan.groups, plan.firstOf, plan.shardOf, i);
    assert plan.groups[k].shard == a.setup.shards[newest];
  }

  lemma MasterDecides(a: Attempt, plan: Plan, newest: nat, round: nat)
    requires |plan.shardOf| == |plan.items| && newest < |a.setup.shards|
    requires forall i :: 0 <= i < |plan.items| ==> plan.shardOf[i] == Route(a.setup.shards, plan.items[i].stateId)
    requires NotNewer(plan.items, round)
    requires exists i :: 0 <= i < |plan.items| && plan.items[i].proof.uc.seal.rootRound == round
                      && newest == plan.shardOf[i]
                      && forall j :: 0 <= j < i ==> plan.items[j].proof.uc.seal.rootRound < round
    ensures Decides(a, plan.items, if a.master.Some? then a.master.value else a.setup.shards[newest])
  {
    hide Route;
    if a.master.None? {
      var i :| 0 <= i < |plan.items| && plan.items[i].proof.uc.seal.rootRound == round && newest == plan.shardOf[i]
               && forall j :: 0 <= j < i ==> plan.items[j].proof.uc.seal.rootRound < round;
      assert FirstNewest(plan.items, i) && RoutedTo(a.setup, plan.items[i].stateId, a.setup.shards[newest]);
    }
  }

  /** The attempt after admission, on authenticated evidence. */
  method RunAdmitted(C: Crypto, session: SealSession.SealSession, a: Attempt, plan: Plan, start: nat,
                     ghost u: SealMemory.Universe)
    returns (o: Outcome, ghost seal: UnicitySeal)
    requires Open(C, session, u, a, plan.items) && Planned(a, plan) && Presented(u, a, plan.items)
    requires |plan.shardOf| == |plan.items|
    requires forall i :: 0 <= i < |plan.items| ==>
               plan.shardOf[i] == Route(a.setup.shards, plan.items[i].stateId) < |a.setup.shards|
    modifies session, session.memo, session.bodies
    ensures Open(C, session, u, a, plan.items)
    ensures o.Consolidated? ==> || Shared(C, session.tb, plan.items, o.proofs, o.summary)
                                || (&& Fetched(C, session.tb, plan.items, plan.groups, o.proofs, o.summary, seal)
                                    && ServedBy(a, plan.items, plan.groups, o.summary, seal))
    ensures o.Consolidated? ==> seal in u.seals && Alive(a.live, start, start + Passed(o.summary) - 1)
    ensures o.Consolidated? ==> o.summary.shards == |plan.groups|
    ensures o.Stopped? ==> Real(a, o.stop) || Misconfigured(a, plan.groups, o.stop)
    ensures a.live(start) && Reusable(C, session.tb, plan.items) ==> o.Consolidated? && o.summary.alreadyShared
    ensures a.live(start) && !Reusable(C, session.tb, plan.items) && MasterMissing(a, plan.groups) ==>
              o == Stopped(Configuration)
    ensures HonestServices(C, session.tb, a, plan) ==> o.Consolidated?
  {
    hide Open, Planned, Fetched, Shared, Reusable, Decides, ServedBy, Participates, HonestServices, NotNewer, Presented;
    hide Passed, Route, MaxRound, Alive, SealsIn;
    ServicesParts(C, session.tb, a, plan, start);
    DeadIsReal(a, start);
    PresentedParts(u, a, plan.items);
    GroupFacts(a, plan);
    seal := plan.items[0].proof.uc.seal;
    var bound, master := FindTarget(a, plan);
    if !a.live(start) {
      return Stopped(Cancelled), seal;
    }
    var shared := ReuseShared(C, session, a, plan.items, |plan.groups|, u);
    if shared.Some? {
      AliveOnce(a.live, start, shared.value.summary);
      return shared.value, seal;
    }
    o, seal := RunMaster(C, session, a, plan, master, bound, start + 1, u);
    if o.Consolidated? {
      FetchedShards(C, session.tb, plan, o, seal);
      AliveThen(a.live, start, start + Passed(o.summary) - 1);
    }
  }

  lemma FetchedShards(C: Crypto, tb: TrustBase, plan: Plan, o: Outcome, seal: UnicitySeal)
    requires o.Consolidated? && Fetched(C, tb, plan.items, plan.groups, o.proofs, o.summary, seal)
    ensures o.summary.shards == |plan.groups|
  {
  }

  lemma AliveOnce(live: nat -> bool, start: nat, s: Summary)
    requires live(start) && s.alreadyShared
    ensures Alive(live, start, start + Passed(s) - 1)
  {
  }

  lemma AliveThen(live: nat -> bool, start: nat, to: nat)
    requires live(start) && Alive(live, start + 1, to)
    ensures Alive(live, start, to)
  {
  }

  lemma PresentedParts(u: SealMemory.Universe, a: Attempt, items: seq<ProofItem>)
    requires Presented(u, a, items)
    ensures SealsIn(u, Proofs(items)) && (items != [] ==> items[0].proof.uc.seal in u.seals)
  {
    if items != [] {
      assert Proofs(items)[0].uc.seal == items[0].proof.uc.seal;
    }
  }

  lemma ServicesParts(C: Crypto, tb: TrustBase, a: Attempt, plan: Plan, start: nat)
    ensures HonestServices(C, tb, a, plan) ==> a.live(start) && !MasterMissing(a, plan.groups)
  {
    hide HonestMaster, Decides, Participates;
  }

  /** The newest round of the inputs and the shard whose service decides. */
  method FindTarget(a: Attempt, plan: Plan) returns (bound: nat, master: ShardId)
    requires Planned(a, plan) && |plan.shardOf| == |plan.items| && plan.items != []
    requires forall i :: 0 <= i < |plan.items| ==>
               plan.shardOf[i] == Route(a.setup.shards, plan.items[i].stateId) < |a.setup.shards|
    ensures NotNewer(plan.items, bound) && bound == MaxRound(plan.items)
    ensures Decides(a, plan.items, master)
    ensures a.master.Some? ==> master == a.master.value
    ensures a.master.None? ==> Participates(plan.groups, master)
  {
    hide Planned, Participates, Route, Decides;
    var newest;
    bound, newest := NewestRound(plan.items, plan.shardOf);
    MaxRoundIs(plan.items, bound);
    MasterDecides(a, plan, newest, bound);
    NewestParticipates(a, plan, newest);
    master := if a.master.Some? then a.master.value else a.setup.shards[newest];
  }

  /** Why an attempt stops once its target is chosen. */
  ghost predicate StopReason(a: Attempt, groups: seq<Group>, master: ShardId, stop: Stop) {
    || Real(a, stop)
    || (stop == Configuration && (Unpinned(a, groups) || !Participates(groups, master)))
  }

  /** Fetch from the deciding shard's service, if it participates. */
  method RunMaster(C: Crypto, session: SealSession.SealSession, a: Attempt, plan: Plan, master: ShardId, bound: nat,
                   start: nat, ghost u: SealMemory.Universe)
    returns (o: Outcome, ghost seal: UnicitySeal)
    requires Open(C, session, u, a, plan.items) && Planned(a, plan) && Presented(u, a, plan.items)
    requires Decides(a, plan.items, master) && NotNewer(plan.items, bound) && bound == MaxRound(plan.items)
    modifies session, session.memo, session.bodies
    ensures Open(C, session, u, a, plan.items)
    ensures o.Consolidated? ==> && Fetched(C, session.tb, plan.items, plan.groups, o.proofs, o.summary, seal)
                                && ServedBy(a, plan.items, plan.groups, o.summary, seal) && seal in u.seals
    ensures o.Consolidated? ==> Alive(a.live, start, start + Passed(o.summary) - 2)
    ensures a.master == Some(master) && MasterMissing(a, plan.groups) ==> o == Stopped(Configuration)
    ensures o.Stopped? ==> StopReason(a, plan.groups, master, o.stop)
    ensures Participates(plan.groups, master) && HonestServices(C, session.tb, a, plan) ==> o.Consolidated?
  {
    hide Open, Planned, Fetched, HonestMaster, MaxRound, NotNewer, Decides, Alive, Presented, Passed;
    var mi := FindMaster(plan.groups, master);
    if mi.None? {
      return Stopped(Configuration), NoSeal();
    }
    o, seal := RunTarget(C, session, a, plan, mi.value, bound, start, u);
  }

  /** The groups of the inputs. */
  ghost function Grouping(a: Attempt, items: seq<ProofItem>): (plan: Plan)
    requires |a.setup.shards| == |a.setup.endpointOf|
  {
    Plan(items, GroupsBelow(a.setup, items, |a.setup.shards|), [], [])
  }

  /** Honesty of the services concerns inputs and groups only. */
  lemma HonestSame(C: Crypto, tb: TrustBase, a: Attempt, plan: Plan, other: Plan)
    requires plan.items == other.items && plan.groups == other.groups && HonestServices(C, tb, a, plan)
    ensures HonestServices(C, tb, a, other)
  {
    hide HonestPeer, HonestGroup, HonestBatch, RootIn, HasRoot, StructureOk, Commits, SealVerdict, DirectTarget;
    hide BatchOk, MaxRound;
    hide Decides;
    forall k: nat | k < |other.groups| && Decides(a, other.items, other.groups[k].shard)
      ensures HonestMaster(C, tb, a, other, k, MaxRound(other.items))
    {
      assert HonestMaster(C, tb, a, plan, k, MaxRound(plan.items));
    }
  }

  /** Admissible, authenticated evidence of the configured partition. */
  ghost predicate GoodEvidence(C: Crypto, tb: TrustBase, a: Attempt, items: seq<ProofItem>) {
    && |a.setup.shards| == |a.setup.endpointOf|
    && items != [] && Admitted(a.setup, items, |items|) && AllProven(C, tb, items)
    && (forall i :: 0 <= i < |items| ==> InContext(a, items[i].proof.uc, Route(a.setup.shards, items[i].stateId)))
  }

  /** Such evidence, and honest services. */
  ghost predicate Honest(C: Crypto, tb: TrustBase, a: Attempt, items: seq<ProofItem>) {
    GoodEvidence(C, tb, a, items) && HonestServices(C, tb, a, Grouping(a, items))
  }

  lemma HonestAdmission(C: Crypto, tb: TrustBase, a: Attempt, items: seq<ProofItem>)
    ensures Honest(C, tb, a, items) ==> GoodEvidence(C, tb, a, items) && Uncancelled(a)
    ensures GoodEvidence(C, tb, a, items) ==>
              items != [] && Admitted(a.setup, items, |items|) && AllProven(C, tb, items)
    ensures Uncancelled(a) ==> Alive(a.live, 0, 0 + Checkpoints(|items|))
  {
    hide Admitted, AllProven, InContext, GroupsBelow, HonestMaster, Checkpoints, Route, Decides, MasterMissing;
  }

  lemma HonestContext(C: Crypto, tb: TrustBase, a: Attempt, plan: Plan)
    requires GroupsOf(a.setup, plan.items, plan.groups, plan.firstOf, plan.shardOf)
    ensures |plan.shardOf| == |plan.items| && Grouping(a, plan.items).groups == plan.groups
    ensures Honest(C, tb, a, plan.items) ==> HonestServices(C, tb, a, plan)
    ensures GoodEvidence(C, tb, a, plan.items) ==>
              forall i :: 0 <= i < |plan.items| ==> InContext(a, plan.items[i].proof.uc, plan.shardOf[i])
  {
    hide Admitted, AllProven, InContext, GroupsBelow, HonestServices, Route, FirstIndex;
    if Honest(C, tb, a, plan.items) {
      HonestSame(C, tb, a, Grouping(a, plan.items), plan);
    }
  }

  /** Why an attempt stops: the inputs are refused, their evidence is not proven or not of this partition, the
      configuration does not fit, or something real happened on the way. */
  ghost predicate Reason(C: Crypto, tb: TrustBase, a: Attempt, items: seq<ProofItem>, stop: Stop) {
    || Refuses(a.setup, items, a.live, stop)
    || (stop == Evidence && !AllProven(C, tb, items))
    || Real(a, stop)
    || (|a.setup.shards| == |a.setup.endpointOf| && Misconfigured(a, Grouping(a, items).groups, stop))
  }

  /** One attempt.  Whatever the services answer and whenever it is cancelled, a success has moved every
      proof, in order and with its certification untouched, under one accepted seal; and it does succeed
      when the evidence is good and the services are honest. */
  method Run(C: Crypto, session: SealSession.SealSession, a: Attempt, items: seq<ProofItem>, verified: bool,
             ghost u: SealMemory.Universe)
    returns (o: Outcome, ghost seal: UnicitySeal)
    requires ValidSetup(a.setup) && session.Valid(u) && TokenVerifier.Under(C, u) && a.policy in u.ordinary
    requires Presented(u, a, items) && (verified ==> AllProven(C, session.tb, items))
    modifies session, session.memo, session.bodies
    ensures session.Valid(u)
    ensures o.Consolidated? ==> Succeeded(C, session.tb, a, items, o, seal) && seal in u.seals
    ensures o.Consolidated? ==> AllProven(C, session.tb, items) && EvidenceFits(a, items)
    ensures Honest(C, session.tb, a, items) ==> o.Consolidated?
    ensures GoodEvidence(C, session.tb, a, items) && Uncancelled(a) && Reusable(C, session.tb, items) ==>
              o.Consolidated? && o.summary.alreadyShared
    ensures o.Stopped? ==> Reason(C, session.tb, a, items, o.stop)
    ensures (&& GoodEvidence(C, session.tb, a, items) && Uncancelled(a) && !Reusable(C, session.tb, items)
             && MasterMissing(a, Grouping(a, items).groups)) ==> o == Stopped(Configuration)
  {
    hide ValidSetup, GroupsOf, Planned, Admitted, Shared, Fetched, Proven, GroupsBelow, Honest, HonestServices, Alive;
    hide SealMemory.Separated, SealMemory.GoodMemory, GoodEvidence, Reusable, MasterMissing, ServedBy, AllProven;
    hide Presented, Route, InContext, Passed, Uncancelled, Checkpoints, EvidenceFits, Refuses, Misconfigured;
    hide Participates, Said, Interrupted, Succeeded;
    HonestAdmission(C, session.tb, a, items);
    PresentedParts(u, a, items);
    var grouped, tick := GroupItems(a.setup, items, a.live, 0);
    if grouped.Refused? {
      return Stopped(grouped.stop), NoSeal();
    }
    var plan := Plan(items, grouped.groups, grouped.firstOf, grouped.shardOf);
    PlanIs(a, plan);
    HonestContext(C, session.tb, a, plan);
    UncancelledAt(a, tick);
    DeadIsReal(a, tick);
    if !a.live(tick) {
      return Stopped(Cancelled), NoSeal();
    }
    var inContext := EvidenceInContext(a, items, plan.shardOf);
    if !inContext {
      return Stopped(Integrity), NoSeal();
    }
    if !verified {
      var proven := VerifyEvidence(C, session, items, u);
      if !proven {
        return Stopped(Evidence), NoSeal();
      }
    }
    InContextRoutes(a, plan);
    FitsInContext(a, plan);
    o, seal := RunAdmitted(C, session, a, plan, tick + 1, u);
    if o.Consolidated? {
      AliveJoin(a.live, tick, tick + Passed(o.summary));
      SucceededIntro(C, session.tb, a, plan, o, seal);
    }
  }

  lemma SucceededIntro(C: Crypto, tb: TrustBase, a: Attempt, plan: Plan, o: Outcome, seal: UnicitySeal)
    requires o.Consolidated? && ValidSetup(a.setup)
    requires plan.groups == GroupsBelow(a.setup, plan.items, |a.setup.shards|)
    requires || Shared(C, tb, plan.items, o.proofs, o.summary)
             || (&& Fetched(C, tb, plan.items, plan.groups, o.proofs, o.summary, seal)
                 && ServedBy(a, plan.items, plan.groups, o.summary, seal))
    requires o.summary.shards == |plan.groups|
    requires Alive(a.live, 0, Checkpoints(|plan.items|) + Passed(o.summary))
    ensures Succeeded(C, tb, a, plan.items, o, seal)
  {
    hide Shared, Fetched, ServedBy, Alive, GroupsBelow, Passed, Checkpoints, Topology.Canonical;
  }

  lemma UncancelledAt(a: Attempt, tick: nat)
    ensures Uncancelled(a) ==> a.live(tick) && a.live(tick + 1)
  {
  }

  lemma InContextRoutes(a: Attempt, plan: Plan)
    requires |plan.shardOf| == |plan.items| && GroupsOf(a.setup, plan.items, plan.groups, plan.firstOf, plan.shardOf)
    requires forall i :: 0 <= i < |plan.items| ==> InContext(a, plan.items[i].proof.uc, plan.shardOf[i])
    ensures forall i :: 0 <= i < |plan.items| ==>
              plan.shardOf[i] == Route(a.setup.shards, plan.items[i].stateId) < |a.setup.shards|
  {
    hide Route, GroupsBelow, FirstIndex;
    forall i | 0 <= i < |plan.items|
      ensures plan.shardOf[i] == Route(a.setup.shards, plan.items[i].stateId) < |a.setup.shards|
    {
      assert InContext(a, plan.items[i].proof.uc, plan.shardOf[i]);
    }
  }

  /** Every input is of the partition, of the shard its state routes to, and of that shard's pinned
      configuration. */
  ghost predicate EvidenceFits(a: Attempt, items: seq<ProofItem>) {
    forall i :: 0 <= i < |items| ==>
      var uc := items[i].proof.uc;
      && uc.unicityTree.partition == 7 && RoutedTo(a.setup, items[i].stateId, uc.shardTree.shard)
      && (uc.shardTree.shard in a.pins.confHashes ==> uc.shardConfHash == a.pins.confHashes[uc.shardTree.shard])
  }

  lemma FitsInContext(a: Attempt, plan: Plan)
    requires |plan.shardOf| == |plan.items|
    requires forall i :: 0 <= i < |plan.items| ==> InContext(a, plan.items[i].proof.uc, plan.shardOf[i])
    requires forall i :: 0 <= i < |plan.items| ==>
               plan.shardOf[i] == Route(a.setup.shards, plan.items[i].stateId) < |a.setup.shards|
    ensures EvidenceFits(a, plan.items)
  {
    hide Route;
    forall i | 0 <= i < |plan.items|
      ensures var uc := plan.items[i].proof.uc;
              && uc.unicityTree.partition == 7 && RoutedTo(a.setup, plan.items[i].stateId, uc.shardTree.shard)
              && (uc.shardTree.shard in a.pins.confHashes ==> uc.shardConfHash == a.pins.confHashes[uc.shardTree.shard])
    {
      assert InContext(a, plan.items[i].proof.uc, plan.shardOf[i]);
    }
  }

  lemma AliveJoin(live: nat -> bool, tick: nat, to: nat)
    requires Alive(live, 0, tick) && live(tick) && Alive(live, tick + 1, to)
    ensures Alive(live, 0, to)
  {
  }

  function NoSeal(): (s: UnicitySeal) { UnicitySeal(0, 0, 0, 0, None, [], []) }

  /** What the caller of a successful attempt may use. */
  lemma SuccessSummary(C: Crypto, tb: TrustBase, a: Attempt, items: seq<ProofItem>, o: Outcome, seal: UnicitySeal)
    requires Succeeded(C, tb, a, items, o, seal)
    ensures |o.proofs| == |items| && o.summary.sealsAfter == 1
    ensures forall i :: 0 <= i < |items| ==>
              && o.proofs[i].certification == items[i].proof.certification
              && o.proofs[i].referenceTime == items[i].proof.referenceTime
              && Proven(C, tb, items[i].stateId, o.proofs[i])
    ensures !o.summary.alreadyShared ==> forall i :: 0 <= i < |items| ==> o.proofs[i].uc.seal == seal
    ensures o.summary.alreadyShared ==> forall p, q :: p in o.proofs && q in o.proofs ==> SealCode(p) == SealCode(q)
    ensures o.summary.alreadyShared ==> o.proofs == Proofs(items)
  {
    hide Proven, SealVerdict, SealCode, GroupsBelow, ValidSetup;
  }

  // ---- the number of requests ----

  /** The shards below `n` that some input routes to. */
  ghost function Participating(setup: Setup, items: seq<ProofItem>, n: nat): (s: set<nat>) {
    set s | 0 <= s < n && Routed(setup, items, s)
  }

  ghost predicate Routed(setup: Setup, items: seq<ProofItem>, s: nat) {
    exists i :: 0 <= i < |items| && Route(setup.shards, items[i].stateId) == s
  }

  lemma ParticipatingStep(setup: Setup, items: seq<ProofItem>, n: nat)
    ensures |Participating(setup, items, n + 1)|
         == |Participating(setup, items, n)| + if Routed(setup, items, n) then 1 else 0
  {
    hide Routed;
    var before, after := Participating(setup, items, n), Participating(setup, items, n + 1);
    if Routed(setup, items, n) {
      assert after == before + {n};
    } else {
      assert after == before;
    }
  }

  lemma GroupsStep(setup: Setup, items: seq<ProofItem>, n: nat)
    requires n < |setup.shards| == |setup.endpointOf|
    ensures |GroupsBelow(setup, items, n + 1)|
         == |GroupsBelow(setup, items, n)| + if SlotFor(setup, items, |items|, n).Some? then 1 else 0
  {
    hide SlotFor;
  }

  lemma NoneBelow(setup: Setup, items: seq<ProofItem>)
    requires |setup.shards| == |setup.endpointOf|
    ensures |GroupsBelow(setup, items, 0)| == 0 && |Participating(setup, items, 0)| == 0
  {
    hide Routed, SlotFor;
  }

  /** There is one group, hence one request, per participating shard. */
  lemma {:induction false} OneGroupPerShard(setup: Setup, items: seq<ProofItem>, n: nat)
    requires n <= |setup.shards| == |setup.endpointOf|
    ensures |GroupsBelow(setup, items, n)| == |Participating(setup, items, n)|
  {
    hide *;
    NoneBelow(setup, items);
    if n > 0 {
      OneGroupPerShard(setup, items, n - 1);
      SlotTaken(setup, items, n - 1);
      GroupsStep(setup, items, n - 1);
      ParticipatingStep(setup, items, n - 1);
    }
  }

  lemma SlotTaken(setup: Setup, items: seq<ProofItem>, s: nat)
    requires s < |setup.shards| == |setup.endpointOf|
    ensures SlotFor(setup, items, |items|, s).Some? <==> Routed(setup, items, s)
  {
    hide Route, IsFirst, Members;
    var m := Members(setup, items, |items|, s);
    if m != [] {
      assert m[0] < |items| && Route(setup.shards, items[m[0]].stateId) == s;
    }
    if i: nat :| i < |items| && Route(setup.shards, items[i].stateId) == s {
      FirstIsFirst(items, i);
      MemberOfShard(setup, items, |items|, FirstIndex(items, items[i].stateId));
    }
  }
}
