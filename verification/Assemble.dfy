/** Partition views: the leaves of all shards under one seal.  A view is authenticated as a whole, and
    the ordinary certificate of every shard is then derived from it.
 */
module Assemble {
  import opened Hashing
  import opened CborHead
  import opened Bft
  import opened Quorum
  import opened Certificates
  import opened ShardOrder
  import opened ShardPass
  import opened ShardScheme
  import opened Topology
  import ShardTree
  import SealMemory
  import SealSession

  const MAX_LEAVES: nat := 8
  const MAX_RECORD_BYTES: nat := 1024
  const MAX_SUMMARY_BYTES: nat := 256

  datatype ViewLeaf = ViewLeaf(shard: ShardId, inputRecord: InputRecord, trHash: Data, confHash: Data)

  datatype PartitionView = PartitionView(partition: U32, leaves: seq<ViewLeaf>)

  /** A pinned scheme and configuration hashes. */
  datatype Pins = Pins(scheme: seq<ShardId>, confHashes: map<ShardId, Digest>)

  datatype AuthenticatedView = AuthenticatedView(
    leaves: seq<ViewLeaf>, tree: ShardTree.ShardTree, unicityTree: UnicityTreeCertificate, seal: UnicitySeal)

  datatype ViewError =
    | Bounds
    | WrongPartition
    | InvalidTopology
    | LeafSetMismatch
    | ConfigHashMismatch
    | TreeRootMismatch
    | EnclosingCertificate
    | SealError(error: VerificationError)

  // ---- bounds ----

  predicate HashSized(h: Option<Data>) { h.Some? ==> |h.value| == 0 || |h.value| == 32 }

  /** The native rules of a record plus the admission bounds. */
  predicate RecordAdmitted(ir: InputRecord) {
    && RecordRules(ir)
    && |OrEmpty(ir.summaryValue)| <= MAX_SUMMARY_BYTES
    && HashSized(ir.hash) && HashSized(ir.previousHash) && HashSized(ir.blockHash) && HashSized(ir.executedTransactionsHash)
    && |InputRecordCbor(ir)| <= MAX_RECORD_BYTES
  }

  predicate LeafAdmitted(l: ViewLeaf) {
    |l.shard| <= MAX_SHARD_ID_BITS && RecordAdmitted(l.inputRecord) && |l.trHash| == 32 && |l.confHash| == 32
  }

  predicate CheckBounds(view: PartitionView) {
    && view.partition != 0 && 1 <= |view.leaves| <= MAX_LEAVES
    && forall l :: l in view.leaves ==> LeafAdmitted(l)
  }

  // ---- the tree of a view ----

  function LeafHash(H: Hash, l: ViewLeaf): (d: Data) {
    H(InputRecordCbor(l.inputRecord) + EncodeByteString(l.trHash) + EncodeByteString(l.confHash))
  }

  function ShardsOf(H: Hash, leaves: seq<ViewLeaf>): (s: seq<Shard>)
    ensures |s| == |leaves|
    ensures forall i :: 0 <= i < |s| ==> s[i] == Shard(leaves[i].shard, LeafHash(H, leaves[i]))
  {
    seq(|leaves|, i requires 0 <= i < |leaves| => Shard(leaves[i].shard, LeafHash(H, leaves[i])))
  }

  function ShardIds(leaves: seq<ViewLeaf>): (ids: seq<ShardId>)
    ensures |ids| == |leaves| && forall i :: 0 <= i < |ids| ==> ids[i] == leaves[i].shard
  {
    seq(|leaves|, i requires 0 <= i < |leaves| => leaves[i].shard)
  }

  // ---- what is required of a view ----

  /** The scheme a view is held against: the pinned one, or the view's own. */
  function SchemeOf(view: PartitionView, pins: Option<Pins>): (scheme: seq<ShardId>) {
    match pins
    case Some(p) => p.scheme
    case None => if ShardIds(view.leaves) == [[]] then [] else ShardIds(view.leaves)
  }

  /** `ids` is the scheme in canonical order. */
  ghost predicate InOrder(scheme: seq<ShardId>, ids: seq<ShardId>) {
    if scheme == [] then ids == [[]]
    else Admissible(scheme, MAX_LEAVES) && StrictlySorted(ids) && multiset(ids) == multiset(scheme)
  }

  ghost predicate ConfigurationsMatch(leaves: seq<ViewLeaf>, pins: Option<Pins>) {
    pins.Some? ==> forall l :: l in leaves && l.shard in pins.value.confHashes ==> pins.value.confHashes[l.shard] == l.confHash
  }

  ghost predicate StructureOk(view: PartitionView, pins: Option<Pins>) {
    && CheckBounds(view) && view.partition == AGGREGATION_PARTITION_ID
    && InOrder(SchemeOf(view, pins), ShardIds(view.leaves))
    && ConfigurationsMatch(view.leaves, pins)
  }

  /** The leaf speaks of the shard of the enclosing certificate, and says the same. */
  predicate OwnLeaf(l: ViewLeaf, enclosing: UnicityCertificate) {
    && l.shard == enclosing.shardTree.shard
    && enclosing.shardConfHash == l.confHash
    && enclosing.technicalRecordHash == Some(l.trHash)
    && enclosing.inputRecord == l.inputRecord
  }

  /** The view hashes into the seal of the enclosing certificate and agrees with it. */
  ghost predicate Commits(H: Hash, view: PartitionView, enclosing: UnicityCertificate, t: Full) {
    && Leaves(t, []) == ShardsOf(H, view.leaves)
    && enclosing.unicityTree.partition == AGGREGATION_PARTITION_ID
    && UnicityRoot(H, enclosing.unicityTree, HashOf(H, t)) == enclosing.seal.hash
    && (exists l :: l in view.leaves && OwnLeaf(l, enclosing))
    && enclosing.shardTree.siblings == ShardTree.SiblingPath(H, t, enclosing.shardTree.shard)
    && SealShape(enclosing.seal)
  }

  /** The rule that an error names is really broken. */
  ghost predicate Broken(H: Hash, view: PartitionView, enclosing: UnicityCertificate, pins: Option<Pins>,
                         e: ViewError) {
    var scheme, ids := SchemeOf(view, pins), ShardIds(view.leaves);
    match e
    case Bounds => !CheckBounds(view)
    case WrongPartition => CheckBounds(view) && view.partition != AGGREGATION_PARTITION_ID
    case InvalidTopology => scheme != [] && !Admissible(scheme, MAX_LEAVES)
    case LeafSetMismatch => !InOrder(scheme, ids)
    case ConfigHashMismatch => !ConfigurationsMatch(view.leaves, pins)
    case TreeRootMismatch =>
      forall t :: Leaves(t, []) == ShardsOf(H, view.leaves) ==>
                    UnicityRoot(H, enclosing.unicityTree, HashOf(H, t)) != enclosing.seal.hash
    case EnclosingCertificate =>
      || enclosing.unicityTree.partition != AGGREGATION_PARTITION_ID
      || (forall l :: l in view.leaves ==> !OwnLeaf(l, enclosing))
      || (forall t :: Leaves(t, []) == ShardsOf(H, view.leaves) ==>
                        enclosing.shardTree.siblings != ShardTree.SiblingPath(H, t, enclosing.shardTree.shard))
    case SealError(error) => error == SealMalformed && !SealShape(enclosing.seal)
  }

  // ---- checking it ----

  lemma SameFirst(a: seq<ShardId>, b: seq<ShardId>)
    requires StrictlySorted(a) && StrictlySorted(b) && multiset(a) == multiset(b) && a != [] && b != []
    ensures a[0] == b[0]
  {
    hide Before;
    var i := SameElements(a, b, 0);
    var j := SameElements(b, a, 0);
    if i > 0 && j > 0 {
      NotBoth(b[0], b[i]);
    }
  }

  lemma SortedRest(a: seq<ShardId>)
    requires a != [] && StrictlySorted(a)
    ensures StrictlySorted(a[1..]) && multiset(a[1..]) == multiset(a) - multiset{a[0]}
  {
    hide Before;
    assert a == [a[0]] + a[1..];
  }

  lemma {:induction false} SortedUnique(a: seq<ShardId>, b: seq<ShardId>)
    requires StrictlySorted(a) && StrictlySorted(b) && multiset(a) == multiset(b)
    ensures a == b
  {
    hide StrictlySorted;
    assert |multiset(a)| == |a| && |multiset(b)| == |b|;
    if a != [] {
      SameFirst(a, b);
      SortedRest(a);
      SortedRest(b);
      SortedUnique(a[1..], b[1..]);
      assert a == [a[0]] + a[1..] && b == [b[0]] + b[1..];
    }
  }

  lemma OrderDecides(scheme: seq<ShardId>, order: seq<ShardId>, ids: seq<ShardId>)
    requires scheme == [] || Admissible(scheme, MAX_LEAVES)
    requires Canonical(order) && multiset(order) == if scheme == [] then multiset{[]} else multiset(scheme)
    ensures InOrder(scheme, ids) <==> ids == order
  {
    hide Covered, PrefixFree, Before;
    if scheme == [] {
      var single: seq<ShardId> := [[]];
      RootCanonical();
      SortedUnique(order, single);
    } else if InOrder(scheme, ids) {
      SortedUnique(ids, order);
    }
  }

  lemma NotInOrder(scheme: seq<ShardId>, ids: seq<ShardId>)
    requires scheme != [] && !Admissible(scheme, MAX_LEAVES)
    ensures !InOrder(scheme, ids)
  {
  }

  /** Structure and topology; a refusal names a broken rule. */
  method ValidateStructure(view: PartitionView, pins: Option<Pins>, ghost H: Hash, ghost enclosing: UnicityCertificate)
    returns (e: Option<ViewError>)
    ensures e.None? <==> StructureOk(view, pins)
    ensures e.Some? ==> Broken(H, view, enclosing, pins, e.value)
  {
    hide LeafAdmitted, Admissible, Canonical, StrictlySorted, CheckBounds, InOrder, SchemeOf;
    if !CheckBounds(view) {
      return Some(Bounds);
    }
    if view.partition != AGGREGATION_PARTITION_ID {
      return Some(WrongPartition);
    }
    var scheme := SchemeOf(view, pins);
    var order := CanonicalOrder(scheme, MAX_LEAVES);
    if order.None? {
      NotInOrder(scheme, ShardIds(view.leaves));
      return Some(InvalidTopology);
    }
    OrderDecides(scheme, order.value, ShardIds(view.leaves));
    if |view.leaves| != |order.value| {
      return Some(LeafSetMismatch);
    }
    for i := 0 to |view.leaves|
      invariant forall j :: 0 <= j < i ==> view.leaves[j].shard == order.value[j]
      invariant ConfigurationsMatch(view.leaves[..i], pins)
    {
      var l := view.leaves[i];
      assert ShardIds(view.leaves)[i] == l.shard;
      if l.shard != order.value[i] {
        return Some(LeafSetMismatch);
      }
      if pins.Some? && l.shard in pins.value.confHashes && pins.value.confHashes[l.shard] != l.confHash {
        assert l in view.leaves;
        return Some(ConfigHashMismatch);
      }
      assert view.leaves[..i + 1] == view.leaves[..i] + [l];
    }
    assert view.leaves[..|view.leaves|] == view.leaves;
    assert ShardIds(view.leaves) == order.value;
    return None;
  }

  lemma StructureTiles(H: Hash, view: PartitionView, pins: Option<Pins>)
    requires StructureOk(view, pins)
    ensures Tiles(ShardsOf(H, view.leaves))
  {
    hide Covered, PrefixFree, StrictlySorted, Tiles, LeafAdmitted, LeafHash;
    var ids := ShardIds(view.leaves);
    assert Ids(ShardsOf(H, view.leaves)) == ids;
    if SchemeOf(view, pins) == [] {
      RootCanonical();
    } else {
      Permuted(SchemeOf(view, pins), ids);
      SchemeWithin(SchemeOf(view, pins), ids);
    }
    CanonicalTiles(ShardsOf(H, view.leaves));
  }

  lemma SchemeWithin(scheme: seq<ShardId>, ids: seq<ShardId>)
    requires Admissible(scheme, MAX_LEAVES) && multiset(ids) == multiset(scheme)
    ensures Within(ids, [], MAX_SHARD_ID_BITS)
  {
    hide Covered, PrefixFree;
    forall j | 0 <= j < |scheme| ensures 0 < |scheme[j]| <= MAX_SHARD_ID_BITS {
      assert scheme[j] in scheme;
    }
    WithinFromScheme(scheme, ids);
  }

  /** The first leaf of a shard. */
  method FindOwn(leaves: seq<ViewLeaf>, shard: ShardId) returns (r: Option<nat>)
    ensures r.Some? ==> r.value < |leaves| && leaves[r.value].shard == shard
    ensures r.None? ==> forall l :: l in leaves ==> l.shard != shard
  {
    for i := 0 to |leaves|
      invariant forall j :: 0 <= j < i ==> leaves[j].shard != shard
    {
      if leaves[i].shard == shard {
        return Some(i);
      }
    }
    return None;
  }

  lemma SameTree(leaves: seq<Shard>, s: Full, t: Full)
    requires Leaves(s, []) == leaves && Leaves(t, []) == leaves
    ensures s == t
  {
    CollapsesExactly(leaves, s);
    CollapsesExactly(leaves, t);
  }

  lemma OneLeaf(H: Hash, leaves: seq<ViewLeaf>, t: Full, i: nat, l: ViewLeaf)
    requires Leaves(t, []) == ShardsOf(H, leaves) && i < |leaves| && l in leaves && l.shard == leaves[i].shard
    ensures l == leaves[i]
  {
    hide Before, LeafHash;
    var j :| 0 <= j < |leaves| && leaves[j] == l;
    if i < j {
      LeavesSorted(t, [], i, j);
    } else if j < i {
      LeavesSorted(t, [], j, i);
    }
  }

  /** Everything but the signatures.  `t` is the full binary tree of the leaves. */
  method VerifyTree(H: Hash, view: PartitionView, enclosing: UnicityCertificate, pins: Option<Pins>)
    returns (r: Option<ShardTree.ShardTree>, e: ViewError, ghost labels: seq<Pending>, ghost t: Full)
    ensures r.Some? <==> StructureOk(view, pins) && exists s :: Commits(H, view, enclosing, s)
    ensures r.Some? ==> Commits(H, view, enclosing, t) && ShardTree.WellBuilt(H, r.value, labels, ShardsOf(H, view.leaves), t)
    ensures r.None? ==> Broken(H, view, enclosing, pins, e)
  {
    hide StructureOk, HashOf, LeafHash, UnicityRoot, ShardTree.SiblingPath, SealShape, Leaves, CheckBounds, InOrder;
    hide ConfigurationsMatch, Admissible, SchemeOf;
    r, e, labels, t := None, Bounds, [], Leaf([]);
    var error := ValidateStructure(view, pins, H, enclosing);
    if error.Some? {
      e := error.value;
      return;
    }
    StructureTiles(H, view, pins);
    var shards := ShardsOf(H, view.leaves);
    var built, inner;
    built, inner, labels, t := ShardTree.BuildCounted(H, shards);
    if built.Failed? {
      return;
    }
    var tree := built.tree;
    forall s: Full | Leaves(s, []) == shards ensures s == t {
      SameTree(shards, s, t);
    }
    RootHashIs(H, tree, labels, shards, t);
    if enclosing.unicityTree.partition != AGGREGATION_PARTITION_ID {
      e := EnclosingCertificate;
      return;
    }
    if UnicityRoot(H, enclosing.unicityTree, tree.nodes[tree.root].hash) != enclosing.seal.hash {
      e := TreeRootMismatch;
      return;
    }
    e := EnclosingCertificate;
    var own := enclosing.shardTree.shard;
    var at := FindOwn(view.leaves, own);
    if at.None? {
      return;
    }
    var leaf := view.leaves[at.value];
    forall l | l in view.leaves && OwnLeaf(l, enclosing) ensures l == leaf {
      OneLeaf(H, view.leaves, t, at.value, l);
    }
    if enclosing.shardConfHash != leaf.confHash || enclosing.technicalRecordHash != Some(leaf.trHash)
       || enclosing.inputRecord != leaf.inputRecord {
      return;
    }
    assert OwnLeaf(leaf, enclosing);
    assert Ids(shards)[at.value] == own;
    var certificate := ShardTree.Certificate(H, tree, own, labels, shards, t);
    if certificate.None? || certificate.value.siblings != enclosing.shardTree.siblings {
      return;
    }
    if !SealShape(enclosing.seal) {
      e := SealError(SealMalformed);
      return;
    }
    assert Commits(H, view, enclosing, t);
    r := Some(tree);
  }

  lemma RootHashIs(H: Hash, tree: ShardTree.ShardTree, labels: seq<Pending>, shards: seq<Shard>, t: Full)
    requires ShardTree.WellBuilt(H, tree, labels, shards, t)
    ensures tree.root < |tree.nodes| && tree.nodes[tree.root].hash == HashOf(H, t)
  {
    hide HashOf;
    assert ShardTree.NodeOk(H, tree.nodes, labels, tree.root);
  }

  // ---- authentication and derivation ----

  /** What an authenticated view guarantees. */
  ghost predicate Authenticated(H: Hash, V: Verifier, tb: TrustBase, view: AuthenticatedView, labels: seq<Pending>,
                                t: Full) {
    && (forall l :: l in view.leaves ==> LeafAdmitted(l))
    && ShardTree.WellBuilt(H, view.tree, labels, ShardsOf(H, view.leaves), t)
    && view.unicityTree.partition == AGGREGATION_PARTITION_ID
    && UnicityRoot(H, view.unicityTree, HashOf(H, t)) == view.seal.hash
    && SealVerdict(H, V, tb, view.seal) == Accepted
  }

  /** Authenticate a candidate view: structure, commitment to the seal, own leaf, then the seal itself. */
  method Authenticate(session: SealSession.SealSession, view: PartitionView, enclosing: UnicityCertificate,
                      pins: Option<Pins>, ghost u: SealMemory.Universe)
    returns (r: Option<AuthenticatedView>, e: ViewError, ghost labels: seq<Pending>, ghost t: Full)
    requires session.Valid(u) && enclosing.seal in u.seals
    modifies session`validated, session`memoHits, session`quorumChecks, session.memo
    ensures session.Valid(u)
    ensures r.Some? <==> && StructureOk(view, pins) && (exists s :: Commits(session.H, view, enclosing, s))
                         && SealVerdict(session.H, session.V, session.tb, enclosing.seal) == Accepted
    ensures r.Some? ==> && Authenticated(session.H, session.V, session.tb, r.value, labels, t)
                        && Commits(session.H, view, enclosing, t)
                        && r.value.leaves == view.leaves && r.value.seal == enclosing.seal
                        && r.value.unicityTree == enclosing.unicityTree
    ensures r.None? ==> || Broken(session.H, view, enclosing, pins, e)
                        || (e.SealError? && SealVerdict(session.H, session.V, session.tb, enclosing.seal) == Rejected(e.error))
  {
    hide SealVerdict, LeafAdmitted, InOrder, HashOf, UnicityRoot, ShardTree.WellBuilt, Leaves, Broken;
    hide SealMemory.Separated, SealMemory.GoodMemory, ConfigurationsMatch;
    var tree;
    tree, e, labels, t := VerifyTree(session.H, view, enclosing, pins);
    if tree.None? {
      return None, e, labels, t;
    }
    var v := session.AuthenticateSeal(enclosing.seal, u);
    if v.Rejected? {
      return None, SealError(v.error), labels, t;
    }
    r := Some(AuthenticatedView(view.leaves, tree.value, enclosing.unicityTree, enclosing.seal));
  }

  /** The certificate of one leaf of the view. */
  function CertificateFor(l: ViewLeaf, path: ShardTreeCertificate, view: AuthenticatedView): (uc: UnicityCertificate) {
    UnicityCertificate(l.inputRecord, Some(l.trHash), l.confHash, path, view.unicityTree, view.seal)
  }

  /** The certificate that a leaf of the tree `t` gets under a partition path and a seal. */
  ghost function DerivedFor(H: Hash, l: ViewLeaf, t: Full, path: UnicityTreeCertificate,
                            seal: UnicitySeal): (uc: UnicityCertificate) {
    UnicityCertificate(l.inputRecord, Some(l.trHash), l.confHash,
                       ShardTreeCertificate(l.shard, ShardTree.SiblingPath(H, t, l.shard)), path, seal)
  }

  /** Derive the certificate of one shard; it exists for every shard of the view and passes the
      ordinary check, and the strict one, under the same authority. */
  method Derive(H: Hash, view: AuthenticatedView, i: nat, ghost V: Verifier, ghost tb: TrustBase,
                ghost labels: seq<Pending>, ghost t: Full)
    returns (r: Option<UnicityCertificate>)
    requires i < |view.leaves| && Authenticated(H, V, tb, view, labels, t)
    ensures r == Some(CertificateFor(view.leaves[i],
                                     ShardTreeCertificate(view.leaves[i].shard, ShardTree.SiblingPath(H, t, view.leaves[i].shard)), view))
    ensures OrdinaryVerdict(H, V, tb, r.value) == Accepted
    ensures StrictVerdict(H, V, tb, r.value, Context(None, None, None)) == Accepted
  {
    hide LeafHash, OrdinaryVerdict, StrictVerdict, SealVerdict, LeafAdmitted, HashOf, UnicityRoot;
    var leaf := view.leaves[i];
    assert Ids(ShardsOf(H, view.leaves))[i] == leaf.shard;
    var path := ShardTree.Certificate(H, view.tree, leaf.shard, labels, ShardsOf(H, view.leaves), t);
    if path.None? {
      return None;
    }
    DerivedAccepted(H, V, tb, view, labels, t, i);
    r := Some(CertificateFor(leaf, path.value, view));
  }

  /** The leaf hash of a view is that of the certificate. */
  lemma LeafHashAgrees(H: Hash, l: ViewLeaf)
    ensures LeafHash(H, l) == ShardLeafHash(H, l.inputRecord, Some(l.trHash), l.confHash)
  {
  }

  lemma DerivedRoot(H: Hash, view: AuthenticatedView, t: Full, i: nat)
    requires i < |view.leaves| && Leaves(t, []) == ShardsOf(H, view.leaves)
    ensures var id := view.leaves[i].shard;
            var uc := CertificateFor(view.leaves[i], ShardTreeCertificate(id, ShardTree.SiblingPath(H, t, id)), view);
            && |uc.shardTree.siblings| == |uc.shardTree.shard|
            && ComputedSealHash(H, uc) == Some(UnicityRoot(H, view.unicityTree, HashOf(H, t)))
  {
    hide ShardFold, HashOf, LeafHash, UnicityRoot, ShardTree.SiblingPath, ShardLeafHash;
    var id := view.leaves[i].shard;
    ShardTree.CertificateFolds(H, t, [], i);
    assert id[0..] == id;
    LeafHashAgrees(H, view.leaves[i]);
  }

  /** Every certificate derived from an authenticated view is accepted. */
  lemma DerivedAccepted(H: Hash, V: Verifier, tb: TrustBase, view: AuthenticatedView, labels: seq<Pending>, t: Full,
                        i: nat)
    requires i < |view.leaves| && Authenticated(H, V, tb, view, labels, t)
    ensures var id := view.leaves[i].shard;
            var uc := CertificateFor(view.leaves[i], ShardTreeCertificate(id, ShardTree.SiblingPath(H, t, id)), view);
            && OrdinaryVerdict(H, V, tb, uc) == Accepted
            && StrictVerdict(H, V, tb, uc, Context(None, None, None)) == Accepted
  {
    hide ComputedSealHash, HashOf, LeafHash, UnicityRoot, ShardTree.SiblingPath, QuorumVerdict, ShardTree.Arena;
    hide InputRecordCbor;
    hide ValidTrustBase, RecordRules, SealShape;
    DerivedRoot(H, view, t, i);
    assert view.leaves[i] in view.leaves && LeafAdmitted(view.leaves[i]);
  }

  /** The enclosing certificate is the one derived for its own shard. */
  lemma EnclosingIsDerived(H: Hash, view: PartitionView, enclosing: UnicityCertificate, t: Full,
                           tree: ShardTree.ShardTree)
    requires Commits(H, view, enclosing, t)
    ensures exists l :: l in view.leaves && enclosing == CertificateFor(l,
              ShardTreeCertificate(l.shard, ShardTree.SiblingPath(H, t, l.shard)),
              AuthenticatedView(view.leaves, tree, enclosing.unicityTree, enclosing.seal))
  {
    hide HashOf, UnicityRoot, ShardTree.SiblingPath, SealShape, Leaves;
    var l :| l in view.leaves && OwnLeaf(l, enclosing);
  }

  lemma ViewSorted(H: Hash, V: Verifier, tb: TrustBase, view: AuthenticatedView, labels: seq<Pending>, t: Full)
    requires Authenticated(H, V, tb, view, labels, t)
    ensures StrictlySorted(ShardIds(view.leaves))
  {
    hide Before, LeafHash, HashOf, UnicityRoot, SealVerdict, LeafAdmitted, ShardTree.Arena;
    var shards := ShardsOf(H, view.leaves);
    forall i, j | 0 <= i < j < |shards| ensures Before(shards[i].id, shards[j].id) {
      LeavesSorted(t, [], i, j);
    }
    assert forall i :: 0 <= i < |shards| ==> ShardIds(view.leaves)[i] == shards[i].id;
  }

  /** The authenticated leaf of a shard, by binary search. */
  method LeafOf(view: AuthenticatedView, shard: ShardId, ghost H: Hash, ghost V: Verifier, ghost tb: TrustBase,
                ghost labels: seq<Pending>, ghost t: Full)
    returns (r: Option<nat>)
    requires Authenticated(H, V, tb, view, labels, t)
    ensures r.Some? <==> shard in ShardIds(view.leaves)
    ensures r.Some? ==> r.value < |view.leaves| && view.leaves[r.value].shard == shard
  {
    hide Authenticated;
    ViewSorted(H, V, tb, view, labels, t);
    r := FindId(ShardIds(view.leaves), shard);
  }

  /** The certificate of one shard of the view. */
  method CertificateOf(H: Hash, view: AuthenticatedView, shard: ShardId, ghost V: Verifier, ghost tb: TrustBase,
                       ghost labels: seq<Pending>, ghost t: Full)
    returns (r: Option<UnicityCertificate>)
    requires Authenticated(H, V, tb, view, labels, t)
    ensures r.Some? <==> shard in ShardIds(view.leaves)
    ensures r.Some? ==> exists l :: l in view.leaves && l.shard == shard && r.value == DerivedFor(H, l, t, view.unicityTree, view.seal)
    ensures r.Some? ==> OrdinaryVerdict(H, V, tb, r.value) == Accepted
  {
    hide Authenticated, OrdinaryVerdict, StrictVerdict;
    var i := LeafOf(view, shard, H, V, tb, labels, t);
    if i.None? {
      return None;
    }
    r := Derive(H, view, i.value, V, tb, labels, t);
    assert view.leaves[i.value] in view.leaves;
  }
}
