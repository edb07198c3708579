/** What an authenticated view says: it is the only view its seal admits, and every key belongs to exactly
    one of its leaves.
 */
module ViewBinding {
  import opened Hashing
  import opened CborHead
  import opened Bft
  import opened Quorum
  import opened Certificates
  import opened CertificateBinding
  import opened ShardOrder
  import opened ShardPass
  import opened ShardScheme
  import opened Assemble
  import Topology
  import ShardTree

  // ---- every key has one leaf ----

  /** The shards of a view that passes the structure check are complete and disjoint, are those of the
      scheme, and carry the pinned configurations. */
  lemma EveryKeyOneLeaf(view: PartitionView, pins: Option<Pins>, key: Digest)
    requires StructureOk(view, pins)
    ensures exists i :: 0 <= i < |view.leaves| && view.leaves[i].shard <= Topology.KeyBits(key)
    ensures forall i, j :: 0 <= i < j < |view.leaves| ==>
              !(view.leaves[i].shard <= Topology.KeyBits(key) && view.leaves[j].shard <= Topology.KeyBits(key))
    ensures pins.Some? ==> forall l :: l in view.leaves && l.shard in pins.value.confHashes ==>
                             pins.value.confHashes[l.shard] == l.confHash
    ensures pins.Some? && pins.value.scheme != [] ==> forall l :: l in view.leaves ==> l.shard in pins.value.scheme
  {
    hide LeafAdmitted, Before, Topology.KeyBits, Covered;
    var ids, bits := ShardIds(view.leaves), Topology.KeyBits(key);
    SchemeIds(view, pins);
    assert HasPrefix(ids, bits) by { CoveredKey(ids, bits); }
    var k :| 0 <= k < |ids| && ids[k] <= bits;
    assert view.leaves[k].shard <= bits;
    forall i, j | 0 <= i < j < |view.leaves| && view.leaves[i].shard <= bits && view.leaves[j].shard <= bits
      ensures false
    {
      assert ids[i] <= bits && ids[j] <= bits;
      NestedBelow(ids[i], ids[j], bits);
    }
  }

  /** How large a view can be that passes the structure check. */
  lemma ViewBounds(view: PartitionView, pins: Option<Pins>)
    requires StructureOk(view, pins)
    ensures view.partition == 7 && 1 <= |view.leaves| <= 8
    ensures forall l :: l in view.leaves ==>
              && |l.shard| <= 256 && |l.trHash| == 32 && |l.confHash| == 32
              && |InputRecordCbor(l.inputRecord)| <= 1024
              && (l.inputRecord.summaryValue.Some? ==> |l.inputRecord.summaryValue.value| <= 256)
    ensures forall l, h :: l in view.leaves && h in HashesOf(l.inputRecord) ==> |h| == 0 || |h| == 32
    ensures forall l :: l in view.leaves && l.inputRecord.roundNumber > 0 ==>
                          l.inputRecord.summaryValue.Some? && l.inputRecord.timestamp > 0
  {
    hide InputRecordCbor, InOrder, ConfigurationsMatch, SchemeOf;
    assert forall l :: l in view.leaves ==> LeafAdmitted(l);
  }

  /** The hashes present in a record. */
  function HashesOf(ir: InputRecord): (s: set<Data>) {
    Present(ir.hash) + Present(ir.previousHash) + Present(ir.blockHash) + Present(ir.executedTransactionsHash)
  }

  function Present(h: Option<Data>): (s: set<Data>) { if h.Some? then {h.value} else {} }

  lemma CoveredKey(ids: seq<ShardId>, key: ShardId)
    requires Covered(ids, [], 256) && |key| == 256
    ensures HasPrefix(ids, key)
  {
    assert [] <= key;
  }

  lemma NestedBelow(a: ShardId, b: ShardId, key: ShardId)
    requires a <= key && b <= key
    ensures Nested(a, b)
  {
    if |a| <= |b| {
      assert a == key[..|a|] == b[..|a|];
    } else {
      assert b == key[..|b|] == a[..|b|];
    }
  }

  lemma SchemeIds(view: PartitionView, pins: Option<Pins>)
    requires StructureOk(view, pins)
    ensures PrefixFree(ShardIds(view.leaves)) && Covered(ShardIds(view.leaves), [], 256)
    ensures pins.Some? && pins.value.scheme != [] ==> forall l :: l in view.leaves ==> l.shard in pins.value.scheme
  {
    hide LeafAdmitted, Before, Covered, CheckBounds;
    var ids, scheme := ShardIds(view.leaves), SchemeOf(view, pins);
    if scheme == [] {
      Topology.RootCanonical();
    } else {
      Topology.Permuted(scheme, ids);
      forall l | l in view.leaves ensures l.shard in scheme {
        var i :| 0 <= i < |view.leaves| && view.leaves[i] == l;
        assert ids[i] in multiset(ids);
      }
    }
  }

  // ---- one view per seal ----

  /** The certificate the view's `i`-th leaf gets. */
  ghost function LeafCertificate(H: Hash, view: AuthenticatedView, t: Full, i: nat): (uc: UnicityCertificate)
    requires i < |view.leaves|
  {
    DerivedFor(H, view.leaves[i], t, view.unicityTree, view.seal)
  }

  /** The byte strings hashed for the certificates of all leaves. */
  ghost function ViewHashed(H: Hash, view: AuthenticatedView, t: Full): (s: set<Bytes>) {
    set i, x | 0 <= i < |view.leaves| && x in CertificateHashed(H, LeafCertificate(H, view, t, i)) :: x
  }

  lemma LeafHashedIn(H: Hash, view: AuthenticatedView, t: Full, i: nat)
    requires i < |view.leaves|
    ensures CertificateHashed(H, LeafCertificate(H, view, t, i)) <= ViewHashed(H, view, t)
  {
    hide CertificateHashed, LeafCertificate;
  }

  lemma LeafCertificateIs(H: Hash, V: Verifier, tb: TrustBase, view: AuthenticatedView, labels: seq<Pending>, t: Full,
                          i: nat)
    requires i < |view.leaves| && Authenticated(H, V, tb, view, labels, t)
    ensures ComputedSealHash(H, LeafCertificate(H, view, t, i)) == Some(view.seal.hash)
    ensures LeafCertificate(H, view, t, i).unicityTree.partition == AGGREGATION_PARTITION_ID
  {
    hide ComputedSealHash, HashOf, LeafHash, UnicityRoot, ShardTree.SiblingPath, SealVerdict, ShardTree.Arena;
    hide LeafAdmitted;
    DerivedRoot(H, view, t, i);
  }

  /** Every key of 256 bits lies in some shard of an authenticated view. */
  lemma ViewCovers(H: Hash, V: Verifier, tb: TrustBase, view: AuthenticatedView, labels: seq<Pending>, t: Full,
                   key: ShardId)
    requires Authenticated(H, V, tb, view, labels, t) && |key| == 256
    ensures HasPrefix(ShardIds(view.leaves), key)
  {
    hide HashOf, LeafHash, UnicityRoot, SealVerdict, ShardTree.Arena, Leaves, StrictlySorted, PrefixFree, Covered;
    hide Tiles, RecordAdmitted;
    var shards := ShardsOf(H, view.leaves);
    assert Tiles(shards) by { TilesBy(shards, t); }
    forall i | 0 <= i < |shards| ensures [] <= Ids(shards)[i] && |Ids(shards)[i]| <= 256 {
      assert view.leaves[i] in view.leaves;
    }
    TilesExactly(shards, 256);
    CoveredKey(Ids(shards), key);
    assert Ids(shards) == ShardIds(view.leaves);
  }

  lemma TilesBy(shards: seq<Shard>, t: Full)
    requires Leaves(t, []) == shards
    ensures Tiles(shards)
  {
  }

  /** Both views are authenticated, hash within `hashed`, and their seals carry one hash. */
  ghost predicate Rivals(H: Hash, V: Verifier, tb: TrustBase, hashed: set<Bytes>,
                         a: AuthenticatedView, la: seq<Pending>, s: Full,
                         b: AuthenticatedView, lb: seq<Pending>, t: Full) {
    && Authenticated(H, V, tb, a, la, s) && Authenticated(H, V, tb, b, lb, t) && a.seal.hash == b.seal.hash
    && !Collision(H, hashed) && ViewHashed(H, a, s) <= hashed && ViewHashed(H, b, t) <= hashed
  }

  lemma LeafInOther(H: Hash, V: Verifier, tb: TrustBase, hashed: set<Bytes>, a: AuthenticatedView, la: seq<Pending>,
                    s: Full, b: AuthenticatedView, lb: seq<Pending>, t: Full, i: nat)
    requires Rivals(H, V, tb, hashed, a, la, s, b, lb, t) && i < |a.leaves|
    ensures a.leaves[i] in b.leaves && a.unicityTree == b.unicityTree
  {
    hide Authenticated, ViewHashed, ComputedSealHash, CertificateHashed, ShardTree.SiblingPath;
    var id := a.leaves[i].shard;
    ShardSize(H, V, tb, a, la, s, i);
    var key := Pad(id, 256);
    ViewCovers(H, V, tb, b, lb, t, key);
    var j :| 0 <= j < |b.leaves| && ShardIds(b.leaves)[j] <= key;
    NestedBelow(id, b.leaves[j].shard, key);
    LeafCertificateIs(H, V, tb, a, la, s, i);
    LeafCertificateIs(H, V, tb, b, lb, t, j);
    LeafHashedIn(H, a, s, i);
    LeafHashedIn(H, b, t, j);
    var x, y := LeafCertificate(H, a, s, i), LeafCertificate(H, b, t, j);
    SealBinds(H, x, y);
    if Collision(H, CertificateHashed(H, x) + CertificateHashed(H, y)) {
      CollisionMonotone(H, CertificateHashed(H, x) + CertificateHashed(H, y), hashed);
    }
    assert b.leaves[j] == a.leaves[i];
  }

  lemma ShardSize(H: Hash, V: Verifier, tb: TrustBase, view: AuthenticatedView, labels: seq<Pending>, t: Full, i: nat)
    requires Authenticated(H, V, tb, view, labels, t) && i < |view.leaves|
    ensures |view.leaves[i].shard| <= 256
  {
    hide RecordAdmitted, SealVerdict, ShardTree.WellBuilt, UnicityRoot;
    assert view.leaves[i] in view.leaves;
  }

  /** Lists sorted by shard with the same leaves are equal. */
  lemma {:induction false} SameLeaves(a: seq<ViewLeaf>, b: seq<ViewLeaf>)
    requires StrictlySorted(ShardIds(a)) && StrictlySorted(ShardIds(b)) && forall l :: l in a <==> l in b
    ensures a == b
    decreases |a|
  {
    if b != [] { assert b[0] in b && b[0] in a; }
    if a != [] {
      assert a[0] in a && a[0] in b;
      SameHead(a, b);
      SortedTail(a);
      SortedTail(b);
      forall l ensures l in a[1..] <==> l in b[1..] {
        assert l in a <==> l == a[0] || l in a[1..];
        assert l in b <==> l == b[0] || l in b[1..];
      }
      SameLeaves(a[1..], b[1..]);
      assert a == [a[0]] + a[1..] && b == [b[0]] + b[1..];
    }
  }

  lemma SortedTail(a: seq<ViewLeaf>)
    requires a != [] && StrictlySorted(ShardIds(a))
    ensures StrictlySorted(ShardIds(a[1..])) && a[0] !in a[1..]
  {
    hide Before;
    assert ShardIds(a[1..]) == ShardIds(a)[1..];
    if a[0] in a[1..] {
      var j :| 0 <= j < |a| - 1 && a[1..][j] == a[0];
      assert Before(ShardIds(a)[0], ShardIds(a)[j + 1]);
      NotBoth(a[0].shard, a[0].shard);
    }
  }

  lemma SameHead(a: seq<ViewLeaf>, b: seq<ViewLeaf>)
    requires a != [] && b != []
    requires StrictlySorted(ShardIds(a)) && StrictlySorted(ShardIds(b)) && forall l :: l in a <==> l in b
    ensures a[0] == b[0]
  {
    hide Before;
    assert a[0] in b && b[0] in a;
    var i :| 0 <= i < |a| && a[i] == b[0];
    var j :| 0 <= j < |b| && b[j] == a[0];
    if i > 0 && j > 0 {
      assert Before(ShardIds(a)[0], ShardIds(a)[i]) && Before(ShardIds(b)[0], ShardIds(b)[j]);
      NotBoth(a[0].shard, b[0].shard);
    }
  }

  lemma SomeLeaf(H: Hash, V: Verifier, tb: TrustBase, view: AuthenticatedView, labels: seq<Pending>, t: Full)
    requires Authenticated(H, V, tb, view, labels, t)
    ensures view.leaves != []
  {
    hide HashOf, LeafHash, UnicityRoot, SealVerdict, ShardTree.Arena, LeafAdmitted;
    assert |ShardsOf(H, view.leaves)| > 0;
  }

  /** A seal admits one view: two authenticated views whose seals carry one hash have the same leaves and
      the same partition path, unless two of the byte strings hashed for their certificates collide. */
  lemma OneViewPerSeal(H: Hash, V: Verifier, tb: TrustBase, a: AuthenticatedView, la: seq<Pending>, s: Full,
                       b: AuthenticatedView, lb: seq<Pending>, t: Full)
    requires Authenticated(H, V, tb, a, la, s) && Authenticated(H, V, tb, b, lb, t) && a.seal.hash == b.seal.hash
    ensures (a.leaves == b.leaves && a.unicityTree == b.unicityTree)
         || Collision(H, ViewHashed(H, a, s) + ViewHashed(H, b, t))
  {
    hide Authenticated, ViewHashed, StrictlySorted;
    var hashed := ViewHashed(H, a, s) + ViewHashed(H, b, t);
    if !Collision(H, hashed) {
      forall l ensures l in a.leaves <==> l in b.leaves {
        if l in a.leaves {
          var i :| 0 <= i < |a.leaves| && a.leaves[i] == l;
          LeafInOther(H, V, tb, hashed, a, la, s, b, lb, t, i);
        }
        if l in b.leaves {
          var j :| 0 <= j < |b.leaves| && b.leaves[j] == l;
          LeafInOther(H, V, tb, hashed, b, lb, t, a, la, s, j);
        }
      }
      ViewSorted(H, V, tb, a, la, s);
      ViewSorted(H, V, tb, b, lb, t);
      SameLeaves(a.leaves, b.leaves);
      SomeLeaf(H, V, tb, a, la, s);
      LeafInOther(H, V, tb, hashed, a, la, s, b, lb, t, 0);
    }
  }
}
