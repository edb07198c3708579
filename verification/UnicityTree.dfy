/** The tree of all partitions, and the completeness of certificates: for every shard of every partition
    there is a path by which a certificate computes the root of the whole tree.
 */
module UnicityTree {
  import opened Hashing
  import opened CborHead
  import opened Bft
  import ShardPass
  import ShardTree
  import Assemble

  /** A search tree over the shard tree roots of the partitions: those up to `key` on the left, those
      above it on the right. */
  datatype PartitionTree =
    | One(partition: U32, root: Data)
    | Fork(key: U32, left: PartitionTree, right: PartitionTree)

  predicate Has(t: PartitionTree, partition: U32, root: Data) {
    match t
    case One(p, r) => p == partition && r == root
    case Fork(_, l, r) => Has(l, partition, root) || Has(r, partition, root)
  }

  ghost predicate Below(t: PartitionTree, key: U32) {
    forall partition: U32, root: Data :: Has(t, partition, root) ==> partition <= key
  }

  ghost predicate Above(t: PartitionTree, key: U32) {
    forall partition: U32, root: Data :: Has(t, partition, root) ==> partition > key
  }

  ghost predicate Sorted(t: PartitionTree) {
    t.Fork? ==> Below(t.left, t.key) && Above(t.right, t.key) && Sorted(t.left) && Sorted(t.right)
  }

  /** A leaf commits to the partition and its root, a fork to its key and to its left and right child, in
      this order. */
  function RootOf(H: Hash, t: PartitionTree): (d: Digest) {
    match t
    case One(p, r) =>
      H(EncodeByteString([0x01]) + EncodeByteString(KeyBytes(p)) + EncodeByteString(H(EncodeByteString(r))))
    case Fork(key, l, r) =>
      H(EncodeByteString([0x00]) + EncodeByteString(KeyBytes(key))
        + EncodeByteString(RootOf(H, l)) + EncodeByteString(RootOf(H, r)))
  }

  /** The path of a partition, from its leaf upwards. */
  function Steps(H: Hash, t: PartitionTree, partition: U32): (s: seq<HashStep>) {
    match t
    case One(_, _) => []
    case Fork(key, l, r) =>
      if partition <= key then Steps(H, l, partition) + [HashStep(key, RootOf(H, r))]
      else Steps(H, r, partition) + [HashStep(key, RootOf(H, l))]
  }

  /** Later steps do not matter for earlier folds. */
  lemma {:induction false} FoldPrefix(H: Hash, p: U32, s: seq<HashStep>, x: HashStep, root: Data, n: nat)
    requires n <= |s|
    ensures PartitionFold(H, UnicityTreeCertificate(p, s + [x]), root, n)
         == PartitionFold(H, UnicityTreeCertificate(p, s), root, n)
  {
    hide EncodeByteString, KeyBytes;
    if n > 0 {
      FoldPrefix(H, p, s, x, root, n - 1);
    }
  }

  lemma FoldLast(H: Hash, p: U32, s: seq<HashStep>, x: HashStep, root: Data)
    ensures UnicityRoot(H, UnicityTreeCertificate(p, s + [x]), root)
         == var below := UnicityRoot(H, UnicityTreeCertificate(p, s), root);
            var head := EncodeByteString([0x00]) + EncodeByteString(KeyBytes(x.key));
            if p > x.key then H(head + EncodeByteString(x.hash) + EncodeByteString(below))
            else H(head + EncodeByteString(below) + EncodeByteString(x.hash))
  {
    hide EncodeByteString, KeyBytes;
    FoldPrefix(H, p, s, x, root, |s|);
    assert (s + [x])[|s|] == x;
  }

  /** The path of a partition leads from its shard tree root to the root of the tree. */
  lemma {:induction false} StepsFold(H: Hash, t: PartitionTree, partition: U32, root: Data)
    requires Sorted(t) && Has(t, partition, root)
    ensures UnicityRoot(H, UnicityTreeCertificate(partition, Steps(H, t, partition)), root) == RootOf(H, t)
  {
    hide EncodeByteString, KeyBytes, UnicityRoot;
    match t {
      case One(_, _) => LeafFold(H, partition, root);
      case Fork(key, l, r) =>
        var child := if partition <= key then l else r;
        StepsFold(H, child, partition, root);
        FoldLast(H, partition, Steps(H, child, partition),
                 HashStep(key, RootOf(H, if partition <= key then r else l)), root);
    }
  }

  lemma LeafFold(H: Hash, partition: U32, root: Data)
    ensures UnicityRoot(H, UnicityTreeCertificate(partition, []), root) == RootOf(H, One(partition, root))
  {
    hide EncodeByteString, KeyBytes;
  }

  /** Completeness: where partition `partition` has the shard tree `s`, every record that is a leaf of it
      has a certificate that computes the root of the whole tree. */
  lemma EveryShardCertified(H: Hash, t: PartitionTree, partition: U32, s: ShardPass.Full, leaf: Assemble.ViewLeaf,
                            i: nat, seal: UnicitySeal)
    requires Sorted(t) && Has(t, partition, ShardPass.HashOf(H, s)) && seal.hash == RootOf(H, t)
    requires i < |ShardPass.Leaves(s, [])|
    requires ShardPass.Leaves(s, [])[i] == ShardPass.Shard(leaf.shard, Assemble.LeafHash(H, leaf))
    ensures ComputedSealHash(H, Assemble.DerivedFor(H, leaf, s, UnicityTreeCertificate(partition, Steps(H, t, partition)), seal))
         == Some(seal.hash)
  {
    hide ShardFold, UnicityRoot, ShardPass.HashOf, Assemble.LeafHash, ShardTree.SiblingPath, ShardLeafHash, RootOf;
    StepsFold(H, t, partition, ShardPass.HashOf(H, s));
    ShardTree.CertificateFolds(H, s, [], i);
    assert leaf.shard[0..] == leaf.shard;
    Assemble.LeafHashAgrees(H, leaf);
  }
}
