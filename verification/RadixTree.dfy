/** The radix sparse Merkle trees that services keep, defined apart from the fold that verifies their
    paths, and the completeness of the certificates taken from them.
 */
module RadixTree {
  import opened Hashing
  import opened Radix
  import opened RadixPath

  /** A path-compressed tree: keys with bit `depth` clear on the left, set on the right. */
  datatype Tree =
    | Leaf(key: Digest, value: Bytes)
    | Junction(depth: nat, left: Tree, right: Tree)

  /** The tree holds `value` under `key`. */
  predicate Holds(t: Tree, key: Digest, value: Bytes) {
    match t
    case Leaf(k, v) => k == key && v == value
    case Junction(_, l, r) => Holds(l, key, value) || Holds(r, key, value)
  }

  predicate HasKey(t: Tree, key: Digest) {
    match t
    case Leaf(k, _) => k == key
    case Junction(_, l, r) => HasKey(l, key) || HasKey(r, key)
  }

  function FirstKey(t: Tree): (key: Digest)
    ensures HasKey(t, key)
  {
    match t
    case Leaf(k, _) => k
    case Junction(_, l, _) => FirstKey(l)
  }

  /** All keys of the tree have bit `i` equal to `b`. */
  ghost predicate AllBit(t: Tree, i: nat, b: bool)
    requires i < KEY_BITS
  {
    forall key: Digest :: HasKey(t, key) ==> BitAt(key, i) == b
  }

  /** All keys of the tree agree on the bits below `depth`. */
  ghost predicate CommonPrefix(t: Tree, depth: nat)
    requires depth <= KEY_BITS
  {
    forall key: Digest, i: nat :: HasKey(t, key) && i < depth ==> BitAt(key, i) == BitAt(FirstKey(t), i)
  }

  /** Junctions stand, from `start` on downwards, where the keys below them first differ. */
  ghost predicate Shaped(t: Tree, start: nat) {
    t.Junction? ==>
      && start <= t.depth < KEY_BITS && CommonPrefix(t, t.depth)
      && AllBit(t.left, t.depth, false) && AllBit(t.right, t.depth, true)
      && Shaped(t.left, t.depth + 1) && Shaped(t.right, t.depth + 1)
  }

  /** The root hash: a leaf commits to key and value, a junction to its depth, the common prefix of its
      keys, and its left and right child, in this order. */
  function RootOf(H: Hash, t: Tree): (d: Digest)
    requires Depths(t)
  {
    match t
    case Leaf(key, value) => H([0x00] + key + value)
    case Junction(depth, l, r) =>
      H([0x01, depth] + RegionOf(FirstKey(t), depth) + RootOf(H, l) + RootOf(H, r))
  }

  predicate Depths(t: Tree) { t.Junction? ==> t.depth < KEY_BITS && Depths(t.left) && Depths(t.right) }

  lemma {:induction false} ShapedDepths(t: Tree, start: nat)
    requires Shaped(t, start)
    ensures Depths(t)
  {
    if t.Junction? {
      ShapedDepths(t.left, t.depth + 1);
      ShapedDepths(t.right, t.depth + 1);
    }
  }

  // ---- the walk of a key ----

  function Side(t: Tree, target: Digest): (s: Tree)
    requires t.Junction? && t.depth < KEY_BITS
  {
    if BitAt(target, t.depth) then t.right else t.left
  }

  function OtherSide(t: Tree, target: Digest): (s: Tree)
    requires t.Junction? && t.depth < KEY_BITS
  {
    if BitAt(target, t.depth) then t.left else t.right
  }

  /** The leaf reached by choosing the side of `target` at every junction. */
  function Reached(t: Tree, target: Digest): (leaf: Tree)
    requires Depths(t)
    ensures leaf.Leaf? && HasKey(t, leaf.key) && Holds(t, leaf.key, leaf.value)
  {
    if t.Leaf? then t else Reached(Side(t, target), target)
  }

  /** The depths of the junctions on the way, and the other sides' hashes, root first. */
  function Turns(t: Tree, target: Digest): (s: set<nat>)
    requires Depths(t)
  {
    if t.Leaf? then {} else {t.depth} + Turns(Side(t, target), target)
  }

  function Siblings(H: Hash, t: Tree, target: Digest): (s: seq<Digest>)
    requires Depths(t)
  {
    if t.Leaf? then [] else [RootOf(H, OtherSide(t, target))] + Siblings(H, Side(t, target), target)
  }

  /** The bitmap with exactly the bits of `s` set. */
  function BitmapOf(s: set<nat>): (d: Digest) {
    seq(32, j requires 0 <= j < 32 => ByteOf(seq(8, k requires 0 <= k < 8 => j * 8 + k in s)))
  }

  lemma BitmapBits(s: set<nat>, i: nat)
    requires i < KEY_BITS
    ensures BitAt(BitmapOf(s), i) == (i in s)
  {
    var j, k := i / 8, i % 8;
    BitsOfByteOf(seq(8, k requires 0 <= k < 8 => j * 8 + k in s), k);
  }

  /** The path a service hands out for `target`. */
  function PathOf(H: Hash, t: Tree, target: Digest): (p: PathProof)
    requires Depths(t)
  {
    var leaf := Reached(t, target);
    PathProof(BitmapOf(Turns(t, target)), Siblings(H, t, target), leaf.key, leaf.value)
  }

  lemma {:induction false} HeldKey(t: Tree, key: Digest, value: Bytes)
    requires Holds(t, key, value)
    ensures HasKey(t, key)
  {
    if t.Junction? {
      if Holds(t.left, key, value) {
        HeldKey(t.left, key, value);
      } else {
        HeldKey(t.right, key, value);
      }
    }
  }

  /** What the walk of a key finds is all the tree has under it. */
  lemma {:induction false} ReachedIs(t: Tree, start: nat, key: Digest, value: Bytes)
    requires Shaped(t, start) && Depths(t)
    ensures HasKey(t, key) <==> Reached(t, key).key == key
    ensures Holds(t, key, value) <==> Reached(t, key) == Leaf(key, value)
  {
    hide CommonPrefix, BitAt;
    if t.Junction? {
      ReachedIs(Side(t, key), t.depth + 1, key, value);
      if Holds(OtherSide(t, key), key, value) {
        HeldKey(OtherSide(t, key), key, value);
      }
    }
  }

  // ---- completeness ----

  /** While no junction is passed, the fold stays where it is. */
  lemma {:induction false} FoldStays(H: Hash, p: PathProof, target: Digest, from: nat, to: nat)
    requires from <= to <= KEY_BITS && forall i: nat :: from <= i < to ==> !BitAt(p.bitmap, i)
    ensures FoldFrom(H, p, target, from) == FoldFrom(H, p, target, to)
    decreases KEY_BITS - from
  {
    if from < to {
      FoldStays(H, p, target, from + 1, to);
    }
  }

  lemma {:induction false} TurnsBelow(t: Tree, target: Digest, start: nat)
    requires Shaped(t, start) && Depths(t)
    ensures forall i: nat :: i in Turns(t, target) ==> start <= i < KEY_BITS
  {
    if t.Junction? {
      TurnsBelow(Side(t, target), target, t.depth + 1);
    }
  }

  /** The path `p` of `target` runs through `t`, which hangs below `above` junctions. */
  ghost predicate Through(H: Hash, p: PathProof, target: Digest, t: Tree, start: nat, above: nat) {
    && start <= KEY_BITS && Shaped(t, start) && Depths(t)
    && above <= |p.siblings| && p.siblings[above..] == Siblings(H, t, target)
    && (forall i: nat :: start <= i < KEY_BITS ==> BitAt(p.bitmap, i) == (i in Turns(t, target)))
    && Leaf(p.terminal, p.value) == Reached(t, target)
  }

  lemma ThroughSide(H: Hash, p: PathProof, target: Digest, t: Tree, start: nat, above: nat)
    requires Through(H, p, target, t, start, above) && t.Junction?
    ensures above < |p.siblings| && p.siblings[above] == RootOf(H, OtherSide(t, target))
    ensures BitAt(p.bitmap, t.depth) && forall i: nat :: start <= i < t.depth ==> !BitAt(p.bitmap, i)
    ensures Through(H, p, target, Side(t, target), t.depth + 1, above + 1)
    ensures BitAt(p.terminal, t.depth) == BitAt(target, t.depth)
    ensures HasKey(t, p.terminal)
  {
    hide BitAt, RootOf, CommonPrefix;
    TurnsBelow(Side(t, target), target, t.depth + 1);
    assert p.siblings[above + 1..] == p.siblings[above..][1..];
    forall i: nat | start <= i < t.depth ensures !BitAt(p.bitmap, i) {
      assert i !in Turns(t, target);
    }
  }

  lemma JunctionIs(H: Hash, t: Tree, target: Digest, terminal: Digest)
    requires t.Junction? && Depths(t) && CommonPrefix(t, t.depth) && HasKey(t, terminal)
    requires BitAt(terminal, t.depth) == BitAt(target, t.depth)
    ensures H(JunctionPreimage(terminal, t.depth, RootOf(H, Side(t, target)), RootOf(H, OtherSide(t, target))))
         == RootOf(H, t)
  {
    hide BitAt;
    RegionIsPrefix(terminal, FirstKey(t), t.depth);
    var l: Bytes, r: Bytes := RootOf(H, t.left), RootOf(H, t.right);
    var region: Bytes := RegionOf(terminal, t.depth);
    assert [0x01, t.depth] + region + (l + r) == [0x01, t.depth] + region + l + r;
  }

  /** The fold of a path carries, at every junction it passes, the root hash of the subtree there. */
  lemma {:induction false} FoldsToSubtree(H: Hash, p: PathProof, target: Digest, t: Tree, start: nat, above: nat)
    requires Through(H, p, target, t, start, above)
    ensures FoldFrom(H, p, target, start) == Some(PathState(RootOf(H, t), above))
    decreases t
  {
    hide Through, FoldFrom, RootOf, JunctionPreimage, BitAt, Turns, Siblings, Shaped, CommonPrefix, Reached;
    if t.Leaf? {
      AtLeaf(H, p, target, t, start, above);
      FoldStays(H, p, target, start, KEY_BITS);
      FoldAtLeaf(H, p, target);
    } else {
      AtDepth(H, p, target, t, start, above);
      ThroughSide(H, p, target, t, start, above);
      FoldsToSubtree(H, p, target, Side(t, target), t.depth + 1, above + 1);
      JunctionIs(H, t, target, p.terminal);
      FoldAtJunction(H, p, target, t.depth, RootOf(H, Side(t, target)), above);
      FoldStays(H, p, target, start, t.depth);
    }
  }

  lemma FoldAtLeaf(H: Hash, p: PathProof, target: Digest)
    ensures FoldFrom(H, p, target, KEY_BITS) == Some(PathState(H(LeafPreimage(p.terminal, p.value)), |p.siblings|))
  {
  }

  lemma FoldAtJunction(H: Hash, p: PathProof, target: Digest, depth: nat, below: Digest, above: nat)
    requires depth < KEY_BITS && BitAt(p.bitmap, depth) && BitAt(p.terminal, depth) == BitAt(target, depth)
    requires above < |p.siblings| && FoldFrom(H, p, target, depth + 1) == Some(PathState(below, above + 1))
    ensures FoldFrom(H, p, target, depth)
         == Some(PathState(H(JunctionPreimage(p.terminal, depth, below, p.siblings[above])), above))
  {
    hide BitAt, JunctionPreimage;
  }

  lemma AtLeaf(H: Hash, p: PathProof, target: Digest, t: Tree, start: nat, above: nat)
    requires Through(H, p, target, t, start, above) && t.Leaf?
    ensures start <= KEY_BITS && |p.siblings| == above && H(LeafPreimage(p.terminal, p.value)) == RootOf(H, t)
    ensures forall i: nat :: start <= i < KEY_BITS ==> !BitAt(p.bitmap, i)
  {
  }

  lemma AtDepth(H: Hash, p: PathProof, target: Digest, t: Tree, start: nat, above: nat)
    requires Through(H, p, target, t, start, above) && t.Junction?
    ensures start <= t.depth < KEY_BITS && Depths(t) && CommonPrefix(t, t.depth)
  {
  }

  /** Completeness: the path of any key, held or not, folds to the root of the tree. */
  lemma PathFolds(H: Hash, t: Tree, target: Digest)
    requires Shaped(t, 0) && Depths(t)
    ensures FoldedRoot(H, PathOf(H, t, target), target) == Some(RootOf(H, t))
  {
    hide Shaped, RootOf, BitmapOf, Turns, Siblings;
    var p := PathOf(H, t, target);
    forall i: nat | i < KEY_BITS ensures BitAt(p.bitmap, i) == (i in Turns(t, target)) {
      BitmapBits(Turns(t, target), i);
    }
    assert p.siblings[0..] == p.siblings;
    FoldsToSubtree(H, p, target, t, 0, 0);
  }

  // ---- certificates of a tree ----

  /** A store: no tree at all when it is empty, and then the certified root is `null`. */
  ghost predicate Store(t: Option<Tree>) { t.Some? ==> Shaped(t.value, 0) && Depths(t.value) }

  function StoreRoot(H: Hash, t: Option<Tree>): (r: Option<Digest>)
    requires t.Some? ==> Depths(t.value)
  {
    match t
    case None => None
    case Some(tree) => Some(RootOf(H, tree))
  }

  predicate Stored(t: Option<Tree>, key: Digest, value: Bytes) { t.Some? && Holds(t.value, key, value) }

  function InclusionFor(H: Hash, t: Tree, key: Digest): (c: InclusionCertificate)
    requires Depths(t)
  {
    InclusionCertificate(PathOf(H, t, key).bitmap, PathOf(H, t, key).siblings)
  }

  function NonInclusionFor(H: Hash, t: Option<Tree>, key: Digest): (c: NonInclusionCertificate)
    requires t.Some? ==> Depths(t.value)
  {
    match t
    case None => EmptyTree
    case Some(tree) => Terminal(PathOf(H, tree, key))
  }

  /** A stored value has an accepted inclusion certificate. */
  lemma StoredIsIncluded(H: Hash, t: Tree, key: Digest, value: Bytes)
    requires Shaped(t, 0) && Depths(t) && Holds(t, key, value)
    ensures VerifyInclusion(H, InclusionFor(H, t, key), key, value, RootOf(H, t))
  {
    hide Shaped, RootOf, FoldedRoot;
    ReachedIs(t, 0, key, value);
    PathFolds(H, t, key);
    assert AsPath(InclusionFor(H, t, key), key, value) == PathOf(H, t, key);
  }

  /** The certificate a store hands out for any key authenticates, and its classification says whether the
      key is stored. */
  lemma Classified(H: Hash, t: Option<Tree>, key: Digest)
    requires Store(t)
    ensures RelationToTrustedRoot(H, NonInclusionFor(H, t, key), key, StoreRoot(H, t))
         == Some(if exists value: Bytes :: Stored(t, key, value) then Present else Absent)
  {
    hide Shaped, RootOf, FoldedRoot, Holds;
    if t.Some? {
      PathFolds(H, t.value, key);
      var leaf := Reached(t.value, key);
      if leaf.key == key {
        assert Stored(t, key, leaf.value);
      }
      if value: Bytes :| Stored(t, key, value) {
        ReachedIs(t.value, 0, key, value);
      }
    }
  }

  /** The byte strings hashed to check a certificate, and those hashed for the store's own path. */
  ghost function PathHashed(H: Hash, t: Tree, p: PathProof, key: Digest): (s: set<Bytes>)
    requires Depths(t)
  {
    Hashed(H, p, key, 0) + Hashed(H, PathOf(H, t, key), key, 0)
  }

  /** Whatever inclusion certificate is accepted against the root of a tree, the value is in the tree. */
  lemma IncludedIsStored(H: Hash, t: Tree, c: InclusionCertificate, key: Digest, value: Bytes)
    requires Shaped(t, 0) && Depths(t) && VerifyInclusion(H, c, key, value, RootOf(H, t))
    ensures (c == InclusionFor(H, t, key) && Holds(t, key, value))
         || Collision(H, PathHashed(H, t, AsPath(c, key, value), key))
  {
    hide Shaped, RootOf, FoldedRoot, Hashed, Holds;
    ReachedIs(t, 0, key, value);
    PathFolds(H, t, key);
    PathUnique(H, AsPath(c, key, value), PathOf(H, t, key), key);
  }

  /** Whatever certificate is accepted as proof of absence against the root of a store, the key is not in
      the store. */
  lemma AbsentIsNotStored(H: Hash, t: Option<Tree>, c: NonInclusionCertificate, key: Digest)
    requires Store(t) && RelationToTrustedRoot(H, c, key, StoreRoot(H, t)) == Some(Absent)
    ensures (c == NonInclusionFor(H, t, key) && forall value: Bytes :: !Stored(t, key, value))
         || (t.Some? && c.Terminal? && Collision(H, PathHashed(H, t.value, c.path, key)))
  {
    hide Shaped, RootOf, FoldedRoot, Hashed, Holds;
    if t.Some? {
      PathFolds(H, t.value, key);
      if value: Bytes :| Stored(t, key, value) {
        ReachedIs(t.value, 0, key, value);
      }
      PathUnique(H, c.path, PathOf(H, t.value, key), key);
    }
  }

  /** A certificate is accepted for exactly one of the two: that some value is stored under the key, and
      that none is. */
  lemma IncludedOrAbsent(H: Hash, t: Option<Tree>, key: Digest)
    requires Store(t)
    ensures (exists value: Bytes :: && Stored(t, key, value)
                             && VerifyInclusion(H, InclusionFor(H, t.value, key), key, value, StoreRoot(H, t).value))
       <==> RelationToTrustedRoot(H, NonInclusionFor(H, t, key), key, StoreRoot(H, t)) != Some(Absent)
  {
    hide Shaped, RootOf, FoldedRoot, Hashed, Holds, RelationToTrustedRoot;
    Classified(H, t, key);
    if value: Bytes :| Stored(t, key, value) {
      StoredIsIncluded(H, t.value, key, value);
    }
  }
}
