/** Leaf-to-root folding of radix sparse Merkle paths, and the inclusion and non-inclusion
    certificates built on it.

    One path proof for a target key ends in a terminal leaf.  The same fold serves inclusion (the
    terminal is the target) and non-inclusion (the terminal is another key).
 */
module RadixPath {
  import opened Hashing
  import opened Radix

  /** A bitmap of junction depths, the sibling hashes root first, and the terminal leaf. */
  datatype PathProof = PathProof(bitmap: Digest, siblings: seq<Digest>, terminal: Digest, value: Bytes)

  datatype PathState = PathState(hash: Digest, position: nat)

  function LeafPreimage(key: Digest, value: Bytes): (p: Bytes)
    ensures |p| == 33 + |value| && p[0] == 0
  {
    [0x00] + key + value
  }

  function JunctionPreimage(terminal: Digest, depth: nat, hash: Digest, sibling: Digest): (p: Bytes)
    requires depth < KEY_BITS
    ensures |p| == 98 && p[0] == 1 && p[1] == depth
  {
    [0x01, depth] + RegionOf(terminal, depth) +
    (if BitAt(terminal, depth) then sibling + hash else hash + sibling)
  }

  /** State of the fold once every depth from 255 down to `depth` has been visited. */
  function FoldFrom(H: Hash, p: PathProof, target: Digest, depth: nat): (r: Option<PathState>)
    requires depth <= KEY_BITS
    ensures r.Some? ==> r.value.position <= |p.siblings|
    decreases KEY_BITS - depth, p
  {
    if depth == KEY_BITS then
      Some(PathState(H(LeafPreimage(p.terminal, p.value)), |p.siblings|))
    else
      match FoldFrom(H, p, target, depth + 1)
      case None => None
      case Some(s) =>
        if !BitAt(p.bitmap, depth) then Some(s)
        else if s.position == 0 || BitAt(target, depth) != BitAt(p.terminal, depth) then None
        else
          var sibling := p.siblings[s.position - 1];
          Some(PathState(H(JunctionPreimage(p.terminal, depth, s.hash, sibling)), s.position - 1))
  }

  /** The root the path folds to, when every sibling is consumed exactly. */
  function FoldedRoot(H: Hash, p: PathProof, target: Digest): (r: Option<Digest>) {
    match FoldFrom(H, p, target, 0)
    case None => None
    case Some(s) => if s.position == 0 then Some(s.hash) else None
  }

  /** One pass over the depths, deepest first, updating the hash and the sibling position. */
  method FoldCertificatePath(H: Hash, p: PathProof, target: Digest) returns (r: Option<Digest>)
    ensures r == FoldedRoot(H, p, target)
  {
    var hash := H(LeafPreimage(p.terminal, p.value));
    var position: nat := |p.siblings|;
    for depth := KEY_BITS downto 0
      invariant position <= |p.siblings|
      invariant FoldFrom(H, p, target, depth) == Some(PathState(hash, position))
    {
      if !BitAt(p.bitmap, depth) {
        continue;
      }
      if position == 0 || BitAt(target, depth) != BitAt(p.terminal, depth) {
        FoldStaysNone(H, p, target, depth, 0);
        return None;
      }
      position := position - 1;
      var region := PrefixRegion(p.terminal, depth);
      var sibling: Bytes, child: Bytes := p.siblings[position], hash;
      var pair := if BitAt(p.terminal, depth) then sibling + child else child + sibling;
      hash := H([0x01, depth] + region[..] + pair);
    }
    r := if position == 0 then Some(hash) else None;
  }

  lemma {:induction false} FoldStaysNone(H: Hash, p: PathProof, target: Digest, depth: nat, lower: nat)
    requires lower <= depth <= KEY_BITS
    requires FoldFrom(H, p, target, depth).None?
    ensures FoldFrom(H, p, target, lower).None?
    decreases depth - lower
  {
    if lower < depth {
      FoldStaysNone(H, p, target, depth, lower + 1);
    }
  }

  /** The byte strings hashed while visiting depths 255 down to `depth`. */
  ghost function Hashed(H: Hash, p: PathProof, target: Digest, depth: nat): (s: set<Bytes>)
    requires depth <= KEY_BITS
    decreases KEY_BITS - depth, p
  {
    if depth == KEY_BITS then {LeafPreimage(p.terminal, p.value)}
    else
      Hashed(H, p, target, depth + 1) +
      match FoldFrom(H, p, target, depth + 1)
      case None => {}
      case Some(s) =>
        if BitAt(p.bitmap, depth) && s.position != 0
        then {JunctionPreimage(p.terminal, depth, s.hash, p.siblings[s.position - 1])} else {}
  }

  /** The byte string whose digest the fold carries after visiting `depth`. */
  ghost function Top(H: Hash, p: PathProof, target: Digest, depth: nat): (x: Bytes)
    requires depth <= KEY_BITS && FoldFrom(H, p, target, depth).Some?
    ensures x in Hashed(H, p, target, depth)
    ensures H(x) == FoldFrom(H, p, target, depth).value.hash
    ensures |x| >= 33 && (x[0] == 0 || (x[0] == 1 && x[1] >= depth))
    decreases KEY_BITS - depth, p
  {
    if depth == KEY_BITS then LeafPreimage(p.terminal, p.value)
    else
      var s := FoldFrom(H, p, target, depth + 1).value;
      if BitAt(p.bitmap, depth) then JunctionPreimage(p.terminal, depth, s.hash, p.siblings[s.position - 1])
      else Top(H, p, target, depth + 1)
  }

  /** Two folds carry the same digest after visiting `depth`, and nothing they hashed collides. */
  ghost predicate SameAt(H: Hash, hashed: set<Bytes>, a: PathProof, b: PathProof, target: Digest, depth: nat)
  {
    && depth <= KEY_BITS
    && !Collision(H, hashed)
    && Hashed(H, a, target, depth) <= hashed && Hashed(H, b, target, depth) <= hashed
    && FoldFrom(H, a, target, depth).Some? && FoldFrom(H, b, target, depth).Some?
    && FoldFrom(H, a, target, depth).value.hash == FoldFrom(H, b, target, depth).value.hash
  }

  lemma JunctionInjective(ta: Digest, tb: Digest, depth: nat, ha: Digest, hb: Digest, sa: Digest, sb: Digest)
    requires depth < KEY_BITS && BitAt(ta, depth) == BitAt(tb, depth)
    requires JunctionPreimage(ta, depth, ha, sa) == JunctionPreimage(tb, depth, hb, sb)
    ensures ha == hb && sa == sb
  {
    var xa, xb := JunctionPreimage(ta, depth, ha, sa), JunctionPreimage(tb, depth, hb, sb);
    if BitAt(ta, depth) {
      assert xa[34..66] == sa && xb[34..66] == sb;
      assert xa[66..98] == ha && xb[66..98] == hb;
    } else {
      assert xa[34..66] == ha && xb[34..66] == hb;
      assert xa[66..98] == sa && xb[66..98] == sb;
    }
  }

  lemma LeafInjective(ka: Digest, kb: Digest, va: Bytes, vb: Bytes)
    requires LeafPreimage(ka, va) == LeafPreimage(kb, vb)
    ensures ka == kb && va == vb
  {
    var xa, xb := LeafPreimage(ka, va), LeafPreimage(kb, vb);
    assert xa[1..33] == ka && xb[1..33] == kb;
    assert xa[33..] == va && xb[33..] == vb;
  }

  lemma SameTop(H: Hash, hashed: set<Bytes>, a: PathProof, b: PathProof, target: Digest, depth: nat)
    requires SameAt(H, hashed, a, b, target, depth)
    ensures Top(H, a, target, depth) == Top(H, b, target, depth)
  {
    SamePreimage(H, hashed, Top(H, a, target, depth), Top(H, b, target, depth));
  }

  /** A junction of one path is a junction of the other. */
  lemma SameBit(H: Hash, hashed: set<Bytes>, a: PathProof, b: PathProof, target: Digest, depth: nat)
    requires depth < KEY_BITS && SameAt(H, hashed, a, b, target, depth)
    ensures BitAt(a.bitmap, depth) == BitAt(b.bitmap, depth)
  {
    SameTop(H, hashed, a, b, target, depth);
  }

  /** Below a common junction both folds carry the same digest and used the same sibling. */
  lemma SameJunction(H: Hash, hashed: set<Bytes>, a: PathProof, b: PathProof, target: Digest, depth: nat)
    requires depth < KEY_BITS && SameAt(H, hashed, a, b, target, depth)
    requires BitAt(a.bitmap, depth) && BitAt(b.bitmap, depth)
    ensures SameAt(H, hashed, a, b, target, depth + 1)
    ensures var pa := FoldFrom(H, a, target, depth).value.position;
            var pb := FoldFrom(H, b, target, depth).value.position;
            pa < |a.siblings| && pb < |b.siblings| && a.siblings[pa] == b.siblings[pb]
    ensures FoldFrom(H, a, target, depth).value.position + 1 == FoldFrom(H, a, target, depth + 1).value.position
    ensures FoldFrom(H, b, target, depth).value.position + 1 == FoldFrom(H, b, target, depth + 1).value.position
  {
    SameTop(H, hashed, a, b, target, depth);
    var sa, sb := FoldFrom(H, a, target, depth + 1).value, FoldFrom(H, b, target, depth + 1).value;
    JunctionInjective(a.terminal, b.terminal, depth, sa.hash, sb.hash,
                      a.siblings[sa.position - 1], b.siblings[sb.position - 1]);
  }

  /** The two paths have the same junctions from `depth` on. */
  ghost predicate SameBits(a: PathProof, b: PathProof, depth: nat) {
    forall i :: depth <= i < KEY_BITS ==> BitAt(a.bitmap, i) == BitAt(b.bitmap, i)
  }

  /** The siblings a fold has consumed by the time it has visited `depth`. */
  ghost function Consumed(H: Hash, p: PathProof, target: Digest, depth: nat): (s: seq<Digest>)
    requires depth <= KEY_BITS
  {
    match FoldFrom(H, p, target, depth)
    case None => []
    case Some(s) => p.siblings[s.position..]
  }

  /** Folds that carry the same digest agree on everything below it. */
  lemma {:induction false} SamePath(H: Hash, hashed: set<Bytes>, a: PathProof, b: PathProof, target: Digest, depth: nat)
    requires SameAt(H, hashed, a, b, target, depth)
    ensures a.terminal == b.terminal && a.value == b.value
    ensures SameBits(a, b, depth)
    ensures Consumed(H, a, target, depth) == Consumed(H, b, target, depth)
    decreases KEY_BITS - depth
  {
    if depth == KEY_BITS {
      SameTop(H, hashed, a, b, target, depth);
      LeafInjective(a.terminal, b.terminal, a.value, b.value);
    } else {
      SameStep(H, hashed, a, b, target, depth);
      SamePath(H, hashed, a, b, target, depth + 1);
    }
  }

  /** One depth of the comparison. */
  lemma SameStep(H: Hash, hashed: set<Bytes>, a: PathProof, b: PathProof, target: Digest, depth: nat)
    requires depth < KEY_BITS && SameAt(H, hashed, a, b, target, depth)
    ensures SameAt(H, hashed, a, b, target, depth + 1)
    ensures SameBits(a, b, depth + 1) ==> SameBits(a, b, depth)
    ensures Consumed(H, a, target, depth + 1) == Consumed(H, b, target, depth + 1)
        ==> Consumed(H, a, target, depth) == Consumed(H, b, target, depth)
  {
    SameBit(H, hashed, a, b, target, depth);
    if BitAt(a.bitmap, depth) {
      SameJunction(H, hashed, a, b, target, depth);
      ConsumeOne(H, a, target, depth);
      ConsumeOne(H, b, target, depth);
    }
  }

  lemma ConsumeOne(H: Hash, p: PathProof, target: Digest, depth: nat)
    requires depth < KEY_BITS && FoldFrom(H, p, target, depth).Some? && BitAt(p.bitmap, depth)
    ensures var at := FoldFrom(H, p, target, depth).value.position;
            at < |p.siblings|
            && Consumed(H, p, target, depth) == [p.siblings[at]] + Consumed(H, p, target, depth + 1)
  {
  }

  /** Path proofs are binding: whatever the root, two proofs for one target that fold to it are the
      same proof, unless two of the byte strings they hash collide. */
  lemma PathUnique(H: Hash, a: PathProof, b: PathProof, target: Digest)
    requires FoldedRoot(H, a, target).Some? && FoldedRoot(H, a, target) == FoldedRoot(H, b, target)
    ensures a == b || Collision(H, Hashed(H, a, target, 0) + Hashed(H, b, target, 0))
  {
    var hashed := Hashed(H, a, target, 0) + Hashed(H, b, target, 0);
    if !Collision(H, hashed) {
      SamePath(H, hashed, a, b, target, 0);
      EqualFromBits(a.bitmap, b.bitmap);
      assert a.siblings == b.siblings;
    }
  }

  // ---- certificates ----

  datatype InclusionCertificate = InclusionCertificate(bitmap: Digest, siblings: seq<Digest>)

  datatype NonInclusionCertificate = EmptyTree | Terminal(path: PathProof)

  datatype PathRelation = Absent | Present

  function AsPath(c: InclusionCertificate, key: Digest, value: Bytes): (p: PathProof) {
    PathProof(c.bitmap, c.siblings, key, value)
  }

  predicate VerifyInclusion(H: Hash, c: InclusionCertificate, key: Digest, value: Bytes, root: Digest) {
    FoldedRoot(H, AsPath(c, key, value), key) == Some(root)
  }

  /** `None` as the root is the certified empty tree. */
  predicate Authenticates(H: Hash, c: NonInclusionCertificate, target: Digest, root: Option<Digest>) {
    match (c, root)
    case (EmptyTree, None) => true
    case (Terminal(path), Some(r)) => FoldedRoot(H, path, target) == Some(r)
    case _ => false
  }

  function RelationToTrustedRoot(H: Hash, c: NonInclusionCertificate, target: Digest, root: Option<Digest>)
    : (r: Option<PathRelation>)
  {
    if !Authenticates(H, c, target, root) then None
    else if c.Terminal? && c.path.terminal == target then Some(Present)
    else Some(Absent)
  }

  /** No root admits both an inclusion certificate for a key and a certificate of its absence. */
  lemma PresenceExcludesAbsence(H: Hash, inc: InclusionCertificate, non: NonInclusionCertificate,
                                key: Digest, value: Bytes, root: Digest)
    requires VerifyInclusion(H, inc, key, value, root)
    requires RelationToTrustedRoot(H, non, key, Some(root)) == Some(Absent)
    ensures Collision(H, Hashed(H, AsPath(inc, key, value), key, 0) + Hashed(H, non.path, key, 0))
  {
    PathUnique(H, AsPath(inc, key, value), non.path, key);
  }

  /** One key has at most one value, and one inclusion certificate, under one root. */
  lemma InclusionUnique(H: Hash, a: InclusionCertificate, b: InclusionCertificate,
                        key: Digest, va: Bytes, vb: Bytes, root: Digest)
    requires VerifyInclusion(H, a, key, va, root) && VerifyInclusion(H, b, key, vb, root)
    ensures (a == b && va == vb)
         || Collision(H, Hashed(H, AsPath(a, key, va), key, 0) + Hashed(H, AsPath(b, key, vb), key, 0))
  {
    PathUnique(H, AsPath(a, key, va), AsPath(b, key, vb), key);
  }

  /** Two non-inclusion certificates authenticated for one target under one root are the same
      certificate: bitmap, siblings, terminal key and terminal value. */
  lemma NonInclusionUnique(H: Hash, a: NonInclusionCertificate, b: NonInclusionCertificate,
                           target: Digest, root: Option<Digest>)
    requires Authenticates(H, a, target, root) && Authenticates(H, b, target, root)
    ensures a == b
         || (a.Terminal? && b.Terminal?
             && Collision(H, Hashed(H, a.path, target, 0) + Hashed(H, b.path, target, 0)))
  {
    if a.Terminal? && b.Terminal? {
      PathUnique(H, a.path, b.path, target);
    }
  }
}
