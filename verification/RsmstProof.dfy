/** Inclusion proofs of the radix sparse Merkle sum tree: every node commits to the hash and the
    sum of both children, so one leaf-to-root proof authenticates an amount and the total.
 */
module RsmstProof {
  import opened Hashing
  import opened Radix

  const AMOUNT_BYTES: nat := 32
  const MAX_PROOF_STEPS: nat := 256

  /** One sibling on the way up: the depth of the parent junction, the sibling's hash and sum. */
  datatype Step = Step(depth: Byte, hash: Digest, sum: nat)

  datatype Node = Node(hash: Digest, sum: nat)

  predicate Fits(v: nat) { v < Pow256(AMOUNT_BYTES) }

  predicate ValidAmount(v: nat) { 0 < v && Fits(v) }

  /** The 32-byte big-endian form of an amount. */
  function U256(v: nat): (b: Digest)
    requires Fits(v)
  {
    ToBE(v, AMOUNT_BYTES)
  }

  lemma U256Injective(a: nat, b: nat)
    requires Fits(a) && Fits(b) && U256(a) == U256(b)
    ensures a == b
  {
    FromToBE(a, AMOUNT_BYTES);
    FromToBE(b, AMOUNT_BYTES);
  }

  function LeafPreimage(key: Digest, data: Digest, value: nat): (p: Bytes)
    requires Fits(value)
    ensures |p| == 97 && p[0] == 0x10
  {
    [0x10] + key + data + U256(value)
  }

  function NodePreimage(depth: Byte, left: Node, right: Node): (p: Bytes)
    requires Fits(left.sum) && Fits(right.sum)
    ensures |p| == 130 && p[0] == 0x11
  {
    [0x11, depth] + left.hash + U256(left.sum) + right.hash + U256(right.sum)
  }

  lemma LeafInjective(ka: Digest, da: Digest, va: nat, kb: Digest, db: Digest, vb: nat)
    requires Fits(va) && Fits(vb) && LeafPreimage(ka, da, va) == LeafPreimage(kb, db, vb)
    ensures ka == kb && da == db && va == vb
  {
    var x, y := LeafPreimage(ka, da, va), LeafPreimage(kb, db, vb);
    assert x[1..33] == ka && y[1..33] == kb;
    assert x[33..65] == da && y[33..65] == db;
    assert x == ([0x10] + ka + da) + U256(va) && y == ([0x10] + kb + db) + U256(vb);
    assert x[65..] == U256(va) && y[65..] == U256(vb);
    U256Injective(va, vb);
  }

  lemma NodeInjective(da: Byte, la: Node, ra: Node, db: Byte, lb: Node, rb: Node)
    requires Fits(la.sum) && Fits(ra.sum) && Fits(lb.sum) && Fits(rb.sum)
    requires NodePreimage(da, la, ra) == NodePreimage(db, lb, rb)
    ensures da == db && la == lb && ra == rb
  {
    var x, y := NodePreimage(da, la, ra), NodePreimage(db, lb, rb);
    assert x[1] == da && y[1] == db;
    assert x[2..34] == la.hash && y[2..34] == lb.hash;
    assert x[34..66] == U256(la.sum) && y[34..66] == U256(lb.sum);
    assert x[66..98] == ra.hash && y[66..98] == rb.hash;
    assert x[98..130] == U256(ra.sum) && y[98..130] == U256(rb.sum);
    U256Injective(la.sum, lb.sum);
    U256Injective(ra.sum, rb.sum);
  }

  /** The parent of two children: its sum is checked to fit 256 bits. */
  function NodeHash(H: Hash, depth: Byte, left: Node, right: Node): (r: Option<Node>) {
    if Fits(left.sum + right.sum) then
      Some(Node(H(NodePreimage(depth, left, right)), left.sum + right.sum))
    else None
  }

  function LeafHash(H: Hash, key: Digest, data: Digest, value: nat): (r: Option<Node>) {
    if ValidAmount(value) then Some(Node(H(LeafPreimage(key, data, value)), value)) else None
  }

  /** The two children of the junction at `depth` when `child` lies on the side of `key`. */
  function LeftOf(key: Digest, depth: Byte, child: Node, sibling: Node): (n: Node) {
    if BitAt(key, depth) then sibling else child
  }

  function RightOf(key: Digest, depth: Byte, child: Node, sibling: Node): (n: Node) {
    if BitAt(key, depth) then child else sibling
  }

  /** A claim that `key` was allocated `value`, with its leaf-to-root siblings. */
  datatype Claim = Claim(key: Digest, data: Digest, value: nat, steps: seq<Step>)
  {
    function Last(): (s: Step)
      requires steps != []
    {
      steps[|steps| - 1]
    }

    /** The claim as seen one junction below the top. */
    function Below(): (c: Claim)
      requires steps != []
    {
      this.(steps := steps[..|steps| - 1])
    }
  }

  /** The depth of the topmost junction so far; 256 stands above every depth. */
  function DepthOf(steps: seq<Step>): (d: nat) {
    if steps == [] then 256 else steps[|steps| - 1].depth
  }

  /** One junction up from `child`. */
  function Climb(H: Hash, key: Digest, below: nat, child: Node, step: Step): (r: Option<Node>) {
    if step.depth >= below || !ValidAmount(step.sum) then None
    else
      var sibling := Node(step.hash, step.sum);
      NodeHash(H, step.depth, LeftOf(key, step.depth, child, sibling), RightOf(key, step.depth, child, sibling))
  }

  /** The subtree reconstructed from a claim: strictly decreasing depths, positive 256-bit sums. */
  function Fold(H: Hash, c: Claim): (r: Option<Node>)
    ensures r.Some? ==> Fits(r.value.sum)
    decreases |c.steps|
  {
    if c.steps == [] then LeafHash(H, c.key, c.data, c.value)
    else
      match Fold(H, c.Below())
      case None => None
      case Some(child) => Climb(H, c.key, DepthOf(c.Below().steps), child, c.Last())
  }

  /** The root sum a claim proves against `root`, if it does. */
  function ProvenSum(H: Hash, c: Claim, root: Digest): (r: Option<nat>) {
    match Fold(H, c)
    case Some(node) => if node.hash == root && |c.steps| <= MAX_PROOF_STEPS then Some(node.sum) else None
    case None => None
  }

  /** The verifier's loop. */
  method Verify(H: Hash, steps: seq<Step>, key: Digest, data: Digest, value: nat, root: Digest)
    returns (r: Option<nat>)
    ensures r == ProvenSum(H, Claim(key, data, value, steps), root)
  {
    if !ValidAmount(value) || |steps| > MAX_PROOF_STEPS {
      FoldNeedsAmount(H, Claim(key, data, value, steps));
      return None;
    }
    var hash := H(LeafPreimage(key, data, value));
    var sum := value;
    var prevDepth: nat := 256;
    for i := 0 to |steps|
      invariant Fold(H, Claim(key, data, value, steps[..i])) == Some(Node(hash, sum))
      invariant prevDepth == DepthOf(steps[..i])
    {
      var step := steps[i];
      FoldPrefix(H, Claim(key, data, value, steps), i);
      if step.depth >= prevDepth || !ValidAmount(step.sum) {
        FoldStaysNone(H, Claim(key, data, value, steps), i + 1);
        return None;
      }
      var child, sibling := Node(hash, sum), Node(step.hash, step.sum);
      var next := if BitAt(key, step.depth) then NodeHash(H, step.depth, sibling, child)
                  else NodeHash(H, step.depth, child, sibling);
      if next.None? {
        FoldStaysNone(H, Claim(key, data, value, steps), i + 1);
        return None;
      }
      hash, sum, prevDepth := next.value.hash, next.value.sum, step.depth;
    }
    assert steps[..|steps|] == steps;
    return if hash == root then Some(sum) else None;
  }

  /** The fold of a prefix, one step at a time. */
  lemma FoldPrefix(H: Hash, c: Claim, i: nat)
    requires i < |c.steps| && Fold(H, c.(steps := c.steps[..i])).Some?
    ensures Fold(H, c.(steps := c.steps[..i + 1]))
         == Climb(H, c.key, DepthOf(c.steps[..i]), Fold(H, c.(steps := c.steps[..i])).value, c.steps[i])
  {
    var longer := c.(steps := c.steps[..i + 1]);
    assert longer.Below() == c.(steps := c.steps[..i]) && longer.Last() == c.steps[i];
  }

  lemma {:induction false} FoldNeedsAmount(H: Hash, c: Claim)
    ensures !ValidAmount(c.value) ==> Fold(H, c).None?
    decreases |c.steps|
  {
    if c.steps != [] {
      FoldNeedsAmount(H, c.Below());
    }
  }

  lemma {:induction false} FoldStaysNone(H: Hash, c: Claim, n: nat)
    requires n <= |c.steps| && Fold(H, c.(steps := c.steps[..n])).None?
    ensures Fold(H, c).None?
    decreases |c.steps|
  {
    if n < |c.steps| {
      assert c.Below().steps[..n] == c.steps[..n];
      FoldStaysNone(H, c.Below(), n);
    } else {
      assert c.(steps := c.steps[..n]) == c;
    }
  }

  /** The steps of an accepted claim have strictly decreasing depths, and positive 256-bit sums. */
  lemma {:induction false} DepthsDecrease(H: Hash, c: Claim, i: nat)
    requires Fold(H, c).Some? && i < |c.steps|
    ensures ValidAmount(c.steps[i].sum)
    ensures forall j :: i < j < |c.steps| ==> c.steps[j].depth < c.steps[i].depth
    ensures i < |c.steps| - 1 ==> DepthOf(c.steps) < c.steps[i].depth
    decreases |c.steps|
  {
    hide NodeHash, ValidAmount, LeafHash;
    if i < |c.steps| - 1 {
      DepthsDecrease(H, c.Below(), i);
      assert forall j :: 0 <= j < |c.steps| - 1 ==> c.Below().steps[j] == c.steps[j];
    }
  }

  /** An accepted claim is of a positive amount, which is part of the proven sum, in at most 256 steps. */
  lemma ClaimBounds(H: Hash, c: Claim, root: Digest)
    requires ProvenSum(H, c, root).Some?
    ensures 0 < c.value <= ProvenSum(H, c, root).value && Fits(ProvenSum(H, c, root).value) && |c.steps| <= 256
  {
    hide Pow256;
    FoldAtLeast(H, c);
  }

  lemma {:induction false} FoldAtLeast(H: Hash, c: Claim)
    requires Fold(H, c).Some?
    ensures 0 < c.value <= Fold(H, c).value.sum
    decreases |c.steps|
  {
    hide Pow256, BitAt;
    if c.steps != [] {
      FoldAtLeast(H, c.Below());
    }
  }

  // ---- what an accepted family of claims amounts to ----

  /** The byte strings hashed while folding a claim. */
  ghost function Hashed(H: Hash, c: Claim): (s: set<Bytes>)
    decreases |c.steps|
  {
    if c.steps == [] then
      if ValidAmount(c.value) then {LeafPreimage(c.key, c.data, c.value)} else {}
    else
      Hashed(H, c.Below()) + if Fold(H, c).Some? then {Top(H, c)} else {}
  }

  /** The byte string whose digest is the folded hash. */
  ghost function Top(H: Hash, c: Claim): (p: Bytes)
    requires Fold(H, c).Some?
    ensures H(p) == Fold(H, c).value.hash
    ensures |p| > 0 && p[0] == if c.steps == [] then 0x10 else 0x11
    decreases |c.steps|, 0
  {
    if c.steps == [] then LeafPreimage(c.key, c.data, c.value)
    else NodePreimage(c.Last().depth, Left(H, c), Right(H, c))
  }

  ghost function Left(H: Hash, c: Claim): (n: Node)
    requires Fold(H, c).Some? && c.steps != []
  {
    LeftOf(c.key, c.Last().depth, Fold(H, c.Below()).value, Node(c.Last().hash, c.Last().sum))
  }

  ghost function Right(H: Hash, c: Claim): (n: Node)
    requires Fold(H, c).Some? && c.steps != []
  {
    RightOf(c.key, c.Last().depth, Fold(H, c.Below()).value, Node(c.Last().hash, c.Last().sum))
  }

  lemma TopIsHashed(H: Hash, c: Claim)
    requires Fold(H, c).Some?
    ensures Top(H, c) in Hashed(H, c)
  {
  }

  /** Claims with one digest at the top, folded without a collision. */
  ghost predicate Agree(H: Hash, hashed: set<Bytes>, a: Claim, b: Claim) {
    && !Collision(H, hashed) && Hashed(H, a) <= hashed && Hashed(H, b) <= hashed
    && Fold(H, a).Some? && Fold(H, b).Some? && Fold(H, a).value.hash == Fold(H, b).value.hash
  }

  /** What a successful fold is made of. */
  lemma FoldParts(H: Hash, c: Claim)
    requires Fold(H, c).Some?
    ensures c.steps == [] ==>
              Fold(H, c).value.sum == c.value && Fits(c.value) && Top(H, c) == LeafPreimage(c.key, c.data, c.value)
    ensures c.steps != [] ==>
              && Fits(Left(H, c).sum) && Fits(Right(H, c).sum)
              && Fold(H, c).value.sum == Left(H, c).sum + Right(H, c).sum
              && Top(H, c) == NodePreimage(c.Last().depth, Left(H, c), Right(H, c))
  {
    hide BitAt, LeafPreimage, NodePreimage;
  }

  /** They sit on the same leaf or the same junction, and commit to the same sum. */
  lemma SameTop(H: Hash, hashed: set<Bytes>, a: Claim, b: Claim)
    requires Agree(H, hashed, a, b)
    ensures Fold(H, a) == Fold(H, b)
    ensures (a.steps == []) == (b.steps == [])
    ensures a.steps == [] ==> a.key == b.key && a.data == b.data && a.value == b.value
    ensures a.steps != [] ==> a.Last().depth == b.Last().depth && Left(H, a) == Left(H, b) && Right(H, a) == Right(H, b)
  {
    hide BitAt, LeafPreimage, NodePreimage, Fold, Hashed, Top, Left, Right;
    TopIsHashed(H, a);
    TopIsHashed(H, b);
    SamePreimage(H, hashed, Top(H, a), Top(H, b));
    FoldParts(H, a);
    FoldParts(H, b);
    if a.steps == [] {
      LeafInjective(a.key, a.data, a.value, b.key, b.data, b.value);
    } else {
      NodeInjective(a.Last().depth, Left(H, a), Right(H, a), b.Last().depth, Left(H, b), Right(H, b));
    }
  }

  /** The child below a junction is the one on the key's side. */
  lemma ChildOf(H: Hash, c: Claim)
    requires Fold(H, c).Some? && c.steps != []
    ensures Fold(H, c.Below()) == Some(if BitAt(c.key, c.Last().depth) then Right(H, c) else Left(H, c))
    ensures Node(c.Last().hash, c.Last().sum) == if BitAt(c.key, c.Last().depth) then Left(H, c) else Right(H, c)
    ensures Hashed(H, c.Below()) <= Hashed(H, c)
  {
    hide LeafPreimage, NodePreimage;
  }

  /** One key proves at most one amount, by one proof, under one root. */
  lemma {:induction false} SameKeySameClaim(H: Hash, hashed: set<Bytes>, a: Claim, b: Claim)
    requires Agree(H, hashed, a, b) && a.key == b.key
    ensures a == b
    decreases |a.steps|
  {
    hide BitAt, Fold, Hashed, Left, Right;
    SameTop(H, hashed, a, b);
    if a.steps != [] {
      ChildOf(H, a);
      ChildOf(H, b);
      SameKeySameClaim(H, hashed, a.Below(), b.Below());
      assert a.steps == a.Below().steps + [a.Last()] && b.steps == b.Below().steps + [b.Last()];
    }
  }
}
