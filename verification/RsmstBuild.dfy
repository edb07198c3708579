/** Building radix sparse Merkle sum trees: the path-compressed tree over a set of keys, its root
    commitment, and the extraction of inclusion proofs.
 */
module RsmstBuild {
  import opened Hashing
  import opened Radix
  import opened RsmstProof

  datatype Leaf = Leaf(key: Digest, value: nat, hash: Digest)

  datatype Tree =
    | Tip(leaf: Leaf)
    | Branch(depth: Byte, left: Tree, right: Tree, node: Node)

  /** The hash and sum by which a parent commits to a tree. */
  function Commit(t: Tree): (n: Node) {
    match t
    case Tip(leaf) => Node(leaf.hash, leaf.value)
    case Branch(_, _, _, node) => node
  }

  datatype InsertError = AmountOutOfRange | DuplicateKey

  datatype BuildError = NoLeaves | SharedKey | SumOverflow

  // ---- leaves ----

  function Total(leaves: seq<Leaf>): (t: nat) {
    if leaves == [] then 0 else Total(leaves[..|leaves| - 1]) + leaves[|leaves| - 1].value
  }

  predicate DistinctKeys(leaves: seq<Leaf>) {
    forall i, j :: 0 <= i < j < |leaves| ==> leaves[i].key != leaves[j].key
  }

  /** What insertion keeps true of the leaves: distinct keys and amounts in `1..2^256`. */
  ghost predicate ValidLeaves(leaves: seq<Leaf>) {
    DistinctKeys(leaves) && forall l :: l in leaves ==> ValidAmount(l.value)
  }

  class Rsmst {
    var leaves: seq<Leaf>

    ghost predicate Valid()
      reads this
    {
      ValidLeaves(leaves)
    }

    constructor ()
      ensures Valid() && leaves == []
    {
      leaves := [];
    }

    /** Append a leaf unless its amount is out of range or its key is taken. */
    method Insert(H: Hash, key: Digest, data: Digest, value: nat) returns (r: Option<InsertError>)
      requires Valid()
      modifies this
      ensures Valid()
      ensures r.Some? ==> leaves == old(leaves)
      ensures r == Some(AmountOutOfRange) <==> !ValidAmount(value)
      ensures r == Some(DuplicateKey) <==> ValidAmount(value) && exists l :: l in old(leaves) && l.key == key
      ensures r.None? ==> leaves == old(leaves) + [Leaf(key, value, H(LeafPreimage(key, data, value)))]
    {
      if !ValidAmount(value) {
        return Some(AmountOutOfRange);
      }
      for i := 0 to |leaves|
        invariant leaves == old(leaves)
        invariant forall j :: 0 <= j < i ==> leaves[j].key != key
      {
        if leaves[i].key == key {
          return Some(DuplicateKey);
        }
      }
      leaves := leaves + [Leaf(key, value, H(LeafPreimage(key, data, value)))];
      return None;
    }

    /** Finalize: fails on an empty tree or an overflowing sum, and for no other reason. */
    method Build(H: Hash) returns (r: Option<Tree>, reason: BuildError)
      requires Valid()
      ensures r == if leaves == [] then None else Built(H, leaves, 0)
      ensures r.None? ==> reason == if leaves == [] then NoLeaves else SumOverflow
    {
      if leaves == [] {
        return None, NoLeaves;
      }
      r, reason := BuildSubtree(H, leaves, 0);
      if r.None? {
        OnlyOverflowFails(H, leaves, 0);
      }
    }
  }

  // ---- the canonical tree ----

  /** The leaves on one side of `depth`, in order. */
  function Pick(leaves: seq<Leaf>, depth: Byte, right: bool): (s: seq<Leaf>) {
    if leaves == [] then []
    else
      var l := leaves[|leaves| - 1];
      Pick(leaves[..|leaves| - 1], depth, right) + if BitAt(l.key, depth) == right then [l] else []
  }

  /** Some key disagrees with the first one at `depth`. */
  predicate Disagree(leaves: seq<Leaf>, depth: nat)
    requires leaves != [] && depth < KEY_BITS
  {
    exists l :: l in leaves && BitAt(l.key, depth) != BitAt(leaves[0].key, depth)
  }

  /** The lowest depth from `start` on at which the keys disagree, or 256. */
  function FirstSplit(leaves: seq<Leaf>, start: nat): (d: nat)
    requires leaves != [] && start <= KEY_BITS
    ensures start <= d <= KEY_BITS
    ensures d < KEY_BITS ==> Disagree(leaves, d)
    decreases KEY_BITS - start, leaves
  {
    if start == KEY_BITS || Disagree(leaves, start) then start else FirstSplit(leaves, start + 1)
  }

  lemma {:induction false} FirstSplitLowest(leaves: seq<Leaf>, start: nat, e: nat)
    requires leaves != [] && start <= KEY_BITS && start <= e < FirstSplit(leaves, start)
    ensures e < KEY_BITS && !Disagree(leaves, e)
    decreases e - start
  {
    if start < e {
      FirstSplitLowest(leaves, start + 1, e);
    }
  }

  lemma {:induction false} PickMember(leaves: seq<Leaf>, depth: Byte, right: bool, l: Leaf)
    ensures l in Pick(leaves, depth, right) <==> l in leaves && BitAt(l.key, depth) == right
  {
    if leaves != [] {
      PickMember(leaves[..|leaves| - 1], depth, right, l);
      assert leaves == leaves[..|leaves| - 1] + [leaves[|leaves| - 1]];
    }
  }

  /** A split leaves something on both sides. */
  lemma BothSides(leaves: seq<Leaf>, depth: Byte)
    requires leaves != [] && Disagree(leaves, depth)
    ensures Pick(leaves, depth, false) != [] && Pick(leaves, depth, true) != []
  {
    var l :| l in leaves && BitAt(l.key, depth) != BitAt(leaves[0].key, depth);
    PickMember(leaves, depth, BitAt(l.key, depth), l);
    PickMember(leaves, depth, BitAt(leaves[0].key, depth), leaves[0]);
  }

  /** The branch over two subtrees, if both were built and their sums fit. */
  function Join(H: Hash, d: Byte, left: Option<Tree>, right: Option<Tree>): (r: Option<Tree>) {
    if left.None? || right.None? then None
    else
      match NodeHash(H, d, Commit(left.value), Commit(right.value))
      case Some(node) => Some(Branch(d, left.value, right.value, node))
      case None => None
  }

  /** The tree over `leaves`, whose keys agree on all bits below `start`: split at the lowest
      disagreeing bit, recursively, and commit to the children. */
  function Built(H: Hash, leaves: seq<Leaf>, start: nat): (r: Option<Tree>)
    requires leaves != [] && start <= KEY_BITS
    decreases KEY_BITS - start, leaves
  {
    if |leaves| == 1 then Some(Tip(leaves[0]))
    else
      var d := FirstSplit(leaves, start);
      if d == KEY_BITS then None
      else
        BothSides(leaves, d);
        Join(H, d, Built(H, Pick(leaves, d, false), d + 1), Built(H, Pick(leaves, d, true), d + 1))
  }

  /** How a tree over several leaves splits. */
  lemma BuiltSplit(H: Hash, leaves: seq<Leaf>, start: nat, d: nat)
    requires |leaves| > 1 && start <= KEY_BITS && d == FirstSplit(leaves, start) < KEY_BITS
    ensures Pick(leaves, d, false) != [] && Pick(leaves, d, true) != []
    ensures Built(H, leaves, start)
         == Join(H, d, Built(H, Pick(leaves, d, false), d + 1), Built(H, Pick(leaves, d, true), d + 1))
  {
    hide Pick, Disagree, FirstSplit, Join;
    BothSides(leaves, d);
  }

  /** The depth loop: the lowest bit from `start` on where the keys disagree. */
  method FindSplit(leaves: seq<Leaf>, start: nat) returns (depth: nat)
    requires leaves != [] && start <= KEY_BITS
    ensures depth == FirstSplit(leaves, start)
  {
    depth := start;
    while depth <= 255 && !Disagree(leaves, depth)
      invariant start <= depth <= KEY_BITS
      invariant FirstSplit(leaves, start) == FirstSplit(leaves, depth)
    {
      depth := depth + 1;
    }
  }

  /** The two vectors, filled in one pass. */
  method Partition(leaves: seq<Leaf>, depth: Byte) returns (left: seq<Leaf>, right: seq<Leaf>)
    ensures left == Pick(leaves, depth, false) && right == Pick(leaves, depth, true)
  {
    left, right := [], [];
    for i := 0 to |leaves|
      invariant left == Pick(leaves[..i], depth, false)
      invariant right == Pick(leaves[..i], depth, true)
    {
      PickNext(leaves, depth, i, false);
      PickNext(leaves, depth, i, true);
      if BitAt(leaves[i].key, depth) {
        right := right + [leaves[i]];
      } else {
        left := left + [leaves[i]];
      }
    }
    assert leaves[..|leaves|] == leaves;
  }

  lemma PickNext(leaves: seq<Leaf>, depth: Byte, i: nat, right: bool)
    requires i < |leaves|
    ensures Pick(leaves[..i + 1], depth, right)
         == Pick(leaves[..i], depth, right) + (if BitAt(leaves[i].key, depth) == right then [leaves[i]] else [])
  {
    assert leaves[..i + 1][..i] == leaves[..i];
  }

  /** The error met first: two leaves sharing all 256 bits, or an overflow, on the left before the right. */
  function Failure(H: Hash, leaves: seq<Leaf>, start: nat): (e: BuildError)
    requires leaves != [] && start <= KEY_BITS
    decreases KEY_BITS - start, leaves
  {
    var d := FirstSplit(leaves, start);
    if |leaves| == 1 then SumOverflow
    else if d == KEY_BITS then SharedKey
    else
      BothSides(leaves, d);
      if Built(H, Pick(leaves, d, false), d + 1).None? then Failure(H, Pick(leaves, d, false), d + 1)
      else if Built(H, Pick(leaves, d, true), d + 1).None? then Failure(H, Pick(leaves, d, true), d + 1)
      else SumOverflow
  }

  /** The recursive construction, with its errors. */
  method BuildSubtree(H: Hash, leaves: seq<Leaf>, startBit: nat) returns (r: Option<Tree>, reason: BuildError)
    requires leaves != [] && startBit <= KEY_BITS
    ensures r == Built(H, leaves, startBit)
    ensures r.None? ==> reason == Failure(H, leaves, startBit)
    decreases KEY_BITS - startBit
  {
    hide Pick, Disagree, FirstSplit, NodePreimage;
    reason := SumOverflow;
    if |leaves| == 1 {
      return Some(Tip(leaves[0])), reason;
    }
    var depth := FindSplit(leaves, startBit);
    if depth > 255 {
      return None, SharedKey;
    }
    BuiltSplit(H, leaves, startBit, depth);
    var left, right := Partition(leaves, depth);
    var l, t;
    l, reason := BuildSubtree(H, left, depth + 1);
    if l.None? {
      return None, reason;
    }
    t, reason := BuildSubtree(H, right, depth + 1);
    if t.None? {
      return None, reason;
    }
    var node := NodeHash(H, depth, Commit(l.value), Commit(t.value));
    return if node.None? then None else Some(Branch(depth, l.value, t.value, node.value)), SumOverflow;
  }

  // ---- insertion order does not matter ----

  lemma {:induction false} PickCount(leaves: seq<Leaf>, depth: Byte, right: bool, l: Leaf)
    ensures multiset(Pick(leaves, depth, right))[l]
         == if BitAt(l.key, depth) == right then multiset(leaves)[l] else 0
  {
    if leaves != [] {
      var init, last := leaves[..|leaves| - 1], leaves[|leaves| - 1];
      PickCount(init, depth, right, l);
      assert leaves == init + [last];
      if BitAt(last.key, depth) == right {
        assert Pick(leaves, depth, right) == Pick(init, depth, right) + [last];
      } else {
        assert Pick(leaves, depth, right) == Pick(init, depth, right);
      }
    }
  }

  lemma PickPermuted(a: seq<Leaf>, b: seq<Leaf>, depth: Byte, right: bool)
    requires multiset(a) == multiset(b)
    ensures multiset(Pick(a, depth, right)) == multiset(Pick(b, depth, right))
  {
    forall l ensures multiset(Pick(a, depth, right))[l] == multiset(Pick(b, depth, right))[l] {
      PickCount(a, depth, right, l);
      PickCount(b, depth, right, l);
    }
  }

  lemma SameMembers(a: seq<Leaf>, b: seq<Leaf>, l: Leaf)
    requires multiset(a) == multiset(b)
    ensures l in a <==> l in b
  {
    assert l in a <==> l in multiset(a);
    assert l in b <==> l in multiset(b);
  }

  lemma DisagreePermuted(a: seq<Leaf>, b: seq<Leaf>, depth: nat)
    requires a != [] && b != [] && multiset(a) == multiset(b) && depth < KEY_BITS
    requires Disagree(a, depth)
    ensures Disagree(b, depth)
  {
    var l :| l in a && BitAt(l.key, depth) != BitAt(a[0].key, depth);
    SameMembers(a, b, l);
    SameMembers(a, b, a[0]);
  }

  lemma {:induction false} FirstSplitPermuted(a: seq<Leaf>, b: seq<Leaf>, start: nat)
    requires a != [] && b != [] && multiset(a) == multiset(b) && start <= KEY_BITS
    ensures FirstSplit(a, start) == FirstSplit(b, start)
    decreases KEY_BITS - start
  {
    if start < KEY_BITS {
      if Disagree(a, start) {
        DisagreePermuted(a, b, start);
      } else if Disagree(b, start) {
        DisagreePermuted(b, a, start);
      } else {
        FirstSplitPermuted(a, b, start + 1);
      }
    }
  }

  lemma SameLength(a: seq<Leaf>, b: seq<Leaf>)
    requires multiset(a) == multiset(b)
    ensures |a| == |b|
  {
    assert |multiset(a)| == |a| && |multiset(b)| == |b|;
  }

  /** The whole tree, not only its root, is independent of the order of insertion. */
  lemma {:induction false} OrderIndependent(H: Hash, a: seq<Leaf>, b: seq<Leaf>, start: nat)
    requires a != [] && b != [] && multiset(a) == multiset(b) && start <= KEY_BITS
    ensures Built(H, a, start) == Built(H, b, start)
    decreases KEY_BITS - start
  {
    SameLength(a, b);
    if |a| == 1 {
      SameMembers(a, b, a[0]);
    } else {
      FirstSplitPermuted(a, b, start);
      var d := FirstSplit(a, start);
      if d < KEY_BITS {
        BuiltSplit(H, a, start, d);
        BuiltSplit(H, b, start, d);
        PickPermuted(a, b, d, false);
        PickPermuted(a, b, d, true);
        OrderIndependent(H, Pick(a, d, false), Pick(b, d, false), d + 1);
        OrderIndependent(H, Pick(a, d, true), Pick(b, d, true), d + 1);
      }
    }
  }

  // ---- when building succeeds, and what it commits to ----

  lemma TotalAppend(leaves: seq<Leaf>, l: Leaf)
    ensures Total(leaves + [l]) == Total(leaves) + l.value
  {
    assert (leaves + [l])[..|leaves|] == leaves;
  }

  lemma {:induction false} TotalSplits(leaves: seq<Leaf>, depth: Byte)
    ensures Total(leaves) == Total(Pick(leaves, depth, false)) + Total(Pick(leaves, depth, true))
  {
    hide BitAt;
    if leaves != [] {
      var init, last := leaves[..|leaves| - 1], leaves[|leaves| - 1];
      TotalSplits(init, depth);
      TotalAppend(Pick(init, depth, BitAt(last.key, depth)), last);
      assert Pick(leaves, depth, !BitAt(last.key, depth)) == Pick(init, depth, !BitAt(last.key, depth));
    }
  }

  lemma {:induction false} PickDistinct(leaves: seq<Leaf>, depth: Byte, right: bool)
    requires DistinctKeys(leaves)
    ensures DistinctKeys(Pick(leaves, depth, right))
  {
    hide BitAt;
    if leaves != [] {
      var init, last := leaves[..|leaves| - 1], leaves[|leaves| - 1];
      PickDistinct(init, depth, right);
      var p := Pick(init, depth, right);
      forall k | 0 <= k < |p| ensures p[k].key != last.key {
        PickMember(init, depth, right, p[k]);
        var i :| 0 <= i < |init| && init[i] == p[k];
        assert leaves[i] == p[k];
      }
    }
  }

  lemma PickValid(leaves: seq<Leaf>, depth: Byte, right: bool)
    requires ValidLeaves(leaves)
    ensures ValidLeaves(Pick(leaves, depth, right))
  {
    hide Pick, BitAt, ValidAmount;
    PickDistinct(leaves, depth, right);
    forall l | l in Pick(leaves, depth, right) ensures ValidAmount(l.value) {
      PickMember(leaves, depth, right, l);
    }
  }

  /** The keys agree on all bits below `start`. */
  ghost predicate Common(leaves: seq<Leaf>, start: nat) {
    forall a, b, e :: a in leaves && b in leaves && 0 <= e < start && e < KEY_BITS ==> BitAt(a.key, e) == BitAt(b.key, e)
  }

  lemma CommonUpToSplit(leaves: seq<Leaf>, start: nat)
    requires leaves != [] && start <= KEY_BITS && Common(leaves, start)
    ensures Common(leaves, FirstSplit(leaves, start))
  {
    hide BitAt, FirstSplit;
    forall a, b, e | a in leaves && b in leaves && 0 <= e < FirstSplit(leaves, start)
      ensures BitAt(a.key, e) == BitAt(b.key, e)
    {
      if start <= e {
        FirstSplitLowest(leaves, start, e);
        assert BitAt(a.key, e) == BitAt(leaves[0].key, e) == BitAt(b.key, e);
      }
    }
  }

  lemma PickCommon(leaves: seq<Leaf>, d: Byte, right: bool)
    requires Common(leaves, d)
    ensures Common(Pick(leaves, d, right), d + 1)
  {
    hide Pick, BitAt;
    var p := Pick(leaves, d, right);
    forall a, b, e | a in p && b in p && 0 <= e < d + 1
      ensures BitAt(a.key, e) == BitAt(b.key, e)
    {
      PickMember(leaves, d, right, a);
      PickMember(leaves, d, right, b);
    }
  }

  /** Different keys are always separated by some bit. */
  lemma SplitExists(leaves: seq<Leaf>, start: nat)
    requires |leaves| > 1 && start <= KEY_BITS && Common(leaves, start) && DistinctKeys(leaves)
    ensures FirstSplit(leaves, start) < KEY_BITS
  {
    hide BitAt, FirstSplit;
    CommonUpToSplit(leaves, start);
    if FirstSplit(leaves, start) == KEY_BITS {
      EqualFromBits(leaves[0].key, leaves[1].key);
    }
  }

  /** A tree that commits to its own structure: at every branch the left keys have bit 0, the right
      keys bit 1, depths grow downwards, and hash and sum are those of the children. */
  ghost predicate Sound(H: Hash, t: Tree, start: nat) {
    match t
    case Tip(_) => true
    case Branch(d, l, r, node) =>
      && start <= d
      && NodeHash(H, d, Commit(l), Commit(r)) == Some(node)
      && Sound(H, l, d + 1) && Sound(H, r, d + 1)
      && ValidAmount(Commit(l).sum) && ValidAmount(Commit(r).sum)
      && (forall x :: x in LeavesOf(l) ==> !BitAt(x.key, d))
      && (forall x :: x in LeavesOf(r) ==> BitAt(x.key, d))
  }

  ghost function LeavesOf(t: Tree): (s: set<Leaf>) {
    match t
    case Tip(leaf) => {leaf}
    case Branch(_, l, r, _) => LeavesOf(l) + LeavesOf(r)
  }

  lemma JoinSound(H: Hash, start: nat, d: Byte, left: Tree, right: Tree)
    requires start <= d && Sound(H, left, d + 1) && Sound(H, right, d + 1)
    requires ValidAmount(Commit(left).sum) && ValidAmount(Commit(right).sum)
    requires forall x :: x in LeavesOf(left) ==> !BitAt(x.key, d)
    requires forall x :: x in LeavesOf(right) ==> BitAt(x.key, d)
    ensures var j := Join(H, d, Some(left), Some(right));
            && (j.Some? <==> Fits(Commit(left).sum + Commit(right).sum))
            && (j.Some? ==>
                  && Sound(H, j.value, start) && LeavesOf(j.value) == LeavesOf(left) + LeavesOf(right)
                  && Commit(j.value).sum == Commit(left).sum + Commit(right).sum)
  {
    hide BitAt, NodePreimage, Pow256;
  }

  /** What a built tree is, for the leaves it was built from. */
  ghost predicate Represents(H: Hash, t: Tree, leaves: seq<Leaf>, start: nat) {
    && Sound(H, t, start)
    && Commit(t).sum == Total(leaves)
    && (forall l :: l in LeavesOf(t) <==> l in leaves)
  }

  lemma {:induction false} TotalPositive(leaves: seq<Leaf>)
    requires leaves != [] && forall l :: l in leaves ==> ValidAmount(l.value)
    ensures Total(leaves) > 0
  {
    assert leaves[|leaves| - 1] in leaves;
  }

  /** Building succeeds exactly when the total fits 256 bits; the root sum is then that total, and
      the tree holds exactly the given leaves. */
  lemma {:induction false} BuiltExactly(H: Hash, leaves: seq<Leaf>, start: nat)
    requires leaves != [] && start <= KEY_BITS && ValidLeaves(leaves) && Common(leaves, start)
    ensures Built(H, leaves, start).Some? <==> Fits(Total(leaves))
    ensures Built(H, leaves, start).Some? ==> Represents(H, Built(H, leaves, start).value, leaves, start)
    decreases KEY_BITS - start
  {
    hide BitAt, Pick, FirstSplit, Join, Fits, Represents, Total, DistinctKeys, Common, ValidAmount;
    if |leaves| == 1 {
      BuiltTip(H, leaves, start);
    } else {
      SplitExists(leaves, start);
      var d := FirstSplit(leaves, start);
      BuiltSplit(H, leaves, start, d);
      CommonUpToSplit(leaves, start);
      PickCommon(leaves, d, false);
      PickCommon(leaves, d, true);
      PickValid(leaves, d, false);
      PickValid(leaves, d, true);
      BuiltExactly(H, Pick(leaves, d, false), d + 1);
      BuiltExactly(H, Pick(leaves, d, true), d + 1);
      JoinRepresents(H, leaves, start, d, Built(H, Pick(leaves, d, false), d + 1),
                     Built(H, Pick(leaves, d, true), d + 1));
    }
  }

  /** Among the leaves that insertion admits, only an overflow can make building fail. */
  lemma {:induction false} OnlyOverflowFails(H: Hash, leaves: seq<Leaf>, start: nat)
    requires leaves != [] && start <= KEY_BITS && ValidLeaves(leaves) && Common(leaves, start)
    ensures Built(H, leaves, start).None? ==> Failure(H, leaves, start) == SumOverflow
    decreases KEY_BITS - start
  {
    hide BitAt, Pick, FirstSplit, Join, DistinctKeys, Common, ValidAmount, Built;
    if |leaves| > 1 {
      SplitExists(leaves, start);
      var d := FirstSplit(leaves, start);
      BuiltSplit(H, leaves, start, d);
      CommonUpToSplit(leaves, start);
      PickCommon(leaves, d, false);
      PickCommon(leaves, d, true);
      PickValid(leaves, d, false);
      PickValid(leaves, d, true);
      OnlyOverflowFails(H, Pick(leaves, d, false), d + 1);
      OnlyOverflowFails(H, Pick(leaves, d, true), d + 1);
    }
  }

  lemma BuiltTip(H: Hash, leaves: seq<Leaf>, start: nat)
    requires |leaves| == 1 && start <= KEY_BITS && ValidLeaves(leaves)
    ensures Fits(Total(leaves)) && Built(H, leaves, start) == Some(Tip(leaves[0]))
    ensures Represents(H, Tip(leaves[0]), leaves, start)
  {
    hide Pow256;
    assert leaves[0] in leaves && leaves[..0] == [];
    assert Total(leaves) == leaves[0].value;
  }

  lemma JoinRepresents(H: Hash, leaves: seq<Leaf>, start: nat, d: Byte, l: Option<Tree>, r: Option<Tree>)
    requires |leaves| > 1 && start <= d && ValidLeaves(leaves)
    requires Pick(leaves, d, false) != [] && Pick(leaves, d, true) != []
    requires ValidLeaves(Pick(leaves, d, false)) && ValidLeaves(Pick(leaves, d, true))
    requires l.Some? <==> Fits(Total(Pick(leaves, d, false)))
    requires r.Some? <==> Fits(Total(Pick(leaves, d, true)))
    requires l.Some? ==> Represents(H, l.value, Pick(leaves, d, false), d + 1)
    requires r.Some? ==> Represents(H, r.value, Pick(leaves, d, true), d + 1)
    ensures Join(H, d, l, r).Some? <==> Fits(Total(leaves))
    ensures Join(H, d, l, r).Some? ==> Represents(H, Join(H, d, l, r).value, leaves, start)
  {
    hide BitAt, Pick, FirstSplit, Sound, LeavesOf, Built, Total, Pow256;
    TotalSplits(leaves, d);
    if l.Some? && r.Some? {
      forall x
        ensures x in Pick(leaves, d, false) <==> x in leaves && !BitAt(x.key, d)
        ensures x in Pick(leaves, d, true) <==> x in leaves && BitAt(x.key, d)
      {
        PickMember(leaves, d, false, x);
        PickMember(leaves, d, true, x);
      }
      TotalPositive(Pick(leaves, d, false));
      TotalPositive(Pick(leaves, d, true));
      JoinSound(H, start, d, l.value, r.value);
    }
  }

  // ---- proofs ----

  /** The siblings met on the way down to `key`, deepest first, if the descent ends at `key`. */
  function ProofSteps(t: Tree, key: Digest): (r: Option<seq<Step>>) {
    match t
    case Tip(leaf) => if leaf.key == key then Some([]) else None
    case Branch(d, left, right, _) =>
      var sibling := Commit(if BitAt(key, d) then left else right);
      match ProofSteps(if BitAt(key, d) then right else left, key)
      case None => None
      case Some(steps) => Some(steps + [Step(d, sibling.hash, sibling.sum)])
  }

  function Reverse(s: seq<Step>): (r: seq<Step>) {
    if s == [] then [] else Reverse(s[1..]) + [s[0]]
  }

  lemma {:induction false} ReverseSnoc(s: seq<Step>, x: Step)
    ensures Reverse(s + [x]) == [x] + Reverse(s)
  {
    if s != [] {
      assert (s + [x])[1..] == s[1..] + [x];
      ReverseSnoc(s[1..], x);
    }
  }

  /** The descent loop, collecting siblings root first and reversing them at the leaf. */
  method Proof(root: Tree, key: Digest) returns (r: Option<seq<Step>>)
    ensures r == ProofSteps(root, key)
  {
    var steps: seq<Step> := [];
    var node := root;
    assert forall below: seq<Step> :: below + Reverse([]) == below;
    while node.Branch?
      invariant ProofSteps(root, key) == match ProofSteps(node, key)
                                         case None => None
                                         case Some(below) => Some(below + Reverse(steps))
      decreases node
    {
      hide BitAt;
      var sibling, next := node.right, node.left;
      if BitAt(key, node.depth) {
        sibling, next := node.left, node.right;
      }
      var step := Step(node.depth, Commit(sibling).hash, Commit(sibling).sum);
      ReverseSnoc(steps, step);
      assert forall below: seq<Step> :: below + [step] + Reverse(steps) == below + ([step] + Reverse(steps));
      steps := steps + [step];
      node := next;
    }
    assert [] + Reverse(steps) == Reverse(steps);
    return if node.leaf.key == key then Some(Reverse(steps)) else None;
  }

  /** A proof exists exactly for the keys in the tree. */
  lemma {:induction false} ProofExactlyForMembers(H: Hash, t: Tree, start: nat, key: Digest)
    requires Sound(H, t, start)
    ensures ProofSteps(t, key).Some? <==> exists l :: l in LeavesOf(t) && l.key == key
  {
    hide BitAt, NodeHash, ValidAmount;
    match t
    case Tip(leaf) => assert leaf in LeavesOf(t);
    case Branch(d, left, right, _) =>
      ProofExactlyForMembers(H, left, d + 1, key);
      ProofExactlyForMembers(H, right, d + 1, key);
  }

  /** The extracted steps fold back to the tree's own commitment. */
  lemma {:induction false} ProofFolds(H: Hash, t: Tree, start: nat, key: Digest, data: Digest, value: nat)
    requires Sound(H, t, start) && start <= KEY_BITS && ProofSteps(t, key).Some?
    requires ValidAmount(value) && forall l :: l in LeavesOf(t) && l.key == key ==>
               l.value == value && l.hash == H(LeafPreimage(key, data, value))
    ensures var steps := ProofSteps(t, key).value;
            && Fold(H, Claim(key, data, value, steps)) == Some(Commit(t))
            && DepthOf(steps) >= start && |steps| + start <= KEY_BITS
  {
    hide BitAt, LeafPreimage, NodePreimage, ValidAmount;
    match t
    case Tip(leaf) => assert leaf in LeavesOf(t);
    case Branch(d, left, right, node) =>
      var next := if BitAt(key, d) then right else left;
      ProofFolds(H, next, d + 1, key, data, value);
      var below := ProofSteps(next, key).value;
      var c := Claim(key, data, value, ProofSteps(t, key).value);
      assert c.Below() == Claim(key, data, value, below);
  }

  /** A proof extracted from a built tree verifies against its root, to the sum of all leaves. */
  lemma ProofVerifies(H: Hash, leaves: seq<Leaf>, leaf: Leaf, data: Digest)
    requires leaves != [] && ValidLeaves(leaves) && Built(H, leaves, 0).Some?
    requires leaf in leaves && leaf.hash == H(LeafPreimage(leaf.key, data, leaf.value))
    ensures var root := Built(H, leaves, 0).value;
            && ProofSteps(root, leaf.key).Some?
            && ProvenSum(H, Claim(leaf.key, data, leaf.value, ProofSteps(root, leaf.key).value), Commit(root).hash)
               == Some(Total(leaves))
  {
    hide BitAt, LeafPreimage, Sound, LeavesOf, Built, ProofSteps, Fold;
    var root := Built(H, leaves, 0).value;
    BuiltExactly(H, leaves, 0);
    ProofExactlyForMembers(H, root, 0, leaf.key);
    forall l | l in LeavesOf(root) && l.key == leaf.key ensures l == leaf {
      var i :| 0 <= i < |leaves| && leaves[i] == l;
      var j :| 0 <= j < |leaves| && leaves[j] == leaf;
    }
    ProofFolds(H, root, 0, leaf.key, data, leaf.value);
  }
}
