/** What the stack pass over shard leaves computes: pending subtrees are merged as soon as two siblings
    meet, so that exactly the leaf lists of full binary trees collapse to one root.
 */
module ShardPass {
  import opened Hashing
  import opened Bft
  import opened ShardOrder

  /** A shard and its leaf hash. */
  datatype Shard = Shard(id: ShardId, hash: Data)

  /** A full binary tree with leaf hashes. */
  datatype Full = Leaf(hash: Data) | Node(zero: Full, one: Full)

  /** The leaves from left to right, below the prefix `p`. */
  function Leaves(t: Full, p: ShardId): (s: seq<Shard>)
    ensures |s| > 0
  {
    match t
    case Leaf(h) => [Shard(p, h)]
    case Node(zero, one) => Leaves(zero, p + [false]) + Leaves(one, p + [true])
  }

  function HashOf(H: Hash, t: Full): (d: Data) {
    match t
    case Leaf(h) => h
    case Node(zero, one) => ShardNodeHash(H, HashOf(H, zero), HashOf(H, one))
  }

  /** The list is exactly the leaves of a full binary tree. */
  ghost predicate Tiles(leaves: seq<Shard>) {
    exists t :: Leaves(t, []) == leaves
  }

  /** A finished subtree waiting for its sibling. */
  datatype Pending = Pending(id: ShardId, tree: Full)

  predicate AreSiblings(left: ShardId, right: ShardId) {
    && |left| > 0 && |right| == |left|
    && left[..|left| - 1] == right[..|left| - 1]
    && !left[|left| - 1] && right[|left| - 1]
  }

  /** Merge at the top as long as the two topmost subtrees are siblings. */
  function Reduce(stack: seq<Pending>): (r: seq<Pending>)
    ensures |r| <= |stack|
    decreases |stack|
  {
    if |stack| < 2 then stack
    else
      var left, right := stack[|stack| - 2], stack[|stack| - 1];
      if AreSiblings(left.id, right.id) then
        Reduce(stack[..|stack| - 2] + [Pending(left.id[..|left.id| - 1], Node(left.tree, right.tree))])
      else stack
  }

  /** Push the leaves one by one, merging after each. */
  function Process(stack: seq<Pending>, leaves: seq<Shard>): (r: seq<Pending>)
    decreases |leaves|
  {
    if leaves == [] then stack
    else Process(Reduce(stack + [Pending(leaves[0].id, Leaf(leaves[0].hash))]), leaves[1..])
  }

  // ---- nothing is lost: the stack always holds what was consumed ----

  /** The leaves of all pending subtrees. */
  ghost function Yield(stack: seq<Pending>): (s: seq<Shard>) {
    if stack == [] then []
    else Yield(stack[..|stack| - 1]) + Leaves(stack[|stack| - 1].tree, stack[|stack| - 1].id)
  }

  lemma YieldPush(stack: seq<Pending>, p: Pending)
    ensures Yield(stack + [p]) == Yield(stack) + Leaves(p.tree, p.id)
  {
    assert (stack + [p])[..|stack|] == stack;
  }

  /** Merging two siblings keeps their leaves. */
  lemma YieldMerge(below: seq<Pending>, left: Pending, right: Pending)
    requires AreSiblings(left.id, right.id)
    ensures Yield(below + [Pending(left.id[..|left.id| - 1], Node(left.tree, right.tree))]) == Yield(below + [left] + [right])
  {
    hide Yield;
    var id := left.id[..|left.id| - 1];
    YieldPush(below, Pending(id, Node(left.tree, right.tree)));
    YieldPush(below, left);
    YieldPush(below + [left], right);
    assert id + [false] == left.id && id + [true] == right.id;
  }

  lemma {:induction false} YieldReduce(stack: seq<Pending>)
    ensures Yield(Reduce(stack)) == Yield(stack)
    decreases |stack|
  {
    hide Yield;
    if |stack| >= 2 {
      var below, left, right := stack[..|stack| - 2], stack[|stack| - 2], stack[|stack| - 1];
      if AreSiblings(left.id, right.id) {
        YieldReduce(below + [Pending(left.id[..|left.id| - 1], Node(left.tree, right.tree))]);
        YieldMerge(below, left, right);
        assert stack == below + [left] + [right];
      }
    }
  }

  lemma {:induction false} YieldProcess(stack: seq<Pending>, leaves: seq<Shard>)
    ensures Yield(Process(stack, leaves)) == Yield(stack) + leaves
    decreases |leaves|
  {
    hide Reduce;
    if leaves != [] {
      var p := Pending(leaves[0].id, Leaf(leaves[0].hash));
      YieldProcess(Reduce(stack + [p]), leaves[1..]);
      YieldReduce(stack + [p]);
      YieldPush(stack, p);
      assert Leaves(p.tree, p.id) == [leaves[0]];
    }
  }

  // ---- every full tree is recognised ----

  /** Feeding the leaves of a tree has the effect of pushing the tree. */
  lemma {:induction false} ProcessTree(stack: seq<Pending>, t: Full, p: ShardId, rest: seq<Shard>)
    ensures Process(stack, Leaves(t, p) + rest) == Process(Reduce(stack + [Pending(p, t)]), rest)
    decreases t
  {
    match t
    case Leaf(h) =>
      assert ([Shard(p, h)] + rest)[1..] == rest;
    case Node(zero, one) =>
      var z, o := Leaves(zero, p + [false]), Leaves(one, p + [true]);
      assert z + o + rest == z + (o + rest);
      ProcessTree(stack, zero, p + [false], o + rest);
      var waiting := stack + [Pending(p + [false], zero)];
      ZeroWaits(stack, p, zero);
      ProcessTree(waiting, one, p + [true], rest);
      MergeChildren(stack, p, zero, one);
  }

  /** A zero child never merges with what is below it. */
  lemma ZeroWaits(stack: seq<Pending>, p: ShardId, zero: Full)
    ensures Reduce(stack + [Pending(p + [false], zero)]) == stack + [Pending(p + [false], zero)]
  {
  }

  lemma MergeChildren(stack: seq<Pending>, p: ShardId, zero: Full, one: Full)
    ensures Reduce(stack + [Pending(p + [false], zero)] + [Pending(p + [true], one)])
         == Reduce(stack + [Pending(p, Node(zero, one))])
  {
    var s := stack + [Pending(p + [false], zero)] + [Pending(p + [true], one)];
    assert s[..|s| - 2] == stack;
    assert (p + [false])[..|p|] == p && (p + [true])[..|p|] == p;
  }

  /** The pass collapses to a single root exactly on the leaves of a full binary tree. */
  lemma CollapsesExactly(leaves: seq<Shard>, t: Full)
    ensures Process([], leaves) == [Pending([], t)] <==> leaves == Leaves(t, [])
  {
    if leaves == Leaves(t, []) {
      assert leaves + [] == leaves && [] + [Pending([], t)] == [Pending([], t)];
      ProcessTree([], t, [], []);
      assert Process([Pending([], t)], []) == [Pending([], t)];
    }
    if Process([], leaves) == [Pending([], t)] {
      YieldProcess([], leaves);
      YieldPush([], Pending([], t));
      assert [] + [Pending([], t)] == [Pending([], t)];
      var none: seq<Pending> := [];
      assert Yield(none) + leaves == leaves && Yield(none) + Leaves(t, []) == Leaves(t, []);
    }
  }

  // ---- the leaves of a full tree are in canonical order ----

  function Ids(leaves: seq<Shard>): (ids: seq<ShardId>)
    ensures |ids| == |leaves| && forall i :: 0 <= i < |ids| ==> ids[i] == leaves[i].id
  {
    seq(|leaves|, i requires 0 <= i < |leaves| => leaves[i].id)
  }

  lemma {:induction false} LeavesBelow(t: Full, p: ShardId, i: nat)
    requires i < |Leaves(t, p)|
    ensures p <= Leaves(t, p)[i].id
  {
    if t.Node? {
      var z := Leaves(t.zero, p + [false]);
      if i < |z| {
        LeavesBelow(t.zero, p + [false], i);
      } else {
        LeavesBelow(t.one, p + [true], i - |z|);
      }
      assert p <= p + [false] && p <= p + [true];
    }
  }

  lemma {:induction false} LeavesSorted(t: Full, p: ShardId, i: nat, j: nat)
    requires i < j < |Leaves(t, p)|
    ensures Before(Leaves(t, p)[i].id, Leaves(t, p)[j].id)
    ensures !(Leaves(t, p)[i].id <= Leaves(t, p)[j].id)
  {
    hide Before;
    var z, o := Leaves(t.zero, p + [false]), Leaves(t.one, p + [true]);
    if j < |z| {
      LeavesSorted(t.zero, p + [false], i, j);
    } else if i >= |z| {
      LeavesSorted(t.one, p + [true], i - |z|, j - |z|);
    } else {
      LeavesBelow(t.zero, p + [false], i);
      LeavesBelow(t.one, p + [true], j - |z|);
      ZeroBeforeOne(p, z[i].id, o[j - |z|].id);
    }
  }
}
