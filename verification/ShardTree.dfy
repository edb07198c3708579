/** The shard tree as a flat arena of nodes with parent links, built in one stack pass, and the shard
    tree certificates read from it by climbing.
 */
module ShardTree {
  import opened Hashing
  import opened Bft
  import opened ShardOrder
  import opened ShardPass

  datatype ArenaNode = ArenaNode(hash: Data, parent: Option<nat>, children: Option<(nat, nat)>)

  datatype IndexEntry = IndexEntry(id: ShardId, node: nat)

  datatype ShardTree = ShardTree(nodes: seq<ArenaNode>, leaves: seq<IndexEntry>, root: nat)

  datatype BuildError = InvalidTopology | LeafSetMismatch

  datatype BuildResult = Built(tree: ShardTree) | Failed(error: BuildError)

  // ---- bit-string operations ----

  /** The id that differs in the last bit only. */
  function Sibling(id: ShardId): (r: Option<ShardId>) {
    if id == [] then None else Some(id[|id| - 1 := !id[|id| - 1]])
  }

  lemma SiblingTest(left: ShardId, right: ShardId)
    ensures Sibling(right) == Some(left) && !left[|left| - 1] <==> AreSiblings(left, right)
  {
    if AreSiblings(left, right) {
      assert right[|right| - 1 := false] == right[..|right| - 1] + [false] == left;
    } else if Sibling(right) == Some(left) {
      assert left[..|left| - 1] == right[..|left| - 1];
    }
  }

  // ---- the arena ----

  /** Node `i` holds the hash of the subtree in `labels`, is the parent of its children and a child of
      its parent. */
  ghost predicate NodeOk(H: Hash, nodes: seq<ArenaNode>, labels: seq<Pending>, i: nat)
    requires i < |nodes| == |labels|
  {
    && nodes[i].hash == HashOf(H, labels[i].tree)
    && (nodes[i].children.Some? ==>
          var (l, r) := nodes[i].children.value;
          && l < |nodes| && r < |nodes| && labels[i].tree.Node?
          && labels[l] == Pending(labels[i].id + [false], labels[i].tree.zero)
          && labels[r] == Pending(labels[i].id + [true], labels[i].tree.one))
    && (nodes[i].parent.Some? ==>
          var p := nodes[i].parent.value;
          && i < p < |nodes| && nodes[p].children.Some?
          && (nodes[p].children.value.0 == i || nodes[p].children.value.1 == i))
  }

  ghost predicate Arena(H: Hash, nodes: seq<ArenaNode>, labels: seq<Pending>) {
    |nodes| == |labels| && forall i :: 0 <= i < |nodes| ==> NodeOk(H, nodes, labels, i)
  }

  /** The stack holds the pending subtrees and every node without a parent. */
  ghost predicate Stacked(nodes: seq<ArenaNode>, labels: seq<Pending>, stack: seq<IndexEntry>, pending: seq<Pending>) {
    && |nodes| == |labels| && |stack| == |pending|
    && (forall k :: 0 <= k < |stack| ==>
          stack[k].node < |nodes| && stack[k].id == pending[k].id && labels[stack[k].node] == pending[k])
    && (forall i :: 0 <= i < |nodes| && nodes[i].parent.None? ==> exists k :: 0 <= k < |stack| && stack[k].node == i)
  }

  /** The index locates the leaves. */
  ghost predicate Indexed(labels: seq<Pending>, index: seq<IndexEntry>, leaves: seq<Shard>) {
    && |index| == |leaves|
    && forall k :: 0 <= k < |index| ==>
         && index[k].node < |labels| && index[k].id == leaves[k].id
         && labels[index[k].node] == Pending(leaves[k].id, Leaf(leaves[k].hash))
  }

  function WithLeaf(nodes: seq<ArenaNode>, hash: Data): (r: seq<ArenaNode>) {
    nodes + [ArenaNode(hash, None, None)]
  }

  /** A new parent above two nodes. */
  function WithParent(H: Hash, nodes: seq<ArenaNode>, left: nat, right: nat): (r: seq<ArenaNode>)
    requires left < |nodes| && right < |nodes|
    ensures |r| == |nodes| + 1
    ensures forall i :: 0 <= i < |nodes| ==> r[i].hash == nodes[i].hash && r[i].children == nodes[i].children
    ensures forall i :: 0 <= i < |nodes| && i != left && i != right ==> r[i] == nodes[i]
    ensures r[left].parent == r[right].parent == Some(|nodes|)
    ensures r[|nodes|] == ArenaNode(ShardNodeHash(H, nodes[left].hash, nodes[right].hash), None, Some((left, right)))
  {
    var grown := nodes + [ArenaNode(ShardNodeHash(H, nodes[left].hash, nodes[right].hash), None, Some((left, right)))];
    var marked := grown[left := grown[left].(parent := Some(|nodes|))];
    marked[right := marked[right].(parent := Some(|nodes|))]
  }

  lemma LeafKeeps(H: Hash, nodes: seq<ArenaNode>, labels: seq<Pending>, stack: seq<IndexEntry>, pending: seq<Pending>,
                  index: seq<IndexEntry>, leaves: seq<Shard>, leaf: Shard)
    requires Arena(H, nodes, labels) && Stacked(nodes, labels, stack, pending) && Indexed(labels, index, leaves)
    ensures var n, m, e := WithLeaf(nodes, leaf.hash), labels + [Pending(leaf.id, Leaf(leaf.hash))], IndexEntry(leaf.id, |nodes|);
            && Arena(H, n, m)
            && Stacked(n, m, stack + [e], pending + [Pending(leaf.id, Leaf(leaf.hash))])
            && Indexed(m, index + [e], leaves + [leaf])
  {
    hide ShardNodeHash;
    var n, m := WithLeaf(nodes, leaf.hash), labels + [Pending(leaf.id, Leaf(leaf.hash))];
    var s := stack + [IndexEntry(leaf.id, |nodes|)];
    forall i | 0 <= i < |n| ensures NodeOk(H, n, m, i) {
      assert i < |nodes| ==> NodeOk(H, nodes, labels, i);
    }
    forall i | 0 <= i < |n| && n[i].parent.None? ensures exists k :: 0 <= k < |s| && s[k].node == i {
      if i == |nodes| {
        assert s[|stack|].node == i;
      } else {
        var k :| 0 <= k < |stack| && stack[k].node == i;
        assert s[k].node == i;
      }
    }
  }

  lemma ParentKeepsArena(H: Hash, nodes: seq<ArenaNode>, labels: seq<Pending>, left: nat, right: nat, id: ShardId,
                         zero: Full, one: Full)
    requires Arena(H, nodes, labels) && left < |nodes| && right < |nodes|
    requires labels[left] == Pending(id + [false], zero) && labels[right] == Pending(id + [true], one)
    ensures Arena(H, WithParent(H, nodes, left, right), labels + [Pending(id, Node(zero, one))])
  {
    hide ShardNodeHash, WithParent;
    var n, m := WithParent(H, nodes, left, right), labels + [Pending(id, Node(zero, one))];
    assert NodeOk(H, nodes, labels, left) && NodeOk(H, nodes, labels, right);
    forall i | 0 <= i < |n| ensures NodeOk(H, n, m, i) {
      if i == |nodes| {
        assert m[i] == Pending(id, Node(zero, one)) && m[left] == labels[left] && m[right] == labels[right];
      } else {
        assert NodeOk(H, nodes, labels, i);
        assert m[i] == labels[i] && n[i].hash == nodes[i].hash;
        assert i == left || i == right ==> n[i].parent == Some(|nodes|);
      }
    }
  }

  lemma ParentKeepsStack(H: Hash, nodes: seq<ArenaNode>, labels: seq<Pending>, stack: seq<IndexEntry>,
                         pending: seq<Pending>)
    requires Stacked(nodes, labels, stack, pending) && |stack| >= 2
    requires AreSiblings(stack[|stack| - 2].id, stack[|stack| - 1].id)
    ensures var k := |stack| - 2;
            var merged := Pending(stack[k].id[..|stack[k].id| - 1], Node(pending[k].tree, pending[k + 1].tree));
            Stacked(WithParent(H, nodes, stack[k].node, stack[k + 1].node), labels + [merged],
                    stack[..k] + [IndexEntry(merged.id, |nodes|)], pending[..k] + [merged])
  {
    hide WithParent;
    var k := |stack| - 2;
    var n := WithParent(H, nodes, stack[k].node, stack[k + 1].node);
    var s := stack[..k] + [IndexEntry(stack[k].id[..|stack[k].id| - 1], |nodes|)];
    forall i | 0 <= i < |n| && n[i].parent.None? ensures exists j :: 0 <= j < |s| && s[j].node == i {
      if i == |nodes| {
        assert s[k].node == i;
      } else {
        var j :| 0 <= j < |stack| && stack[j].node == i;
        assert j < k && s[j].node == i;
      }
    }
  }

  /** What a finished tree is: the arena of a full binary tree with the given leaves. */
  ghost predicate WellBuilt(H: Hash, tree: ShardTree, labels: seq<Pending>, leaves: seq<Shard>, t: Full) {
    && Arena(H, tree.nodes, labels)
    && Indexed(labels, tree.leaves, leaves)
    && (forall i :: 0 <= i < |tree.nodes| && tree.nodes[i].parent.None? ==> i == tree.root)
    && tree.root < |tree.nodes| && labels[tree.root] == Pending([], t)
    && leaves == Leaves(t, [])
  }

  /** Merge at the top of the stack until the two topmost subtrees are no siblings. */
  method MergeTop(H: Hash, nodes: seq<ArenaNode>, stack: seq<IndexEntry>, ghost labels: seq<Pending>,
                  ghost pending: seq<Pending>, ghost index: seq<IndexEntry>, ghost leaves: seq<Shard>)
    returns (nodes': seq<ArenaNode>, stack': seq<IndexEntry>, hashes: nat, ghost labels': seq<Pending>)
    requires Arena(H, nodes, labels) && Stacked(nodes, labels, stack, pending) && Indexed(labels, index, leaves)
    ensures Arena(H, nodes', labels') && Stacked(nodes', labels', stack', Reduce(pending))
    ensures Indexed(labels', index, leaves)
    ensures hashes + |stack'| == |stack|
  {
    hide WithParent, Arena, Stacked, Indexed, AreSiblings;
    nodes', stack', hashes, labels' := nodes, stack, 0, labels;
    ghost var waiting := pending;
    while |stack'| >= 2
      invariant Arena(H, nodes', labels') && Stacked(nodes', labels', stack', waiting)
      invariant Indexed(labels', index, leaves)
      invariant Reduce(waiting) == Reduce(pending)
      invariant hashes + |stack'| == |stack|
      decreases |stack'|
    {
      StackedSizes(H, nodes', labels', stack', waiting);
      var left, right := stack'[|stack'| - 2], stack'[|stack'| - 1];
      SiblingTest(left.id, right.id);
      if !(Sibling(right.id) == Some(left.id) && !left.id[|left.id| - 1]) {
        return;
      }
      var k, id := |stack'| - 2, left.id[..|left.id| - 1];
      MergeKeeps(H, nodes', labels', stack', waiting, index, leaves);
      ghost var merged := Pending(id, Node(waiting[k].tree, waiting[k + 1].tree));
      waiting := waiting[..k] + [merged];
      stack' := stack'[..k] + [IndexEntry(id, |nodes'|)];
      labels' := labels' + [merged];
      nodes' := WithParent(H, nodes', left.node, right.node);
      hashes := hashes + 1;
    }
    StackedSizes(H, nodes', labels', stack', waiting);
  }

  lemma MergeKeeps(H: Hash, nodes: seq<ArenaNode>, labels: seq<Pending>, stack: seq<IndexEntry>, pending: seq<Pending>,
                   index: seq<IndexEntry>, leaves: seq<Shard>)
    requires Arena(H, nodes, labels) && Stacked(nodes, labels, stack, pending) && Indexed(labels, index, leaves)
    requires |stack| >= 2 && AreSiblings(stack[|stack| - 2].id, stack[|stack| - 1].id)
    ensures var k := |stack| - 2;
            var left, right := stack[k].node, stack[k + 1].node;
            var merged := Pending(stack[k].id[..|stack[k].id| - 1], Node(pending[k].tree, pending[k + 1].tree));
            && left < |nodes| && right < |nodes|
            && var n, m := WithParent(H, nodes, left, right), labels + [merged];
               && Arena(H, n, m)
               && Stacked(n, m, stack[..k] + [IndexEntry(merged.id, |nodes|)], pending[..k] + [merged])
               && Indexed(m, index, leaves)
  {
    hide WithParent, ShardNodeHash, Arena, AreSiblings, HashOf;
    var k := |stack| - 2;
    ParentKeepsStack(H, nodes, labels, stack, pending);
    SiblingLabels(stack[k].id, stack[k + 1].id);
    ArenaSize(H, nodes, labels);
    ParentKeepsArena(H, nodes, labels, stack[k].node, stack[k + 1].node, stack[k].id[..|stack[k].id| - 1],
                     pending[k].tree, pending[k + 1].tree);
  }

  lemma ArenaSize(H: Hash, nodes: seq<ArenaNode>, labels: seq<Pending>)
    requires Arena(H, nodes, labels)
    ensures |nodes| == |labels|
  {
  }

  lemma SiblingLabels(left: ShardId, right: ShardId)
    requires AreSiblings(left, right)
    ensures var id := left[..|left| - 1]; left == id + [false] && right == id + [true]
  {
  }

  /** Build the tree: one push per leaf, one hash per inner node.  It accepts exactly the leaves of a
      full binary tree, and names unsorted input as such. */
  method BuildCounted(H: Hash, leaves: seq<Shard>)
    returns (r: BuildResult, innerHashes: nat, ghost labels: seq<Pending>, ghost t: Full)
    ensures r.Built? <==> Tiles(leaves)
    ensures r.Built? ==> WellBuilt(H, r.tree, labels, leaves, t) && innerHashes == |leaves| - 1
    ensures r == Failed(LeafSetMismatch) <==> !StrictlySorted(Ids(leaves))
  {
    hide Arena, Stacked, Before, Indexed, HashOf;
    var nodes: seq<ArenaNode>, index: seq<IndexEntry>, stack: seq<IndexEntry> := [], [], [];
    ghost var pending: seq<Pending> := [];
    innerHashes, labels, t := 0, [], Leaf([]);
    if leaves == [] {
      return Failed(InvalidTopology), 0, [], Leaf([]);
    }
    EmptyArena(H);
    for i := 0 to |leaves|
      invariant Arena(H, nodes, labels) && Stacked(nodes, labels, stack, pending)
      invariant Indexed(labels, index, leaves[..i])
      invariant |index| == i && forall k :: 0 <= k < i ==> index[k].id == leaves[k].id
      invariant pending == Process([], leaves[..i])
      invariant innerHashes + |stack| == i
      invariant forall k :: 0 < k < i ==> Before(leaves[k - 1].id, leaves[k].id)
    {
      var leaf := leaves[i];
      if i > 0 {
        var o := CanonicalCmp(index[i - 1].id, leaf.id);
        NotBefore(index[i - 1].id, leaf.id, o);
        if o != Less {
          assert Ids(leaves)[i - 1] == leaves[i - 1].id && Ids(leaves)[i] == leaf.id;
          UnsortedNoTiles(leaves, i);
          return Failed(LeafSetMismatch), innerHashes, labels, t;
        }
      }
      LeafKeeps(H, nodes, labels, stack, pending, index, leaves[..i], leaf);
      var entry := IndexEntry(leaf.id, |nodes|);
      assert leaves[..i + 1] == leaves[..i] + [leaf];
      ProcessNext([], leaves[..i], leaf);
      nodes, labels, index, stack := WithLeaf(nodes, leaf.hash), labels + [Pending(leaf.id, Leaf(leaf.hash))], index + [entry], stack + [entry];
      pending := pending + [Pending(leaf.id, Leaf(leaf.hash))];
      StackedSizes(H, nodes, labels, stack, pending);
      var before, hashes := |stack|, 0;
      nodes, stack, hashes, labels := MergeTop(H, nodes, stack, labels, pending, index, leaves[..i + 1]);
      innerHashes := innerHashes + hashes;
      pending := Reduce(pending);
    }
    assert leaves[..|leaves|] == leaves;
    SortedThroughout(leaves);
    StackedSizes(H, nodes, labels, stack, pending);
    if |stack| == 1 && |stack[0].id| == 0 {
      t := pending[0].tree;
      Finished(H, nodes, labels, index, stack, pending, leaves, t);
      return Built(ShardTree(nodes, index, stack[0].node)), innerHashes, labels, t;
    }
    NotCollapsed(H, leaves, nodes, labels, stack, pending);
    return Failed(InvalidTopology), innerHashes, labels, t;
  }

  lemma EmptyArena(H: Hash)
    ensures Arena(H, [], []) && Stacked([], [], [], []) && Indexed([], [], [])
  {
  }

  lemma NotBefore(a: ShardId, b: ShardId, o: Ordering)
    requires o == Compare(a, b)
    ensures o == Less <==> Before(a, b)
  {
  }

  lemma StackedSizes(H: Hash, nodes: seq<ArenaNode>, labels: seq<Pending>, stack: seq<IndexEntry>,
                     pending: seq<Pending>)
    requires Stacked(nodes, labels, stack, pending)
    ensures |stack| == |pending| && forall k :: 0 <= k < |stack| ==> stack[k].id == pending[k].id
  {
  }

  lemma {:induction false} ProcessNext(stack: seq<Pending>, leaves: seq<Shard>, leaf: Shard)
    ensures Process(stack, leaves + [leaf]) == Reduce(Process(stack, leaves) + [Pending(leaf.id, Leaf(leaf.hash))])
    decreases |leaves|
  {
    hide Reduce;
    if leaves == [] {
      assert [leaf][1..] == [] && [] + [leaf] == [leaf];
    } else {
      assert (leaves + [leaf])[1..] == leaves[1..] + [leaf];
      ProcessNext(Reduce(stack + [Pending(leaves[0].id, Leaf(leaves[0].hash))]), leaves[1..], leaf);
    }
  }

  lemma TilesSorted(leaves: seq<Shard>)
    requires Tiles(leaves)
    ensures StrictlySorted(Ids(leaves))
  {
    hide Before;
    var t :| Leaves(t, []) == leaves;
    forall i, j | 0 <= i < j < |leaves| ensures Before(Ids(leaves)[i], Ids(leaves)[j]) {
      LeavesSorted(t, [], i, j);
    }
  }

  lemma UnsortedNoTiles(leaves: seq<Shard>, i: nat)
    requires 0 < i < |leaves| && !Before(leaves[i - 1].id, leaves[i].id)
    ensures !StrictlySorted(Ids(leaves)) && !Tiles(leaves)
  {
    hide Before;
    assert !Before(Ids(leaves)[i - 1], Ids(leaves)[i]);
    if Tiles(leaves) {
      TilesSorted(leaves);
    }
  }

  lemma SortedThroughout(leaves: seq<Shard>)
    requires forall k :: 0 < k < |leaves| ==> Before(leaves[k - 1].id, leaves[k].id)
    ensures StrictlySorted(Ids(leaves))
  {
    hide Before;
    forall i, j | 0 <= i < j < |leaves| ensures Before(Ids(leaves)[i], Ids(leaves)[j]) {
      SortedFromNeighbours(Ids(leaves), i, j);
    }
  }

  lemma Finished(H: Hash, nodes: seq<ArenaNode>, labels: seq<Pending>, index: seq<IndexEntry>, stack: seq<IndexEntry>,
                 pending: seq<Pending>, leaves: seq<Shard>, t: Full)
    requires Arena(H, nodes, labels) && Stacked(nodes, labels, stack, pending) && Indexed(labels, index, leaves)
    requires pending == Process([], leaves) && |stack| == 1 && stack[0].id == [] && t == pending[0].tree
    ensures WellBuilt(H, ShardTree(nodes, index, stack[0].node), labels, leaves, t) && Tiles(leaves)
  {
    hide Arena, Indexed, HashOf, Leaves;
    assert pending == [Pending([], t)];
    CollapsesExactly(leaves, t);
  }

  lemma NotCollapsed(H: Hash, leaves: seq<Shard>, nodes: seq<ArenaNode>, labels: seq<Pending>, stack: seq<IndexEntry>,
                     pending: seq<Pending>)
    requires Stacked(nodes, labels, stack, pending) && pending == Process([], leaves)
    requires !(|stack| == 1 && stack[0].id == [])
    ensures !Tiles(leaves)
  {
    hide Leaves, HashOf;
    if Tiles(leaves) {
      var t :| Leaves(t, []) == leaves;
      CollapsesExactly(leaves, t);
    }
  }

  // ---- certificates ----

  /** The hashes beside the way down to a leaf, innermost first. */
  function SiblingPath(H: Hash, t: Full, path: ShardId): (siblings: seq<Data>) {
    if t.Leaf? || path == [] then []
    else if path[0] then SiblingPath(H, t.one, path[1..]) + [HashOf(H, t.zero)]
    else SiblingPath(H, t.zero, path[1..]) + [HashOf(H, t.one)]
  }

  /** The position of the climb: `node` is the ancestor reached after the siblings collected so far. */
  ghost predicate Climbing(H: Hash, labels: seq<Pending>, shard: ShardId, node: nat, siblings: seq<Data>) {
    && node < |labels| && |siblings| <= |shard|
    && labels[node].id == shard[..|shard| - |siblings|]
    && siblings == SiblingPath(H, labels[node].tree, shard[|shard| - |siblings|..])
  }

  lemma ClimbStep(H: Hash, tree: ShardTree, labels: seq<Pending>, shard: ShardId, node: nat,
                  siblings: seq<Data>, sibling: nat)
    requires Arena(H, tree.nodes, labels) && Climbing(H, labels, shard, node, siblings)
    requires tree.nodes[node].parent.Some?
    requires tree.nodes[node].parent.value < |tree.nodes| && tree.nodes[tree.nodes[node].parent.value].children.Some?
    requires var (l, r) := tree.nodes[tree.nodes[node].parent.value].children.value; sibling == if l == node then r else l
    ensures sibling < |tree.nodes|
    ensures node < tree.nodes[node].parent.value
    ensures Climbing(H, labels, shard, tree.nodes[node].parent.value, siblings + [tree.nodes[sibling].hash])
  {
    hide HashOf;
    var p := tree.nodes[node].parent.value;
    assert NodeOk(H, tree.nodes, labels, node) && NodeOk(H, tree.nodes, labels, p);
    var (l, r) := tree.nodes[p].children.value;
    assert NodeOk(H, tree.nodes, labels, sibling);
    var n, m := |siblings|, |labels[p].id|;
    assert labels[node].id[m] == (node == r);
    assert shard[|shard| - n - 1] == labels[node].id[m];
    assert labels[p].id == labels[node].id[..m] == shard[..|shard| - n - 1];
    var path := shard[|shard| - n - 1..];
    assert path[0] == (node == r) && path[1..] == shard[|shard| - n..];
  }

  /** The siblings from the leaf up; a certificate exists exactly for the shards of the tree. */
  method Certificate(H: Hash, tree: ShardTree, shard: ShardId, ghost labels: seq<Pending>, ghost leaves: seq<Shard>,
                     ghost t: Full)
    returns (r: Option<ShardTreeCertificate>)
    requires WellBuilt(H, tree, labels, leaves, t)
    ensures r == if shard in Ids(leaves) then Some(ShardTreeCertificate(shard, SiblingPath(H, t, shard))) else None
  {
    hide NodeOk, SiblingPath, HashOf, Before, Leaves;
    IndexSorted(H, tree, labels, leaves, t);
    var ids := seq(|tree.leaves|, i requires 0 <= i < |tree.leaves| => tree.leaves[i].id);
    assert ids == Ids(leaves);
    var at := FindId(ids, shard);
    if at.None? {
      return None;
    }
    assert Ids(leaves)[at.value] == shard;
    var node, siblings: seq<Data> := tree.leaves[at.value].node, [];
    ClimbStart(H, labels, shard, node, leaves[at.value].hash);
    while tree.nodes[node].parent.Some?
      invariant Climbing(H, labels, shard, node, siblings)
      decreases |tree.nodes| - node
    {
      ParentInArena(H, tree, labels, node);
      var p := tree.nodes[node].parent.value;
      var (l, r) := tree.nodes[p].children.value;
      var sibling := if l == node then r else l;
      ClimbStep(H, tree, labels, shard, node, siblings, sibling);
      siblings := siblings + [tree.nodes[sibling].hash];
      node := p;
    }
    assert shard[|shard| - |siblings|..] == shard;
    return Some(ShardTreeCertificate(shard, siblings));
  }

  lemma ClimbStart(H: Hash, labels: seq<Pending>, shard: ShardId, node: nat, leaf: Data)
    requires node < |labels| && labels[node] == Pending(shard, Leaf(leaf))
    ensures Climbing(H, labels, shard, node, [])
  {
    assert shard[..|shard|] == shard;
  }

  lemma ParentInArena(H: Hash, tree: ShardTree, labels: seq<Pending>, node: nat)
    requires Arena(H, tree.nodes, labels) && node < |tree.nodes| && tree.nodes[node].parent.Some?
    ensures tree.nodes[node].parent.value < |tree.nodes| && tree.nodes[tree.nodes[node].parent.value].children.Some?
    ensures var (l, r) := tree.nodes[tree.nodes[node].parent.value].children.value; l < |tree.nodes| && r < |tree.nodes|
  {
    hide ShardNodeHash;
    assert NodeOk(H, tree.nodes, labels, node) && NodeOk(H, tree.nodes, labels, tree.nodes[node].parent.value);
  }

  lemma IndexSorted(H: Hash, tree: ShardTree, labels: seq<Pending>, leaves: seq<Shard>, t: Full)
    requires WellBuilt(H, tree, labels, leaves, t)
    ensures StrictlySorted(Ids(leaves))
  {
    hide Before, Arena, HashOf;
    forall i, j | 0 <= i < j < |tree.leaves| ensures Before(tree.leaves[i].id, tree.leaves[j].id) {
      LeavesSorted(t, [], i, j);
    }
  }

  // ---- folding a certificate ----

  /** The upper end of the path does not matter for the lower folds. */
  lemma {:induction false} FoldBelow(H: Hash, b: bool, rest: ShardId, siblings: seq<Data>, top: Data, leaf: Data,
                                     n: nat)
    requires n <= |siblings| && n <= |rest|
    ensures ShardFold(H, [b] + rest, siblings + [top], leaf, n) == ShardFold(H, rest, siblings, leaf, n)
  {
    hide ShardNodeHash;
    if n > 0 {
      FoldBelow(H, b, rest, siblings, top, leaf, n - 1);
    }
  }

  /** Folding any leaf with its extracted siblings, by the certificate-side rule, gives the root. */
  lemma {:induction false} CertificateFolds(H: Hash, t: Full, p: ShardId, i: nat)
    requires i < |Leaves(t, p)|
    ensures var leaf := Leaves(t, p)[i];
            && p <= leaf.id
            && var path := leaf.id[|p|..];
               && |SiblingPath(H, t, path)| == |path|
               && ShardFold(H, path, SiblingPath(H, t, path), leaf.hash, |path|) == HashOf(H, t)
  {
    hide ShardNodeHash;
    LeavesBelow(t, p, i);
    if t.Node? {
      var leaf, z := Leaves(t, p)[i], Leaves(t.zero, p + [false]);
      var right := i >= |z|;
      if right {
        CertificateFolds(H, t.one, p + [true], i - |z|);
      } else {
        CertificateFolds(H, t.zero, p + [false], i);
      }
      assert leaf.id[|p|] == right by { assert (p + [right])[|p|] == right; }
      var path, rest := leaf.id[|p|..], leaf.id[|p| + 1..];
      assert path == [right] + rest && path[1..] == rest && |p + [right]| == |p| + 1;
      var below := SiblingPath(H, if right then t.one else t.zero, rest);
      FoldBelow(H, right, rest, below, HashOf(H, if right then t.zero else t.one), leaf.hash, |rest|);
    }
  }
}
