/** Complete prefix-free sharding schemes, and why they are exactly the leaf lists of full binary trees. */
module ShardScheme {
  import opened Bft
  import opened ShardOrder
  import opened ShardPass

  predicate PrefixFree(ids: seq<ShardId>) {
    forall i, j :: 0 <= i < |ids| && 0 <= j < |ids| && i != j ==> !(ids[i] <= ids[j])
  }

  /** Every key of `n` bits that starts with `p` has one of the ids as a prefix. */
  ghost predicate Covered(ids: seq<ShardId>, p: ShardId, n: nat) {
    forall key: ShardId :: |key| == n && p <= key ==> HasPrefix(ids, key)
  }

  ghost predicate HasPrefix(ids: seq<ShardId>, key: ShardId) {
    exists i :: 0 <= i < |ids| && ids[i] <= key
  }

  /** All ids extend `p` and have at most `n` bits. */
  ghost predicate Within(ids: seq<ShardId>, p: ShardId, n: nat) {
    forall i :: 0 <= i < |ids| ==> p <= ids[i] && |ids[i]| <= n
  }

  /** A sorted, prefix-free list below `p`. */
  ghost predicate Candidate(ids: seq<ShardId>, p: ShardId, n: nat) {
    StrictlySorted(ids) && PrefixFree(ids) && Within(ids, p, n) && |p| <= n
  }

  /** `p` extended to `n` bits. */
  function Pad(p: ShardId, n: nat): (k: ShardId)
    requires |p| <= n
    ensures |k| == n && p <= k
  {
    p + seq(n - |p|, _ => false)
  }

  lemma NothingCovers(p: ShardId, n: nat)
    requires |p| <= n
    ensures !Covered([], p, n)
  {
    assert !HasPrefix([], Pad(p, n));
  }

  /** One id covers the keys below `p` only if it is `p`. */
  lemma OneCovers(ids: seq<ShardId>, p: ShardId, n: nat)
    requires |ids| == 1 && Within(ids, p, n) && |p| <= n
    ensures Covered(ids, p, n) <==> |ids[0]| == |p|
  {
    var id := ids[0];
    if |id| > |p| {
      var other := p + [!id[|p|]];
      var key := Pad(other, n);
      assert key[|p|] == other[|p|] && p <= other <= key;
      assert id[|p|] != key[|p|];
      assert !HasPrefix(ids, key);
    } else {
      assert id == p;
      forall key: ShardId | |key| == n && p <= key ensures HasPrefix(ids, key) {
        assert ids[0] <= key;
      }
    }
  }

  /** Several prefix-free ids all continue beyond `p`. */
  lemma Continues(ids: seq<ShardId>, p: ShardId, n: nat, i: nat)
    requires Candidate(ids, p, n) && |ids| > 1 && i < |ids|
    ensures |p| < |ids[i]|
  {
    hide StrictlySorted;
    var j := if i == 0 then 1 else 0;
    assert !(ids[i] <= ids[j]) && p <= ids[j] && p <= ids[i];
    LongerThanPrefix(p, ids[i], ids[j]);
  }

  lemma LongerThanPrefix(p: ShardId, a: ShardId, b: ShardId)
    requires p <= a && p <= b && !(a <= b)
    ensures |p| < |a|
  {
  }

  /** Bit `|p|` of the ids: all zeros come before all ones. */
  lemma ZerosFirst(ids: seq<ShardId>, p: ShardId, n: nat, i: nat, j: nat)
    requires Candidate(ids, p, n) && |ids| > 1 && i < j < |ids|
    ensures |p| < |ids[i]| && |p| < |ids[j]|
    ensures ids[i][|p|] ==> ids[j][|p|]
  {
    hide PrefixFree, Before;
    Continues(ids, p, n, i);
    Continues(ids, p, n, j);
    if ids[i][|p|] && !ids[j][|p|] {
      ExtendBy(p, ids[i]);
      ExtendBy(p, ids[j]);
      ZeroBeforeOne(p, ids[j], ids[i]);
      NotBoth(ids[i], ids[j]);
    }
  }

  lemma ExtendBy(p: ShardId, id: ShardId)
    requires p <= id && |p| < |id|
    ensures p + [id[|p|]] <= id
  {
    assert id[..|p| + 1] == p + [id[|p|]];
  }

  lemma NotBoth(a: ShardId, b: ShardId)
    requires Before(a, b)
    ensures !Before(b, a)
  {
    CompareFlips(a, b);
  }

  /** The two sides of a candidate at `k`, the number of its zeros. */
  ghost predicate SplitsAt(ids: seq<ShardId>, p: ShardId, k: nat) {
    && k <= |ids|
    && (forall i :: 0 <= i < k ==> p + [false] <= ids[i])
    && (forall i :: k <= i < |ids| ==> p + [true] <= ids[i])
  }

  lemma SideCandidates(ids: seq<ShardId>, p: ShardId, n: nat, k: nat)
    requires Candidate(ids, p, n) && SplitsAt(ids, p, k) && |p| < n
    ensures Candidate(ids[..k], p + [false], n) && Candidate(ids[k..], p + [true], n)
  {
    hide Before;
  }

  /** The keys below `p` are covered exactly when both halves are. */
  lemma CoveredSplits(ids: seq<ShardId>, p: ShardId, n: nat, k: nat)
    requires SplitsAt(ids, p, k) && |p| < n
    ensures Covered(ids, p, n) <==> Covered(ids[..k], p + [false], n) && Covered(ids[k..], p + [true], n)
  {
    hide Covered;
    if Covered(ids, p, n) {
      CoveredSide(ids, p, n, k, false);
      CoveredSide(ids, p, n, k, true);
    }
    if Covered(ids[..k], p + [false], n) && Covered(ids[k..], p + [true], n) {
      CoveredJoin(ids, p, n, k);
    }
  }

  lemma ExtendedBy(p: ShardId, b: bool, key: ShardId)
    requires p + [b] <= key
    ensures p <= key && |p| < |key| && key[|p|] == b
  {
    assert p <= p + [b];
    assert (p + [b])[|p|] == b;
  }

  lemma CoveredSide(ids: seq<ShardId>, p: ShardId, n: nat, k: nat, b: bool)
    requires SplitsAt(ids, p, k) && k <= |ids| && |p| < n && Covered(ids, p, n)
    ensures Covered(if b then ids[k..] else ids[..k], p + [b], n)
  {
    hide SplitsAt, HasPrefix;
    forall key: ShardId | |key| == n && p + [b] <= key ensures HasPrefix(if b then ids[k..] else ids[..k], key) {
      ExtendedBy(p, b, key);
      SidePrefix(ids, p, k, key);
    }
  }

  lemma CoveredJoin(ids: seq<ShardId>, p: ShardId, n: nat, k: nat)
    requires SplitsAt(ids, p, k) && |p| < n && Covered(ids[..k], p + [false], n) && Covered(ids[k..], p + [true], n)
    ensures Covered(ids, p, n)
  {
    hide SplitsAt, HasPrefix;
    forall key: ShardId | |key| == n && p <= key ensures HasPrefix(ids, key) {
      ExtendBy(p, key);
      SidePrefix(ids, p, k, key);
    }
  }

  lemma SidePrefix(ids: seq<ShardId>, p: ShardId, k: nat, key: ShardId)
    requires SplitsAt(ids, p, k) && p <= key && |p| < |key|
    ensures HasPrefix(ids, key) <==> HasPrefix(if key[|p|] then ids[k..] else ids[..k], key)
  {
    var side := if key[|p|] then ids[k..] else ids[..k];
    if HasPrefix(ids, key) {
      var i :| 0 <= i < |ids| && ids[i] <= key;
      assert ids[i][|p|] == key[|p|];
      assert (p + [true])[|p|] && !(p + [false])[|p|];
      if key[|p|] {
        assert k <= i && side[i - k] <= key;
      } else {
        assert i < k && side[i] <= key;
      }
    }
    if HasPrefix(side, key) {
      var i :| 0 <= i < |side| && side[i] <= key;
      assert ids[if key[|p|] then i + k else i] <= key;
    }
  }

  // ---- schemes and trees ----

  /** The number of leading ids whose bit `depth` is zero. */
  function LeadingZeros(ids: seq<ShardId>, depth: nat): (k: nat)
    ensures k <= |ids|
    ensures forall i :: 0 <= i < k ==> depth < |ids[i]| && !ids[i][depth]
    ensures k < |ids| ==> !(depth < |ids[k]| && !ids[k][depth])
  {
    if ids != [] && depth < |ids[0]| && !ids[0][depth] then 1 + LeadingZeros(ids[1..], depth) else 0
  }

  lemma LeadingZerosSplit(ids: seq<ShardId>, p: ShardId, n: nat)
    requires Candidate(ids, p, n) && |ids| > 1
    ensures SplitsAt(ids, p, LeadingZeros(ids, |p|))
  {
    hide LeadingZeros;
    var k := LeadingZeros(ids, |p|);
    forall i | 0 <= i < |ids| ensures p + [i >= k] <= ids[i] {
      Continues(ids, p, n, i);
      ExtendBy(p, ids[i]);
      if k < i {
        ZerosFirst(ids, p, n, k, i);
      }
      if k < |ids| {
        Continues(ids, p, n, k);
      }
    }
  }

  lemma IdsSlices(leaves: seq<Shard>, k: nat)
    requires k <= |leaves|
    ensures Ids(leaves[..k]) == Ids(leaves)[..k] && Ids(leaves[k..]) == Ids(leaves)[k..]
  {
  }

  /** Sorted, prefix-free and complete leaves are those of a full binary tree. */
  lemma {:induction false} TreeOf(leaves: seq<Shard>, p: ShardId, n: nat) returns (t: Full)
    requires Candidate(Ids(leaves), p, n) && Covered(Ids(leaves), p, n)
    ensures Leaves(t, p) == leaves
    decreases |leaves|
  {
    hide Candidate, Covered, LeadingZeros;
    var ids := Ids(leaves);
    CandidateFacts(ids, p, n);
    if leaves == [] {
      assert ids == [];
      NothingCovers(p, n);
      assert false;
    } else if |leaves| == 1 {
      OneCovers(ids, p, n);
      assert ids[0] == p;
      t := Leaf(leaves[0].hash);
    } else {
      var k := LeadingZeros(ids, |p|);
      Continues(ids, p, n, 0);
      LeadingZerosSplit(ids, p, n);
      SideCandidates(ids, p, n, k);
      CoveredSplits(ids, p, n, k);
      IdsSlices(leaves, k);
      BothSidesUsed(ids, p, n, k);
      var zero := TreeOf(leaves[..k], p + [false], n);
      var one := TreeOf(leaves[k..], p + [true], n);
      t := Node(zero, one);
      assert leaves == leaves[..k] + leaves[k..];
    }
  }

  lemma CandidateFacts(ids: seq<ShardId>, p: ShardId, n: nat)
    requires Candidate(ids, p, n)
    ensures Within(ids, p, n) && |p| <= n
  {
  }

  lemma BothSidesUsed(ids: seq<ShardId>, p: ShardId, n: nat, k: nat)
    requires k <= |ids| && |p| < n
    requires Covered(ids[..k], p + [false], n) && Covered(ids[k..], p + [true], n)
    ensures 0 < k < |ids|
  {
    hide Covered;
    if k == 0 {
      assert ids[..k] == [];
      NothingCovers(p + [false], n);
    }
    if k == |ids| {
      assert ids[k..] == [];
      NothingCovers(p + [true], n);
    }
  }

  /** The leaves of a full binary tree are complete. */
  lemma {:induction false} TreeCovers(t: Full, p: ShardId, key: ShardId)
    requires p <= key && forall i :: 0 <= i < |Leaves(t, p)| ==> |Leaves(t, p)[i].id| <= |key|
    ensures HasPrefix(Ids(Leaves(t, p)), key)
  {
    match t
    case Leaf(_) =>
      assert Ids(Leaves(t, p))[0] <= key;
    case Node(zero, one) =>
      var z, o := Leaves(zero, p + [false]), Leaves(one, p + [true]);
      assert Leaves(t, p) == z + o;
      assert forall i :: 0 <= i < |z| ==> Leaves(t, p)[i] == z[i];
      assert forall i :: 0 <= i < |o| ==> Leaves(t, p)[i + |z|] == o[i];
      LeavesBelow(zero, p + [false], 0);
      ExtendBy(p, key);
      if key[|p|] {
        TreeCovers(one, p + [true], key);
        var i :| 0 <= i < |Ids(o)| && Ids(o)[i] <= key;
        assert Ids(Leaves(t, p))[i + |z|] <= key;
      } else {
        TreeCovers(zero, p + [false], key);
        var i :| 0 <= i < |Ids(z)| && Ids(z)[i] <= key;
        assert Ids(Leaves(t, p))[i] <= key;
      }
  }

  /** A list of shards of at most `n` bits is the leaf list of a full binary tree exactly when it is
      sorted, prefix-free and complete. */
  lemma TilesExactly(leaves: seq<Shard>, n: nat)
    requires Within(Ids(leaves), [], n)
    ensures Tiles(leaves) <==> StrictlySorted(Ids(leaves)) && PrefixFree(Ids(leaves)) && Covered(Ids(leaves), [], n)
  {
    hide Before, Leaves;
    if Tiles(leaves) {
      var t :| Leaves(t, []) == leaves;
      var ids := Ids(leaves);
      forall i, j | 0 <= i < j < |leaves| ensures Before(ids[i], ids[j]) && !(ids[i] <= ids[j]) && !(ids[j] <= ids[i]) {
        LeavesSorted(t, [], i, j);
        if ids[j] <= ids[i] {
          PrefixFirst(ids[j], ids[i]);
        }
      }
      forall key: ShardId | |key| == n && [] <= key ensures HasPrefix(ids, key) {
        TreeCovers(t, [], key);
      }
    } else if StrictlySorted(Ids(leaves)) && PrefixFree(Ids(leaves)) && Covered(Ids(leaves), [], n) {
      var t := TreeOf(leaves, [], n);
    }
  }
}
