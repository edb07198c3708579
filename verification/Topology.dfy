/** The trusted sharding scheme of a partition: validation and routing. */
module Topology {
  import opened Hashing
  import opened Bft
  import opened Radix
  import opened ShardOrder
  import opened ShardPass
  import opened ShardScheme

  const MAX_SHARD_ID_BITS: nat := 256

  // ---- sorting ----

  ghost predicate Ordered(ids: seq<ShardId>) {
    forall i, j :: 0 <= i < j < |ids| ==> !Before(ids[j], ids[i])
  }

  /** Sort a copy of the scheme. */
  method SortIds(scheme: seq<ShardId>) returns (ids: seq<ShardId>)
    ensures multiset(ids) == multiset(scheme) && Ordered(ids)
  {
    hide Before;
    ids := [];
    for i := 0 to |scheme|
      invariant multiset(ids) == multiset(scheme[..i]) && Ordered(ids)
    {
      hide Ordered;
      assert scheme[..i + 1] == scheme[..i] + [scheme[i]];
      ids := InsertId(ids, scheme[i]);
    }
    assert scheme[..|scheme|] == scheme;
  }

  method InsertId(ids: seq<ShardId>, x: ShardId) returns (r: seq<ShardId>)
    requires Ordered(ids)
    ensures Ordered(r) && multiset(r) == multiset(ids) + multiset{x}
  {
    hide Before, Ordered;
    var k := |ids|;
    while k > 0
      invariant 0 <= k <= |ids|
      invariant forall j :: k <= j < |ids| ==> Before(x, ids[j])
      decreases k
    {
      var o := CanonicalCmp(ids[k - 1], x);
      LessOrNot(x, ids[k - 1], o);
      if o != Greater {
        break;
      }
      k := k - 1;
    }
    InsertOrdered(ids, x, k);
    assert ids == ids[..k] + ids[k..];
    r := ids[..k] + [x] + ids[k..];
  }

  lemma LessOrNot(x: ShardId, y: ShardId, o: Ordering)
    requires o == Compare(y, x)
    ensures o == Greater <==> Before(x, y)
  {
    CompareFlips(x, y);
  }

  lemma {:induction false} NotBeforeTransitive(a: ShardId, b: ShardId, c: ShardId)
    requires !Before(b, a) && !Before(c, b)
    ensures !Before(c, a)
  {
    hide Compare;
    CompareFlips(c, a);
    CompareFlips(b, a);
    CompareFlips(c, b);
    CompareEqual(c, b);
    CompareEqual(b, a);
    if Before(c, a) && b != a && c != b {
      Trichotomy(a, b);
      Trichotomy(b, c);
      BeforeTransitive(a, b, c);
      CompareFlips(a, c);
    }
  }

  lemma Trichotomy(a: ShardId, b: ShardId)
    requires !Before(b, a) && a != b
    ensures Before(a, b)
  {
    CompareFlips(b, a);
    CompareFlips(a, b);
    CompareEqual(a, b);
  }

  lemma InsertOrdered(ids: seq<ShardId>, x: ShardId, k: nat)
    requires Ordered(ids) && k <= |ids|
    requires forall j :: k <= j < |ids| ==> Before(x, ids[j])
    requires k > 0 ==> !Before(x, ids[k - 1])
    ensures Ordered(ids[..k] + [x] + ids[k..])
  {
    hide Before;
    var out := ids[..k] + [x] + ids[k..];
    forall i | 0 <= i < k ensures !Before(x, ids[i]) {
      if i < k - 1 {
        NotBeforeTransitive(ids[i], ids[k - 1], x);
      }
    }
    forall j | k <= j < |ids| ensures !Before(ids[j], x) {
      NotBoth(x, ids[j]);
    }
    forall i, j | 0 <= i < j < |out| ensures !Before(out[j], out[i]) {
      assert out[i] == if i < k then ids[i] else if i == k then x else ids[i - 1];
      assert out[j] == if j < k then ids[j] else if j == k then x else ids[j - 1];
    }
  }

  // ---- prefix-freeness, seen between neighbours ----

  lemma NeighboursSuffice(ids: seq<ShardId>)
    requires Ordered(ids)
    ensures PrefixFree(ids) <==> forall i :: 0 < i < |ids| ==> !(ids[i - 1] <= ids[i])
  {
    hide Before;
    if forall i :: 0 < i < |ids| ==> !(ids[i - 1] <= ids[i]) {
      forall i, j | 0 <= i < j < |ids| ensures !(ids[i] <= ids[j]) && !(ids[j] <= ids[i]) {
        if ids[i] <= ids[j] || ids[j] <= ids[i] {
          OverlapForward(ids, i, j);
          OverlapAdjacent(ids, i, j);
        }
      }
    }
  }

  lemma OverlapForward(ids: seq<ShardId>, i: nat, j: nat)
    requires Ordered(ids) && i < j < |ids| && (ids[i] <= ids[j] || ids[j] <= ids[i])
    ensures ids[i] <= ids[j]
  {
    hide Before;
    if ids[j] <= ids[i] {
      PrefixFirst(ids[j], ids[i]);
      EqualWhenNeither(ids[i], ids[j]);
    }
  }

  lemma OverlapAdjacent(ids: seq<ShardId>, i: nat, j: nat)
    requires Ordered(ids) && i < j < |ids| && ids[i] <= ids[j]
    ensures ids[i + 1 - 1] <= ids[i + 1]
  {
    hide Before;
    if i + 1 < j {
      PrefixBetween(ids[i], ids[i + 1], ids[j]);
    }
  }

  lemma EqualWhenNeither(a: ShardId, b: ShardId)
    requires !Before(a, b) && !Before(b, a)
    ensures a == b
  {
    if a != b {
      Trichotomy(a, b);
    }
  }

  lemma PrefixFreeSorted(ids: seq<ShardId>)
    requires Ordered(ids) && PrefixFree(ids)
    ensures StrictlySorted(ids)
  {
    hide Before;
    forall i, j | 0 <= i < j < |ids| ensures Before(ids[i], ids[j]) {
      assert !(ids[i] <= ids[j]);
      Trichotomy(ids[i], ids[j]);
    }
  }

  // ---- the order of the scheme does not matter ----

  lemma SameElements(a: seq<ShardId>, b: seq<ShardId>, i: nat) returns (j: nat)
    requires multiset(a) == multiset(b) && i < |a|
    ensures j < |b| && b[j] == a[i]
  {
    assert a[i] in multiset(b);
    j :| 0 <= j < |b| && b[j] == a[i];
  }

  lemma TwiceCounted(a: seq<ShardId>, i: nat, j: nat)
    requires i < j < |a| && a[i] == a[j]
    ensures multiset(a)[a[i]] >= 2
  {
    assert a == a[..j] + a[j..];
    assert a[i] in a[..j] && a[i] == a[j..][0];
    assert a[i] in a[j..];
    assert a[i] in multiset(a[..j]) && a[i] in multiset(a[j..]);
  }

  lemma {:induction false} CountedTwice(a: seq<ShardId>, x: ShardId) returns (i: nat, j: nat)
    requires multiset(a)[x] >= 2
    ensures i < j < |a| && a[i] == a[j] == x
  {
    var k := |a| - 1;
    assert a == a[..k] + [a[k]];
    if a[k] == x {
      assert x in multiset(a[..k]);
      j := k;
      i :| 0 <= i < k && a[i] == x;
    } else {
      i, j := CountedTwice(a[..k], x);
    }
  }

  lemma PrefixFreePermuted(a: seq<ShardId>, b: seq<ShardId>)
    requires multiset(a) == multiset(b) && PrefixFree(a)
    ensures PrefixFree(b)
  {
    forall i, j | 0 <= i < |b| && 0 <= j < |b| && i != j ensures !(b[i] <= b[j]) {
      if b[i] <= b[j] {
        var k := SameElements(b, a, i);
        var l := SameElements(b, a, j);
        if k == l {
          TwiceCounted(b, if i < j then i else j, if i < j then j else i);
          var m, n := CountedTwice(a, b[i]);
        }
      }
    }
  }

  lemma CoveredPermuted(a: seq<ShardId>, b: seq<ShardId>, p: ShardId, n: nat)
    requires multiset(a) == multiset(b) && Covered(a, p, n)
    ensures Covered(b, p, n)
  {
    forall key: ShardId | |key| == n && p <= key ensures HasPrefix(b, key) {
      assert HasPrefix(a, key);
      var i :| 0 <= i < |a| && a[i] <= key;
      var j := SameElements(a, b, i);
      assert b[j] <= key;
    }
  }

  // ---- validation ----

  /** The number of leading zeros at `depth`, by bisection. */
  method PartitionPoint(ids: seq<ShardId>, depth: nat, ghost p: ShardId) returns (k: nat)
    requires Candidate(ids, p, MAX_SHARD_ID_BITS) && |ids| > 1 && |p| == depth
    ensures SplitsAt(ids, p, k)
  {
    hide Candidate, LeadingZeros;
    LeadingZerosSplit(ids, p, MAX_SHARD_ID_BITS);
    ghost var z := LeadingZeros(ids, depth);
    var lo, hi := 0, |ids|;
    while lo < hi
      invariant lo <= z <= hi <= |ids|
    {
      var mid := (lo + hi) / 2;
      BitSide(ids, p, z, mid);
      if depth < |ids[mid]| && !ids[mid][depth] {
        lo := mid + 1;
      } else {
        hi := mid;
      }
    }
    k := lo;
  }

  lemma BitSide(ids: seq<ShardId>, p: ShardId, k: nat, i: nat)
    requires SplitsAt(ids, p, k) && i < |ids|
    ensures |p| < |ids[i]| && (ids[i][|p|] <==> k <= i)
  {
    assert (p + [false])[|p|] == false && (p + [true])[|p|] == true;
  }

  /** Whether sorted, prefix-free ids below a common prefix of `depth` bits tile its subtree. */
  method Covers(ids: seq<ShardId>, depth: nat, ghost p: ShardId) returns (ok: bool)
    requires Candidate(ids, p, MAX_SHARD_ID_BITS) && |p| == depth && ids != []
    ensures ok <==> Covered(ids, p, MAX_SHARD_ID_BITS)
    decreases |ids|
  {
    hide Candidate, Covered;
    CandidateFacts(ids, p, MAX_SHARD_ID_BITS);
    if |ids| == 1 {
      OneCovers(ids, p, MAX_SHARD_ID_BITS);
      return |ids[0]| == depth;
    }
    Continues(ids, p, MAX_SHARD_ID_BITS, 0);
    var split := PartitionPoint(ids, depth, p);
    CoveredSplits(ids, p, MAX_SHARD_ID_BITS, split);
    SideCandidates(ids, p, MAX_SHARD_ID_BITS, split);
    if split == 0 || split == |ids| {
      NotCovered(ids, p, split);
      return false;
    }
    ok := Covers(ids[..split], depth + 1, p + [false]);
    if ok {
      ok := Covers(ids[split..], depth + 1, p + [true]);
    }
  }

  lemma NotCovered(ids: seq<ShardId>, p: ShardId, k: nat)
    requires k == 0 || k == |ids|
    requires |p| < MAX_SHARD_ID_BITS
    ensures k <= |ids|
    ensures !(Covered(ids[..k], p + [false], MAX_SHARD_ID_BITS) && Covered(ids[k..], p + [true], MAX_SHARD_ID_BITS))
  {
    hide Covered;
    if Covered(ids[..k], p + [false], MAX_SHARD_ID_BITS) && Covered(ids[k..], p + [true], MAX_SHARD_ID_BITS) {
      BothSidesUsed(ids, p, MAX_SHARD_ID_BITS, k);
    }
  }

  /** A complete prefix-free scheme of at least two non-empty ids, within the limits. */
  ghost predicate Admissible(scheme: seq<ShardId>, maxShards: nat) {
    && 2 <= |scheme| <= maxShards
    && (forall id :: id in scheme ==> 0 < |id| <= MAX_SHARD_ID_BITS)
    && PrefixFree(scheme) && Covered(scheme, [], MAX_SHARD_ID_BITS)
  }

  /** What a router or a shard tree may rely on. */
  ghost predicate Canonical(ids: seq<ShardId>) {
    Candidate(ids, [], MAX_SHARD_ID_BITS) && Covered(ids, [], MAX_SHARD_ID_BITS)
  }

  /** The scheme in left-to-right order, if it is admissible; the empty scheme is the single shard. */
  method CanonicalOrder(scheme: seq<ShardId>, maxShards: nat) returns (r: Option<seq<ShardId>>)
    ensures r.Some? <==> scheme == [] || Admissible(scheme, maxShards)
    ensures r.Some? ==> Canonical(r.value)
    ensures r.Some? ==> multiset(r.value) == if scheme == [] then multiset{[]} else multiset(scheme)
  {
    hide Before, Covered;
    if |scheme| > maxShards {
      return None;
    }
    if scheme == [] {
      RootCanonical();
      return Some([[]]);
    }
    if |scheme| == 1 {
      return None;
    }
    for i := 0 to |scheme|
      invariant forall j :: 0 <= j < i ==> 0 < |scheme[j]| <= MAX_SHARD_ID_BITS
    {
      assert scheme[i] in scheme;
      if |scheme[i]| == 0 || |scheme[i]| > MAX_SHARD_ID_BITS {
        return None;
      }
    }
    var ids := SortIds(scheme);
    Permuted(scheme, ids);
    NeighboursSuffice(ids);
    for i := 1 to |ids|
      invariant forall j :: 0 < j < i ==> !(ids[j - 1] <= ids[j])
    {
      if ids[i - 1] <= ids[i] {
        return None;
      }
    }
    PrefixFreeSorted(ids);
    WithinFromScheme(scheme, ids);
    var ok := Covers(ids, 0, []);
    return if ok then Some(ids) else None;
  }

  lemma RootCanonical()
    ensures Canonical([[]])
  {
    OneCovers([[]], [], MAX_SHARD_ID_BITS);
  }

  lemma Permuted(scheme: seq<ShardId>, ids: seq<ShardId>)
    requires multiset(scheme) == multiset(ids)
    ensures |scheme| == |ids| && (PrefixFree(scheme) <==> PrefixFree(ids))
    ensures Covered(scheme, [], MAX_SHARD_ID_BITS) <==> Covered(ids, [], MAX_SHARD_ID_BITS)
  {
    hide PrefixFree, Covered;
    assert |multiset(scheme)| == |scheme| && |multiset(ids)| == |ids|;
    if PrefixFree(scheme) { PrefixFreePermuted(scheme, ids); }
    if PrefixFree(ids) { PrefixFreePermuted(ids, scheme); }
    if Covered(scheme, [], MAX_SHARD_ID_BITS) { CoveredPermuted(scheme, ids, [], MAX_SHARD_ID_BITS); }
    if Covered(ids, [], MAX_SHARD_ID_BITS) { CoveredPermuted(ids, scheme, [], MAX_SHARD_ID_BITS); }
  }

  lemma WithinFromScheme(scheme: seq<ShardId>, ids: seq<ShardId>)
    requires multiset(scheme) == multiset(ids)
    requires forall j :: 0 <= j < |scheme| ==> 0 < |scheme[j]| <= MAX_SHARD_ID_BITS
    ensures Within(ids, [], MAX_SHARD_ID_BITS)
  {
    forall i | 0 <= i < |ids| ensures [] <= ids[i] && |ids[i]| <= MAX_SHARD_ID_BITS {
      var j := SameElements(ids, scheme, i);
    }
  }

  /** The leaves of a canonical scheme always build a shard tree. */
  lemma CanonicalTiles(leaves: seq<Shard>)
    requires Canonical(Ids(leaves))
    ensures Tiles(leaves)
  {
    hide StrictlySorted, PrefixFree, Covered, Tiles;
    TilesExactly(leaves, MAX_SHARD_ID_BITS);
  }

  // ---- routing ----

  function KeyBits(key: Digest): (k: ShardId)
    ensures |k| == 256
  {
    seq(256, i requires 0 <= i < 256 => BitAt(key, i))
  }

  /** Where an id lies relative to the first bits of a key. */
  function ComparePrefix(id: ShardId, key: ShardId): (o: Ordering)
    requires |id| <= |key|
  {
    if id == [] then Equal
    else if id[0] != key[0] then (if key[0] then Less else Greater)
    else ComparePrefix(id[1..], key[1..])
  }

  method CmpPrefixOfKey(id: ShardId, key: Digest) returns (o: Ordering)
    requires |id| <= 256
    ensures o == ComparePrefix(id, KeyBits(key))
  {
    hide BitAt;
    var bits := KeyBits(key);
    assert id[0..] == id && bits[0..] == bits;
    for i := 0 to |id|
      invariant ComparePrefix(id, bits) == ComparePrefix(id[i..], bits[i..])
    {
      if id[i] != bits[i] {
        return if bits[i] then Less else Greater;
      }
      assert id[i..][1..] == id[i + 1..] && bits[i..][1..] == bits[i + 1..];
    }
    return Equal;
  }

  lemma {:induction false} ComparePrefixMeaning(id: ShardId, key: ShardId)
    requires |id| <= |key|
    ensures ComparePrefix(id, key) == Equal <==> id <= key
    ensures ComparePrefix(id, key) == Less ==> Before(id, key)
    ensures ComparePrefix(id, key) == Greater ==> Before(key, id)
  {
    if id != [] && id[0] == key[0] {
      ComparePrefixMeaning(id[1..], key[1..]);
      assert id == [id[0]] + id[1..] && key == [key[0]] + key[1..];
    }
  }

  /** The sides of the search stay apart from the shard that prefixes the key. */
  lemma SearchSides(ids: seq<ShardId>, key: ShardId, target: nat, i: nat)
    requires Candidate(ids, [], |key|) && target < |ids| && i < |ids| && ids[target] <= key
    ensures ComparePrefix(ids[i], key) == Equal <==> i == target
    ensures ComparePrefix(ids[i], key) == Less <==> i < target
  {
    hide Before, ComparePrefix;
    ComparePrefixMeaning(ids[i], key);
    if i != target {
      assert !(ids[i] <= ids[target]) && !(ids[target] <= ids[i]);
      OnePrefix(ids[i], ids[target], key);
      if i < target {
        if Before(key, ids[i]) {
          PrefixFirst(ids[target], key);
          KeyBetween(ids[i], ids[target], key);
        }
      } else {
        if Before(ids[i], key) {
          NotBoth(ids[target], ids[i]);
          NotBoth(ids[i], key);
          PrefixBetween(ids[target], ids[i], key);
        }
      }
    }
  }

  lemma KeyBetween(a: ShardId, t: ShardId, key: ShardId)
    requires Before(a, t) && Before(key, a)
    ensures Before(key, t)
  {
    BeforeTransitive(key, a, t);
  }

  lemma OnePrefix(a: ShardId, b: ShardId, key: ShardId)
    requires b <= key && !(a <= b) && !(b <= a)
    ensures !(a <= key)
  {
    if a <= key {
      Comparable(a, b, key);
    }
  }

  lemma Comparable(a: ShardId, b: ShardId, key: ShardId)
    requires a <= key && b <= key
    ensures a <= b || b <= a
  {
  }

  /** Bisection with a prefix comparison; `None` when no id compares equal. */
  method SearchPrefix(ids: seq<ShardId>, key: Digest, ghost target: nat) returns (r: Option<nat>)
    requires Candidate(ids, [], 256) && target < |ids| && ids[target] <= KeyBits(key)
    ensures r == Some(target)
  {
    hide KeyBits, ComparePrefix, StrictlySorted, PrefixFree;
    var lo, hi := 0, |ids|;
    while lo < hi
      invariant 0 <= lo <= target < hi <= |ids|
      decreases hi - lo
    {
      var mid := (lo + hi) / 2;
      SearchSides(ids, KeyBits(key), target, mid);
      var o := CmpPrefixOfKey(ids[mid], key);
      if o == Equal {
        return Some(mid);
      } else if o == Less {
        lo := mid + 1;
      } else {
        hi := mid;
      }
    }
    return None;
  }

  /** The shard serving a key: the one shard whose id prefixes it, so the default is never used. */
  method RouteIndex(ids: seq<ShardId>, key: Digest) returns (i: nat)
    requires Canonical(ids)
    ensures i < |ids| && ids[i] <= KeyBits(key)
    ensures forall j :: 0 <= j < |ids| && ids[j] <= KeyBits(key) ==> j == i
  {
    hide KeyBits, StrictlySorted, ComparePrefix;
    var bits := KeyBits(key);
    assert [] <= bits && HasPrefix(ids, bits);
    ghost var target :| 0 <= target < |ids| && ids[target] <= bits;
    var found := SearchPrefix(ids, key, target);
    i := if found.Some? then found.value else 0;
    forall j | 0 <= j < |ids| && ids[j] <= bits ensures j == i {
      SearchSides(ids, bits, target, j);
      ComparePrefixMeaning(ids[j], bits);
    }
  }
}
