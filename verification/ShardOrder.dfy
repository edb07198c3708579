/** Shard identifiers as bit strings: canonical order, prefixes, and the leaves of full binary trees. */
module ShardOrder {
  import opened Hashing
  import opened Bft

  datatype Ordering = Less | Equal | Greater

  /** Lexicographic, `0` before `1`, a proper prefix first. */
  function Compare(a: ShardId, b: ShardId): (o: Ordering) {
    if a == [] then (if b == [] then Equal else Less)
    else if b == [] then Greater
    else if a[0] != b[0] then (if b[0] then Less else Greater)
    else Compare(a[1..], b[1..])
  }

  predicate Before(a: ShardId, b: ShardId) { Compare(a, b) == Less }

  /** Comparison bit by bit up to the shorter length, then by length. */
  method CanonicalCmp(a: ShardId, b: ShardId) returns (o: Ordering)
    ensures o == Compare(a, b)
  {
    var n := if |a| < |b| then |a| else |b|;
    assert a[0..] == a && b[0..] == b;
    for i := 0 to n
      invariant Compare(a, b) == Compare(a[i..], b[i..])
    {
      if a[i] != b[i] {
        return if b[i] then Less else Greater;
      }
      assert a[i..][1..] == a[i + 1..] && b[i..][1..] == b[i + 1..];
    }
    return if |a| < |b| then Less else if |a| == |b| then Equal else Greater;
  }

  lemma {:induction false} CompareEqual(a: ShardId, b: ShardId)
    ensures Compare(a, b) == Equal <==> a == b
  {
    if a != [] && b != [] && a[0] == b[0] {
      CompareEqual(a[1..], b[1..]);
      assert a == [a[0]] + a[1..] && b == [b[0]] + b[1..];
    }
  }

  lemma {:induction false} CompareFlips(a: ShardId, b: ShardId)
    ensures Compare(a, b) == Less <==> Compare(b, a) == Greater
  {
    if a != [] && b != [] && a[0] == b[0] {
      CompareFlips(a[1..], b[1..]);
    }
  }

  lemma {:induction false} BeforeTransitive(a: ShardId, b: ShardId, c: ShardId)
    requires Before(a, b) && Before(b, c)
    ensures Before(a, c)
  {
    if a != [] && a[0] == b[0] && b[0] == c[0] {
      BeforeTransitive(a[1..], b[1..], c[1..]);
    }
  }

  /** What lies between a prefix and one of its extensions extends the prefix. */
  lemma {:induction false} PrefixBetween(a: ShardId, b: ShardId, c: ShardId)
    requires a <= c && !Before(b, a) && !Before(c, b)
    ensures a <= b
  {
    if a != [] {
      assert c[0] == a[0] && a[1..] <= c[1..];
      assert b != [];
      if b[0] == a[0] {
        PrefixBetween(a[1..], b[1..], c[1..]);
        assert a == [a[0]] + a[1..] && b == [b[0]] + b[1..];
      }
    }
  }

  lemma {:induction false} PrefixFirst(a: ShardId, b: ShardId)
    requires a <= b
    ensures !Before(b, a)
  {
    if a != [] {
      PrefixFirst(a[1..], b[1..]);
    }
  }

  /** Ids below the zero child come before ids below the one child. */
  lemma {:induction false} ZeroBeforeOne(p: ShardId, a: ShardId, b: ShardId)
    requires p + [false] <= a && p + [true] <= b
    ensures Before(a, b) && !(a <= b)
  {
    assert a[|p|] == (p + [false])[|p|] && b[|p|] == (p + [true])[|p|];
    if p == [] {
    } else {
      assert a[0] == (p + [false])[0] && b[0] == (p + [true])[0];
      assert (p + [false])[1..] == p[1..] + [false] && (p + [true])[1..] == p[1..] + [true];
      ZeroBeforeOne(p[1..], a[1..], b[1..]);
    }
  }

  ghost predicate StrictlySorted(ids: seq<ShardId>) {
    forall i, j :: 0 <= i < j < |ids| ==> Before(ids[i], ids[j])
  }

  /** Adjacent order is order throughout. */
  lemma {:induction false} SortedFromNeighbours(ids: seq<ShardId>, i: nat, j: nat)
    requires forall k :: 0 < k < |ids| ==> Before(ids[k - 1], ids[k])
    requires i < j < |ids|
    ensures Before(ids[i], ids[j])
    decreases j - i
  {
    hide Before;
    if i < j - 1 {
      SortedFromNeighbours(ids, i, j - 1);
      BeforeTransitive(ids[i], ids[j - 1], ids[j]);
    }
  }

  /** Binary search in canonical order. */
  method FindId(ids: seq<ShardId>, id: ShardId) returns (r: Option<nat>)
    requires StrictlySorted(ids)
    ensures r.Some? ==> r.value < |ids| && ids[r.value] == id
    ensures r.None? ==> forall i :: 0 <= i < |ids| ==> ids[i] != id
  {
    hide Compare;
    var lo, hi := 0, |ids|;
    while lo < hi
      invariant 0 <= lo <= hi <= |ids|
      invariant forall i :: 0 <= i < lo ==> Before(ids[i], id)
      invariant forall i :: hi <= i < |ids| ==> Before(id, ids[i])
    {
      var mid := (lo + hi) / 2;
      var o := CanonicalCmp(ids[mid], id);
      CompareEqual(ids[mid], id);
      CompareFlips(id, ids[mid]);
      match o
      case Equal => return Some(mid);
      case Less =>
        forall i | 0 <= i < mid + 1 ensures Before(ids[i], id) {
          if i < mid { BeforeTransitive(ids[i], ids[mid], id); }
        }
        lo := mid + 1;
      case Greater =>
        forall i | mid <= i < |ids| ensures Before(id, ids[i]) {
          if mid < i { BeforeTransitive(id, ids[mid], ids[i]); }
        }
        hi := mid;
    }
    forall i | 0 <= i < |ids| ensures ids[i] != id {
      CompareEqual(id, id);
    }
    return None;
  }
}
