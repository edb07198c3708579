/** CBOR items as trees, and the exact extent of the scanner: it accepts the encodings of all trees within
    the limits, and nothing else.
 */
module CborTrees {
  import opened Hashing
  import opened CborHead
  import opened CborScan
  import opened CborDecode

  /** An integer or simple value, a string, or an array, map or tag over its members in order. */
  datatype Tree =
    | Scalar(major: nat, arg: nat)
    | Text(major: nat, data: Bytes)
    | Compound(major: nat, arg: nat, members: seq<Tree>)

  function Max(a: nat, b: nat): (m: nat) { if a < b then b else a }

  /** How deep members are nested below the root. */
  function Nesting(t: Tree): (n: nat) {
    if t.Compound? && t.members != [] then 1 + NestingAll(t.members) else 0
  }

  function NestingAll(ts: seq<Tree>): (n: nat) {
    if ts == [] then 0 else Max(Nesting(ts[0]), NestingAll(ts[1..]))
  }

  /** The largest number of elements or entries of an array or map. */
  function Largest(t: Tree): (n: nat) {
    if t.Compound? then Max(if t.major == TAG then 0 else t.arg, LargestAll(t.members)) else 0
  }

  function LargestAll(ts: seq<Tree>): (n: nat) {
    if ts == [] then 0 else Max(Largest(ts[0]), LargestAll(ts[1..]))
  }

  /** The number of items, the tree itself included. */
  function Count(t: Tree): (n: nat)
    ensures n > 0
  {
    1 + if t.Compound? then CountAll(t.members) else 0
  }

  function CountAll(ts: seq<Tree>): (n: nat) {
    if ts == [] then 0 else Count(ts[0]) + CountAll(ts[1..])
  }

  /** What the heads of a tree may be: arguments of 64 bits, and as many members as announced. */
  predicate WellFormed(t: Tree) {
    match t
    case Scalar(major, arg) => (major == UINT || major == NEGINT || major == SIMPLE) && arg < TWO_64
    case Text(major, data) => (major == BYTES || major == TEXT) && |data| + 9 < TWO_64
    case Compound(major, arg, members) =>
      && arg < TWO_64 && AllWellFormed(members)
      && ((major == ARRAY && |members| == arg) || (major == MAP && |members| == 2 * arg < TWO_64)
          || (major == TAG && |members| == 1))
  }

  predicate AllWellFormed(ts: seq<Tree>) { ts != [] ==> WellFormed(ts[0]) && AllWellFormed(ts[1..]) }

  function Encode(t: Tree): (b: Bytes)
    requires WellFormed(t)
    ensures |b| > 0
  {
    match t
    case Scalar(major, arg) => EncodeHead(major, arg)
    case Text(major, data) => EncodeHead(major, |data|) + data
    case Compound(major, arg, members) => EncodeHead(major, arg) + EncodeAll(members)
  }

  function EncodeAll(ts: seq<Tree>): (b: Bytes)
    requires AllWellFormed(ts)
    ensures |b| >= |ts|
  {
    if ts == [] then [] else Encode(ts[0]) + EncodeAll(ts[1..])
  }

  // ---- what is accepted ----

  /** At nesting `depth`, with `budget` items left. */
  predicate Allowed(t: Tree, lim: Limits, depth: nat, budget: nat) {
    depth + Nesting(t) <= lim.nestingDepth && Largest(t) <= lim.collectionItems && Count(t) <= budget
  }

  predicate AllAllowed(ts: seq<Tree>, lim: Limits, depth: nat, budget: nat) {
    && (ts != [] ==> depth + NestingAll(ts) <= lim.nestingDepth)
    && LargestAll(ts) <= lim.collectionItems && CountAll(ts) <= budget
  }

  /** The verdict of the scanner on something that is allowed or not. */
  predicate Decides(r: Result<Scan>, allowed: bool, len: nat, count: nat, budget: nat) {
    && (r.Ok? <==> allowed)
    && (allowed ==> count <= budget && r == Ok(Scan(len, budget - count)))
  }

  /** The scanner accepts the encoding of a tree, in front of anything, exactly when the tree is within the
      limits; it then spends one unit of budget per item. */
  lemma {:induction false} ScansExactly(t: Tree, rest: Bytes, lim: Limits, depth: nat, budget: nat)
    requires WellFormed(t) && |Encode(t) + rest| <= lim.inputBytes
    ensures Decides(ItemLen(Encode(t) + rest, lim, depth, budget), Allowed(t, lim, depth, budget),
                    |Encode(t)|, Count(t), budget)
    decreases t, 1
  {
    hide EncodeHead, ReadHead, ItemsLen;
    var b := Encode(t) + rest;
    match t {
      case Scalar(major, arg) =>
        ReadEncoded(major, arg, rest);
      case Text(major, data) =>
        assert b == EncodeHead(major, |data|) + (data + rest);
        ReadEncoded(major, |data|, data + rest);
      case Compound(major, arg, members) =>
        var head, body := EncodeHead(major, arg), EncodeAll(members);
        assert b == head + (body + rest) && b[|head|..] == body + rest;
        ReadEncoded(major, arg, body + rest);
        if budget > 0 {
          AllScanExactly(t, 0, rest, lim, depth + 1, budget - 1);
          assert members[0..] == members;
        }
    }
  }

  lemma {:induction false} AllScanExactly(t: Tree, k: nat, rest: Bytes, lim: Limits, depth: nat, budget: nat)
    requires t.Compound? && k <= |t.members| && AllWellFormed(t.members[k..])
    requires |EncodeAll(t.members[k..]) + rest| <= lim.inputBytes
    ensures var ts := t.members[k..];
            Decides(ItemsLen(EncodeAll(ts) + rest, |ts|, lim, depth, budget), AllAllowed(ts, lim, depth, budget),
                    |EncodeAll(ts)|, CountAll(ts), budget)
    decreases t, 0, |t.members| - k
  {
    hide ItemLen, ItemsLen, Encode, WellFormed;
    var ts := t.members[k..];
    var b := EncodeAll(ts) + rest;
    if ts == [] {
      NoItems(b, lim, depth, budget);
    } else {
      assert ts[0] == t.members[k] && ts[1..] == t.members[k + 1..];
      var first, tail := Encode(ts[0]), EncodeAll(ts[1..]);
      assert b == first + (tail + rest) && b[|first|..] == tail + rest && b[0..] == b;
      ScansExactly(ts[0], tail + rest, lim, depth, budget);
      NextItem(b, 0, |ts|, lim, depth, budget);
      if Count(ts[0]) <= budget {
        AllScanExactly(t, k + 1, rest, lim, depth, budget - Count(ts[0]));
      }
    }
  }

  // ---- everything accepted is a tree ----

  /** The tree of what the scanner measured. */
  lemma {:induction false} ParseItem(b: Bytes, lim: Limits, depth: nat, budget: nat) returns (t: Tree)
    requires ItemLen(b, lim, depth, budget).Ok?
    ensures WellFormed(t) && Encode(t) == b[..ItemLen(b, lim, depth, budget).value.len]
    decreases |b|, 0
  {
    hide ReadHead, EncodeHead, ItemsLen;
    var n := ItemLen(b, lim, depth, budget).value.len;
    var h := ReadHead(b).value;
    EncodeRead(b);
    if h.major == BYTES || h.major == TEXT {
      t := Text(h.major, b[h.len..n]);
      assert b[..n] == b[..h.len] + b[h.len..n];
      TextSize(b, h.major, h.arg, h.len);
    } else if h.major == ARRAY || h.major == MAP || h.major == TAG {
      var count := ChildCount(h, lim).value;
      var members := ParseItems(b[h.len..], count, lim, depth + 1, budget - 1);
      t := Compound(h.major, h.arg, members);
      assert b[..n] == b[..h.len] + b[h.len..][..n - h.len];
    } else {
      t := Scalar(h.major, h.arg);
    }
  }

  /** A string whose total length has 64 bits leaves room for the longest head. */
  lemma TextSize(b: Bytes, major: nat, arg: nat, len: nat)
    requires ReadHead(b) == Ok(Head(major, arg, len)) && len + arg < TWO_64
    ensures arg + 9 < TWO_64
  {
    if arg > 0xffff_ffff {
      assert len == 9 by {
        EncodeRead(b);
        assert InfoFor(arg) == 27;
      }
    }
  }

  lemma {:induction false} ParseItems(b: Bytes, count: nat, lim: Limits, depth: nat, budget: nat) returns (ts: seq<Tree>)
    requires ItemsLen(b, count, lim, depth, budget).Ok?
    ensures |ts| == count && AllWellFormed(ts)
    ensures EncodeAll(ts) == b[..ItemsLen(b, count, lim, depth, budget).value.len]
    decreases |b|, 1, count
  {
    hide ItemLen, ItemsLen, Encode, WellFormed;
    if count == 0 {
      ts := [];
      NoItems(b, lim, depth, budget);
    } else {
      assert b[0..] == b;
      NextItem(b, 0, count, lim, depth, budget);
      var n := ItemsLen(b, count, lim, depth, budget).value.len;
      var first := ItemLen(b, lim, depth, budget).value;
      var t := ParseItem(b, lim, depth, budget);
      var rest := ParseItems(b[first.len..], count - 1, lim, depth, first.left);
      ts := [t] + rest;
      assert ts[1..] == rest;
      assert b[..n] == b[..first.len] + b[first.len..][..n - first.len];
    }
  }

  /** The limits of an input as a whole. */
  predicate InLimits(t: Tree, lim: Limits)
    requires WellFormed(t)
  {
    && |Encode(t)| <= lim.inputBytes && Nesting(t) <= lim.nestingDepth
    && Largest(t) <= lim.collectionItems && Count(t) <= lim.totalItems
  }

  /** A complete input is accepted exactly when it is the encoding of a tree that is no longer, nests no
      deeper, holds no larger collection and has no more items than the limits say. */
  lemma FinishExactly(b: Bytes, lim: Limits)
    ensures Finishes(b, lim) <==> exists t :: WellFormed(t) && Encode(t) == b && InLimits(t, lim)
  {
    hide ItemLen, Encode, WellFormed, Nesting, Largest, Count;
    if Finishes(b, lim) {
      var t := ParseItem(b, lim, 0, lim.totalItems);
      assert b[..|b|] == b && Encode(t) + [] == b;
      InputBounded(b, lim);
      ScansExactly(t, [], lim, 0, lim.totalItems);
    }
    if t :| WellFormed(t) && Encode(t) == b && InLimits(t, lim) {
      assert Encode(t) + [] == b;
      ScansExactly(t, [], lim, 0, lim.totalItems);
    }
  }

  lemma InputBounded(b: Bytes, lim: Limits)
    requires Finishes(b, lim)
    ensures |b| <= lim.inputBytes
  {
  }

  // ---- one tree per encoding ----

  lemma {:induction false} TreeFirst(a: Tree, s: Bytes, b: Tree, t: Bytes)
    requires WellFormed(a) && WellFormed(b) && Encode(a) + s == Encode(b) + t
    ensures a == b && s == t
    decreases a, 1
  {
    hide EncodeHead;
    var (m, v, x) := Parts(a, s);
    var (n, w, y) := Parts(b, t);
    HeadInjective(m, v, x, n, w, y);
    if a.Text? {
      assert x[..|a.data|] == a.data && y[..|b.data|] == b.data && x[|a.data|..] == s && y[|b.data|..] == t;
    } else if a.Compound? {
      assert a.members[0..] == a.members && b.members[0..] == b.members;
      TreesFirst(a, b, 0, s, t);
    }
  }

  /** Head, argument and what follows. */
  function Parts(t: Tree, s: Bytes): (r: (nat, U64, Bytes))
    requires WellFormed(t)
    ensures r.0 < 8 && Encode(t) + s == EncodeHead(r.0, r.1) + r.2
  {
    hide EncodeHead;
    match t
    case Scalar(major, arg) => (major, arg, s)
    case Text(major, data) =>
      assert Encode(t) + s == EncodeHead(major, |data|) + (data + s);
      (major, |data|, data + s)
    case Compound(major, arg, members) =>
      assert Encode(t) + s == EncodeHead(major, arg) + (EncodeAll(members) + s);
      (major, arg, EncodeAll(members) + s)
  }

  lemma {:induction false} TreesFirst(a: Tree, b: Tree, k: nat, s: Bytes, t: Bytes)
    requires a.Compound? && b.Compound? && k <= |a.members| == |b.members|
    requires AllWellFormed(a.members[k..]) && AllWellFormed(b.members[k..])
    requires EncodeAll(a.members[k..]) + s == EncodeAll(b.members[k..]) + t
    ensures a.members[k..] == b.members[k..] && s == t
    decreases a, 0, |a.members| - k
  {
    hide Encode, WellFormed;
    if k < |a.members| {
      var p, q := a.members[k..], b.members[k..];
      assert p[0] == a.members[k] && q[0] == b.members[k];
      assert p[1..] == a.members[k + 1..] && q[1..] == b.members[k + 1..];
      assert EncodeAll(p) + s == Encode(p[0]) + (EncodeAll(p[1..]) + s);
      assert EncodeAll(q) + t == Encode(q[0]) + (EncodeAll(q[1..]) + t);
      TreeFirst(p[0], EncodeAll(p[1..]) + s, q[0], EncodeAll(q[1..]) + t);
      TreesFirst(a, b, k + 1, s, t);
      assert p == [p[0]] + p[1..] && q == [q[0]] + q[1..];
    } else {
      assert EncodeAll(a.members[k..]) + s == s && EncodeAll(b.members[k..]) + t == t;
    }
  }

  /** No two trees have one encoding. */
  lemma OneTree(a: Tree, b: Tree)
    requires WellFormed(a) && WellFormed(b) && Encode(a) == Encode(b)
    ensures a == b
  {
    hide Encode, WellFormed;
    TreeFirst(a, [], b, []);
  }
}
