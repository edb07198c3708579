/** Encoding of canonical CBOR maps: stable sort by encoded key, last writer wins, no key twice. */
module CborMap {
  import opened Hashing
  import opened CborHead
  import opened CborScan
  import opened CborDecode

  /** The meaning of an entry list: later entries overwrite earlier ones. */
  function AsMap(entries: seq<Entry>): (m: map<Bytes, Bytes>) {
    if entries == [] then map[]
    else AsMap(entries[..|entries| - 1])[entries[|entries| - 1].key := entries[|entries| - 1].value]
  }

  /** Insert after every entry whose key is not greater. */
  function InsertSorted(s: seq<Entry>, x: Entry): (r: seq<Entry>)
    ensures |r| == |s| + 1
    ensures forall e :: e in r <==> e == x || e in s
    ensures r[|r| - 1] == x || (s != [] && r[|r| - 1] == s[|s| - 1])
  {
    if s == [] then [x]
    else
      var init, last := s[..|s| - 1], s[|s| - 1];
      assert s == init + [last];
      if !KeyLess(x.key, last.key) then s + [x] else InsertSorted(init, x) + [last]
  }

  /** The stable sort by key. */
  function SortEntries(entries: seq<Entry>): (r: seq<Entry>)
    ensures |r| == |entries|
    ensures forall e :: e in r <==> e in entries
  {
    if entries == [] then []
    else
      assert entries == entries[..|entries| - 1] + [entries[|entries| - 1]];
      InsertSorted(SortEntries(entries[..|entries| - 1]), entries[|entries| - 1])
  }

  /** Of neighbours with one key, only the last survives. */
  function KeepLast(s: seq<Entry>): (r: seq<Entry>)
    ensures |r| <= |s| && (s != [] ==> r != [] && r[0].key == s[0].key)
    ensures forall e :: e in r ==> e in s
  {
    if |s| <= 1 then s
    else if s[0].key == s[1].key then KeepLast(s[1..])
    else [s[0]] + KeepLast(s[1..])
  }

  function CanonicalEntries(entries: seq<Entry>): (r: seq<Entry>) { KeepLast(SortEntries(entries)) }

  function EncodeMap(entries: seq<Entry>): (b: Bytes)
    requires |entries| < TWO_64
  {
    var canonical := CanonicalEntries(entries);
    EncodeHead(MAP, |canonical|) + Concat(Flatten(canonical))
  }

  /** The encoder's passes over the sorted slice: count the survivors, then emit them. */
  method EncodeMapBytes(entries: seq<Entry>) returns (out: Bytes)
    requires |entries| < TWO_64
    ensures out == EncodeMap(entries)
  {
    hide KeyLess, InsertSorted, SortEntries, EncodeHead, KeepLast, Concat, Flatten;
    var sorted := SortEntries(entries);
    var unique := 0;
    assert sorted[0..] == sorted;
    for i := 0 to |sorted|
      invariant unique + |KeepLast(sorted[i..])| == |CanonicalEntries(entries)|
    {
      KeepLastStep(sorted, i);
      if i + 1 == |sorted| || sorted[i + 1].key != sorted[i].key {
        unique := unique + 1;
      }
    }
    NothingLeft(sorted);
    out := EncodeHead(MAP, unique);
    for i := 0 to |sorted|
      invariant out + Concat(Flatten(KeepLast(sorted[i..]))) == EncodeMap(entries)
    {
      KeepLastStep(sorted, i);
      if i + 1 < |sorted| && sorted[i + 1].key == sorted[i].key {
        continue;
      }
      FlattenStep(sorted[i], KeepLast(sorted[i + 1..]));
      out := out + sorted[i].key + sorted[i].value;
    }
  }

  lemma NothingLeft(s: seq<Entry>)
    ensures KeepLast(s[|s|..]) == [] && Concat(Flatten([])) == []
  {
  }

  lemma KeepLastStep(s: seq<Entry>, i: nat)
    requires i < |s|
    ensures KeepLast(s[i..]) == if i + 1 == |s| || s[i + 1].key != s[i].key
                                then [s[i]] + KeepLast(s[i + 1..]) else KeepLast(s[i + 1..])
  {
    assert s[i..][1..] == s[i + 1..];
  }

  lemma FlattenStep(e: Entry, rest: seq<Entry>)
    ensures Concat(Flatten([e] + rest)) == e.key + e.value + Concat(Flatten(rest))
  {
    var items := [e.key, e.value] + Flatten(rest);
    assert ([e] + rest)[1..] == rest && Flatten([e] + rest) == items;
    assert items[1..] == [e.value] + Flatten(rest) && items[1..][1..] == Flatten(rest);
  }

  // ---- order of keys ----

  lemma {:induction false} KeyLessTotal(a: Bytes, b: Bytes)
    ensures KeyLess(a, b) || KeyLess(b, a) || a == b
  {
    if a != [] && b != [] && a[0] == b[0] {
      KeyLessTotal(a[1..], b[1..]);
      assert a == [a[0]] + a[1..] && b == [b[0]] + b[1..];
    }
  }

  lemma {:induction false} KeyLessAsymmetric(a: Bytes, b: Bytes)
    requires KeyLess(a, b)
    ensures !KeyLess(b, a)
  {
    if a != [] && a[0] == b[0] {
      KeyLessAsymmetric(a[1..], b[1..]);
    }
  }

  predicate SortedByKey(s: seq<Entry>) {
    forall i :: 0 < i < |s| ==> !KeyLess(s[i].key, s[i - 1].key)
  }

  lemma {:induction false} InsertKeepsSorted(s: seq<Entry>, x: Entry)
    requires SortedByKey(s)
    ensures SortedByKey(InsertSorted(s, x))
  {
    hide KeyLess;
    if s != [] {
      var init, last := s[..|s| - 1], s[|s| - 1];
      if KeyLess(x.key, last.key) {
        InsertKeepsSorted(init, x);
        KeyLessAsymmetric(x.key, last.key);
        var r := InsertSorted(init, x);
        assert r[|r| - 1] == x || r[|r| - 1] == s[|s| - 2];
      }
    }
  }

  lemma {:induction false} SortSorts(entries: seq<Entry>)
    ensures SortedByKey(SortEntries(entries))
  {
    if entries != [] {
      SortSorts(entries[..|entries| - 1]);
      InsertKeepsSorted(SortEntries(entries[..|entries| - 1]), entries[|entries| - 1]);
    }
  }

  lemma {:induction false} KeepLastAscends(s: seq<Entry>, previous: Option<Bytes>)
    requires SortedByKey(s) && (previous.Some? && s != [] ==> KeyLess(previous.value, s[0].key))
    ensures Ascending(previous, KeepLast(s))
  {
    hide KeyLess;
    if |s| > 1 {
      assert forall i :: 0 < i < |s[1..]| ==> s[1..][i] == s[i + 1] && s[1..][i - 1] == s[i];
      if s[0].key == s[1].key {
        KeepLastAscends(s[1..], previous);
      } else {
        KeyLessTotal(s[0].key, s[1].key);
        KeepLastAscends(s[1..], Some(s[0].key));
      }
    }
  }

  // ---- the meaning is kept ----

  lemma {:induction false} InsertMeaning(s: seq<Entry>, x: Entry)
    ensures AsMap(InsertSorted(s, x)) == AsMap(s)[x.key := x.value]
  {
    hide KeyLess;
    if s == [] {
      assert [x][..0] == [];
    } else {
      var init, last := s[..|s| - 1], s[|s| - 1];
      if KeyLess(x.key, last.key) {
        InsertMeaning(init, x);
        KeyLessIrreflexive(x.key);
        assert (InsertSorted(init, x) + [last])[..|s|] == InsertSorted(init, x);
      } else {
        assert (s + [x])[..|s|] == s;
      }
    }
  }

  lemma {:induction false} SortMeaning(entries: seq<Entry>)
    ensures AsMap(SortEntries(entries)) == AsMap(entries)
  {
    if entries != [] {
      SortMeaning(entries[..|entries| - 1]);
      InsertMeaning(SortEntries(entries[..|entries| - 1]), entries[|entries| - 1]);
    }
  }

  lemma {:induction false} FirstWriter(x: Entry, t: seq<Entry>)
    ensures AsMap([x] + t) == map[x.key := x.value] + AsMap(t)
  {
    if t == [] {
      assert [x] + t == [x] && [x][..0] == [];
    } else {
      var init, last := t[..|t| - 1], t[|t| - 1];
      FirstWriter(x, init);
      AsMapSnoc([x] + init, last);
      AsMapSnoc(init, last);
      assert [x] + t == ([x] + init) + [last] && t == init + [last];
      hide AsMap;
      OverwriteLast(map[x.key := x.value], AsMap(init), last.key, last.value);
    }
  }

  lemma AsMapSnoc(init: seq<Entry>, last: Entry)
    ensures AsMap(init + [last]) == AsMap(init)[last.key := last.value]
  {
    assert (init + [last])[..|init|] == init;
  }

  lemma OverwriteLast(m: map<Bytes, Bytes>, n: map<Bytes, Bytes>, k: Bytes, v: Bytes)
    ensures (m + n)[k := v] == m + n[k := v]
  {
  }

  lemma {:induction false} KeyWritten(t: seq<Entry>, i: nat)
    requires i < |t|
    ensures t[i].key in AsMap(t)
  {
    if i < |t| - 1 {
      KeyWritten(t[..|t| - 1], i);
    }
  }

  lemma {:induction false} KeepLastMeaning(s: seq<Entry>)
    ensures AsMap(KeepLast(s)) == AsMap(s)
  {
    if |s| > 1 {
      KeepLastMeaning(s[1..]);
      assert s == [s[0]] + s[1..] && s[1..][0] == s[1];
      KeyWritten(s[1..], 0);
      FirstWriter(s[0], s[1..]);
      FirstWriter(s[0], KeepLast(s[1..]));
    }
  }

  /** What is emitted: strictly ascending keys, and the last-writer-wins map of the input. */
  lemma CanonicalMeaning(entries: seq<Entry>)
    ensures Ascending(None, CanonicalEntries(entries))
    ensures AsMap(CanonicalEntries(entries)) == AsMap(entries)
  {
    SortSorts(entries);
    KeepLastAscends(SortEntries(entries), None);
    SortMeaning(entries);
    KeepLastMeaning(SortEntries(entries));
  }

  // ---- the canonical entries are determined by the map ----

  lemma {:induction false} KeyLessTransitive(a: Bytes, b: Bytes, c: Bytes)
    requires KeyLess(a, b) && KeyLess(b, c)
    ensures KeyLess(a, c)
  {
    if a != [] && a[0] == b[0] == c[0] {
      KeyLessTransitive(a[1..], b[1..], c[1..]);
    }
  }

  lemma {:induction false} AscendingAfter(previous: Bytes, entries: seq<Entry>, i: nat)
    requires i < |entries| && Ascending(Some(previous), entries)
    ensures KeyLess(previous, entries[i].key)
    decreases entries
  {
    hide KeyLess;
    if i > 0 {
      AscendingAfter(entries[0].key, entries[1..], i - 1);
      KeyLessTransitive(previous, entries[0].key, entries[i].key);
    }
  }

  /** The keys of the map are those written. */
  lemma {:induction false} KeyHasEntry(t: seq<Entry>, k: Bytes)
    ensures k in AsMap(t) <==> exists i :: 0 <= i < |t| && t[i].key == k
  {
    NoEntries(t);
    hide AsMap;
    if t != [] {
      var init, last := t[..|t| - 1], t[|t| - 1];
      KeyHasEntry(init, k);
      AsMapSnoc(init, last);
      assert t == init + [last];
      WrittenBefore(init, last, k);
    }
  }

  lemma WrittenBefore(init: seq<Entry>, last: Entry, k: Bytes)
    ensures (exists i :: 0 <= i < |init + [last]| && (init + [last])[i].key == k)
       <==> (exists i :: 0 <= i < |init| && init[i].key == k) || last.key == k
  {
    var t := init + [last];
    if i :| 0 <= i < |init| && init[i].key == k {
      assert t[i].key == k;
    }
    if last.key == k {
      assert t[|init|].key == k;
    }
    if i :| 0 <= i < |t| && t[i].key == k {
      assert i < |init| ==> init[i].key == k;
    }
  }

  /** What follows the first of ascending entries does not write its key, and writes only greater ones. */
  lemma AscendingRest(previous: Option<Bytes>, s: seq<Entry>, k: Bytes)
    requires s != [] && Ascending(previous, s)
    ensures k in AsMap(s[1..]) ==> KeyLess(s[0].key, k) && k != s[0].key
  {
    hide KeyLess, AsMap;
    KeyHasEntry(s[1..], k);
    if k in AsMap(s[1..]) {
      var i :| 0 <= i < |s[1..]| && s[1..][i].key == k;
      AscendingAfter(s[0].key, s[1..], i);
      KeyLessIrreflexive(k);
    }
  }

  lemma HeadAndRest(s: seq<Entry>)
    requires s != []
    ensures AsMap(s) == map[s[0].key := s[0].value] + AsMap(s[1..])
  {
    assert s == [s[0]] + s[1..];
    FirstWriter(s[0], s[1..]);
  }

  /** Ascending entries of one map start with the same entry. */
  lemma SameHead(p: Option<Bytes>, s: seq<Entry>, q: Option<Bytes>, t: seq<Entry>)
    requires s != [] && t != [] && Ascending(p, s) && Ascending(q, t) && AsMap(s) == AsMap(t)
    ensures s[0] == t[0] && AsMap(s[1..]) == AsMap(t[1..])
  {
    hide KeyLess, AsMap, Ascending;
    HeadAndRest(s);
    HeadAndRest(t);
    var k, l := s[0].key, t[0].key;
    assert k in AsMap(t) && l in AsMap(s);
    AscendingRest(p, s, l);
    AscendingRest(q, t, k);
    if k != l {
      KeyLessAsymmetric(k, l);
    }
    AscendingRest(p, s, k);
    AscendingRest(q, t, k);
    assert AsMap(s)[k] == s[0].value && AsMap(t)[k] == t[0].value;
    assert AsMap(s[1..]) == AsMap(s) - {k};
    assert AsMap(t[1..]) == AsMap(t) - {k};
  }

  lemma {:induction false} AscendingUnique(p: Option<Bytes>, s: seq<Entry>, q: Option<Bytes>, t: seq<Entry>)
    requires Ascending(p, s) && Ascending(q, t) && AsMap(s) == AsMap(t)
    ensures s == t
    decreases s
  {
    hide KeyLess;
    if s != [] && t != [] {
      SameHead(p, s, q, t);
      AscendingUnique(Some(s[0].key), s[1..], Some(t[0].key), t[1..]);
      assert s == [s[0]] + s[1..] && t == [t[0]] + t[1..];
    } else {
      NoEntries(s);
      NoEntries(t);
    }
  }

  lemma NoEntries(s: seq<Entry>)
    ensures AsMap(s) == map[] <==> s == []
  {
    if s != [] {
      KeyWritten(s, 0);
    }
  }

  /** Entry lists with one meaning have one encoding. */
  lemma EncodeMapOfMeaning(a: seq<Entry>, b: seq<Entry>)
    requires |a| < TWO_64 && |b| < TWO_64 && AsMap(a) == AsMap(b)
    ensures EncodeMap(a) == EncodeMap(b)
  {
    hide AsMap, CanonicalEntries, Ascending, EncodeHead;
    CanonicalMeaning(a);
    CanonicalMeaning(b);
    AscendingUnique(None, CanonicalEntries(a), None, CanonicalEntries(b));
  }

  predicate DistinctKeys(entries: seq<Entry>) {
    forall i, j :: 0 <= i < j < |entries| ==> entries[i].key != entries[j].key
  }

  /** The map decoder's order check leaves no key twice. */
  lemma {:induction false} AscendingDistinct(previous: Option<Bytes>, entries: seq<Entry>)
    requires Ascending(previous, entries)
    ensures DistinctKeys(entries)
    decreases entries
  {
    hide KeyLess;
    if entries != [] {
      AscendingDistinct(Some(entries[0].key), entries[1..]);
      forall j | 1 <= j < |entries| ensures entries[0].key != entries[j].key {
        AscendingAfter(entries[0].key, entries[1..], j - 1);
        KeyLessIrreflexive(entries[0].key);
      }
      forall i, j | 0 <= i < j < |entries| ensures entries[i].key != entries[j].key {
        if i > 0 {
          assert entries[i] == entries[1..][i - 1] && entries[j] == entries[1..][j - 1];
        }
      }
    }
  }

  /** Whatever the decoder accepts as a map has every key once. */
  lemma DecodedMapDistinct(bytes: Bytes, lim: Limits)
    requires MapOf(bytes, lim).Ok?
    ensures DistinctKeys(MapOf(bytes, lim).value)
  {
    hide ItemLen, ReadHead, SplitItems, SplitEntries, Pairs, Ascending, Finish;
    assert Finishes(bytes, lim);
    MapInherits(bytes, lim);
    var h := ReadHead(bytes).value;
    AscendingDistinct(None, Pairs(SplitItems(bytes[h.len..], 2 * h.arg, lim).value));
  }

  // ---- decoding the encoding ----

  lemma {:induction false} FlattenMembers(entries: seq<Entry>)
    ensures |Flatten(entries)| == 2 * |entries|
    ensures forall c :: c in Flatten(entries) ==> exists e :: e in entries && (c == e.key || c == e.value)
  {
    if entries != [] {
      FlattenMembers(entries[1..]);
      assert entries[0] in entries;
      assert forall e :: e in entries[1..] ==> e in entries;
    }
  }

  lemma {:induction false} PairsOfFlatten(entries: seq<Entry>)
    ensures |Flatten(entries)| == 2 * |entries|
    ensures Pairs(Flatten(entries)) == entries
  {
    if entries != [] {
      PairsOfFlatten(entries[1..]);
      assert Flatten(entries)[2..] == Flatten(entries[1..]);
    }
  }

  /** The decoder accepts every encoded map within limits, and returns the ascending entries of the
      last-writer-wins map. */
  lemma MapRoundTrip(entries: seq<Entry>, lim: Limits)
    requires |entries| < TWO_64
    requires forall e :: e in entries ==> Finishes(e.key, lim) && Finishes(e.value, lim)
    requires Finishes(EncodeMap(entries), lim)
    ensures MapOf(EncodeMap(entries), lim) == Ok(CanonicalEntries(entries))
  {
    hide Finishes;
    var canonical := CanonicalEntries(entries);
    var items := Flatten(canonical);
    var b := EncodeMap(entries);
    ReadEncoded(MAP, |canonical|, Concat(items));
    MapInherits(b, lim);
    FlattenMembers(canonical);
    PairsOfFlatten(canonical);
    CanonicalMeaning(entries);
    hide EncodeHead, ReadHead, SplitItems, MapOf, CanonicalEntries, Pairs, Ascending;
    assert b[|EncodeHead(MAP, |canonical|)|..] == Concat(items);
    CanonicalFinish(entries, lim);
    SplitConcat(items, lim);
  }

  lemma CanonicalFinish(entries: seq<Entry>, lim: Limits)
    requires forall e :: e in entries ==> Finishes(e.key, lim) && Finishes(e.value, lim)
    ensures forall c :: c in Flatten(CanonicalEntries(entries)) ==> Finishes(c, lim)
  {
    hide Finishes;
    FlattenMembers(CanonicalEntries(entries));
  }

  /** The encoding determines the map. */
  lemma EncodeMapInjective(a: seq<Entry>, b: seq<Entry>)
    requires |a| < TWO_64 && |b| < TWO_64 && EncodeMap(a) == EncodeMap(b)
    requires forall e :: e in a || e in b ==> Item(e.key) && Item(e.value)
    ensures AsMap(a) == AsMap(b)
  {
    hide EncodeHead, Item, SortEntries, KeepLast;
    var ca, cb := CanonicalEntries(a), CanonicalEntries(b);
    HeadInjective(MAP, |ca|, Concat(Flatten(ca)), MAP, |cb|, Concat(Flatten(cb)));
    FlattenMembers(ca);
    FlattenMembers(cb);
    assert Concat(Flatten(ca)) + [] == Concat(Flatten(ca)) && Concat(Flatten(cb)) + [] == Concat(Flatten(cb));
    ConcatInjective(Flatten(ca), [], Flatten(cb), []);
    PairsOfFlatten(ca);
    PairsOfFlatten(cb);
    CanonicalMeaning(a);
    CanonicalMeaning(b);
  }

  /** An encoded map is an item. */
  lemma MapItem(entries: seq<Entry>)
    requires 2 * |entries| < TWO_64 && forall e :: e in entries ==> Item(e.key) && Item(e.value)
    ensures Item(EncodeMap(entries))
  {
    hide EncodeHead, ReadHead, SortEntries, KeepLast;
    var c := CanonicalEntries(entries);
    var items := Flatten(c);
    FlattenMembers(c);
    assert Items(items) by { hide Item; }
    ReadEncoded(MAP, |c|, Concat(items));
    var n := |EncodeMap(entries)|;
    ConcatScans(items, n, 1, n - 1);
    assert EncodeMap(entries)[|EncodeHead(MAP, |c|)|..] == Concat(items);
  }
}
