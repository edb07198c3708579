/** The zero-copy splitters of the CBOR decoder: arrays, tags and maps taken apart into the exact
    byte ranges of their children.
 */
module CborDecode {
  import opened Hashing
  import opened CborHead
  import opened CborScan

  /** The item fills the input exactly. */
  function Finish(bytes: Bytes, lim: Limits): (r: Result<()>) {
    var s :- ItemLen(bytes, lim, 0, lim.totalItems);
    if s.len != |bytes| then Err(TrailingBytes) else Ok(())
  }

  function Expect(bytes: Bytes, lim: Limits, major: nat): (r: Result<Head>) {
    if |bytes| > lim.inputBytes then Err(LimitExceeded)
    else
      var h :- ReadHead(bytes);
      if h.major != major then Err(UnexpectedMajorType) else Ok(h)
  }

  /** The first `count` items of `bytes`, each measured afresh, one level down. */
  function SplitItems(bytes: Bytes, count: nat, lim: Limits): (r: Result<seq<Bytes>>)
    decreases count
  {
    if count == 0 then Ok([])
    else
      var first :- ItemLen(bytes, lim, 1, lim.totalItems);
      var rest :- SplitItems(bytes[first.len..], count - 1, lim);
      Ok([bytes[..first.len]] + rest)
  }

  /** The children of a complete array. */
  function ArrayOf(bytes: Bytes, lim: Limits, expected: Option<nat>): (r: Result<seq<Bytes>>) {
    var _ :- Finish(bytes, lim);
    var h :- Expect(bytes, lim, ARRAY);
    var count :- CollectionCount(h.arg, lim);
    if expected.Some? && expected.value != count then Err(UnexpectedArrayLength)
    else if count > |bytes| - h.len then Err(UnexpectedEof)
    else
      var items :- SplitItems(bytes[h.len..], count, lim);
      if h.len + |Concat(items)| != |bytes| then Err(TrailingBytes) else Ok(items)
  }

  /** The number and the content of a complete tag. */
  function TagOf(bytes: Bytes, lim: Limits): (r: Result<(nat, Bytes)>) {
    var _ :- Finish(bytes, lim);
    var h :- Expect(bytes, lim, TAG);
    var s :- ItemLen(bytes[h.len..], lim, 1, lim.totalItems);
    if h.len + s.len != |bytes| then Err(TrailingBytes) else Ok((h.arg, bytes[h.len..h.len + s.len]))
  }

  function ByteStringOf(bytes: Bytes, lim: Limits): (r: Result<Bytes>) {
    var h :- Expect(bytes, lim, BYTES);
    if h.len + h.arg >= TWO_64 then Err(IntegerOverflow)
    else if h.len + h.arg > |bytes| then Err(UnexpectedEof)
    else if h.len + h.arg != |bytes| then Err(TrailingBytes)
    else Ok(bytes[h.len..])
  }

  /** The array splitter's loop. */
  method Array(bytes: Bytes, lim: Limits, expected: Option<nat>) returns (r: Result<seq<Bytes>>)
    ensures r == ArrayOf(bytes, lim, expected)
  {
    hide ItemLen, ReadHead;
    var done := Finish(bytes, lim);
    if done.Err? {
      return Err(done.error);
    }
    var head := Expect(bytes, lim, ARRAY);
    if head.Err? {
      return Err(head.error);
    }
    var h := head.value;
    var count := CollectionCount(h.arg, lim);
    if count.Err? {
      return Err(count.error);
    }
    if expected.Some? && expected.value != count.value {
      return Err(UnexpectedArrayLength);
    }
    if count.value > |bytes| - h.len {
      return Err(UnexpectedEof);
    }
    var out: seq<Bytes> := [];
    var pos := h.len;
    assert forall items: seq<Bytes> :: [] + items == items;
    for i := 0 to count.value
      invariant h.len <= pos <= |bytes| && pos == h.len + |Concat(out)|
      invariant SplitItems(bytes[h.len..], count.value, lim)
             == Prepend(out, SplitItems(bytes[pos..], count.value - i, lim))
    {
      var n := ItemLen(bytes[pos..], lim, 1, lim.totalItems);
      if n.Err? {
        return Err(n.error);
      }
      SplitNext(bytes, pos, count.value - i, lim, out);
      ConcatAppend(out, bytes[pos..pos + n.value.len]);
      out := out + [bytes[pos..pos + n.value.len]];
      pos := pos + n.value.len;
    }
    assert out + [] == out;
    return if pos != |bytes| then Err(TrailingBytes) else Ok(out);
  }

  function Prepend(front: seq<Bytes>, r: Result<seq<Bytes>>): (q: Result<seq<Bytes>>) {
    match r
    case Ok(items) => Ok(front + items)
    case Err(e) => Err(e)
  }

  lemma SplitNext(bytes: Bytes, pos: nat, count: nat, lim: Limits, out: seq<Bytes>)
    requires pos <= |bytes| && count > 0 && ItemLen(bytes[pos..], lim, 1, lim.totalItems).Ok?
    ensures var n := ItemLen(bytes[pos..], lim, 1, lim.totalItems).value.len;
            (Prepend(out, SplitItems(bytes[pos..], count, lim))
             == Prepend(out + [bytes[pos..pos + n]], SplitItems(bytes[pos + n..], count - 1, lim)))
  {
    hide ItemLen;
    var n := ItemLen(bytes[pos..], lim, 1, lim.totalItems).value.len;
    assert bytes[pos..][n..] == bytes[pos + n..] && bytes[pos..][..n] == bytes[pos..pos + n];
    var rest := SplitItems(bytes[pos + n..], count - 1, lim);
    if rest.Ok? {
      assert out + ([bytes[pos..pos + n]] + rest.value) == out + [bytes[pos..pos + n]] + rest.value;
    }
  }

  lemma {:induction false} ConcatAppend(items: seq<Bytes>, last: Bytes)
    ensures Concat(items + [last]) == Concat(items) + last
  {
    if items == [] {
      assert items + [last] == [last] && Concat([last]) == last + Concat([]);
    } else {
      assert (items + [last])[1..] == items[1..] + [last];
      ConcatAppend(items[1..], last);
    }
  }

  // ---- inheritance ----

  predicate Finishes(bytes: Bytes, lim: Limits) { Finish(bytes, lim).Ok? }

  /** What a scan found, the splitter finds again: the pieces tile the measured bytes, and each of
      them is by itself a complete item within the same limits. */
  lemma {:induction false} SplitFromScan(b: Bytes, count: nat, lim: Limits, budget: nat)
    requires ItemsLen(b, count, lim, 1, budget).Ok? && budget <= lim.totalItems && |b| <= lim.inputBytes
    ensures SplitItems(b, count, lim).Ok?
    ensures var items := SplitItems(b, count, lim).value;
            && |items| == count
            && Concat(items) == b[..ItemsLen(b, count, lim, 1, budget).value.len]
            && forall c :: c in items ==> Finishes(c, lim)
    decreases count
  {
    hide ItemLen, ItemsLen;
    if count == 0 {
      NoItems(b, lim, 1, budget);
    } else {
      NextItem(b, 0, count, lim, 1, budget);
      assert b[0..] == b;
      var s := ItemsLen(b, count, lim, 1, budget).value;
      var first := ItemLen(b, lim, 1, budget).value;
      ItemRelocates(b, lim, 1, budget, b, lim, 1, lim.totalItems);
      FirstFinishes(b, lim, budget);
      SplitFromScan(b[first.len..], count - 1, lim, first.left);
      assert b[..s.len] == b[..first.len] + b[first.len..][..s.len - first.len];
    }
  }

  lemma FirstFinishes(b: Bytes, lim: Limits, budget: nat)
    requires ItemLen(b, lim, 1, budget).Ok? && budget <= lim.totalItems && |b| <= lim.inputBytes
    ensures Finishes(b[..ItemLen(b, lim, 1, budget).value.len], lim)
  {
    hide ItemLen;
    var n := ItemLen(b, lim, 1, budget).value.len;
    assert b[..n][..n] == b[..n];
    ItemRelocates(b, lim, 1, budget, b[..n], lim, 0, lim.totalItems);
  }

  lemma HeadOfComplete(bytes: Bytes, lim: Limits)
    requires Finishes(bytes, lim)
    ensures ReadHead(bytes).Ok?
  {
    hide ReadHead, ItemsLen;
  }

  /** The scan of a complete compound item, seen from its body. */
  lemma BodyScan(bytes: Bytes, lim: Limits)
    requires Finishes(bytes, lim) && ReadHead(bytes).value.major in {ARRAY, MAP, TAG}
    ensures var h := ReadHead(bytes).value;
            && |bytes| <= lim.inputBytes
            && ChildCount(h, lim).Ok?
            && (h.major != TAG ==> ChildCount(h, lim).value <= |bytes| - h.len)
            && lim.totalItems > 0
            && var s := ItemsLen(bytes[h.len..], ChildCount(h, lim).value, lim, 1, lim.totalItems - 1);
               s.Ok? && s.value.len == |bytes| - h.len
  {
    hide ReadHead, ItemsLen;
  }

  /** Once a complete item is an array, splitting it succeeds, its children tile the body, each of
      them is complete within the same limits, and re-encoding them gives back the same bytes. */
  lemma ArrayInherits(bytes: Bytes, lim: Limits)
    requires Finishes(bytes, lim) && ReadHead(bytes).value.major == ARRAY
    ensures ArrayOf(bytes, lim, None).Ok?
    ensures var items := ArrayOf(bytes, lim, None).value;
            && |items| == ReadHead(bytes).value.arg < TWO_64
            && EncodeArray(items) == bytes
            && forall c :: c in items ==> Finishes(c, lim)
  {
    hide ReadHead, ItemLen, ItemsLen, SplitItems, EncodeHead;
    HeadOfComplete(bytes, lim);
    var h := ReadHead(bytes).value;
    BodyScan(bytes, lim);
    SplitFromScan(bytes[h.len..], h.arg, lim, lim.totalItems - 1);
    EncodeRead(bytes);
    assert bytes == bytes[..h.len] + bytes[h.len..];
  }

  /** With an expected length the splitter accepts exactly the arrays of that length. */
  lemma ArrayExpects(bytes: Bytes, lim: Limits, n: nat)
    ensures ArrayOf(bytes, lim, Some(n)).Ok? <==> ArrayOf(bytes, lim, None).Ok? && |ArrayOf(bytes, lim, None).value| == n
    ensures ArrayOf(bytes, lim, Some(n)).Ok? ==> ArrayOf(bytes, lim, Some(n)) == ArrayOf(bytes, lim, None)
    ensures ArrayOf(bytes, lim, None).Ok? && !ArrayOf(bytes, lim, Some(n)).Ok? ==>
              ArrayOf(bytes, lim, Some(n)) == Err(UnexpectedArrayLength)
  {
    hide ReadHead, ItemLen, SplitItems;
    if ArrayOf(bytes, lim, None).Ok? {
      ArrayInherits(bytes, lim);
    }
  }

  /** The same for tags. */
  lemma TagInherits(bytes: Bytes, lim: Limits)
    requires Finishes(bytes, lim) && ReadHead(bytes).value.major == TAG
    ensures TagOf(bytes, lim).Ok?
    ensures var (tag, content) := TagOf(bytes, lim).value;
            tag < TWO_64 && EncodeTag(tag, content) == bytes && Finishes(content, lim)
  {
    hide ReadHead, ItemLen, ItemsLen, EncodeHead;
    HeadOfComplete(bytes, lim);
    var h := ReadHead(bytes).value;
    BodyScan(bytes, lim);
    var body := bytes[h.len..];
    assert body[0..] == body;
    NextItem(body, 0, 1, lim, 1, lim.totalItems - 1);
    var first := ItemLen(body, lim, 1, lim.totalItems - 1).value;
    NoItems(body[first.len..], lim, 1, first.left);
    FirstFinishes(body, lim, lim.totalItems - 1);
    ItemRelocates(body, lim, 1, lim.totalItems - 1, body, lim, 1, lim.totalItems);
    EncodeRead(bytes);
    assert body[..first.len] == body;
    assert bytes == bytes[..h.len] + body;
  }

  // ---- maps ----

  /** Bytewise lexicographic order; a proper prefix comes first. */
  predicate KeyLess(a: Bytes, b: Bytes) {
    if b == [] then false
    else if a == [] then true
    else a[0] < b[0] || (a[0] == b[0] && KeyLess(a[1..], b[1..]))
  }

  datatype Entry = Entry(key: Bytes, value: Bytes)

  /** The key and value at the front of `bytes`; the key must come after `previous`. */
  function TakeEntry(bytes: Bytes, previous: Option<Bytes>, lim: Limits): (r: Result<Entry>)
    ensures r.Ok? ==> |r.value.key| + |r.value.value| <= |bytes|
  {
    var k :- ItemLen(bytes, lim, 1, lim.totalItems);
    var key := bytes[..k.len];
    if previous.Some? && previous.value == key then Err(DuplicateMapKey)
    else if previous.Some? && !KeyLess(previous.value, key) then Err(NonCanonicalMapOrder)
    else
      var v :- ItemLen(bytes[k.len..], lim, 1, lim.totalItems);
      Ok(Entry(key, bytes[k.len..k.len + v.len]))
  }

  function After(bytes: Bytes, e: Entry): (rest: Bytes)
    requires |e.key| + |e.value| <= |bytes|
  {
    bytes[|e.key| + |e.value|..]
  }

  /** The first `count` entries of `bytes`; keys must strictly ascend. */
  function SplitEntries(bytes: Bytes, count: nat, previous: Option<Bytes>, lim: Limits): (r: Result<seq<Entry>>)
    decreases count
  {
    if count == 0 then Ok([])
    else
      var e :- TakeEntry(bytes, previous, lim);
      var rest :- SplitEntries(After(bytes, e), count - 1, Some(e.key), lim);
      Ok([e] + rest)
  }

  /** Keys and values in wire order. */
  function Flatten(entries: seq<Entry>): (items: seq<Bytes>) {
    if entries == [] then [] else [entries[0].key, entries[0].value] + Flatten(entries[1..])
  }

  /** The entries of a complete map, in wire order. */
  function MapOf(bytes: Bytes, lim: Limits): (r: Result<seq<Entry>>) {
    var _ :- Finish(bytes, lim);
    var h :- Expect(bytes, lim, MAP);
    var count :- CollectionCount(h.arg, lim);
    if 2 * count >= TWO_64 then Err(IntegerOverflow)
    else if 2 * count > |bytes| - h.len then Err(UnexpectedEof)
    else
      var entries :- SplitEntries(bytes[h.len..], count, None, lim);
      if h.len + |Concat(Flatten(entries))| != |bytes| then Err(TrailingBytes) else Ok(entries)
  }

  /** The map splitter's loop. */
  method Map(bytes: Bytes, lim: Limits) returns (r: Result<seq<Entry>>)
    ensures r == MapOf(bytes, lim)
  {
    hide ItemLen, ReadHead, KeyLess;
    var done := Finish(bytes, lim);
    if done.Err? {
      return Err(done.error);
    }
    var head := Expect(bytes, lim, MAP);
    if head.Err? {
      return Err(head.error);
    }
    var h := head.value;
    var count := CollectionCount(h.arg, lim);
    if count.Err? {
      return Err(count.error);
    }
    if 2 * count.value >= TWO_64 {
      return Err(IntegerOverflow);
    }
    if 2 * count.value > |bytes| - h.len {
      return Err(UnexpectedEof);
    }
    var entries := MapBody(bytes, h.len, count.value, lim);
    if entries.Err? {
      return Err(entries.error);
    }
    return if h.len + |Concat(Flatten(entries.value))| != |bytes| then Err(TrailingBytes) else entries;
  }

  method MapBody(bytes: Bytes, start: nat, count: nat, lim: Limits) returns (r: Result<seq<Entry>>)
    requires start <= |bytes|
    ensures r == SplitEntries(bytes[start..], count, None, lim)
  {
    hide TakeEntry;
    var out: seq<Entry> := [];
    var pos := start;
    var previous: Option<Bytes> := None;
    assert forall e: seq<Entry> :: [] + e == e;
    for i := 0 to count
      invariant start <= pos <= |bytes|
      invariant SplitEntries(bytes[start..], count, None, lim)
             == PrependEntries(out, SplitEntries(bytes[pos..], count - i, previous, lim))
    {
      var entry := TakeEntry(bytes[pos..], previous, lim);
      if entry.Err? {
        return Err(entry.error);
      }
      EntryNext(bytes, pos, count - i, previous, lim, out);
      previous, out := Some(entry.value.key), out + [entry.value];
      pos := pos + |entry.value.key| + |entry.value.value|;
    }
    assert out + [] == out;
    return Ok(out);
  }

  function PrependEntries(front: seq<Entry>, r: Result<seq<Entry>>): (q: Result<seq<Entry>>) {
    match r
    case Ok(entries) => Ok(front + entries)
    case Err(e) => Err(e)
  }

  lemma EntryNext(bytes: Bytes, pos: nat, count: nat, previous: Option<Bytes>, lim: Limits, out: seq<Entry>)
    requires pos <= |bytes| && count > 0 && TakeEntry(bytes[pos..], previous, lim).Ok?
    ensures var e := TakeEntry(bytes[pos..], previous, lim).value;
            (PrependEntries(out, SplitEntries(bytes[pos..], count, previous, lim))
             == PrependEntries(out + [e], SplitEntries(bytes[pos + |e.key| + |e.value|..], count - 1, Some(e.key), lim)))
  {
    hide TakeEntry;
    var e := TakeEntry(bytes[pos..], previous, lim).value;
    assert After(bytes[pos..], e) == bytes[pos + |e.key| + |e.value|..];
    var rest := SplitEntries(After(bytes[pos..], e), count - 1, Some(e.key), lim);
    if rest.Ok? {
      assert out + ([e] + rest.value) == out + [e] + rest.value;
    }
  }

  predicate Ascending(previous: Option<Bytes>, entries: seq<Entry>)
    decreases entries
  {
    if entries == [] then true
    else (previous.Some? ==> KeyLess(previous.value, entries[0].key)) && Ascending(Some(entries[0].key), entries[1..])
  }

  lemma {:induction false} KeyLessIrreflexive(a: Bytes)
    ensures !KeyLess(a, a)
  {
    if a != [] {
      KeyLessIrreflexive(a[1..]);
    }
  }

  function Pairs(items: seq<Bytes>): (entries: seq<Entry>)
    requires |items| % 2 == 0
    ensures Flatten(entries) == items && 2 * |entries| == |items|
  {
    if items == [] then []
    else
      assert items == [items[0], items[1]] + items[2..];
      [Entry(items[0], items[1])] + Pairs(items[2..])
  }

  /** The first two pieces of a split are the entry taken from the front, if its key is in order. */
  lemma SplitTwo(b: Bytes, count: nat, previous: Option<Bytes>, lim: Limits)
    requires count >= 2 && SplitItems(b, count, lim).Ok? && |SplitItems(b, count, lim).value| == count
    ensures var items := SplitItems(b, count, lim).value;
            var e := Entry(items[0], items[1]);
            && (TakeEntry(b, previous, lim) == Ok(e) || TakeEntry(b, previous, lim).Err?)
            && (TakeEntry(b, previous, lim).Ok? <==> (previous.Some? ==> KeyLess(previous.value, e.key)))
            && |e.key| + |e.value| <= |b|
            && SplitItems(After(b, e), count - 2, lim) == Ok(items[2..])
  {
    hide ItemLen, KeyLess;
    var k := ItemLen(b, lim, 1, lim.totalItems).value.len;
    var v := ItemLen(b[k..], lim, 1, lim.totalItems).value.len;
    assert b[k..][v..] == b[k + v..] && b[k..][..v] == b[k..k + v];
    var tail := SplitItems(b[k + v..], count - 2, lim).value;
    assert SplitItems(b, count, lim).value == [b[..k], b[k..k + v]] + tail;
    if previous.Some? {
      KeyLessIrreflexive(previous.value);
    }
  }

  /** The entry splitter is the item splitter plus the order check. */
  lemma {:induction false} EntriesFromItems(b: Bytes, count: nat, previous: Option<Bytes>, lim: Limits)
    requires SplitItems(b, 2 * count, lim).Ok? && |SplitItems(b, 2 * count, lim).value| == 2 * count
    ensures var entries := Pairs(SplitItems(b, 2 * count, lim).value);
            && (Ascending(previous, entries) ==> SplitEntries(b, count, previous, lim) == Ok(entries))
            && (!Ascending(previous, entries) ==> SplitEntries(b, count, previous, lim).Err?)
    decreases count
  {
    hide TakeEntry, SplitItems, KeyLess, After;
    if count > 0 {
      var items := SplitItems(b, 2 * count, lim).value;
      SplitTwo(b, 2 * count, previous, lim);
      var e := Entry(items[0], items[1]);
      EntriesFromItems(After(b, e), count - 1, Some(e.key), lim);
    }
  }

  /** A complete map is accepted exactly when its keys strictly ascend; its keys and values then tile
      the body and are complete items within the same limits. */
  lemma MapInherits(bytes: Bytes, lim: Limits)
    requires Finishes(bytes, lim) && ReadHead(bytes).value.major == MAP
    ensures var h := ReadHead(bytes).value;
            var items := SplitItems(bytes[h.len..], 2 * h.arg, lim);
            && items.Ok? && |items.value| == 2 * h.arg < TWO_64
            && EncodeHead(MAP, h.arg) + Concat(items.value) == bytes
            && (forall c :: c in items.value ==> Finishes(c, lim))
            && (MapOf(bytes, lim).Ok? <==> Ascending(None, Pairs(items.value)))
            && (MapOf(bytes, lim).Ok? ==> MapOf(bytes, lim).value == Pairs(items.value))
  {
    hide ReadHead, ItemLen, ItemsLen, SplitItems, SplitEntries, EncodeHead, Ascending, Pairs;
    HeadOfComplete(bytes, lim);
    var h := ReadHead(bytes).value;
    BodyScan(bytes, lim);
    SplitFromScan(bytes[h.len..], 2 * h.arg, lim, lim.totalItems - 1);
    EntriesFromItems(bytes[h.len..], h.arg, None, lim);
    EncodeRead(bytes);
    assert bytes == bytes[..h.len] + bytes[h.len..];
  }

  // ---- every descendant of a complete item is complete ----

  /** `c` is handed out when `b` is split as an array, a tag or a map. */
  ghost predicate Child(b: Bytes, c: Bytes, lim: Limits) {
    || (ArrayOf(b, lim, None).Ok? && c in ArrayOf(b, lim, None).value)
    || (TagOf(b, lim).Ok? && c == TagOf(b, lim).value.1)
    || (MapOf(b, lim).Ok? && c in Flatten(MapOf(b, lim).value))
  }

  lemma ChildFinishes(b: Bytes, c: Bytes, lim: Limits)
    requires Child(b, c, lim)
    ensures Finishes(b, lim) && Finishes(c, lim)
  {
    hide ItemLen, ReadHead, SplitItems, SplitEntries, Pairs, Flatten;
    if ArrayOf(b, lim, None).Ok? && c in ArrayOf(b, lim, None).value {
      ArrayInherits(b, lim);
    } else if TagOf(b, lim).Ok? && c == TagOf(b, lim).value.1 {
      TagInherits(b, lim);
    } else {
      MapInherits(b, lim);
    }
  }

  /** A run of the decoder that keeps descending only ever sees complete items. */
  lemma {:induction false} DescentFinishes(path: seq<Bytes>, lim: Limits, i: nat)
    requires i < |path| && Finishes(path[0], lim)
    requires forall k {:trigger path[k]} :: 0 <= k < |path| - 1 ==> Child(path[k], path[k + 1], lim)
    ensures Finishes(path[i], lim)
  {
    hide Finishes, Child;
    if i > 0 {
      assert Child(path[i - 1], path[i], lim);
      ChildFinishes(path[i - 1], path[i], lim);
    }
  }

  // ---- round trips ----

  /** A complete item inside a longer text is found there with its own length. */
  lemma SameMeasure(item: Bytes, rest: Bytes, lim: Limits)
    requires Finishes(item, lim) && ItemLen(item + rest, lim, 1, lim.totalItems).Ok?
    ensures ItemLen(item + rest, lim, 1, lim.totalItems).value.len == |item|
  {
    hide ItemLen;
    var b := item + rest;
    InputBound(b, lim, 1, lim.totalItems);
    ItemRelocates(b, lim, 1, lim.totalItems, b, lim, 0, lim.totalItems);
    assert b[..|item|] == item == item[..|item|];
    ItemRelocates(item, lim, 0, lim.totalItems, b, lim, 0, lim.totalItems);
  }

  lemma InputBound(b: Bytes, lim: Limits, depth: nat, budget: nat)
    requires ItemLen(b, lim, depth, budget).Ok?
    ensures |b| <= lim.inputBytes
  {
  }

  lemma {:induction false} SplitConcat(items: seq<Bytes>, lim: Limits)
    requires forall c :: c in items ==> Finishes(c, lim)
    requires SplitItems(Concat(items), |items|, lim).Ok?
    ensures SplitItems(Concat(items), |items|, lim) == Ok(items)
  {
    hide ItemLen, Finishes;
    if items != [] {
      assert items[0] in items;
      var rest := Concat(items[1..]);
      SameMeasure(items[0], rest, lim);
      assert Concat(items)[..|items[0]|] == items[0] && Concat(items)[|items[0]|..] == rest;
      SplitConcat(items[1..], lim);
      assert items == [items[0]] + items[1..];
    }
  }

  /** Decoding an encoded array of complete items, within limits, gives the items back. */
  lemma ArrayRoundTrip(items: seq<Bytes>, lim: Limits)
    requires |items| < TWO_64 && (forall c :: c in items ==> Finishes(c, lim))
    requires Finishes(EncodeArray(items), lim)
    ensures ArrayOf(EncodeArray(items), lim, None) == Ok(items)
  {
    var b := EncodeArray(items);
    ReadEncoded(ARRAY, |items|, Concat(items));
    ArrayInherits(b, lim);
    hide ReadHead, ItemLen, ItemsLen, SplitItems, EncodeHead;
    assert b[|EncodeHead(ARRAY, |items|)|..] == Concat(items);
    SplitConcat(items, lim);
  }

  lemma TagRoundTrip(tag: U64, content: Bytes, lim: Limits)
    requires Finishes(EncodeTag(tag, content), lim)
    ensures TagOf(EncodeTag(tag, content), lim) == Ok((tag, content))
  {
    var b := EncodeTag(tag, content);
    ReadEncoded(TAG, tag, content);
    TagInherits(b, lim);
    var (t, c) := TagOf(b, lim).value;
    TagInjective(t, c, tag, content);
  }

  lemma ByteStringRoundTrip(data: Bytes, lim: Limits)
    requires |data| + 9 < TWO_64 && |EncodeByteString(data)| <= lim.inputBytes
    ensures ByteStringOf(EncodeByteString(data), lim) == Ok(data)
  {
    ReadEncoded(BYTES, |data|, data);
  }
}
