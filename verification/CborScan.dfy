/** The recursive, budgeted scanner that measures one CBOR item at the front of a byte string. */
module CborScan {
  import opened Hashing
  import opened CborHead

  /** Resource limits on untrusted input. */
  datatype Limits = Limits(inputBytes: nat, nestingDepth: nat, collectionItems: nat, totalItems: nat)

  /** A measured item: its length, and what is left of the item budget. */
  datatype Scan = Scan(len: nat, left: nat)

  function CollectionCount(arg: nat, lim: Limits): (r: Result<nat>) {
    if arg > lim.collectionItems then Err(LimitExceeded) else Ok(arg)
  }

  /** The number of items nested directly inside a compound head: elements, keys and values, or the
      tagged item. */
  function ChildCount(h: Head, lim: Limits): (r: Result<nat>)
    requires h.major == ARRAY || h.major == MAP || h.major == TAG
  {
    if h.major == TAG then Ok(1)
    else
      var count :- CollectionCount(h.arg, lim);
      if h.major == ARRAY then Ok(count)
      else if 2 * count >= TWO_64 then Err(IntegerOverflow)
      else Ok(2 * count)
  }

  /** Length of the first item in `bytes`, at nesting `depth`, spending from `budget`. */
  function ItemLen(bytes: Bytes, lim: Limits, depth: nat, budget: nat): (r: Result<Scan>)
    ensures r.Ok? ==> 1 <= r.value.len <= |bytes| && r.value.left < budget <= r.value.left + r.value.len
    decreases |bytes|, 0
  {
    if budget == 0 then Err(LimitExceeded)
    else if |bytes| > lim.inputBytes then Err(LimitExceeded)
    else if depth > lim.nestingDepth then Err(LimitExceeded)
    else
      var h :- ReadHead(bytes);
      if h.major == BYTES || h.major == TEXT then
        if h.len + h.arg >= TWO_64 then Err(IntegerOverflow)
        else if h.len + h.arg > |bytes| then Err(UnexpectedEof)
        else Ok(Scan(h.len + h.arg, budget - 1))
      else if h.major == ARRAY || h.major == MAP || h.major == TAG then
        var count :- ChildCount(h, lim);
        if h.major != TAG && count > |bytes| - h.len then Err(UnexpectedEof)
        else
          var s :- ItemsLen(bytes[h.len..], count, lim, depth + 1, budget - 1);
          Ok(Scan(h.len + s.len, s.left))
      else Ok(Scan(h.len, budget - 1))
  }

  /** Total length of the first `count` items in `bytes`. */
  function ItemsLen(bytes: Bytes, count: nat, lim: Limits, depth: nat, budget: nat): (r: Result<Scan>)
    ensures r.Ok? ==> count <= r.value.len <= |bytes| && r.value.left <= budget <= r.value.left + r.value.len
    decreases |bytes|, 1
  {
    if count == 0 then Ok(Scan(0, budget))
    else
      var first :- ItemLen(bytes, lim, depth, budget);
      var rest :- ItemsLen(bytes[first.len..], count - 1, lim, depth, first.left);
      Ok(Scan(first.len + rest.len, rest.left))
  }

  /** The scanner as written: a budget that is decremented in place and a position that advances. */
  method ItemLenWithBudget(bytes: Bytes, lim: Limits, depth: nat, budget: nat) returns (r: Result<nat>, left: nat)
    ensures r == match ItemLen(bytes, lim, depth, budget) case Ok(s) => Ok(s.len) case Err(e) => Err(e)
    ensures r.Ok? ==> left == ItemLen(bytes, lim, depth, budget).value.left
    decreases |bytes|, 1
  {
    hide ReadHead, ItemsLen;
    left := budget;
    if left == 0 {
      return Err(LimitExceeded), left;
    }
    left := left - 1;
    if |bytes| > lim.inputBytes || depth > lim.nestingDepth {
      return Err(LimitExceeded), left;
    }
    var head := ReadHead(bytes);
    if head.Err? {
      return Err(head.error), left;
    }
    var h := head.value;
    if h.major == BYTES || h.major == TEXT {
      var total := h.len + h.arg;
      if total >= TWO_64 {
        return Err(IntegerOverflow), left;
      }
      return if total > |bytes| then Err(UnexpectedEof) else Ok(total), left;
    }
    if h.major != ARRAY && h.major != MAP && h.major != TAG {
      return Ok(h.len), left;
    }
    var count := ChildCount(h, lim);
    if count.Err? {
      return Err(count.error), left;
    }
    if h.major != TAG && count.value > |bytes| - h.len {
      return Err(UnexpectedEof), left;
    }
    r, left := ScanItems(bytes, h.len, count.value, lim, depth + 1, left);
  }

  /** The position loop over the items nested in one compound item. */
  method ScanItems(bytes: Bytes, start: nat, count: nat, lim: Limits, depth: nat, budget: nat)
    returns (r: Result<nat>, left: nat)
    requires 0 < start <= |bytes|
    ensures var s := ItemsLen(bytes[start..], count, lim, depth, budget);
            && r == (match s case Ok(n) => Ok(start + n.len) case Err(e) => Err(e))
            && (r.Ok? ==> left == s.value.left)
    decreases |bytes|, 0
  {
    hide ItemLen, ItemsLen;
    var pos := start;
    left := budget;
    for i := 0 to count
      invariant start <= pos <= |bytes|
      invariant ItemsLen(bytes[start..], count, lim, depth, budget)
             == Shift(pos - start, ItemsLen(bytes[pos..], count - i, lim, depth, left))
    {
      NextItem(bytes, pos, count - i, lim, depth, left);
      var n, after := ItemLenWithBudget(bytes[pos..], lim, depth, left);
      if n.Err? {
        return Err(n.error), after;
      }
      pos, left := pos + n.value, after;
    }
    NoItems(bytes[pos..], lim, depth, left);
    r := Ok(pos);
  }

  lemma NoItems(bytes: Bytes, lim: Limits, depth: nat, budget: nat)
    ensures ItemsLen(bytes, 0, lim, depth, budget) == Ok(Scan(0, budget))
  {
  }

  /** A measurement that started `n` bytes later. */
  function Shift(n: nat, r: Result<Scan>): (q: Result<Scan>) {
    match r
    case Ok(s) => Ok(Scan(n + s.len, s.left))
    case Err(e) => Err(e)
  }

  lemma NextItem(bytes: Bytes, pos: nat, count: nat, lim: Limits, depth: nat, budget: nat)
    requires pos <= |bytes| && count > 0
    ensures var first := ItemLen(bytes[pos..], lim, depth, budget);
            var all := ItemsLen(bytes[pos..], count, lim, depth, budget);
            match first
            case Err(e) => all == Err(e)
            case Ok(s) => all == Shift(s.len, ItemsLen(bytes[pos + s.len..], count - 1, lim, depth, s.left))
  {
    hide ItemLen;
    var first := ItemLen(bytes[pos..], lim, depth, budget);
    if first.Ok? {
      assert bytes[pos..][first.value.len..] == bytes[pos + first.value.len..];
    }
  }

  // ---- relocation: length depends on the bytes of the item alone ----

  /** Limits that allow at least as much. */
  predicate AtLeast(lim: Limits, depth: nat, budget: nat, lim': Limits, depth': nat, budget': nat) {
    && lim.collectionItems <= lim'.collectionItems
    && depth' + lim.nestingDepth <= depth + lim'.nestingDepth
    && budget <= budget'
  }

  /** An item measured in one place measures the same wherever the same bytes stand, under limits
      that allow at least as much, and costs the same budget. */
  lemma {:induction false} ItemRelocates(b: Bytes, lim: Limits, depth: nat, budget: nat,
                                         b': Bytes, lim': Limits, depth': nat, budget': nat)
    requires ItemLen(b, lim, depth, budget).Ok? && AtLeast(lim, depth, budget, lim', depth', budget')
    requires var n := ItemLen(b, lim, depth, budget).value.len;
             n <= |b'| <= lim'.inputBytes && b'[..n] == b[..n]
    ensures var s := ItemLen(b, lim, depth, budget).value;
            ItemLen(b', lim', depth', budget') == Ok(Scan(s.len, s.left + (budget' - budget)))
    decreases |b|, 0
  {
    hide ReadHead, ItemsLen;
    var s := ItemLen(b, lim, depth, budget).value;
    var h := ReadHead(b).value;
    assert b[..h.len] == b[..s.len][..h.len] && b'[..h.len] == b'[..s.len][..h.len];
    ReadLocal(b, b');
    if h.major == ARRAY || h.major == MAP || h.major == TAG {
      var c, c' := b[h.len..], b'[h.len..];
      assert c[..s.len - h.len] == b[..s.len][h.len..] && c'[..s.len - h.len] == b'[..s.len][h.len..];
      ItemsRelocate(c, ChildCount(h, lim).value, lim, depth + 1, budget - 1, c', lim', depth' + 1, budget' - 1);
    }
  }

  lemma {:induction false} ItemsRelocate(b: Bytes, count: nat, lim: Limits, depth: nat, budget: nat,
                                         b': Bytes, lim': Limits, depth': nat, budget': nat)
    requires ItemsLen(b, count, lim, depth, budget).Ok? && AtLeast(lim, depth, budget, lim', depth', budget')
    requires var n := ItemsLen(b, count, lim, depth, budget).value.len;
             n <= |b'| <= lim'.inputBytes && b'[..n] == b[..n]
    ensures var s := ItemsLen(b, count, lim, depth, budget).value;
            ItemsLen(b', count, lim', depth', budget') == Ok(Scan(s.len, s.left + (budget' - budget)))
    decreases |b|, 1
  {
    hide ItemLen, ItemsLen;
    if count == 0 {
      NoItems(b, lim, depth, budget);
      NoItems(b', lim', depth', budget');
    } else {
      NextItem(b, 0, count, lim, depth, budget);
      NextItem(b', 0, count, lim', depth', budget');
      assert b[0..] == b && b'[0..] == b';
      var s := ItemsLen(b, count, lim, depth, budget).value;
      var first := ItemLen(b, lim, depth, budget).value;
      assert b[..first.len] == b[..s.len][..first.len] && b'[..first.len] == b'[..s.len][..first.len];
      ItemRelocates(b, lim, depth, budget, b', lim', depth', budget');
      var c, c' := b[first.len..], b'[first.len..];
      assert c[..s.len - first.len] == b[..s.len][first.len..] && c'[..s.len - first.len] == b'[..s.len][first.len..];
      ItemsRelocate(c, count - 1, lim, depth, first.left, c', lim', depth', first.left + (budget' - budget));
    }
  }

  // ---- complete items ----

  /** Limits no item of `n` bytes can exceed. */
  function Ample(n: nat): (lim: Limits) { Limits(n, n, n, n) }

  /** `b` is exactly one well-formed item, of any size. */
  predicate Item(b: Bytes) {
    var r := ItemLen(b, Ample(|b|), 0, |b|);
    r.Ok? && r.value.len == |b|
  }

  /** An item at the front of any text is measured there, given ample limits. */
  lemma ItemInFront(b: Bytes, rest: Bytes, n: nat, depth: nat, budget: nat)
    requires Item(b) && |b| + |rest| <= n && depth + |b| <= n && |b| <= budget
    ensures ItemLen(b + rest, Ample(n), depth, budget).Ok?
    ensures ItemLen(b + rest, Ample(n), depth, budget).value.len == |b|
    ensures ItemLen(b + rest, Ample(n), depth, budget).value.left + |b| >= budget
  {
    assert (b + rest)[..|b|] == b == b[..|b|];
    ItemRelocates(b, Ample(|b|), 0, |b|, b + rest, Ample(n), depth, budget);
  }

  /** Items are self-delimiting: no item is a proper prefix of another. */
  lemma PrefixFree(a: Bytes, s: Bytes, b: Bytes, t: Bytes)
    requires Item(a) && Item(b) && a + s == b + t
    ensures a == b && s == t
  {
    var n := |a| + |s|;
    ItemInFront(a, s, n, 0, n);
    ItemInFront(b, t, n, 0, n);
    assert a == (a + s)[..|a|] && b == (b + t)[..|a|];
    assert s == (a + s)[|a|..] && t == (b + t)[|a|..];
  }

  ghost predicate Items(items: seq<Bytes>) {
    forall b :: b in items ==> Item(b)
  }

  /** A concatenation of a known number of items falls apart in one way only. */
  lemma {:induction false} ConcatInjective(a: seq<Bytes>, s: Bytes, b: seq<Bytes>, t: Bytes)
    requires Items(a) && Items(b) && |a| == |b| && Concat(a) + s == Concat(b) + t
    ensures a == b && s == t
  {
    if a != [] {
      assert a[0] in a && b[0] in b;
      assert Concat(a) + s == a[0] + (Concat(a[1..]) + s);
      assert Concat(b) + t == b[0] + (Concat(b[1..]) + t);
      PrefixFree(a[0], Concat(a[1..]) + s, b[0], Concat(b[1..]) + t);
      ConcatInjective(a[1..], s, b[1..], t);
      assert a == [a[0]] + a[1..] && b == [b[0]] + b[1..];
    } else {
      assert Concat(a) + s == s && Concat(b) + t == t;
    }
  }

  /** Arrays of items are determined by their encoding. */
  lemma ArrayInjective(a: seq<Bytes>, b: seq<Bytes>)
    requires |a| < TWO_64 && |b| < TWO_64 && Items(a) && Items(b) && EncodeArray(a) == EncodeArray(b)
    ensures a == b
  {
    HeadInjective(ARRAY, |a|, Concat(a), ARRAY, |b|, Concat(b));
    assert Concat(a) + [] == Concat(a) && Concat(b) + [] == Concat(b);
    ConcatInjective(a, [], b, []);
  }

  // ---- the encoders produce items ----

  lemma {:induction false} ConcatScans(items: seq<Bytes>, n: nat, depth: nat, budget: nat)
    requires Items(items) && |Concat(items)| <= n && depth + |Concat(items)| <= n && |Concat(items)| <= budget
    ensures |items| <= |Concat(items)|
    ensures ItemsLen(Concat(items), |items|, Ample(n), depth, budget).Ok?
    ensures ItemsLen(Concat(items), |items|, Ample(n), depth, budget).value.len == |Concat(items)|
  {
    if items != [] {
      assert items[0] in items;
      var rest := Concat(items[1..]);
      ItemInFront(items[0], rest, n, depth, budget);
      assert Concat(items)[|items[0]|..] == rest;
      ConcatScans(items[1..], n, depth, ItemLen(Concat(items), Ample(n), depth, budget).value.left);
    }
  }

  lemma UintItem(v: U64)
    ensures Item(EncodeUint(v))
  {
    assert EncodeUint(v) + [] == EncodeUint(v);
    ReadEncoded(UINT, v, []);
  }

  lemma ByteStringItem(data: Bytes)
    requires |data| + 9 < TWO_64
    ensures Item(EncodeByteString(data))
  {
    ReadEncoded(BYTES, |data|, data);
  }

  lemma TextStringItem(data: Bytes)
    requires |data| + 9 < TWO_64
    ensures Item(EncodeTextString(data))
  {
    ReadEncoded(TEXT, |data|, data);
  }

  lemma NullItem()
    ensures Item(EncodeNull())
  {
  }

  lemma ArrayItem(items: seq<Bytes>)
    requires |items| < TWO_64 && Items(items)
    ensures Item(EncodeArray(items))
  {
    hide EncodeHead, ReadHead;
    var head, body := EncodeHead(ARRAY, |items|), Concat(items);
    ReadEncoded(ARRAY, |items|, body);
    var n := |EncodeArray(items)|;
    ConcatScans(items, n, 1, n - 1);
    assert EncodeArray(items)[|head|..] == body;
  }

  lemma TagItem(tag: U64, content: Bytes)
    requires Item(content)
    ensures Item(EncodeTag(tag, content))
  {
    hide EncodeHead, ReadHead;
    var head := EncodeHead(TAG, tag);
    ReadEncoded(TAG, tag, content);
    assert Concat([content]) == content;
    var n := |EncodeTag(tag, content)|;
    ConcatScans([content], n, 1, n - 1);
    assert EncodeTag(tag, content)[|head|..] == content;
  }
}
