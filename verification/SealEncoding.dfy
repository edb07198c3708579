/** What the complete encoding of a seal says about its quorum.

    The seal memo is keyed by this encoding, in which a validator id written twice survives only once,
    while the quorum count looks at every entry.
 */
module SealEncoding {
  import opened Hashing
  import opened CborHead
  import opened CborScan
  import opened CborDecode
  import opened CborMap
  import opened Bft
  import opened Quorum
  import opened Certificates

  /** The signature map has a CBOR length. */
  predicate Encodable(seal: UnicitySeal) { 2 * |seal.signatures| < TWO_64 }

  /** The id can belong to a validator of a usable authority. */
  predicate Nameable(node: Data) { 1 <= |node| <= MAX_NODE_ID_BYTES }

  /** The seals have the same entries, as far as any authority can look at them. */
  ghost predicate SameEntries(a: UnicitySeal, b: UnicitySeal) {
    forall s: Signature :: Nameable(s.node) ==> (s in a.signatures <==> s in b.signatures)
  }

  /** No id carries two different signatures. */
  predicate Consistent(seal: UnicitySeal) {
    forall i, j :: 0 <= i < |seal.signatures| && 0 <= j < |seal.signatures| ==>
      !Conflict(seal.signatures[i], seal.signatures[j])
  }

  predicate Conflict(s: Signature, t: Signature) {
    s.node == t.node && Nameable(s.node) && s.signature != t.signature
  }

  predicate DistinctNodes(signatures: seq<Signature>) {
    forall i, j :: 0 <= i < j < |signatures| ==> signatures[i].node != signatures[j].node
  }

  // ---- when two seals are judged alike by every authority ----

  lemma {:induction false} KnownNode(nodes: seq<NodeInfo>, node: Data)
    requires SigningKey(nodes, node).Some?
    ensures exists n :: n in nodes && n.node == node
  {
    if nodes[0].node == node {
      assert nodes[0] in nodes;
    } else {
      KnownNode(nodes[1..], node);
    }
  }

  lemma CountedIsNameable(V: Verifier, tb: TrustBase, digest: Digest, s: Signature)
    requires ValidTrustBase(tb) && CountsFor(V, tb, digest, s).Some?
    ensures Nameable(s.node)
  {
    hide SigningKey;
    KnownNode(tb.nodes, s.node);
  }

  lemma SameEntriesAgree(H: Hash, V: Verifier, tb: TrustBase, a: UnicitySeal, b: UnicitySeal)
    requires ValidTrustBase(tb) && SealHash(H, a) == SealHash(H, b) && SameEntries(a, b)
    ensures SealQuorum(H, V, tb, a) <==> SealQuorum(H, V, tb, b)
  {
    hide SealHash, ValidTrustBase, CountsFor, QuorumReached, Nameable;
    forall s | CountsFor(V, tb, SealHash(H, a), s).Some? ensures s in a.signatures <==> s in b.signatures {
      CountedIsNameable(V, tb, SealHash(H, a), s);
    }
    VerdictOfEntries(V, tb, SealHash(H, a), a.signatures, b.signatures);
  }

  /** The authority and the signature scheme that look at one entry only. */
  function OnlyFor(networkId: U16, s: Signature): (tb: TrustBase) {
    TrustBase(1, networkId, 0, 0, [NodeInfo(s.node, [], 1)], 1)
  }

  function Accepting(signature: Data): (V: Verifier) { (d, k, x) => x == signature }

  lemma CountsOnly(networkId: U16, digest: Digest, s: Signature, x: Signature, key: PublicKey)
    requires key == []
    ensures CountsFor(Accepting(s.signature), OnlyFor(networkId, s), digest, x) == if x == s then Some(key) else None
  {
    var nodes := OnlyFor(networkId, s).nodes;
    assert nodes[0] == NodeInfo(s.node, key, 1) && nodes[1..] == [];
    assert SigningKey(nodes[1..], x.node) == None;
    assert SigningKey(nodes, x.node) == if x.node == s.node then Some(key) else None;
    assert Accepting(s.signature)(digest, key, x.signature) == (x.signature == s.signature);
    if x.node == s.node && x.signature == s.signature {
      assert x == s;
    }
  }

  /** Under them, a seal has a quorum exactly when it has that entry. */
  lemma OnlyEntryCounts(H: Hash, networkId: U16, s: Signature, seal: UnicitySeal)
    requires Nameable(s.node)
    ensures ValidTrustBase(OnlyFor(networkId, s))
    ensures SealQuorum(H, Accepting(s.signature), OnlyFor(networkId, s), seal) <==> s in seal.signatures
  {
    hide SealHash, CountsFor, ValidKeys, SigningKey, Accepting;
    var V, tb, digest := Accepting(s.signature), OnlyFor(networkId, s), SealHash(H, seal);
    var keys := ValidKeys(V, tb, digest, seal.signatures);
    var key: PublicKey := [];
    forall k ensures k in keys <==> k == key && s in seal.signatures {
      ValidKeyHasEntry(V, tb, digest, seal.signatures, k);
      forall x: Signature ensures CountsFor(V, tb, digest, x) == if x == s then Some(key) else None {
        CountsOnly(networkId, digest, s, x, key);
      }
      if s in seal.signatures && k == key {
        assert CountsFor(V, tb, digest, s) == Some(key);
      }
    }
    if s in seal.signatures {
      assert keys == {key};
    } else {
      assert keys == {};
    }
  }

  /** Seals with one content hash get one quorum verdict from every authority exactly when they have
      the same entries. */
  lemma AgreeExactly(H: Hash, a: UnicitySeal, b: UnicitySeal)
    requires SealHash(H, a) == SealHash(H, b)
    ensures (forall V: Verifier, tb: TrustBase :: QuorumVerdict(H, V, tb, a) == QuorumVerdict(H, V, tb, b))
       <==> SameEntries(a, b)
  {
    hide SealHash, ValidTrustBase, SealQuorum, Nameable;
    if SameEntries(a, b) {
      forall V: Verifier, tb: TrustBase ensures QuorumVerdict(H, V, tb, a) == QuorumVerdict(H, V, tb, b) {
        if ValidTrustBase(tb) {
          SameEntriesAgree(H, V, tb, a, b);
        }
      }
    }
    if forall V: Verifier, tb: TrustBase :: QuorumVerdict(H, V, tb, a) == QuorumVerdict(H, V, tb, b) {
      forall s: Signature | Nameable(s.node) ensures s in a.signatures <==> s in b.signatures {
        OnlyEntryCounts(H, 0, s, a);
        OnlyEntryCounts(H, 0, s, b);
        assert QuorumVerdict(H, Accepting(s.signature), OnlyFor(0, s), a) == QuorumVerdict(H, Accepting(s.signature), OnlyFor(0, s), b);
      }
    }
  }

  // ---- what the encoding keeps ----

  function EntryOf(s: Signature): (e: Entry) { Entry(EncodeTextString(s.node), EncodeByteString(s.signature)) }

  lemma EntryInjective(s: Signature, t: Signature)
    ensures EntryOf(s).key == EntryOf(t).key <==> s.node == t.node
    ensures EntryOf(s) == EntryOf(t) <==> s == t
  {
    hide EncodeTextString, EncodeByteString;
    if EntryOf(s).key == EntryOf(t).key {
      TextStringInjective(s.node, t.node);
    }
    if EntryOf(s) == EntryOf(t) {
      ByteStringInjective(s.signature, t.signature);
    }
  }

  lemma EntriesAt(signatures: seq<Signature>, i: nat)
    requires i < |signatures|
    ensures SignatureEntries(signatures)[i] == EntryOf(signatures[i])
  {
  }

  /** Where one key has one value, the list and its map say the same about it. */
  lemma {:induction false} OneValueAsMap(entries: seq<Entry>, e: Entry)
    requires forall i, j :: 0 <= i < |entries| && 0 <= j < |entries| && entries[i].key == entries[j].key == e.key ==>
               entries[i].value == entries[j].value
    ensures e in entries <==> e.key in AsMap(entries) && AsMap(entries)[e.key] == e.value
  {
    if entries != [] {
      var init, last := entries[..|entries| - 1], entries[|entries| - 1];
      assert entries == init + [last];
      assert forall i :: 0 <= i < |init| ==> init[i] == entries[i];
      OneValueAsMap(init, e);
      AsMapSnoc(init, last);
      if e in init && last.key == e.key {
        var i :| 0 <= i < |init| && init[i] == e;
        assert entries[i].value == entries[|entries| - 1].value;
      }
    }
  }

  lemma SignatureInMap(seal: UnicitySeal, s: Signature)
    requires Consistent(seal) && Nameable(s.node)
    ensures s in seal.signatures
       <==> EntryOf(s).key in AsMap(SignatureEntries(seal.signatures))
            && AsMap(SignatureEntries(seal.signatures))[EntryOf(s).key] == EntryOf(s).value
  {
    hide EntryOf, AsMap, Nameable;
    var sigs, entries, e := seal.signatures, SignatureEntries(seal.signatures), EntryOf(s);
    forall i, j | 0 <= i < |entries| && 0 <= j < |entries| && entries[i].key == entries[j].key == e.key
      ensures entries[i].value == entries[j].value
    {
      EntriesAt(sigs, i);
      EntriesAt(sigs, j);
      EntryInjective(sigs[i], s);
      EntryInjective(sigs[j], s);
    }
    OneValueAsMap(entries, e);
    SignatureIsEntry(sigs, s);
  }

  lemma SignatureIsEntry(signatures: seq<Signature>, s: Signature)
    ensures s in signatures <==> EntryOf(s) in SignatureEntries(signatures)
  {
    hide EntryOf;
    var e := SignatureEntries(signatures);
    if s in signatures {
      var i :| 0 <= i < |signatures| && signatures[i] == s;
      EntriesAt(signatures, i);
      assert e[i] == EntryOf(s);
    }
    if EntryOf(s) in e {
      var i :| 0 <= i < |e| && e[i] == EntryOf(s);
      EntriesAt(signatures, i);
      EntryInjective(signatures[i], s);
    }
  }

  lemma SignatureEntriesItems(seal: UnicitySeal)
    ensures forall e :: e in SignatureEntries(seal.signatures) ==> Item(e.key) && Item(e.value)
  {
    hide Item;
    var entries := SignatureEntries(seal.signatures);
    forall e | e in entries ensures Item(e.key) && Item(e.value) {
      var i :| 0 <= i < |entries| && entries[i] == e;
      TextStringItem(seal.signatures[i].node);
      ByteStringItem(seal.signatures[i].signature);
    }
  }

  lemma SealFieldItems(seal: UnicitySeal, signatures: Bytes)
    requires Item(signatures)
    ensures Items(SealFields(seal, signatures))
  {
    hide Item, EncodeUint, EncodeNullableBytes, EncodeByteString;
    UintItem(1);
    UintItem(seal.networkId);
    UintItem(seal.rootRound);
    UintItem(seal.epoch);
    UintItem(seal.timestamp);
    NullableBytesItem(seal.previousHash);
    ByteStringItem(seal.hash);
  }

  /** Equal encodings have equal fields and equal signature maps. */
  lemma SealCborFields(a: UnicitySeal, b: UnicitySeal)
    requires Encodable(a) && Encodable(b) && SealCbor(a) == SealCbor(b)
    ensures EncodeMap(SignatureEntries(a.signatures)) == EncodeMap(SignatureEntries(b.signatures))
    ensures SealFields(a, EncodeNull()) == SealFields(b, EncodeNull())
  {
    hide Item, EncodeHead, EncodeMap, EncodeNullableBytes, EncodeByteString, EncodeUint, SignatureEntries, Concat;
    var ma, mb := EncodeMap(SignatureEntries(a.signatures)), EncodeMap(SignatureEntries(b.signatures));
    var fa, fb := SealFields(a, ma), SealFields(b, mb);
    SignatureEntriesItems(a);
    SignatureEntriesItems(b);
    MapItem(SignatureEntries(a.signatures));
    MapItem(SignatureEntries(b.signatures));
    SealFieldItems(a, ma);
    SealFieldItems(b, mb);
    TagInjective(UNICITY_SEAL_TAG, EncodeArray(fa), UNICITY_SEAL_TAG, EncodeArray(fb));
    ArrayInjective(fa, fb);
    assert ma == fa[7] && mb == fb[7];
    assert forall i :: 0 <= i < 7 ==> SealFields(a, EncodeNull())[i] == fa[i] && SealFields(b, EncodeNull())[i] == fb[i];
  }

  /** One encoding: one content hash. */
  lemma EncodingDetermines(H: Hash, a: UnicitySeal, b: UnicitySeal)
    requires Encodable(a) && Encodable(b) && SealCbor(a) == SealCbor(b)
    ensures SealHash(H, a) == SealHash(H, b)
  {
    hide EncodeMap, EncodeArray, SealCbor, SealFields;
    SealCborFields(a, b);
  }

  /** One encoding: one signature map. */
  lemma EncodedSignatures(a: UnicitySeal, b: UnicitySeal)
    requires Encodable(a) && Encodable(b) && SealCbor(a) == SealCbor(b)
    ensures AsMap(SignatureEntries(a.signatures)) == AsMap(SignatureEntries(b.signatures))
  {
    hide EncodeMap, EncodeArray, SealCbor, AsMap, SignatureEntries, Item, SealFields;
    SealCborFields(a, b);
    SignatureEntriesItems(a);
    SignatureEntriesItems(b);
    EncodeMapInjective(SignatureEntries(a.signatures), SignatureEntries(b.signatures));
  }

  /** Seals with one encoding, none giving an id two signatures, have the same entries. */
  lemma ConsistentSameEntries(a: UnicitySeal, b: UnicitySeal)
    requires Encodable(a) && Encodable(b) && SealCbor(a) == SealCbor(b) && Consistent(a) && Consistent(b)
    ensures SameEntries(a, b)
  {
    hide SealCbor, AsMap, SignatureEntries, EntryOf, Consistent, Nameable, SealHash;
    EncodedSignatures(a, b);
    forall s: Signature | Nameable(s.node) ensures s in a.signatures <==> s in b.signatures {
      SignatureInMap(a, s);
      SignatureInMap(b, s);
    }
  }

  // ---- the seal that is read back ----

  /** The entries of other ids. */
  function Without(signatures: seq<Signature>, node: Data): (r: seq<Signature>)
    ensures |r| <= |signatures|
    ensures forall s :: s in r <==> s in signatures && s.node != node
  {
    if signatures == [] then []
    else
      var init, last := signatures[..|signatures| - 1], signatures[|signatures| - 1];
      assert signatures == init + [last];
      Without(init, node) + if last.node == node then [] else [last]
  }

  /** The last entry of every id. */
  function LastOf(signatures: seq<Signature>): (r: seq<Signature>)
    ensures |r| <= |signatures|
    ensures forall s :: s in r ==> s in signatures
  {
    if signatures == [] then []
    else
      var init, last := signatures[..|signatures| - 1], signatures[|signatures| - 1];
      assert signatures == init + [last];
      Without(LastOf(init), last.node) + [last]
  }

  /** The seal as its own encoding has it: of several entries of an id, the last. */
  function Reread(seal: UnicitySeal): (r: UnicitySeal) { seal.(signatures := LastOf(seal.signatures)) }

  lemma EntriesSnoc(init: seq<Signature>, last: Signature)
    ensures SignatureEntries(init + [last]) == SignatureEntries(init) + [EntryOf(last)]
  {
    var all := init + [last];
    forall i | 0 <= i < |all| ensures SignatureEntries(all)[i] == (SignatureEntries(init) + [EntryOf(last)])[i] {
      EntriesAt(all, i);
      if i < |init| {
        EntriesAt(init, i);
      }
    }
  }

  lemma DropOverwritten(m: map<Bytes, Bytes>, k: Bytes, l: Bytes, v: Bytes)
    ensures m[l := v] - {k} == if k == l then m - {k} else (m - {k})[l := v]
  {
  }

  /** The signature map that the encoding holds. */
  function Meaning(signatures: seq<Signature>): (m: map<Bytes, Bytes>) { AsMap(SignatureEntries(signatures)) }

  lemma MeaningSnoc(init: seq<Signature>, last: Signature)
    ensures Meaning(init + [last]) == Meaning(init)[EntryOf(last).key := EntryOf(last).value]
  {
    hide EntryOf, SignatureEntries, AsMap;
    EntriesSnoc(init, last);
    AsMapSnoc(SignatureEntries(init), EntryOf(last));
  }

  lemma {:induction false} WithoutMeaning(signatures: seq<Signature>, s: Signature)
    ensures Meaning(Without(signatures, s.node)) == Meaning(signatures) - {EntryOf(s).key}
  {
    hide EntryOf, Meaning, Without;
    if signatures == [] {
      NothingWithout(s.node);
    } else {
      var init, last := signatures[..|signatures| - 1], signatures[|signatures| - 1];
      assert signatures == init + [last];
      WithoutMeaning(init, s);
      WithoutStep(init, last, s.node);
      MeaningSnoc(init, last);
      EntryInjective(last, s);
      DropOverwritten(Meaning(init), EntryOf(s).key, EntryOf(last).key, EntryOf(last).value);
      if last.node == s.node {
        assert Without(init, s.node) + [] == Without(init, s.node);
      } else {
        MeaningSnoc(Without(init, s.node), last);
      }
    }
  }

  lemma NothingWithout(node: Data)
    ensures Without([], node) == [] && Meaning([]) == map[]
  {
  }

  lemma WithoutStep(init: seq<Signature>, last: Signature, node: Data)
    ensures Without(init + [last], node) == Without(init, node) + if last.node == node then [] else [last]
  {
    assert (init + [last])[..|init|] == init;
  }

  lemma {:induction false} LastOfMeaning(signatures: seq<Signature>)
    ensures Meaning(LastOf(signatures)) == Meaning(signatures)
  {
    hide EntryOf, Meaning, Without;
    if signatures != [] {
      var init, last := signatures[..|signatures| - 1], signatures[|signatures| - 1];
      assert signatures == init + [last];
      LastOfMeaning(init);
      MeaningSnoc(init, last);
      WithoutMeaning(LastOf(init), last);
      MeaningSnoc(Without(LastOf(init), last.node), last);
    }
  }

  lemma {:induction false} WithoutDistinct(signatures: seq<Signature>, node: Data)
    requires DistinctNodes(signatures)
    ensures DistinctNodes(Without(signatures, node))
  {
    if signatures != [] {
      var init, last := signatures[..|signatures| - 1], signatures[|signatures| - 1];
      WithoutDistinct(init, node);
      var r := Without(init, node);
      forall i | 0 <= i < |r| ensures r[i].node != last.node {
        assert r[i] in r;
        var j :| 0 <= j < |init| && init[j] == r[i];
        assert signatures[j] == r[i];
      }
    }
  }

  lemma DistinctSnoc(signatures: seq<Signature>, last: Signature)
    requires DistinctNodes(signatures) && forall s :: s in signatures ==> s.node != last.node
    ensures DistinctNodes(signatures + [last])
  {
    assert forall i :: 0 <= i < |signatures| ==> signatures[i] in signatures;
  }

  lemma {:induction false} LastOfDistinct(signatures: seq<Signature>)
    ensures DistinctNodes(LastOf(signatures))
  {
    hide Without;
    if signatures != [] {
      var init, last := signatures[..|signatures| - 1], signatures[|signatures| - 1];
      LastOfDistinct(init);
      WithoutDistinct(LastOf(init), last.node);
      hide DistinctNodes;
      DistinctSnoc(Without(LastOf(init), last.node), last);
    }
  }

  lemma LastOfTwo(first: Signature, last: Signature)
    requires first.node == last.node
    ensures LastOf([first, last]) == [last]
  {
    var none: seq<Signature> := [];
    assert [first][..0] == none && [first, last][..1] == [first];
    assert Without(none, first.node) == none && LastOf(none) == none;
    assert LastOf([first]) == Without(LastOf(none), first.node) + [first] == [first];
    WithoutStep(none, first, last.node);
    assert none + [first] == [first];
    assert Without([first], last.node) == none;
    assert LastOf([first, last]) == Without(LastOf([first]), last.node) + [last];
  }

  /** Reading back names every validator once and has the same encoding. */
  lemma RereadSame(H: Hash, seal: UnicitySeal)
    requires Encodable(seal)
    ensures Encodable(Reread(seal)) && DistinctNodes(Reread(seal).signatures)
    ensures SealCbor(Reread(seal)) == SealCbor(seal) && SealHash(H, Reread(seal)) == SealHash(H, seal)
  {
    hide LastOf, SignatureEntries, AsMap, EncodeMap;
    LastOfDistinct(seal.signatures);
    LastOfMeaning(seal.signatures);
    EncodeMapOfMeaning(SignatureEntries(LastOf(seal.signatures)), SignatureEntries(seal.signatures));
  }

  /** The encoding of a seal tells every authority the truth about its quorum exactly when no id carries
      two different signatures. */
  lemma RereadExactly(H: Hash, seal: UnicitySeal)
    requires Encodable(seal)
    ensures (forall V: Verifier, tb: TrustBase :: QuorumVerdict(H, V, tb, seal) == QuorumVerdict(H, V, tb, Reread(seal)))
       <==> Consistent(seal)
  {
    hide Reread, QuorumVerdict, SealHash, SealCbor, Nameable;
    var r := Reread(seal);
    RereadSame(H, seal);
    AgreeExactly(H, seal, r);
    if Consistent(seal) {
      ConsistentSameEntries(seal, r);
    }
    if SameEntries(seal, r) {
      SameAsReread(seal);
    }
  }

  lemma SameAsReread(seal: UnicitySeal)
    requires SameEntries(seal, Reread(seal))
    ensures Consistent(seal)
  {
    hide LastOf, Nameable;
    var r := Reread(seal);
    LastOfDistinct(seal.signatures);
    forall i, j | 0 <= i < |seal.signatures| && 0 <= j < |seal.signatures|
      ensures !Conflict(seal.signatures[i], seal.signatures[j])
    {
      if Nameable(seal.signatures[i].node) && seal.signatures[i].node == seal.signatures[j].node {
        assert seal.signatures[i] in r.signatures && seal.signatures[j] in r.signatures;
      }
    }
  }

  // ---- the decoder ----

  /** Decoding of a text string; `utf8` says which byte strings are text. */
  function TextOf(bytes: Bytes, lim: Limits, utf8: Bytes -> bool): (r: Result<Bytes>) {
    var h :- Expect(bytes, lim, TEXT);
    if h.len + h.arg >= TWO_64 then Err(IntegerOverflow)
    else if h.len + h.arg > |bytes| then Err(UnexpectedEof)
    else if h.len + h.arg != |bytes| then Err(TrailingBytes)
    else if !utf8(bytes[h.len..]) then Err(IntegerOverflow)
    else Ok(bytes[h.len..])
  }

  /** The signature entries of a decoded map. */
  function SignaturesFrom(entries: seq<Entry>, lim: Limits, utf8: Bytes -> bool): (r: Result<seq<Signature>>) {
    if entries == [] then Ok([])
    else
      var node :- TextOf(entries[0].key, lim, utf8);
      var signature :- ByteStringOf(entries[0].value, lim);
      var rest :- SignaturesFrom(entries[1..], lim, utf8);
      if |node| >= MAX_DATA || |signature| >= MAX_DATA then Err(LimitExceeded) else Ok([Signature(node, signature)] + rest)
  }

  /** The signature slot of a seal: null, or a map from ids to signatures. */
  function SignaturesOf(bytes: Bytes, lim: Limits, utf8: Bytes -> bool): (r: Result<seq<Signature>>) {
    if bytes == EncodeNull() then Ok([])
    else
      var entries :- MapOf(bytes, lim);
      SignaturesFrom(entries, lim, utf8)
  }

  /** Accepted text is the encoding of what it was read as. */
  lemma TextCanonical(bytes: Bytes, lim: Limits, utf8: Bytes -> bool)
    requires TextOf(bytes, lim, utf8).Ok?
    ensures var t := TextOf(bytes, lim, utf8).value; |t| < TWO_64 && bytes == EncodeTextString(t)
  {
    EncodeRead(bytes);
    var h := ReadHead(bytes).value;
    assert bytes == bytes[..h.len] + bytes[h.len..];
  }

  lemma {:induction false} SignatureKeys(entries: seq<Entry>, lim: Limits, utf8: Bytes -> bool, i: nat)
    requires SignaturesFrom(entries, lim, utf8).Ok? && i < |entries|
    ensures var r := SignaturesFrom(entries, lim, utf8).value;
            |r| == |entries| && entries[i].key == EncodeTextString(r[i].node)
    decreases entries
  {
    hide TextOf, ByteStringOf, EncodeTextString;
    TextCanonical(entries[0].key, lim, utf8);
    if i > 0 {
      SignatureKeys(entries[1..], lim, utf8, i - 1);
    } else if |entries| > 1 {
      SignatureKeys(entries[1..], lim, utf8, 0);
    }
  }

  /** A decoded seal names every validator once. */
  lemma DecodedNamesOnce(bytes: Bytes, lim: Limits, utf8: Bytes -> bool)
    requires SignaturesOf(bytes, lim, utf8).Ok?
    ensures DistinctNodes(SignaturesOf(bytes, lim, utf8).value)
  {
    hide MapOf, SignaturesFrom, EncodeTextString;
    if bytes != EncodeNull() {
      var entries := MapOf(bytes, lim).value;
      var r := SignaturesFrom(entries, lim, utf8).value;
      DecodedMapDistinct(bytes, lim);
      if entries != [] {
        SignatureKeys(entries, lim, utf8, 0);
      } else {
        NoSignatures(lim, utf8);
      }
      forall i, j | 0 <= i < j < |r| ensures r[i].node != r[j].node {
        SignatureKeys(entries, lim, utf8, i);
        SignatureKeys(entries, lim, utf8, j);
      }
    }
  }

  lemma NoSignatures(lim: Limits, utf8: Bytes -> bool)
    ensures SignaturesFrom([], lim, utf8) == Ok([])
  {
  }

  lemma DistinctConsistent(seal: UnicitySeal)
    requires DistinctNodes(seal.signatures)
    ensures Consistent(seal)
  {
  }
}
