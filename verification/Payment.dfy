/** Payment payloads, split manifests and the checks by which a split output is accepted. */
module Payment {
  import opened Hashing
  import opened CborHead
  import opened CborScan
  import opened CborDecode
  import opened Bft
  import opened Tokens
  import RsmstProof

  const SPLIT_MANIFEST_TAG: U64 := 39046
  const MAX_PAYMENT_ASSETS: nat := 256
  const MAX_ASSET_ID_BYTES: nat := 128

  /** The ASCII bytes of "UNICITY_SPLIT_OUTPUT". */
  const SPLIT_OUTPUT: Data := [
    0x55, 0x4e, 0x49, 0x43, 0x49, 0x54, 0x59, 0x5f, 0x53, 0x50, 0x4c, 0x49, 0x54, 0x5f, 0x4f, 0x55, 0x54, 0x50, 0x55, 0x54]

  datatype Asset = Asset(id: Data, value: nat)

  /** A canonical collection: 1 to 256 assets, ids strictly ascending, amounts in `1..2^256`. */
  predicate Canonical(assets: seq<Asset>) {
    && 1 <= |assets| <= MAX_PAYMENT_ASSETS
    && (forall a :: a in assets ==> 1 <= |a.id| <= MAX_ASSET_ID_BYTES && RsmstProof.ValidAmount(a.value))
    && (forall i, j :: 0 <= i < j < |assets| ==> KeyLess(assets[i].id, assets[j].id))
  }

  /** Decoder from mint data to the collection it carries. */
  type Decoder = Data -> Option<seq<Asset>>

  /** Position of an asset in a collection. */
  function Position(assets: seq<Asset>, id: Data): (r: Option<nat>)
    ensures r.Some? ==> r.value < |assets| && assets[r.value].id == id
    ensures r.None? ==> forall a :: a in assets ==> a.id != id
  {
    if assets == [] then None
    else if assets[0].id == id then Some(0)
    else
      match Position(assets[1..], id)
      case None => None
      case Some(i) => Some(i + 1)
  }

  /** What a collection holds of an asset, zero if it is not there. */
  function AmountOf(assets: seq<Asset>, id: Data): (v: nat) {
    match Position(assets, id)
    case None => 0
    case Some(i) => assets[i].value
  }

  lemma PositionUnique(assets: seq<Asset>, i: nat)
    requires Canonical(assets) && i < |assets|
    ensures Position(assets, assets[i].id) == Some(i)
  {
    var p := Position(assets, assets[i].id);
    assert assets[i] in assets;
    if p.value < i {
      KeyLessIrreflexive(assets[i].id);
    } else if p.value > i {
      KeyLessIrreflexive(assets[i].id);
    }
  }

  // ---- commitments and manifests ----

  lemma PredicateCborBound(p: Predicate)
    ensures |PredicateCbor(p)| + 9 < TWO_64
  {
    var a: Bytes, b: Bytes, c: Bytes := EncodeUint(1), EncodeByteString(p.code), EncodeByteString(p.parameters);
    assert [a, b, c][1..] == [b, c] && [b, c][1..] == [c] && |[c][1..]| == 0;
    assert Concat([c]) == c + Concat([c][1..]);
    assert Concat([b, c]) == b + Concat([c]);
    assert Concat([a, b, c]) == a + Concat([b, c]);
  }

  /** Binds an allocation leaf to everything of the output mint but its justification. */
  function Commitment(H: Hash, sourceId: Digest, networkId: U16, recipient: Predicate, salt: Digest,
                      outputId: Digest, tokenType: Data, aux: Data): (d: Digest)
  {
    H(CommitmentPreimage(sourceId, networkId, recipient, salt, outputId, tokenType, aux))
  }

  function CommitmentFields(sourceId: Digest, networkId: U16, recipient: Predicate, salt: Digest,
                            outputId: Digest, tokenType: Data, aux: Data): (f: seq<Bytes>)
    ensures |f| == 8
  {
    PredicateCborBound(recipient);
    [EncodeByteString(SPLIT_OUTPUT), EncodeByteString(sourceId), EncodeUint(networkId),
     EncodeByteString(PredicateCbor(recipient)), EncodeByteString(salt), EncodeByteString(outputId),
     EncodeByteString(tokenType), EncodeByteString(aux)]
  }

  function CommitmentPreimage(sourceId: Digest, networkId: U16, recipient: Predicate, salt: Digest,
                              outputId: Digest, tokenType: Data, aux: Data): (b: Bytes)
  {
    EncodeArray(CommitmentFields(sourceId, networkId, recipient, salt, outputId, tokenType, aux))
  }

  lemma CommitmentItems(sourceId: Digest, networkId: U16, recipient: Predicate, salt: Digest,
                        outputId: Digest, tokenType: Data, aux: Data)
    ensures Items(CommitmentFields(sourceId, networkId, recipient, salt, outputId, tokenType, aux))
  {
    hide Item, EncodeByteString, EncodeUint, PredicateCbor;
    PredicateCborBound(recipient);
    ByteStringItem(SPLIT_OUTPUT);
    ByteStringItem(sourceId);
    UintItem(networkId);
    ByteStringItem(PredicateCbor(recipient));
    ByteStringItem(salt);
    ByteStringItem(outputId);
    ByteStringItem(tokenType);
    ByteStringItem(aux);
  }

  /** The commitment's preimage determines everything it binds. */
  lemma CommitmentInjective(s: Digest, n: U16, r: Predicate, salt: Digest, o: Digest, t: Data, a: Data,
                            s': Digest, n': U16, r': Predicate, salt': Digest, o': Digest, t': Data, a': Data)
    requires CommitmentPreimage(s, n, r, salt, o, t, a) == CommitmentPreimage(s', n', r', salt', o', t', a')
    ensures (s, n, r, salt, o, t, a) == (s', n', r', salt', o', t', a')
  {
    hide Item, EncodeArray, EncodeByteString, EncodeUint, PredicateCbor;
    var f, g := CommitmentFields(s, n, r, salt, o, t, a), CommitmentFields(s', n', r', salt', o', t', a');
    CommitmentItems(s, n, r, salt, o, t, a);
    CommitmentItems(s', n', r', salt', o', t', a');
    ArrayInjective(f, g);
    PredicateCborBound(r);
    PredicateCborBound(r');
    assert f[1] == g[1] && f[2] == g[2] && f[3] == g[3] && f[4] == g[4] && f[5] == g[5] && f[6] == g[6] && f[7] == g[7];
    ByteStringInjective(s, s');
    UintInjective(n, n');
    ByteStringInjective(PredicateCbor(r), PredicateCbor(r'));
    PredicateInjective(r, r');
    ByteStringInjective(salt, salt');
    ByteStringInjective(o, o');
    ByteStringInjective(t, t');
    ByteStringInjective(a, a');
  }

  function CommitmentOf(H: Hash, sourceId: Digest, m: Mint): (r: Option<Digest>) {
    match m.data
    case None => None
    case Some(aux) => Some(Commitment(H, sourceId, m.networkId, m.recipient, m.salt, TokenId(H, m), m.tokenType, aux))
  }

  function RootStrings(roots: seq<Digest>): (items: seq<Bytes>)
    ensures |items| == |roots| && forall i :: 0 <= i < |items| ==> items[i] == EncodeByteString(roots[i])
  {
    if roots == [] then [] else [EncodeByteString(roots[0])] + RootStrings(roots[1..])
  }

  function ManifestCbor(roots: seq<Digest>): (b: Bytes)
    requires |roots| <= MAX_PAYMENT_ASSETS
  {
    EncodeTag(SPLIT_MANIFEST_TAG, EncodeArray(RootStrings(roots)))
  }

  /** The 32-byte strings in a list of items. */
  function RootsOf(items: seq<Bytes>, lim: Limits): (r: Option<seq<Digest>>) {
    if items == [] then Some([])
    else
      match ByteStringOf(items[0], lim)
      case Err(_) => None
      case Ok(b) =>
        if |b| != 32 then None
        else
          match RootsOf(items[1..], lim)
          case None => None
          case Some(rest) => Some([b] + rest)
  }

  /** Strict decoding of a manifest: tag, 1 to 256 roots of 32 bytes, nothing else. */
  function ManifestOf(bytes: Bytes, lim: Limits): (r: Option<seq<Digest>>)
    ensures r.Some? ==> 1 <= |r.value| <= MAX_PAYMENT_ASSETS
  {
    match TagOf(bytes, lim)
    case Err(_) => None
    case Ok((tag, inner)) =>
      if tag != SPLIT_MANIFEST_TAG then None
      else
        match ArrayOf(inner, lim, None)
        case Err(_) => None
        case Ok(items) =>
          if items == [] || |items| > MAX_PAYMENT_ASSETS then None
          else
            RootsLength(items, lim);
            RootsOf(items, lim)
  }

  lemma {:induction false} RootsLength(items: seq<Bytes>, lim: Limits)
    ensures RootsOf(items, lim).Some? ==> |RootsOf(items, lim).value| == |items|
  {
    if items != [] {
      RootsLength(items[1..], lim);
    }
  }

  lemma ByteStringFinishes(data: Bytes, lim: Limits)
    requires |data| + 9 < TWO_64 && |EncodeByteString(data)| <= lim.inputBytes && lim.totalItems > 0
    ensures Finishes(EncodeByteString(data), lim)
  {
    ReadEncoded(BYTES, |data|, data);
  }

  lemma DigestStringSize(d: Digest)
    ensures |EncodeByteString(d)| == 34
  {
  }

  lemma RootsOfMore(d: Digest, items: seq<Bytes>, roots: seq<Digest>, lim: Limits)
    requires 34 <= lim.inputBytes && RootsOf(items, lim) == Some(roots)
    ensures RootsOf([EncodeByteString(d)] + items, lim) == Some([d] + roots)
  {
    hide EncodeByteString, ByteStringOf;
    DigestStringSize(d);
    ByteStringRoundTrip(d, lim);
    assert ([EncodeByteString(d)] + items)[1..] == items;
  }

  lemma {:induction false} RootsRoundTrip(roots: seq<Digest>, lim: Limits)
    requires 34 <= lim.inputBytes
    ensures RootsOf(RootStrings(roots), lim) == Some(roots)
  {
    if roots == [] {
    } else {
      hide RootsOf, EncodeByteString;
      RootsRoundTrip(roots[1..], lim);
      RootsOfMore(roots[0], RootStrings(roots[1..]), roots[1..], lim);
      assert roots == [roots[0]] + roots[1..];
    }
  }

  lemma {:induction false} PartOfConcat(items: seq<Bytes>, i: nat)
    requires i < |items|
    ensures |items[i]| <= |Concat(items)|
  {
    if i > 0 {
      PartOfConcat(items[1..], i - 1);
    }
  }

  /** A manifest within the decode limits is read back exactly. */
  lemma ManifestRoundTrip(roots: seq<Digest>, lim: Limits)
    requires 1 <= |roots| <= MAX_PAYMENT_ASSETS && Finishes(ManifestCbor(roots), lim)
    ensures ManifestOf(ManifestCbor(roots), lim) == Some(roots)
  {
    hide EncodeHead, ItemLen, ArrayOf, TagOf, ReadHead, EncodeByteString, RootsOf, Finishes;
    var items := RootStrings(roots);
    var content := EncodeArray(items);
    TagRoundTrip(SPLIT_MANIFEST_TAG, content, lim);
    FinishBounds(ManifestCbor(roots), lim);
    TagContentFinishes(SPLIT_MANIFEST_TAG, content, lim);
    forall i | 0 <= i < |items| ensures |items[i]| <= lim.inputBytes && Finishes(items[i], lim) {
      PartOfConcat(items, i);
      ByteStringFinishes(roots[i], lim);
    }
    ArrayRoundTrip(items, lim);
    DigestStringSize(roots[0]);
    assert |items[0]| <= lim.inputBytes;
    RootsRoundTrip(roots, lim);
  }

  lemma ByteStringCanonical(bytes: Bytes, lim: Limits)
    requires ByteStringOf(bytes, lim).Ok?
    ensures |ByteStringOf(bytes, lim).value| < TWO_64 && bytes == EncodeByteString(ByteStringOf(bytes, lim).value)
  {
    EncodeRead(bytes);
    var h := ReadHead(bytes).value;
    assert bytes == bytes[..h.len] + bytes[h.len..];
  }

  lemma {:induction false} RootsCanonical(items: seq<Bytes>, lim: Limits)
    requires RootsOf(items, lim).Some?
    ensures items == RootStrings(RootsOf(items, lim).value)
  {
    hide ByteStringOf, EncodeByteString;
    if items != [] {
      ByteStringCanonical(items[0], lim);
      RootsCanonical(items[1..], lim);
      var roots := RootsOf(items, lim).value;
      assert roots[1..] == RootsOf(items[1..], lim).value;
      assert items == [items[0]] + items[1..];
    }
  }

  /** Whatever is read as a manifest is the encoding of that manifest. */
  lemma ManifestCanonical(bytes: Bytes, lim: Limits)
    requires ManifestOf(bytes, lim).Some?
    ensures bytes == ManifestCbor(ManifestOf(bytes, lim).value)
  {
    hide ReadHead, ItemLen, EncodeHead, SplitItems, RootsOf, ArrayOf;
    TagInherits(bytes, lim);
    var content := TagOf(bytes, lim).value.1;
    ArrayHead(content, lim);
    ArrayInherits(content, lim);
    var items := ArrayOf(content, lim, None).value;
    RootsLength(items, lim);
    RootsCanonical(items, lim);
  }

  lemma ArrayHead(bytes: Bytes, lim: Limits)
    requires ArrayOf(bytes, lim, None).Ok?
    ensures ReadHead(bytes).Ok? && ReadHead(bytes).value.major == ARRAY
  {
    hide ReadHead, ItemLen, SplitItems;
  }

  lemma FinishBounds(b: Bytes, lim: Limits)
    requires Finishes(b, lim)
    ensures |b| <= lim.inputBytes && lim.totalItems > 0
  {
  }

  lemma TagContentFinishes(tag: U64, content: Bytes, lim: Limits)
    requires Finishes(EncodeTag(tag, content), lim)
    ensures Finishes(content, lim)
  {
    hide ItemLen;
    var b := EncodeTag(tag, content);
    ReadEncoded(TAG, tag, content);
    TagRoundTrip(tag, content, lim);
    TagInherits(b, lim);
  }

  // ---- the split verifier ----

  /** The burn: the source's last transfer carries exactly the manifest and is locked to its hash. */
  function BurnManifest(H: Hash, burned: Token, lim: Limits): (r: Option<seq<Digest>>)
    ensures r.Some? ==> 1 <= |r.value| <= MAX_PAYMENT_ASSETS
  {
    if burned.transfers == [] then None
    else
      var burn := burned.transfers[|burned.transfers| - 1].transfer;
      if burn.data.None? || |burn.data.value| > lim.inputBytes then None
      else
        match ManifestOf(burn.data.value, lim)
        case None => None
        case Some(roots) => if burn.recipient == BurnPredicate(H(ManifestCbor(roots))) then Some(roots) else None
  }

  /** The allocation proof of one output asset against its manifest root. */
  predicate AllocationProven(H: Hash, sourceAssets: seq<Asset>, roots: seq<Digest>, outputId: Digest,
                             commitment: Digest, asset: Asset, steps: seq<RsmstProof.Step>)
    requires |roots| == |sourceAssets|
  {
    match Position(sourceAssets, asset.id)
    case None => false
    case Some(i) =>
      RsmstProof.ProvenSum(H, RsmstProof.Claim(outputId, commitment, asset.value, steps), roots[i])
      == Some(sourceAssets[i].value)
  }

  /** Steps (1) and (3) to (6): manifest, type, counts, and every allocation proof with its root sum.
      Verification of the burned token itself is separate. */
  predicate SplitAccepted(H: Hash, decode: Decoder, lim: Limits, burned: Token, m: Mint,
                          proofs: seq<seq<RsmstProof.Step>>)
  {
    var source := burned.genesis.mint;
    && m.data.Some? && |m.data.value| <= lim.inputBytes && decode(m.data.value).Some?
    && m.networkId == source.networkId
    && BurnManifest(H, burned, lim).Some?
    && m.tokenType == source.tokenType
    && source.data.Some? && |source.data.value| <= lim.inputBytes && decode(source.data.value).Some?
    && var outputAssets, sourceAssets := decode(m.data.value).value, decode(source.data.value).value;
       var roots := BurnManifest(H, burned, lim).value;
       && |sourceAssets| == |roots|
       && |proofs| == |outputAssets|
       && var commitment := CommitmentOf(H, TokenId(H, source), m).value;
          forall k :: 0 <= k < |outputAssets| ==>
            AllocationProven(H, sourceAssets, roots, TokenId(H, m), commitment, outputAssets[k], proofs[k])
  }

  /** The token ends in a burn: its last transfer is locked, beyond unlocking, to the hash of the very
      bytes it carries. */
  predicate Burnt(H: Hash, token: Token) {
    && token.transfers != []
    && var burn := token.transfers[|token.transfers| - 1].transfer;
       burn.data.Some? && burn.recipient == BurnPredicate(H(burn.data.value))
  }

  /** The output is of the kind of the burned token. */
  predicate SameKind(a: Mint, b: Mint) { a.tokenType == b.tokenType && a.networkId == b.networkId }

  /** What an accepted split says of the two tokens. */
  lemma SplitKeepsKind(H: Hash, decode: Decoder, lim: Limits, burned: Token, m: Mint, proofs: seq<seq<RsmstProof.Step>>)
    requires SplitAccepted(H, decode, lim, burned, m, proofs)
    ensures SameKind(m, burned.genesis.mint) && Burnt(H, burned)
    ensures m.data.Some? && |m.data.value| <= lim.inputBytes
    ensures burned.genesis.mint.data.Some? && |burned.genesis.mint.data.value| <= lim.inputBytes
    ensures |burned.transfers[|burned.transfers| - 1].transfer.data.value| <= lim.inputBytes
  {
    hide ManifestOf, ManifestCbor;
    ManifestCanonical(burned.transfers[|burned.transfers| - 1].transfer.data.value, lim);
  }

  /** The verifier's steps in order, with its loop over the output assets. */
  method VerifySplit(H: Hash, decode: Decoder, lim: Limits, burned: Token, m: Mint, proofs: seq<seq<RsmstProof.Step>>)
    returns (ok: bool)
    ensures ok <==> SplitAccepted(H, decode, lim, burned, m, proofs)
    ensures ok ==> SameKind(m, burned.genesis.mint) && Burnt(H, burned)
  {
    hide BurnManifest, RsmstProof.ProvenSum, TokenId, Commitment, SameKind, Burnt;
    if SplitAccepted(H, decode, lim, burned, m, proofs) {
      SplitKeepsKind(H, decode, lim, burned, m, proofs);
    }
    var source := burned.genesis.mint;
    if m.data.None? || |m.data.value| > lim.inputBytes || decode(m.data.value).None? {
      return false;
    }
    var outputAssets := decode(m.data.value).value;
    if m.networkId != source.networkId {
      return false;
    }
    var manifest := BurnManifest(H, burned, lim);
    if manifest.None? || m.tokenType != source.tokenType {
      return false;
    }
    if source.data.None? || |source.data.value| > lim.inputBytes || decode(source.data.value).None? {
      return false;
    }
    var sourceAssets, roots := decode(source.data.value).value, manifest.value;
    if |sourceAssets| != |roots| || |proofs| != |outputAssets| {
      return false;
    }
    var outputId := TokenId(H, m);
    var commitment := CommitmentOf(H, TokenId(H, source), m).value;
    for k := 0 to |outputAssets|
      invariant forall j :: 0 <= j < k ==>
                  AllocationProven(H, sourceAssets, roots, outputId, commitment, outputAssets[j], proofs[j])
    {
      var index := Position(sourceAssets, outputAssets[k].id);
      if index.None? {
        return false;
      }
      var sum := RsmstProof.Verify(H, proofs[k], outputId, commitment, outputAssets[k].value, roots[index.value]);
      if sum != Some(sourceAssets[index.value].value) {
        return false;
      }
    }
    return true;
  }
}
