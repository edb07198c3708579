/** Token splitting: one sum tree per source asset, the manifest of their roots, the burn that commits
    to it, and the outputs with their allocation proofs.
 */
module Split {
  import opened Hashing
  import opened CborHead
  import opened CborScan
  import opened CborDecode
  import opened Bft
  import opened Tokens
  import opened Payment
  import opened RsmstProof
  import opened RsmstBuild

  datatype Request = Request(recipient: Predicate, tokenType: Data, assets: seq<Asset>, bytes: Data, salt: Digest)

  datatype Output = Output(
    networkId: U16, recipient: Predicate, tokenType: Data, salt: Digest,
    assets: seq<Asset>, payload: Data, proofs: seq<seq<Step>>)

  datatype SplitResult =
    | Divided(burn: Transfer, outputs: seq<Output>)
    | Refused(reason: SplitError)

  datatype SplitError =
    | TypeDiffers
    | PayloadDiffers
    | AssetAbsent
    | DuplicateId
    | NotAllocated
    | TotalDiffers
    | ProofMissing

  // ---- requests ----

  function OutputId(H: Hash, token: Token, r: Request): (id: Digest) {
    DeriveTokenId(H, token.genesis.mint.networkId, r.salt)
  }

  function OutputCommitment(H: Hash, token: Token, r: Request): (d: Digest) {
    Commitment(H, TokenId(H, token.genesis.mint), token.genesis.mint.networkId, r.recipient, r.salt,
               OutputId(H, token, r), r.tokenType, r.bytes)
  }

  /** A request by itself: the source's type, a payload that decodes to its assets, and no asset that
      the source lacks. */
  predicate RequestOk(decode: Decoder, token: Token, assets: seq<Asset>, r: Request) {
    && r.tokenType == token.genesis.mint.tokenType
    && decode(r.bytes) == Some(r.assets)
    && forall a :: a in r.assets ==> Position(assets, a.id).Some?
  }

  predicate RequestsOk(H: Hash, decode: Decoder, token: Token, assets: seq<Asset>, requests: seq<Request>) {
    && (forall r :: r in requests ==> RequestOk(decode, token, assets, r))
    && (forall i, j :: 0 <= i < j < |requests| ==> OutputId(H, token, requests[i]) != OutputId(H, token, requests[j]))
  }

  /** What all requests together take of an asset. */
  function Allocated(requests: seq<Request>, id: Data): (v: nat) {
    if requests == [] then 0
    else Allocated(requests[..|requests| - 1], id) + AmountOf(requests[|requests| - 1].assets, id)
  }

  /** The requests are valid and share out every source asset exactly. */
  predicate Splittable(H: Hash, decode: Decoder, token: Token, assets: seq<Asset>, requests: seq<Request>) {
    && RequestsOk(H, decode, token, assets, requests)
    && forall a :: a in assets ==> Allocated(requests, a.id) == a.value
  }

  // ---- allocation trees ----

  function LeafFor(H: Hash, token: Token, r: Request, value: nat): (l: Leaf)
    requires ValidAmount(value)
  {
    var id := OutputId(H, token, r);
    Leaf(id, value, H(LeafPreimage(id, OutputCommitment(H, token, r), value)))
  }

  /** The leaves of one asset's tree: the outputs that receive some of it. */
  function LeavesFor(H: Hash, token: Token, requests: seq<Request>, id: Data): (leaves: seq<Leaf>) {
    if requests == [] then []
    else
      var r := requests[|requests| - 1];
      var value := AmountOf(r.assets, id);
      LeavesFor(H, token, requests[..|requests| - 1], id) + if ValidAmount(value) then [LeafFor(H, token, r, value)] else []
  }

  lemma {:induction false} LeafOfRequest(H: Hash, token: Token, requests: seq<Request>, id: Data, l: Leaf)
    ensures l in LeavesFor(H, token, requests, id)
       <==> exists r :: r in requests && ValidAmount(AmountOf(r.assets, id)) && l == LeafFor(H, token, r, AmountOf(r.assets, id))
  {
    hide LeafFor, ValidAmount, AmountOf;
    if requests != [] {
      var init, r := requests[..|requests| - 1], requests[|requests| - 1];
      assert requests == init + [r];
      LeafOfRequest(H, token, init, id, l);
    }
  }

  ghost predicate DistinctIds(H: Hash, token: Token, requests: seq<Request>) {
    forall i, j :: 0 <= i < j < |requests| ==> OutputId(H, token, requests[i]) != OutputId(H, token, requests[j])
  }

  lemma {:induction false} LeavesValid(H: Hash, token: Token, requests: seq<Request>, id: Data)
    requires DistinctIds(H, token, requests)
    ensures ValidLeaves(LeavesFor(H, token, requests, id))
  {
    hide LeafPreimage, ValidAmount, AmountOf, OutputCommitment, OutputId;
    if requests != [] {
      var init, r := requests[..|requests| - 1], requests[|requests| - 1];
      LeavesValid(H, token, init, id);
      var before := LeavesFor(H, token, init, id);
      forall l | l in before ensures l.key != OutputId(H, token, r) {
        LeafOfRequest(H, token, init, id, l);
        var q :| q in init && ValidAmount(AmountOf(q.assets, id)) && l == LeafFor(H, token, q, AmountOf(q.assets, id));
        var k :| 0 <= k < |init| && init[k] == q;
        assert requests[k] == q;
      }
    }
  }

  lemma {:induction false} LeavesTotal(H: Hash, decode: Decoder, token: Token, requests: seq<Request>, id: Data)
    requires forall r :: r in requests ==> Canonical(r.assets)
    ensures Total(LeavesFor(H, token, requests, id)) == Allocated(requests, id)
  {
    hide ValidAmount, LeafPreimage, OutputCommitment, OutputId;
    if requests != [] {
      var init, r := requests[..|requests| - 1], requests[|requests| - 1];
      assert requests == init + [r];
      LeavesTotal(H, decode, token, init, id);
      assert r in requests;
      AmountValidOrZero(r.assets, id);
      var value := AmountOf(r.assets, id);
      if ValidAmount(value) {
        TotalAppend(LeavesFor(H, token, init, id), LeafFor(H, token, r, value));
      } else {
        assert LeavesFor(H, token, requests, id) == LeavesFor(H, token, init, id);
      }
    }
  }

  lemma AmountValidOrZero(assets: seq<Asset>, id: Data)
    requires Canonical(assets)
    ensures ValidAmount(AmountOf(assets, id)) || AmountOf(assets, id) == 0
  {
    hide ValidAmount, KeyLess;
    var p := Position(assets, id);
    if p.Some? {
      assert assets[p.value] in assets;
    }
  }

  /** The tree of one asset. */
  function TreeFor(H: Hash, token: Token, requests: seq<Request>, id: Data): (t: Option<Tree>) {
    var leaves := LeavesFor(H, token, requests, id);
    if leaves == [] then None else Built(H, leaves, 0)
  }

  /** When the requests share out `amount` of an asset exactly, its tree is built and commits to it. */
  lemma TreeOfAllocation(H: Hash, decode: Decoder, token: Token, requests: seq<Request>, id: Data, amount: nat)
    requires DistinctIds(H, token, requests) && forall r :: r in requests ==> Canonical(r.assets)
    requires ValidAmount(amount)
    ensures Allocated(requests, id) == amount
       <==> TreeFor(H, token, requests, id).Some? && Commit(TreeFor(H, token, requests, id).value).sum == amount
  {
    hide Pow256, LeavesFor, Allocated, Built, Canonical;
    var leaves := LeavesFor(H, token, requests, id);
    LeavesTotal(H, decode, token, requests, id);
    LeavesValid(H, token, requests, id);
    if leaves != [] {
      BuiltExactly(H, leaves, 0);
    }
  }

  /** Insert the outputs one by one, then build. */
  method AllocationTree(H: Hash, token: Token, requests: seq<Request>, id: Data) returns (t: Option<Tree>)
    requires DistinctIds(H, token, requests) && forall r :: r in requests ==> Canonical(r.assets)
    ensures t == TreeFor(H, token, requests, id)
  {
    hide LeafPreimage, OutputCommitment, OutputId, Canonical, Built;
    var tree := new Rsmst();
    for i := 0 to |requests|
      invariant tree.Valid() && fresh(tree)
      invariant tree.leaves == LeavesFor(H, token, requests[..i], id)
    {
      hide ValidAmount, DistinctKeys;
      var r := requests[i];
      assert requests[..i + 1][..i] == requests[..i];
      assert r in requests;
      AmountValidOrZero(r.assets, id);
      var p := Position(r.assets, id);
      if p.Some? {
        var value := r.assets[p.value].value;
        FreshId(H, token, requests, i, id);
        CanonicalPositive(r.assets, p.value);
        var error := tree.Insert(H, OutputId(H, token, r), OutputCommitment(H, token, r), value);
        assert error != Some(DuplicateKey) && error != Some(AmountOutOfRange);
        assert error.None? by { if error.Some? { match error.value case DuplicateKey => case AmountOutOfRange => } }
      } else {
        ZeroInvalid();
      }
    }
    assert requests[..|requests|] == requests;
    var reason;
    t, reason := tree.Build(H);
  }

  lemma ZeroInvalid()
    ensures !ValidAmount(0)
  {
  }

  lemma CanonicalPositive(assets: seq<Asset>, i: nat)
    requires Canonical(assets) && i < |assets|
    ensures ValidAmount(assets[i].value)
  {
    hide KeyLess, ValidAmount;
    assert assets[i] in assets;
  }

  lemma FreshId(H: Hash, token: Token, requests: seq<Request>, i: nat, id: Data)
    requires i < |requests| && DistinctIds(H, token, requests)
    ensures forall l :: l in LeavesFor(H, token, requests[..i], id) ==> l.key != OutputId(H, token, requests[i])
  {
    hide LeafPreimage, OutputCommitment, OutputId, ValidAmount, AmountOf, LeavesFor;
    forall l | l in LeavesFor(H, token, requests[..i], id) ensures l.key != OutputId(H, token, requests[i]) {
      LeafOfRequest(H, token, requests[..i], id, l);
      var r :| r in requests[..i] && ValidAmount(AmountOf(r.assets, id)) && l == LeafFor(H, token, r, AmountOf(r.assets, id));
      var k :| 0 <= k < i && requests[..i][k] == r;
    }
  }

  // ---- the split ----

  /** The roots that make up the manifest, in the order of the source assets. */
  ghost predicate RootsFor(H: Hash, token: Token, requests: seq<Request>, assets: seq<Asset>, roots: seq<Digest>) {
    && |roots| == |assets|
    && forall i :: 0 <= i < |assets| ==>
         && TreeFor(H, token, requests, assets[i].id).Some?
         && roots[i] == Commit(TreeFor(H, token, requests, assets[i].id).value).hash
  }

  /** The burn spends the latest state of the source, is locked to the hash of the manifest and
      carries it. */
  ghost predicate BurnFor(H: Hash, token: Token, roots: seq<Digest>, mask: Digest, expiresAt: Option<U64>,
                          burn: Transfer)
    requires |roots| <= MAX_PAYMENT_ASSETS
  {
    && (burn.sourceStateHash, burn.lockScript) == StateBefore(H, token, |token.transfers|)
    && burn.recipient == BurnPredicate(H(ManifestCbor(roots)))
    && burn.data == Some(ManifestCbor(roots))
    && burn.stateMask == mask && burn.expiresAt == expiresAt
  }

  /** An output repeats its request and proves each of its assets in that asset's tree. */
  ghost predicate OutputFor(H: Hash, token: Token, requests: seq<Request>, r: Request, o: Output) {
    && o.networkId == token.genesis.mint.networkId
    && (o.recipient, o.tokenType, o.salt, o.assets, o.payload) == (r.recipient, r.tokenType, r.salt, r.assets, r.bytes)
    && |o.proofs| == |r.assets|
    && forall k :: 0 <= k < |r.assets| ==> Proves(H, token, requests, r, r.assets[k].id, o.proofs[k])
  }

  ghost predicate Proves(H: Hash, token: Token, requests: seq<Request>, r: Request, id: Data, proof: seq<Step>) {
    TreeFor(H, token, requests, id).Some?
    && ProofSteps(TreeFor(H, token, requests, id).value, OutputId(H, token, r)) == Some(proof)
  }

  ghost predicate SplitOf(H: Hash, token: Token, assets: seq<Asset>, requests: seq<Request>, mask: Digest,
                          expiresAt: Option<U64>, roots: seq<Digest>, burn: Transfer, outputs: seq<Output>)
  {
    && |assets| <= MAX_PAYMENT_ASSETS
    && RootsFor(H, token, requests, assets, roots)
    && BurnFor(H, token, roots, mask, expiresAt, burn)
    && |outputs| == |requests|
    && forall i :: 0 <= i < |requests| ==> OutputFor(H, token, requests, requests[i], outputs[i])
  }

  /** The rule that a refusal names is broken. */
  ghost predicate Breaks(H: Hash, decode: Decoder, token: Token, assets: seq<Asset>, requests: seq<Request>,
                         e: SplitError) {
    match e
    case TypeDiffers => exists r :: r in requests && r.tokenType != token.genesis.mint.tokenType
    case PayloadDiffers => exists r :: r in requests && decode(r.bytes) != Some(r.assets)
    case AssetAbsent => exists r, a :: r in requests && a in r.assets && forall b :: b in assets ==> b.id != a.id
    case DuplicateId =>
      exists i, j :: 0 <= i < j < |requests| && OutputId(H, token, requests[i]) == OutputId(H, token, requests[j])
    case NotAllocated => exists a :: a in assets && Allocated(requests, a.id) != a.value
    case TotalDiffers => exists a :: a in assets && Allocated(requests, a.id) != a.value
    case ProofMissing => false
  }

  /** Validate the requests in order. */
  method CheckRequests(H: Hash, decode: Decoder, token: Token, assets: seq<Asset>, requests: seq<Request>)
    returns (e: Option<SplitError>)
    ensures e.None? <==> RequestsOk(H, decode, token, assets, requests)
    ensures e.Some? ==> Breaks(H, decode, token, assets, requests, e.value)
  {
    hide OutputId, Position, Allocated;
    for i := 0 to |requests|
      invariant RequestsOk(H, decode, token, assets, requests[..i])
    {
      var r := requests[i];
      assert r in requests;
      if r.tokenType != token.genesis.mint.tokenType {
        return Some(TypeDiffers);
      }
      if decode(r.bytes) != Some(r.assets) {
        return Some(PayloadDiffers);
      }
      for k := 0 to |r.assets|
        invariant forall j :: 0 <= j < k ==> Position(assets, r.assets[j].id).Some?
      {
        if Position(assets, r.assets[k].id).None? {
          assert r.assets[k] in r.assets;
          return Some(AssetAbsent);
        }
      }
      for j := 0 to i
        invariant forall k :: 0 <= k < j ==> OutputId(H, token, requests[k]) != OutputId(H, token, r)
      {
        if OutputId(H, token, requests[j]) == OutputId(H, token, r) {
          return Some(DuplicateId);
        }
      }
      assert requests[..i + 1] == requests[..i] + [r];
    }
    assert requests[..|requests|] == requests;
    return None;
  }

  /** One tree per source asset, each checked against the source amount. */
  method BuildTrees(H: Hash, decode: Decoder, token: Token, assets: seq<Asset>, requests: seq<Request>)
    returns (trees: Option<seq<Tree>>, e: SplitError)
    requires Canonical(assets)
    requires DistinctIds(H, token, requests) && forall r :: r in requests ==> Canonical(r.assets)
    ensures trees.Some? <==> forall a :: a in assets ==> Allocated(requests, a.id) == a.value
    ensures trees.None? ==> Breaks(H, decode, token, assets, requests, e)
    ensures trees.Some? ==> |trees.value| == |assets|
    ensures trees.Some? ==> forall i :: 0 <= i < |assets| ==> TreeFor(H, token, requests, assets[i].id) == Some(trees.value[i])
  {
    hide Canonical, DistinctIds, TreeFor, Allocated, ValidAmount, Commit;
    var built: seq<Tree> := [];
    for i := 0 to |assets|
      invariant |built| == i
      invariant forall j :: 0 <= j < i ==> Allocated(requests, assets[j].id) == assets[j].value
      invariant forall j :: 0 <= j < i ==> TreeFor(H, token, requests, assets[j].id) == Some(built[j])
    {
      CanonicalPositive(assets, i);
      TreeOfAllocation(H, decode, token, requests, assets[i].id, assets[i].value);
      assert assets[i] in assets;
      var tree := AllocationTree(H, token, requests, assets[i].id);
      if tree.None? {
        return None, NotAllocated;
      }
      if Commit(tree.value).sum != assets[i].value {
        return None, TotalDiffers;
      }
      built := built + [tree.value];
    }
    return Some(built), NotAllocated;
  }

  /** The leaf of a request is in the tree of each of its assets. */
  lemma LeafPresent(H: Hash, decode: Decoder, token: Token, requests: seq<Request>, r: Request, k: nat)
    requires DistinctIds(H, token, requests) && forall q :: q in requests ==> Canonical(q.assets)
    requires r in requests && k < |r.assets|
    ensures var id, value := r.assets[k].id, r.assets[k].value;
            ValidAmount(value) && LeafFor(H, token, r, value) in LeavesFor(H, token, requests, id)
  {
    hide ValidAmount, LeafPreimage, OutputCommitment, OutputId, LeavesFor;
    hide Canonical;
    CanonicalPositive(r.assets, k);
    PositionUnique(r.assets, k);
    LeafOfRequest(H, token, requests, r.assets[k].id, LeafFor(H, token, r, r.assets[k].value));
  }

  /** What the extracted proof of an allocation proves. */
  lemma AllocationVerifies(H: Hash, decode: Decoder, token: Token, requests: seq<Request>, r: Request, k: nat)
    requires DistinctIds(H, token, requests) && forall q :: q in requests ==> Canonical(q.assets)
    requires r in requests && k < |r.assets| && TreeFor(H, token, requests, r.assets[k].id).Some?
    ensures var id, value := r.assets[k].id, r.assets[k].value;
            var tree := TreeFor(H, token, requests, id).value;
            var steps := ProofSteps(tree, OutputId(H, token, r));
            && steps.Some?
            && ProvenSum(H, Claim(OutputId(H, token, r), OutputCommitment(H, token, r), value, steps.value),
                         Commit(tree).hash)
               == Some(Allocated(requests, id))
  {
    hide ValidAmount, LeafPreimage, OutputCommitment, OutputId, LeavesFor, ProofSteps, ProvenSum, Built, Canonical;
    hide Commit;
    var id, value := r.assets[k].id, r.assets[k].value;
    LeafPresent(H, decode, token, requests, r, k);
    LeavesValid(H, token, requests, id);
    LeavesTotal(H, decode, token, requests, id);
    ProofVerifies(H, LeavesFor(H, token, requests, id), LeafFor(H, token, r, value), OutputCommitment(H, token, r));
  }

  method BuildProofs(H: Hash, decode: Decoder, token: Token, assets: seq<Asset>, trees: seq<Tree>,
                     requests: seq<Request>, r: Request)
    returns (proofs: Option<seq<seq<Step>>>)
    requires |trees| == |assets| && r in requests
    requires DistinctIds(H, token, requests) && forall q :: q in requests ==> Canonical(q.assets)
    requires forall i :: 0 <= i < |assets| ==> TreeFor(H, token, requests, assets[i].id) == Some(trees[i])
    requires forall a :: a in r.assets ==> Position(assets, a.id).Some?
    ensures proofs.Some? && |proofs.value| == |r.assets|
    ensures forall k :: 0 <= k < |r.assets| ==> Proves(H, token, requests, r, r.assets[k].id, proofs.value[k])
  {
    hide Canonical, DistinctIds, TreeFor, ProofSteps, OutputId, ProvenSum;
    var out: seq<seq<Step>> := [];
    for k := 0 to |r.assets|
      invariant |out| == k
      invariant forall j :: 0 <= j < k ==> Proves(H, token, requests, r, r.assets[j].id, out[j])
    {
      assert r.assets[k] in r.assets;
      var index := Position(assets, r.assets[k].id);
      AllocationVerifies(H, decode, token, requests, r, k);
      var proof := Proof(trees[index.value], OutputId(H, token, r));
      if proof.None? {
        return None;
      }
      out := out + [proof.value];
    }
    return Some(out);
  }

  lemma {:induction false} RootStringsBound(roots: seq<Digest>)
    ensures |Concat(RootStrings(roots))| <= 41 * |roots|
  {
    hide EncodeHead;
    if roots != [] {
      RootStringsBound(roots[1..]);
      assert RootStrings(roots)[1..] == RootStrings(roots[1..]);
    }
  }

  lemma ManifestBound(roots: seq<Digest>)
    requires |roots| <= MAX_PAYMENT_ASSETS
    ensures |ManifestCbor(roots)| <= 18 + 41 * |roots|
  {
    hide EncodeHead;
    RootStringsBound(roots);
  }

  /** Construct the burn and the outputs.  It succeeds exactly when the requests share out the source
      assets; no proof is ever missing. */
  method BuildSplit(H: Hash, decode: Decoder, token: Token, assets: seq<Asset>, requests: seq<Request>, mask: Digest,
                    expiresAt: Option<U64>)
    returns (r: SplitResult, ghost roots: seq<Digest>)
    requires Canonical(assets) && forall q :: q in requests ==> Canonical(q.assets)
    ensures r.Divided? <==> Splittable(H, decode, token, assets, requests)
    ensures r.Divided? ==> SplitOf(H, token, assets, requests, mask, expiresAt, roots, r.burn, r.outputs)
    ensures r.Refused? ==> Breaks(H, decode, token, assets, requests, r.reason)
  {
    hide OutputId, TreeFor, ManifestCbor, StateBefore, BurnPredicate, Position, Allocated, Proves, Commit;
    hide ValidAmount, KeyLess;
    roots := [];
    var e := CheckRequests(H, decode, token, assets, requests);
    if e.Some? {
      return Refused(e.value), [];
    }
    var trees, reason := BuildTrees(H, decode, token, assets, requests);
    if trees.None? {
      return Refused(reason), [];
    }
    var hashes := seq(|assets|, i requires 0 <= i < |assets| => Commit(trees.value[i]).hash);
    ManifestBound(hashes);
    var manifest: Data := ManifestCbor(hashes);
    var (source, lock) := StateBefore(H, token, |token.transfers|);
    var burn := Transfer(source, lock, BurnPredicate(H(manifest)), expiresAt, mask, Some(manifest));
    var outputs: seq<Output> := [];
    for i := 0 to |requests|
      invariant |outputs| == i
      invariant forall j :: 0 <= j < i ==> OutputFor(H, token, requests, requests[j], outputs[j])
    {
      var q := requests[i];
      assert q in requests && RequestOk(decode, token, assets, q);
      var proofs := BuildProofs(H, decode, token, assets, trees.value, requests, q);
      if proofs.None? {
        return Refused(ProofMissing), [];
      }
      outputs := outputs + [Output(token.genesis.mint.networkId, q.recipient, q.tokenType, q.salt, q.assets, q.bytes,
                                   proofs.value)];
    }
    return Divided(burn, outputs), hashes;
  }

  // ---- construction meets verification ----

  /** The source after its burn has been certified. */
  function Burned(token: Token, burn: Transfer, proof: InclusionProof): (t: Token) {
    token.(transfers := token.transfers + [CertifiedTransfer(burn, proof)])
  }

  /** The mint of an output, with any deadline and justification. */
  function MintOf(o: Output, expiresAt: Option<U64>, justification: Option<Data>): (m: Mint) {
    Mint(o.networkId, o.recipient, expiresAt, o.salt, o.tokenType, justification, Some(o.payload))
  }

  /** The verifier reads the manifest back from the burn. */
  lemma BurnReadsBack(H: Hash, token: Token, roots: seq<Digest>, mask: Digest, expiresAt: Option<U64>, burn: Transfer,
                      proof: InclusionProof, lim: Limits)
    requires 1 <= |roots| <= MAX_PAYMENT_ASSETS && BurnFor(H, token, roots, mask, expiresAt, burn)
    requires Finishes(ManifestCbor(roots), lim)
    ensures BurnManifest(H, Burned(token, burn, proof), lim) == Some(roots)
  {
    hide ManifestCbor, ManifestOf, BurnPredicate, Finishes, StateBefore;
    ManifestRoundTrip(roots, lim);
    FinishBounds(ManifestCbor(roots), lim);
  }

  lemma OutputProven(H: Hash, decode: Decoder, token: Token, assets: seq<Asset>, requests: seq<Request>,
                     roots: seq<Digest>, r: Request, k: nat, steps: seq<Step>)
    requires Canonical(assets) && forall q :: q in requests ==> Canonical(q.assets)
    requires Splittable(H, decode, token, assets, requests) && RootsFor(H, token, requests, assets, roots)
    requires r in requests && k < |r.assets| && Proves(H, token, requests, r, r.assets[k].id, steps)
    ensures AllocationProven(H, assets, roots, OutputId(H, token, r), OutputCommitment(H, token, r), r.assets[k], steps)
  {
    hide TreeFor, OutputId, OutputCommitment, ProofSteps, ProvenSum, Allocated, Canonical, Commit;
    AllocationVerifies(H, decode, token, requests, r, k);
    assert RequestOk(decode, token, assets, r) && r.assets[k] in r.assets;
    var p := Position(assets, r.assets[k].id);
    assert assets[p.value] in assets;
  }

  /** Every output of a successful split, minted with its returned fields and bytes, is accepted
      against the certified burn. */
  lemma SplitMeetsVerifier(H: Hash, decode: Decoder, lim: Limits, token: Token, assets: seq<Asset>,
                           requests: seq<Request>, mask: Digest, burnExpiry: Option<U64>, roots: seq<Digest>,
                           burn: Transfer, outputs: seq<Output>, i: nat,
                           proof: InclusionProof, expiry: Option<U64>, justification: Option<Data>)
    requires Canonical(assets) && forall q :: q in requests ==> Canonical(q.assets)
    requires Splittable(H, decode, token, assets, requests)
    requires SplitOf(H, token, assets, requests, mask, burnExpiry, roots, burn, outputs)
    requires token.genesis.mint.data.Some? && decode(token.genesis.mint.data.value) == Some(assets)
    requires |token.genesis.mint.data.value| <= lim.inputBytes && Finishes(ManifestCbor(roots), lim)
    requires i < |outputs| && |outputs[i].payload| <= lim.inputBytes
    ensures SplitAccepted(H, decode, lim, Burned(token, burn, proof), MintOf(outputs[i], expiry, justification),
                          outputs[i].proofs)
  {
    hide TreeFor, DeriveTokenId, Commitment, ProofSteps, ProvenSum, Allocated, ManifestCbor, Finishes, StateBefore;
    hide BurnManifest, BurnFor, Position, Proves, AllocationProven, KeyLess, ValidAmount;
    BurnReadsBack(H, token, roots, mask, burnExpiry, burn, proof, lim);
    var r, o := requests[i], outputs[i];
    assert r in requests && RequestOk(decode, token, assets, r) && OutputFor(H, token, requests, r, o);
    var m := MintOf(o, expiry, justification);
    assert TokenId(H, m) == OutputId(H, token, r);
    assert CommitmentOf(H, TokenId(H, token.genesis.mint), m) == Some(OutputCommitment(H, token, r));
    forall k | 0 <= k < |r.assets|
      ensures AllocationProven(H, assets, roots, OutputId(H, token, r), OutputCommitment(H, token, r), r.assets[k],
                               o.proofs[k])
    {
      OutputProven(H, decode, token, assets, requests, roots, r, k, o.proofs[k]);
    }
  }
}
