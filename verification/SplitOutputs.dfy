/** Outputs accepted against burned tokens: what one manifest can be made to pay out, and to whom.

    Nothing is asked here of the certification service: the manifest is fixed, and the allocation proofs
    do the rest.
 */
module SplitOutputs {
  import opened Hashing
  import opened CborScan
  import opened Bft
  import opened Tokens
  import opened Payment
  import RsmstProof
  import opened RsmstConservation

  /** A minted output with the burned token and the allocation proofs of its justification. */
  datatype Output = Output(burned: Token, mint: Mint, proofs: seq<seq<RsmstProof.Step>>)

  /** How payloads and manifests are read. */
  datatype Rules = Rules(H: Hash, decode: Decoder, lim: Limits)

  ghost predicate OutputAccepted(R: Rules, o: Output) {
    SplitAccepted(R.H, R.decode, R.lim, o.burned, o.mint, o.proofs)
  }

  /** The collection minted with a token. */
  function AssetsOf(decode: Decoder, m: Mint): (assets: seq<Asset>) {
    match m.data
    case None => []
    case Some(b) => if decode(b).Some? then decode(b).value else []
  }

  /** What the outputs hold of an asset together. */
  function Paid(decode: Decoder, outputs: seq<Output>, id: Data): (v: nat) {
    if outputs == [] then 0 else AmountOf(AssetsOf(decode, outputs[0].mint), id) + Paid(decode, outputs[1..], id)
  }

  predicate DistinctOutputs(H: Hash, outputs: seq<Output>) {
    forall i, j :: 0 <= i < j < |outputs| ==> TokenId(H, outputs[i].mint) != TokenId(H, outputs[j].mint)
  }

  // ---- the claims of an output ----

  predicate Shaped(R: Rules, o: Output) {
    o.mint.data.Some? && |o.proofs| == |AssetsOf(R.decode, o.mint)|
  }

  /** The allocation claim of the `k`-th asset of an output. */
  function ClaimAt(R: Rules, o: Output, k: nat): (c: RsmstProof.Claim)
    requires Shaped(R, o) && k < |o.proofs|
  {
    RsmstProof.Claim(TokenId(R.H, o.mint), CommitmentOf(R.H, TokenId(R.H, o.burned.genesis.mint), o.mint).value,
                     AssetsOf(R.decode, o.mint)[k].value, o.proofs[k])
  }

  ghost function ClaimsHashed(R: Rules, o: Output, n: nat): (s: set<Bytes>)
    requires Shaped(R, o) && n <= |o.proofs|
  {
    if n == 0 then {} else ClaimsHashed(R, o, n - 1) + RsmstProof.Hashed(R.H, ClaimAt(R, o, n - 1))
  }

  lemma {:induction false} ClaimHashedMember(R: Rules, o: Output, n: nat, k: nat)
    requires Shaped(R, o) && k < n <= |o.proofs|
    ensures RsmstProof.Hashed(R.H, ClaimAt(R, o, k)) <= ClaimsHashed(R, o, n)
  {
    hide ClaimAt, Shaped, RsmstProof.Hashed;
    if k < n - 1 {
      ClaimHashedMember(R, o, n - 1, k);
    }
  }

  lemma AcceptedShaped(R: Rules, o: Output)
    requires OutputAccepted(R, o)
    ensures Shaped(R, o) && BurnManifest(R.H, o.burned, R.lim).Some?
  {
    hide BurnManifest, AllocationProven, CommitmentOf, TokenId;
  }

  /** What one allocation proof of an accepted output shows. */
  lemma ClaimProven(R: Rules, o: Output, k: nat)
    requires OutputAccepted(R, o) && k < |AssetsOf(R.decode, o.mint)|
    ensures Shaped(R, o) && BurnManifest(R.H, o.burned, R.lim).Some?
    ensures var roots, assets := BurnManifest(R.H, o.burned, R.lim).value, AssetsOf(R.decode, o.burned.genesis.mint);
            var i := Position(assets, AssetsOf(R.decode, o.mint)[k].id);
            && |roots| == |assets| && i.Some?
            && RsmstProof.ProvenSum(R.H, ClaimAt(R, o, k), roots[i.value]) == Some(assets[i.value].value)
  {
    hide BurnManifest, TokenId, Commitment, RsmstProof.ProvenSum, Position;
    AcceptedShaped(R, o);
    var source := o.burned.genesis.mint;
    var commitment := CommitmentOf(R.H, TokenId(R.H, source), o.mint).value;
    assert AllocationProven(R.H, AssetsOf(R.decode, source), BurnManifest(R.H, o.burned, R.lim).value,
                            TokenId(R.H, o.mint), commitment, AssetsOf(R.decode, o.mint)[k], o.proofs[k]);
  }

  // ---- the claims of a family on one asset ----

  ghost predicate AllShaped(R: Rules, outputs: seq<Output>) {
    forall i :: 0 <= i < |outputs| ==> Shaped(R, outputs[i])
  }

  ghost function ClaimsOn(R: Rules, outputs: seq<Output>, id: Data): (claims: seq<RsmstProof.Claim>)
    requires AllShaped(R, outputs)
  {
    if outputs == [] then []
    else
      assert Shaped(R, outputs[0]);
      var rest := ClaimsOn(R, outputs[1..], id);
      match Position(AssetsOf(R.decode, outputs[0].mint), id)
      case None => rest
      case Some(k) => [ClaimAt(R, outputs[0], k)] + rest
  }

  lemma {:induction false} ClaimsTotal(R: Rules, outputs: seq<Output>, id: Data)
    requires AllShaped(R, outputs)
    ensures Total(ClaimsOn(R, outputs, id)) == Paid(R.decode, outputs, id)
  {
    hide CommitmentOf, TokenId;
    if outputs != [] {
      ClaimsTotal(R, outputs[1..], id);
      var rest := ClaimsOn(R, outputs[1..], id);
      var k := Position(AssetsOf(R.decode, outputs[0].mint), id);
      assert Shaped(R, outputs[0]);
      if k.Some? {
        assert ([ClaimAt(R, outputs[0], k.value)] + rest)[1..] == rest;
      }
    }
  }

  /** Every claim is that of an output on the asset. */
  lemma {:induction false} ClaimMember(R: Rules, outputs: seq<Output>, id: Data,
                                       c: RsmstProof.Claim) returns (i: nat, k: nat)
    requires AllShaped(R, outputs) && c in ClaimsOn(R, outputs, id)
    ensures i < |outputs| && Position(AssetsOf(R.decode, outputs[i].mint), id) == Some(k) && Shaped(R, outputs[i])
    ensures c == ClaimAt(R, outputs[i], k)
  {
    hide CommitmentOf, TokenId, AssetsOf;
    var at := Position(AssetsOf(R.decode, outputs[0].mint), id);
    assert Shaped(R, outputs[0]);
    if at.Some? && c == ClaimAt(R, outputs[0], at.value) {
      i, k := 0, at.value;
    } else {
      i, k := ClaimMember(R, outputs[1..], id, c);
      i := i + 1;
    }
  }

  lemma {:induction false} ClaimsDistinct(R: Rules, outputs: seq<Output>, id: Data)
    requires AllShaped(R, outputs) && DistinctOutputs(R.H, outputs)
    ensures DistinctKeys(ClaimsOn(R, outputs, id))
  {
    hide CommitmentOf, TokenId, AssetsOf;
    if outputs != [] {
      ClaimsDistinct(R, outputs[1..], id);
      var rest := ClaimsOn(R, outputs[1..], id);
      assert Shaped(R, outputs[0]);
      forall c | c in rest ensures c.key != TokenId(R.H, outputs[0].mint) {
        var i, k := ClaimMember(R, outputs[1..], id, c);
        assert outputs[1..][i] == outputs[i + 1];
      }
    }
  }

  // ---- what one manifest can pay out ----

  /** The output cites the same source and the same manifest as `q`. */
  ghost predicate SameManifest(R: Rules, o: Output, q: Output) {
    o.burned.genesis.mint == q.burned.genesis.mint && BurnManifest(R.H, o.burned, R.lim) == BurnManifest(R.H, q.burned, R.lim)
  }

  ghost predicate OneManifest(R: Rules, outputs: seq<Output>, q: Output) {
    forall i :: 0 <= i < |outputs| ==> OutputAccepted(R, outputs[i]) && SameManifest(R, outputs[i], q)
  }

  lemma AllAcceptedShaped(R: Rules, outputs: seq<Output>, q: Output)
    requires OneManifest(R, outputs, q)
    ensures AllShaped(R, outputs)
  {
    hide OutputAccepted, SameManifest, Shaped;
    forall i | 0 <= i < |outputs| ensures Shaped(R, outputs[i]) {
      AcceptedShaped(R, outputs[i]);
    }
  }

  /** All claims on one asset are proven against one root, and prove the source's amount. */
  lemma ClaimAgainstSource(R: Rules, o: Output, q: Output, id: Data, k: nat)
    requires OutputAccepted(R, o) && SameManifest(R, o, q) && Position(AssetsOf(R.decode, o.mint), id) == Some(k)
    ensures Shaped(R, o) && BurnManifest(R.H, q.burned, R.lim).Some?
    ensures var roots, assets := BurnManifest(R.H, q.burned, R.lim).value, AssetsOf(R.decode, q.burned.genesis.mint);
            var i := Position(assets, id);
            && |roots| == |assets| && i.Some?
            && RsmstProof.ProvenSum(R.H, ClaimAt(R, o, k), roots[i.value]) == Some(AmountOf(assets, id))
  {
    hide BurnManifest, RsmstProof.ProvenSum, ClaimAt, Position, OutputAccepted;
    PositionBound(AssetsOf(R.decode, o.mint), id);
    ClaimProven(R, o, k);
  }

  lemma PositionBound(assets: seq<Asset>, id: Data)
    ensures Position(assets, id).Some? ==> Position(assets, id).value < |assets| && assets[Position(assets, id).value].id == id
  {
  }

  /** The accepted outputs citing one manifest, with different ids, together hold at most the burned
      amount of every asset, or two of the byte strings hashed for their allocation proofs collide. */
  lemma WithinBurned(R: Rules, outputs: seq<Output>, q: Output, id: Data)
    requires DistinctOutputs(R.H, outputs) && OneManifest(R, outputs, q)
    ensures AllShaped(R, outputs)
    ensures Collision(R.H, FamilyHashed(R.H, ClaimsOn(R, outputs, id)))
         || Paid(R.decode, outputs, id) <= AmountOf(AssetsOf(R.decode, q.burned.genesis.mint), id)
  {
    AllAcceptedShaped(R, outputs, q);
    hide RsmstProof.ProvenSum, RsmstProof.Hashed, FamilyHashed, ClaimAt, Position, BurnManifest, AssetsOf, AllShaped;
    hide OutputAccepted, SameManifest, DistinctOutputs, Paid, AmountOf, ClaimsOn;
    var claims := ClaimsOn(R, outputs, id);
    ClaimsTotal(R, outputs, id);
    ClaimsDistinct(R, outputs, id);
    if claims != [] {
      var i0, k0 := ClaimMember(R, outputs, id, claims[0]);
      ClaimAgainstSource(R, outputs[i0], q, id, k0);
      var assets := AssetsOf(R.decode, q.burned.genesis.mint);
      var root := BurnManifest(R.H, q.burned, R.lim).value[Position(assets, id).value];
      forall c | c in claims ensures RsmstProof.ProvenSum(R.H, c, root) == Some(AmountOf(assets, id)) {
        var i, k := ClaimMember(R, outputs, id, c);
        ClaimAgainstSource(R, outputs[i], q, id, k);
      }
      NoOverIssuance(R.H, claims, root);
      assert claims[0] in claims;
    } else {
      NoClaims(claims);
    }
  }

  lemma NoClaims(claims: seq<RsmstProof.Claim>)
    requires claims == []
    ensures Total(claims) == 0
  {
  }

  // ---- to whom ----

  /** The byte string behind the commitment of an output. */
  ghost function CommitmentBytes(R: Rules, o: Output): (b: Bytes)
    requires o.mint.data.Some?
  {
    var m := o.mint;
    CommitmentPreimage(TokenId(R.H, o.burned.genesis.mint), m.networkId, m.recipient, m.salt, TokenId(R.H, m),
                       m.tokenType, m.data.value)
  }

  ghost function BindingHashed(R: Rules, o: Output, k: nat): (s: set<Bytes>)
    requires Shaped(R, o) && k < |o.proofs|
  {
    RsmstProof.Hashed(R.H, ClaimAt(R, o, k)) + {CommitmentBytes(R, o)}
  }

  /** An allocation authorizes one mint: two accepted outputs of one manifest with one token id that share
      an asset agree in network, recipient, salt, type and payload, and in the allocated amount, or two of
      the byte strings hashed for them collide.  Only deadline and justification are free. */
  lemma OutputBound(R: Rules, a: Output, b: Output, id: Data, k: nat, l: nat)
    requires OutputAccepted(R, a) && OutputAccepted(R, b) && SameManifest(R, a, b)
    requires TokenId(R.H, a.mint) == TokenId(R.H, b.mint)
    requires Position(AssetsOf(R.decode, a.mint), id) == Some(k) && Position(AssetsOf(R.decode, b.mint), id) == Some(l)
    ensures Shaped(R, a) && k < |a.proofs| && Shaped(R, b) && l < |b.proofs|
    ensures Collision(R.H, BindingHashed(R, a, k) + BindingHashed(R, b, l))
         || (&& (a.mint.networkId, a.mint.recipient, a.mint.salt, a.mint.tokenType, a.mint.data)
                == (b.mint.networkId, b.mint.recipient, b.mint.salt, b.mint.tokenType, b.mint.data)
             && a.proofs[k] == b.proofs[l])
  {
    hide RsmstProof.ProvenSum, RsmstProof.Hashed, Position, BurnManifest, OutputAccepted, CommitmentPreimage, TokenId;
    AcceptedShaped(R, a);
    AcceptedShaped(R, b);
    PositionBound(AssetsOf(R.decode, a.mint), id);
    PositionBound(AssetsOf(R.decode, b.mint), id);
    ClaimAgainstSource(R, a, b, id, k);
    ClaimAgainstSource(R, b, b, id, l);
    var hashed := BindingHashed(R, a, k) + BindingHashed(R, b, l);
    var x, y := ClaimAt(R, a, k), ClaimAt(R, b, l);
    var root := BurnManifest(R.H, b.burned, R.lim).value[Position(AssetsOf(R.decode, b.burned.genesis.mint), id).value];
    if !Collision(R.H, hashed) {
      AllocationUnique(R.H, x, y, root);
      var both := RsmstProof.Hashed(R.H, x) + RsmstProof.Hashed(R.H, y);
      if Collision(R.H, both) {
        CollisionMonotone(R.H, both, hashed);
      }
      SamePreimage(R.H, hashed, CommitmentBytes(R, a), CommitmentBytes(R, b));
      var source, source' := TokenId(R.H, a.burned.genesis.mint), TokenId(R.H, b.burned.genesis.mint);
      CommitmentInjective(source, a.mint.networkId, a.mint.recipient, a.mint.salt, TokenId(R.H, a.mint),
                          a.mint.tokenType, a.mint.data.value,
                          source', b.mint.networkId, b.mint.recipient, b.mint.salt, TokenId(R.H, b.mint), b.mint.tokenType, b.mint.data.value);
    }
  }
}
