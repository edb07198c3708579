/** Verification of a token together with the sources it was split from: the justification of a mint is
    read, the burned token in it is verified by the same procedure and in the same seal session, and the
    split is checked against it.
 */
module GenealogyVerifier {
  import opened Hashing
  import opened CborHead
  import opened CborScan
  import opened CborDecode
  import opened Bft
  import Certificates
  import opened Tokens
  import opened Payment
  import opened Genealogy
  import RsmstProof
  import Split
  import SplitOutputs
  import TokenVerifier
  import SealMemory
  import SealSession

  /** Resource limits of one verification. */
  datatype Budget = Budget(maxTransfers: nat, maxDepth: nat, maxBytes: nat)

  /** The token, and every source that justifications lead to within `n` steps, was rebuilt by the decoder
      and has its seals among those of the run. */
  ghost predicate Presented(S: Setting, u: SealMemory.Universe, token: Token, n: nat)
    decreases n
  {
    && TokenVerifier.Presented(u, token) && Linked(S.C.H, token)
    && match JustificationOf(S, token.genesis.mint)
       case Some(SplitOf(source, _)) => n > 0 ==> Presented(S, u, source, n - 1)
       case _ => true
  }

  /** No token on the way has more transfers than allowed. */
  ghost predicate Short(p: Provenance, maxTransfers: nat) {
    |p.token.transfers| <= maxTransfers && (p.SplitFrom? ==> Short(p.source, maxTransfers))
  }

  function Generations(p: Provenance): (n: nat) { if p.SplitFrom? then 1 + Generations(p.source) else 0 }

  /** The encoded sizes of all embedded tokens together. */
  function EmbeddedBytes(p: Provenance, size: Token -> nat): (n: nat) {
    if p.SplitFrom? then size(p.source.token) + EmbeddedBytes(p.source, size) else 0
  }

  /** What a verification that has already gone `depth` levels down and through `bytes` bytes accepts. */
  ghost predicate Passes(S: Setting, p: Provenance, limits: Budget, size: Token -> nat, depth: nat, bytes: nat) {
    && Accepted(S, p) && Short(p, limits.maxTransfers)
    && depth + Generations(p) <= limits.maxDepth && bytes + EmbeddedBytes(p, size) <= limits.maxBytes
  }

  ghost predicate SomePasses(S: Setting, token: Token, limits: Budget, size: Token -> nat, depth: nat, bytes: nat) {
    exists p: Provenance :: p.token == token && Passes(S, p, limits, size, depth, bytes)
  }

  /** What the history and the registry say of a token, apart from the sources. */
  ghost predicate OwnPart(S: Setting, token: Token, limits: Budget) {
    && |token.transfers| <= limits.maxTransfers && HistoryAccepted(S.C, S.tb, token) && S.registry.dataOk(token.genesis)
  }

  lemma PassesOwn(S: Setting, p: Provenance, limits: Budget, size: Token -> nat, depth: nat, bytes: nat)
    requires Passes(S, p, limits, size, depth, bytes)
    ensures OwnPart(S, p.token, limits)
  {
    hide HistoryAccepted, Linked, SplitOutputs.OutputAccepted;
  }

  /** A token without a split justification. */
  lemma IssuedPasses(S: Setting, token: Token, limits: Budget, size: Token -> nat, depth: nat, bytes: nat)
    requires depth <= limits.maxDepth && bytes <= limits.maxBytes && Linked(S.C.H, token)
    requires var j := JustificationOf(S, token.genesis.mint); j.None? || !j.value.SplitOf?
    ensures var j := JustificationOf(S, token.genesis.mint);
            SomePasses(S, token, limits, size, depth, bytes)
            <==> OwnPart(S, token, limits) && (j.Some? ==> j.value.Foreign? && S.registry.foreignOk(token.genesis))
  {
    hide HistoryAccepted, Linked, SplitOutputs.OutputAccepted;
    if SomePasses(S, token, limits, size, depth, bytes) {
      var p: Provenance :| p.token == token && Passes(S, p, limits, size, depth, bytes);
    }
    var j := JustificationOf(S, token.genesis.mint);
    if OwnPart(S, token, limits) && (j.Some? ==> j.value.Foreign? && S.registry.foreignOk(token.genesis)) {
      assert Passes(S, Issued(token), limits, size, depth, bytes);
    }
  }

  /** A token whose justification is a split of `source`. */
  lemma SplitPasses(S: Setting, token: Token, source: Token, proofs: seq<seq<RsmstProof.Step>>, limits: Budget,
                    size: Token -> nat, depth: nat, bytes: nat)
    requires Linked(S.C.H, token) && JustificationOf(S, token.genesis.mint) == Some(SplitOf(source, proofs))
    ensures SomePasses(S, token, limits, size, depth, bytes)
       <==> && OwnPart(S, token, limits) && SplitAccepted(S.C.H, S.decode, S.lim, source, token.genesis.mint, proofs)
            && SomePasses(S, source, limits, size, depth + 1, bytes + size(source))
  {
    hide HistoryAccepted, Linked, SplitAccepted;
    if SomePasses(S, token, limits, size, depth, bytes) {
      var p: Provenance :| p.token == token && Passes(S, p, limits, size, depth, bytes);
      assert Passes(S, p.source, limits, size, depth + 1, bytes + size(source));
    }
    if && OwnPart(S, token, limits) && SplitAccepted(S.C.H, S.decode, S.lim, source, token.genesis.mint, proofs)
       && SomePasses(S, source, limits, size, depth + 1, bytes + size(source))
    {
      var q: Provenance :| q.token == source && Passes(S, q, limits, size, depth + 1, bytes + size(source));
      assert Passes(S, SplitFrom(token, q, proofs), limits, size, depth, bytes);
    }
  }

  lemma BeyondLimits(S: Setting, token: Token, limits: Budget, size: Token -> nat, depth: nat, bytes: nat)
    requires depth > limits.maxDepth || bytes > limits.maxBytes
    ensures !SomePasses(S, token, limits, size, depth, bytes)
  {
    hide Genealogy.Accepted, Short;
  }

  /** Complete verification of a token: transfer count, genesis, token data, justification with everything
      embedded in it, then the transfers.  A token is accepted exactly when it has a provenance that is
      accepted from end to end, within the limits on transfers, nesting and embedded bytes, whatever the
      session remembers.  `size` gives the encoded length of an embedded token. */
  method VerifyToken(S: Setting, session: SealSession.SealSession, token: Token, limits: Budget, size: Token -> nat,
                     depth: nat, bytes: nat, ghost u: SealMemory.Universe)
    returns (ok: bool)
    requires session.Valid(u) && TokenVerifier.Under(S.C, u) && S.tb == session.tb
    requires depth <= limits.maxDepth && bytes <= limits.maxBytes && Presented(S, u, token, limits.maxDepth - depth)
    modifies session, session.memo, session.bodies
    ensures session.Valid(u)
    ensures ok <==> SomePasses(S, token, limits, size, depth, bytes)
    ensures ok ==> exists p: Provenance ::
                     && p.token == token && Accepted(S, p) && depth + Generations(p) <= limits.maxDepth
                     && bytes + EmbeddedBytes(p, size) <= limits.maxBytes && |token.transfers| <= limits.maxTransfers
    decreases limits.maxDepth - depth
  {
    hide HistoryAccepted, Linked, TokenVerifier.GenesisVerdict, TokenVerifier.TransfersVerdict, SomePasses;
    hide SealMemory.Separated, SealMemory.GoodMemory, SplitAccepted;
    TokenVerifier.HistoryIs(S.C, S.tb, token, limits.maxTransfers);
    NeedsOwn(S, token, limits, size, depth, bytes);
    WithinLimits(S, token, limits, size, depth, bytes);
    if |token.transfers| > limits.maxTransfers {
      return false;
    }
    var v := TokenVerifier.VerifyGenesis(S.C, session, token.genesis, u);
    if v.Rejected? || !S.registry.dataOk(token.genesis) {
      return false;
    }
    var j := JustificationOf(S, token.genesis.mint);
    if j.None? || !j.value.SplitOf? {
      IssuedPasses(S, token, limits, size, depth, bytes);
      if j.Some? && (j.value.Malformed? || !S.registry.foreignOk(token.genesis)) {
        return false;
      }
    } else {
      SplitPasses(S, token, j.value.source, j.value.proofs, limits, size, depth, bytes);
      ok := VerifyJustification(S, session, token, j.value.source, j.value.proofs, limits, size, depth, bytes, u);
      if !ok {
        return;
      }
    }
    v := TokenVerifier.VerifyTransfers(S.C, session, token.transfers, u);
    return v.Accepted?;
  }

  /** An accepted token stays within every limit. */
  lemma WithinLimits(S: Setting, token: Token, limits: Budget, size: Token -> nat, depth: nat, bytes: nat)
    ensures SomePasses(S, token, limits, size, depth, bytes) ==>
              exists p: Provenance ::
                && p.token == token && Accepted(S, p) && depth + Generations(p) <= limits.maxDepth
                && bytes + EmbeddedBytes(p, size) <= limits.maxBytes && |token.transfers| <= limits.maxTransfers
  {
    hide Accepted, Generations, EmbeddedBytes;
    if SomePasses(S, token, limits, size, depth, bytes) {
      var p: Provenance :| p.token == token && Passes(S, p, limits, size, depth, bytes);
    }
  }

  lemma NeedsOwn(S: Setting, token: Token, limits: Budget, size: Token -> nat, depth: nat, bytes: nat)
    ensures SomePasses(S, token, limits, size, depth, bytes) ==> OwnPart(S, token, limits)
  {
    hide Passes, OwnPart;
    if SomePasses(S, token, limits, size, depth, bytes) {
      var p: Provenance :| p.token == token && Passes(S, p, limits, size, depth, bytes);
      PassesOwn(S, p, limits, size, depth, bytes);
    }
  }

  /** The split verifier: limits on embedding, the burned token itself, then the split. */
  method VerifyJustification(S: Setting, session: SealSession.SealSession, token: Token, source: Token,
                             proofs: seq<seq<RsmstProof.Step>>, limits: Budget, size: Token -> nat,
                             depth: nat, bytes: nat, ghost u: SealMemory.Universe)
    returns (ok: bool)
    requires session.Valid(u) && TokenVerifier.Under(S.C, u) && S.tb == session.tb
    requires depth <= limits.maxDepth && bytes <= limits.maxBytes
    requires depth < limits.maxDepth ==> Presented(S, u, source, limits.maxDepth - depth - 1)
    modifies session, session.memo, session.bodies
    ensures session.Valid(u)
    ensures ok <==> && SplitAccepted(S.C.H, S.decode, S.lim, source, token.genesis.mint, proofs)
                    && SomePasses(S, source, limits, size, depth + 1, bytes + size(source))
    decreases limits.maxDepth - depth, 0
  {
    hide SplitAccepted, SomePasses, SealMemory.Separated, SealMemory.GoodMemory;
    var total := bytes + size(source);
    if depth == limits.maxDepth || total > limits.maxBytes {
      BeyondLimits(S, source, limits, size, depth + 1, total);
      return false;
    }
    ok := VerifyToken(S, session, source, limits, size, depth + 1, total, u);
    if ok {
      ok := VerifySplit(S.C.H, S.decode, S.lim, source, token.genesis.mint, proofs);
    }
  }

  /** An output of a successful split, minted with a justification that is read back as its burn and its
      proofs, is an accepted token once its mint is certified. */
  lemma SplitOutputPasses(S: Setting, token: Token, assets: seq<Asset>, requests: seq<Split.Request>, mask: Digest,
                          burnExpiry: Option<U64>, roots: seq<Digest>, burn: Transfer, outputs: seq<Split.Output>, i: nat,
                          proof: InclusionProof, expiry: Option<U64>, justification: Data, source: Provenance, minted: Token)
    requires Canonical(assets) && forall q :: q in requests ==> Canonical(q.assets)
    requires Split.Splittable(S.C.H, S.decode, token, assets, requests)
    requires Split.SplitOf(S.C.H, token, assets, requests, mask, burnExpiry, roots, burn, outputs)
    requires token.genesis.mint.data.Some? && S.decode(token.genesis.mint.data.value) == Some(assets)
    requires |token.genesis.mint.data.value| <= S.lim.inputBytes && Finishes(ManifestCbor(roots), S.lim)
    requires i < |outputs| && |outputs[i].payload| <= S.lim.inputBytes
    requires S.registry.read(justification) == SplitOf(Split.Burned(token, burn, proof), outputs[i].proofs)
    requires source.token == Split.Burned(token, burn, proof) && Accepted(S, source)
    requires minted.genesis.mint == Split.MintOf(outputs[i], expiry, Some(justification))
    requires HistoryAccepted(S.C, S.tb, minted) && Linked(S.C.H, minted) && S.registry.dataOk(minted.genesis)
    ensures Accepted(S, SplitFrom(minted, source, outputs[i].proofs))
  {
    hide HistoryAccepted, Linked, SplitAccepted, Split.Splittable, Split.SplitOf, Canonical, ManifestCbor, Finishes;
    Split.SplitMeetsVerifier(S.C.H, S.decode, S.lim, token, assets, requests, mask, burnExpiry, roots, burn, outputs, i,
                             proof, expiry, Some(justification));
  }
}
