# Unicity token SDK: a verified model

This project models the parts of the Unicity token SDK on which the value of a token rests, and proves
what they promise, for all inputs and over all runs:

* **Radix Merkle trees.** The path fold behind inclusion and non-inclusion certificates, sound against
  arbitrary roots and complete for the trees services keep; and the radix sparse Merkle *sum* tree (RSMST)
  with its builder, proof extraction and verifier.
* **Tokens, splits, and conservation of value.** Rebuilding and verifying a token's chain; every step signed
  by the owner named before it; one history per token id; split construction and split verification; and
  the theorem over both: tokens descending from one issued token, through any number of splits, never hold
  more of an asset than was issued.
* **Seals.** The early-exit quorum count, what a seal commits to, the bounded FIFO index, and the memos of a
  seal session: the exact condition under which they never change a verdict, and the work they save.
* **Shards.** The sharding scheme, routing, the shard hash tree built in an arena by a stack pass, the
  authentication of a partition view, the certificates derived from it, and the two-wave consolidation
  protocol, sound against every answer of the services and successful against honest ones.
* **Canonical CBOR** (section 4.2 of RFC 8949): the budgeted scanner, the zero-copy splitters and the
  encoders, with round trips, injectivity, the inheritance of validity by children, and the exact set of
  byte strings that the limits admit.
* **Two small pieces.** The threaded wave executor under every interleaving, and the calendar arithmetic
  behind `Retry-After` (section 10.2.3 of RFC 9110).

## How to read it

SHA-256 is a parameter `H`, a total function from byte strings to 32-byte digests. No injectivity is
assumed of it. A result that rests on collision resistance names the finite set of byte strings that the
verifier really hashed, and says: the property holds, or two different members of that set have the same
digest. Signature verification and the derivation of minter keys are uninterpreted functions (`Verifier`,
`Crypto`).

Code that works by changing state is imperative here too: `SealSession`, `FifoIndex` and `Rsmst` are
classes, and loops (folds, the quorum count, the arena pass, grouping, the consolidation attempt) are
methods proved against specification functions. Clocks, cancellation and the answers of services are
arbitrary inputs of an `Attempt`.

The modules, bottom up:

| modules | about |
|---|---|
| `Hashing`, `Radix` | bytes, digests, collisions; bit addressing and prefix regions |
| `RadixPath`, `RadixTree` | inclusion and non-inclusion certificates; the trees they are taken from |
| `RsmstProof`, `RsmstConservation`, `RsmstBuild` | the sum tree: verifier, conservation, builder |
| `CborHead`, `CborScan`, `CborDecode`, `CborMap`, `CborTrees` | canonical CBOR; the trees of items behind it |
| `Bft`, `Quorum`, `Certificates` | unicity certificates and the rules by which they are accepted |
| `CertificateBinding`, `UnicityTree` | what a seal commits to; certificates for every shard of every partition |
| `SealEncoding` | what the encoding of a seal tells about its quorum |
| `FifoIndex`, `SealMemory`, `QuorumOnce`, `SealSession` | the bounded index, the memos as values, the work they save, and the session that updates them |
| `Tokens`, `TokenVerifier`, `StateChain`, `Ownership`, `History` | token chains, their verification, one place per state, who signs, and one history per id |
| `Payment`, `Split`, `SplitOutputs`, `Genealogy`, `GenealogyVerifier`, `SealHistory` | payments, splits, the outputs of one split, conservation over whole genealogies, and both under one seal |
| `ShardCodec`, `ShardOrder`, `ShardPass`, `ShardScheme`, `ShardTree`, `Topology` | shard identifiers, trees, schemes and routing |
| `Assemble`, `ViewBinding`, `Admission` | partition views and what they say; admission and grouping of the inputs |
| `Replacement`, `Services`, `Consolidate`, `ConsolidatedToken` | the consolidation protocol, for proofs and for whole tokens |
| `Wave`, `CivilDate` | the threaded executor; the calendar |

`dafny verify dfyconfig.toml` checks everything.

## Where the code needs a condition

The memo of a seal's signature verdict is keyed by the complete encoding of the seal, and the map encoder
keeps only the last entry of a repeated validator id. So the promise that a remembered verdict is the
verdict of the seal is not true of all seals that can be constructed:

* `SealMemory.RepeatedIdsMislead` gives the run: a seal with a good and then a bad signature of one
  validator, followed by the seal with the bad one alone. The memory accepts both; the second has no
  quorum. `SealSession.MisledSession` is that run on a session object.
* `SealMemory.TransparentExactly`: given memo keys that do not collide, no run misleads any authority if
  and only if seals of the run with one encoding have the same entries.
* Seal by seal: the verdict of a seal is, for every authority, that of what its encoding is read back as,
  if and only if no id carries two different signatures (`SealEncoding.RereadExactly`). A set of seals
  that is closed under reading back is unambiguous if and only if each of its seals is so
  (`SealMemory.UnambiguousExactly`). Repeating an id with the same signature is harmless.
* Decoded seals always meet the condition: `SealEncoding.DecodedNamesOnce`, `SealEncoding.DistinctConsistent`.

Sessions are therefore specified twice: exactly, for every seal that can be encoded (`SealSession.RunChecks`
and the `Recall` methods), and as the plain verdict for seals that meet the condition.

## Model

| member | source | states |
|---|---|---|
| Radix.PrefixRegion | src/radix.rs:32-46 | The filled array is the key with every bit from `depth` on cleared. |
| Radix.RegionIsPrefix | src/radix.rs:32-46 | Two keys have the same region at a depth exactly when they agree on all bits below it. |
| RadixPath.FoldCertificatePath | src/radix.rs:54-92 | The loop over the bitmap computes the recursive fold of the path, rejecting siblings left over or missing. |
| RadixPath.PathUnique | src/radix.rs:54-92 | For any root, two accepted paths for one target have the same bitmap, siblings, terminal key and value, or a collision is exhibited. |
| RadixPath.PresenceExcludesAbsence | src/api/non_inclusion_certificate.rs:195-229 | For every root and state id, no accepted inclusion certificate coexists with a non-inclusion certificate classified as absent, unless hashes collide. |
| RadixPath.InclusionUnique | src/api/inclusion_certificate.rs:72-81 | Two accepted inclusion certificates for one id under one root are equal and certify the same value, unless hashes collide. |
| RadixPath.NonInclusionUnique | src/api/non_inclusion_certificate.rs:195-229 | Two authenticating non-inclusion certificates for one id under one root (or the empty tree) are equal, unless hashes collide. |
| RadixTree.PathFolds | src/radix.rs:54-92 | Completeness: for every radix tree and every key, held or not, the extracted path folds to the root hash, defined on the tree itself with zero keys left and one keys right. |
| RadixTree.StoredIsIncluded | src/api/inclusion_certificate.rs:72-81 | Every stored value has an accepted inclusion certificate. |
| RadixTree.IncludedIsStored | src/api/inclusion_certificate.rs:72-81 | Against the root of a tree, an accepted inclusion certificate is the tree's own, and its value is in the tree, unless hashes collide. |
| RadixTree.Classified | src/api/non_inclusion_certificate.rs:195-229 | The certificate taken from a store, empty or not, authenticates for every key, and is classified present exactly if the key is stored. |
| RadixTree.AbsentIsNotStored | src/api/non_inclusion_certificate.rs:195-229 | A certificate accepted as proof of absence against the root of a store is the store's own, and the key is not stored, unless hashes collide. |
| RadixTree.IncludedOrAbsent | src/api/non_inclusion_certificate.rs:195-229 | For every key the store can give exactly one of the two: an accepted inclusion certificate or an accepted proof of absence. |
| RsmstProof.Verify | src/rsmst/proof.rs:149-181 | The loop returns the root sum exactly when the claim folds to the root; every failing check makes the whole claim fail. |
| RsmstProof.DepthsDecrease | src/rsmst/proof.rs:149-181 | An accepted claim has strictly decreasing depths and sibling sums in `1..2^256`. |
| RsmstProof.ClaimBounds | src/rsmst/proof.rs:149-181 | A proven amount is positive, part of the proven sum below 2^256, and proven in at most 256 steps. |
| RsmstProof.NodeInjective | src/rsmst/mod.rs:130-150 | A node preimage determines depth, both hashes and both sums. |
| RsmstProof.LeafInjective | src/rsmst/mod.rs:121-125 | A leaf preimage determines key, data and amount. |
| RsmstProof.SameTop | src/rsmst/proof.rs:149-181 | Claims that fold to one digest have the same shape at the top: both leaves or both junctions with the same depth and children, unless hashes collide. |
| RsmstConservation.NoOverIssuance | src/rsmst/proof.rs:149-181 | For any root and any finite family of accepted claims with different keys: all prove the same sum, and the amounts total at most that sum, or a collision among the hashed byte strings is exhibited. |
| RsmstConservation.AllocationUnique | src/rsmst/proof.rs:149-181 | For any root, one key has one amount, one data digest and one proof, unless hashes collide. |
| RsmstBuild.Rsmst.Insert | src/rsmst/build.rs:73-83 | A leaf is appended exactly when its amount is in range and its key is new; otherwise nothing changes and the error says which rule failed. |
| RsmstBuild.BuildSubtree | src/rsmst/build.rs:107-154 | The depth loop and the two filled vectors compute the recursively defined canonical tree, or fail for the reason the recursion meets first: a duplicate key or an overflow. |
| RsmstBuild.OnlyOverflowFails | src/rsmst/build.rs:96-154 | Over leaves that insertion admitted, building can fail only by overflow. |
| RsmstBuild.OrderIndependent | src/rsmst/build.rs:107-154 | Permuted leaves build the same tree, node by node, or fail together. |
| RsmstBuild.BuiltExactly | src/rsmst/build.rs:96-154 | Building succeeds exactly when the total is below 2^256; the root sum is the total and the tree holds exactly the inserted leaves. |
| RsmstBuild.Proof | src/rsmst/build.rs:183-211 | The descent loop, which collects siblings root first and reverses them, returns the recursively defined proof. |
| RsmstBuild.ProofExactlyForMembers | src/rsmst/build.rs:183-211 | A proof exists exactly for the inserted keys. |
| RsmstBuild.ProofVerifies | src/rsmst/build.rs:183-211 | An extracted proof is accepted by the verifier against the root hash and proves the total of all leaves. |
| CborHead.ReadEncoded | src/cbor/decode.rs:64-98 | Head decoding inverts head encoding, whatever follows. |
| CborHead.EncodeRead | src/cbor/encode.rs:10-26 | Every accepted head re-encodes to the same bytes: there is one encoding per value. |
| CborHead.HeadInjective | src/cbor/encode.rs:10-26 | Equal encodings have equal major type, argument and remainder. |
| CborScan.ItemLenWithBudget | src/cbor/decode.rs:121-202 | The scanner with its mutable budget and position computes the recursive measure, errors included. |
| CborScan.ItemRelocates | src/cbor/decode.rs:121-202 | The measure of an item depends only on its own bytes: it is the same in front of anything, under any limits, depth and budget at least as generous, and spends the same. |
| CborScan.PrefixFree | src/cbor/decode.rs:121-202 | No well-formed item is a proper prefix of another. |
| CborTrees.ScansExactly | src/cbor/decode.rs:121-202 | The scanner accepts the encoding of a tree of items exactly when nesting, collection sizes and number of items, measured on the tree, are within the limits; it spends one unit per item. |
| CborTrees.FinishExactly | src/cbor/decode.rs:228-233 | A complete input is accepted exactly when it is the encoding of some tree no longer, no deeper, with no larger collection and no more items than the limits say. |
| CborTrees.OneTree | src/cbor/encode.rs:10-73 | No two trees of items have one encoding. |
| CborScan.ArrayInjective | src/cbor/encode.rs:57-65 | Equal encoded arrays of items have equal items. |
| CborDecode.Array | src/cbor/decode.rs:331-361 | The loop returns the children defined by repeated measuring, with the code's errors. |
| CborDecode.ArrayExpects | src/cbor/decode.rs:331-361 | With an expected length, exactly the arrays of that length are accepted, and any other one is refused for its length. |
| CborDecode.Map | src/cbor/decode.rs:393-432 | The loop returns the entries, refusing keys out of canonical order. |
| CborDecode.ArrayInherits | src/cbor/decode.rs:331-361 | Once `finish` accepts an array, splitting cannot fail, the children tile the body exactly, and each child passes `finish` itself. |
| CborDecode.TagInherits | src/cbor/decode.rs:364-377 | The same for the content of a tag. |
| CborDecode.MapInherits | src/cbor/decode.rs:393-432 | Once `finish` accepts a map, splitting succeeds exactly when its keys ascend; keys and values tile the body and each passes `finish`. |
| CborDecode.DescentFinishes | src/cbor/decode.rs:228-233 | Every descendant reached by any chain of `array`, `tag` and `map` steps passes `finish`. |
| CborDecode.ArrayRoundTrip | src/cbor/encode.rs:57-65 | An encoded array within the limits is split into exactly the encoded items. |
| CborDecode.TagRoundTrip | src/cbor/encode.rs:68-73 | An encoded tag within the limits is read back with its number and content. |
| CborMap.EncodeMapBytes | src/cbor/encode.rs:101-145 | Over the stably sorted entries, the counting pass and the skipping pass write the head and the bytes of the canonical map. |
| CborMap.CanonicalMeaning | src/cbor/encode.rs:101-145 | The written entries have strictly ascending keys and are the last-writer-wins map of the input. |
| CborMap.MapRoundTrip | src/cbor/decode.rs:393-432 | The decoder accepts every encoded map within the limits and returns exactly its canonical entries. |
| CborMap.EncodeMapInjective | src/cbor/encode.rs:101-145 | Equal encodings mean equal maps. |
| CborMap.EncodeMapOfMeaning | src/cbor/encode.rs:101-145 | Entry lists that mean one map have one encoding, whatever their order and their overwritten entries. |
| CborMap.DecodedMapDistinct | src/cbor/decode.rs:393-432 | Whatever the decoder accepts as a map has every key once. |
| Bft.ShardTreeRootHash | src/api/bft/unicity_certificate.rs:110-144 | The loop over the siblings folds the leaf along the shard's bits, innermost sibling first; a wrong number of siblings is refused. |
| Quorum.QuorumMet | src/verify/seal.rs:328-364 | The early-exit loop succeeds exactly when at least `threshold` validators of a usable authority have an entry under their own id that is valid under their own key. |
| Quorum.QuorumOfSigners | src/api/bft/root_trust_base.rs:158-162 | Counting different valid keys found by lookup is counting validators of the trust base. |
| Quorum.QuorumNeedsSigner | src/verify/seal.rs:328-364 | Nothing is accepted without a valid signature of a validator. |
| Certificates.AuthorityUsable | src/api/bft/root_trust_base.rs:99-150 | A usable authority can reach its threshold but not without signatures, and its validators have distinct ids and keys and positive stakes. |
| Quorum.VerdictOfEntries | src/verify/seal.rs:328-364 | The verdict depends only on the set of entries: not on order, repetition or entries that count for nothing. |
| Certificates.OrdinaryMeans | src/verify/mod.rs:358-402 | The ordinary verdict is acceptance exactly when partition, record, seal, commitment and signatures obey each rule, spelled out field by field. |
| Certificates.StrictMeans | src/verify/mod.rs:544-598 | The strict verdict adds unit stakes, epoch, first round and the caller's context, and nothing else. |
| Certificates.OrdinaryRefused | src/verify/mod.rs:358-402 | Every ordinary refusal names a rule that is broken. |
| Certificates.StrictRefused | src/verify/mod.rs:544-598 | Every strict refusal names a rule that is broken. |
| CertificateBinding.RecordInjective | src/api/bft/input_record.rs:83-102 | The encoding of an input record determines the record. |
| CertificateBinding.SealBinds | src/api/bft/unicity_certificate.rs:110-144 | The hash in a seal binds the rest of the certificate: two certificates of one partition with one seal hash, whose shards can hold one key, are of one shard and equal up to their seals, unless hashed byte strings collide. |
| CertificateBinding.SignedSeal | src/api/bft/unicity_seal.rs:71-106 | What validators sign determines everything in the seal but its signatures, unless the two byte strings collide. |
| UnicityTree.StepsFold | src/api/bft/unicity_tree.rs:73-101 | For every search tree of partitions, the path of a partition leads from its shard tree root to the root hash defined on the tree itself. |
| UnicityTree.EveryShardCertified | src/api/bft/unicity_certificate.rs:110-144 | For every shard of every partition there is a certificate that computes the root of the whole tree. |
| SealEncoding.AgreeExactly | src/verify/seal.rs:328-364 | Seals with one content hash get one quorum verdict from every authority if and only if they have the same entries. |
| SealEncoding.ConsistentSameEntries | src/verify/seal.rs:188-200 | Seals with one encoding, neither giving an id two different signatures, have the same entries. |
| SealEncoding.RereadExactly | src/verify/seal.rs:188-200 | Every authority judges a seal as it judges what the encoding is read back as, if and only if no id carries two different signatures. |
| SealEncoding.DecodedNamesOnce | src/api/bft/unicity_seal.rs:42-68 | The signatures of a decoded seal name every validator once. |
| FifoIndex.FifoIndex.Contains | src/fifo_index.rs:74-90 | Looks up exactly the entries of the bounded queue, changes none of them, and examines at most `capacity` slots. |
| FifoIndex.FifoIndex.Insert | src/fifo_index.rs:94-117 | Appends to the queue and evicts the oldest entry exactly when the capacity is reached; capacity 0 keeps nothing. |
| FifoIndex.RunAll | src/fifo_index.rs:43-117 | Over every operation sequence and for any hash values, the bucketed index answers like the linear bounded queue, holds at most `capacity` entries, and examines at most `capacity` slots per operation. |
| SealMemory.WithoutCapacity | src/verify/seal.rs:216-234 | A memory of capacity 0 gives the reference verdicts on every run, with any seals. |
| SealMemory.UnambiguousExactly | src/verify/seal.rs:188-200 | Seals presented together with what their encodings are read back as are unambiguous if and only if none gives an id two different signatures. |
| SealMemory.RunTruthful | src/verify/seal.rs:125-144 | From any truthful memory, every run of quorum, ordinary and strict checks over unambiguous seals gives the reference verdicts. |
| SealMemory.TransparentExactly | src/verify/seal.rs:188-234 | With memo keys that do not collide and capacity for anything at all: over all authorities and all runs the memos change no verdict, if and only if seals with one encoding have the same entries. |
| SealMemory.RepeatedIdsMislead | src/verify/seal.rs:188-234 | The failing run: a seal with a good and a bad signature of one id, then the one with the bad signature alone; memory accepts both, the reference rejects the second. |
| SealSession.SealSession.RecallQuorum | src/verify/seal.rs:216-234 | For every seal, verdict and new memory are those of the memory semantics: a remembered key is accepted, otherwise the quorum is counted and only a success is remembered. |
| SealSession.SealSession.RecallAuthenticSeal | src/verify/seal.rs:245-270 | The same for the strict seal check: authority, shape, network, epoch, start round, quorum, in this order. |
| SealSession.SealSession.RecallOrdinaryCheck | src/verify/mod.rs:358-402 | The same for the ordinary check of a certificate, with the memo of whole certificates. |
| SealSession.SealSession.RecallStrictCheck | src/verify/mod.rs:544-598 | The same for the strict check under a caller's context. |
| SealSession.SealSession.AuthenticateSeal | src/verify/seal.rs:245-270 | Over unambiguous seals, the strict seal verdict, whatever the session remembers. |
| SealSession.SealSession.VerifyOrdinary | src/verify/mod.rs:358-402 | Over unambiguous seals, the ordinary verdict of the certificate, whatever the session remembers. |
| SealSession.SealSession.VerifyStrict | src/verify/mod.rs:544-598 | Over unambiguous seals, the strict verdict under the caller's context, whatever the session remembers. |
| QuorumOnce.OncePerSeal | src/verify/seal.rs:206-234 | In a run of accepted quorum, ordinary and strict checks in any order, with room for all its seals, signatures are counted exactly once for every different seal key. |
| SealSession.RunChecks | src/verify/seal.rs:125-144 | On every run of checks, with any seals and any capacity, the session object answers as the memory semantics, of which transparency is decided exactly, and reports how often it counted signatures: once per seal if all is accepted and there is room. |
| SealSession.MisledSession | src/verify/seal.rs:188-234 | The failing run on a session object: it accepts both seals, though the second has no quorum. |
| Tokens.MintInjective | src/transaction/mint.rs:154-166 | The encoding of a mint determines the mint. |
| Tokens.TransferInjective | src/transaction/transfer.rs:123-132 | The encoding of a transfer, with the state it spends, determines the transfer. |
| Tokens.LeafValueInjective | src/api/leaf_value.rs:15-20 | The leaf value's preimage determines transaction hash and reference time. |
| Tokens.Rebuild | src/transaction/token.rs:98-133 | Whatever is on the wire, the rebuilt chain is linked: each transfer spends the state and lock produced by its predecessor, and nothing else of the wire data changes. |
| StateChain.OneOwner | src/transaction/transfer.rs:116-121 | A state belongs to one token and one place: two chains that reach one state have one salt, network, length and list of masks, unless byte strings hashed on the way collide. No token passes a state twice. |
| StateChain.OneKeyOneStep | src/api/state_id.rs:20-28 | Steps of any tokens with one state id are the same step, with the same lock and past, unless hashes collide. |
| Ownership.CertifiedMeans | src/verify/mod.rs:211-237 | A step is accepted exactly when its certification data repeat it and it is signed by its lock's key over its own state and bytes, in time, and stands under its key in the tree of an accepted certificate of the key's shard. |
| Ownership.OwnersSign | src/verify/mod.rs:140-237 | In an accepted, linked token the mint is signed by the minter key of the id and every transfer by the owner named in the step before it. |
| Ownership.StepRefused | src/verify/mod.rs:211-356 | Every refusal of a step names a rule that is broken. |
| Ownership.HistoryRefused | src/verify/mod.rs:140-237 | A refused history names the limit, the mint, or the first transfer that is not certified, with its index. |
| TokenVerifier.VerifyMembership | src/verify/mod.rs:300-356 | The verdict, with its reason: state, deadline, root, reference time, path, shard prefix and certificate, in the order of the code. |
| TokenVerifier.MembershipIs | src/verify/mod.rs:300-356 | Acceptance by those steps is exactly the conjunction of the rules. |
| TokenVerifier.VerifyHistory | src/verify/mod.rs:140-237 | One memoizing session threaded through genesis and all transfers gives the verdict of the history, with the index of the first failing transfer and its reason; it accepts exactly the histories certified link by link, within the transfer limit. |
| History.OneRootSpendsOnce | src/verify/mod.rs:300-346 | Accepted proofs against one root never certify one state as spent by two transactions or at two reference times, unless hashes collide. |
| History.OneTransactionPerState | src/verify/mod.rs:211-237 | Where no state is certified as spent in two ways, a state has one transaction, byte for byte. |
| History.OneHistoryAcrossRounds | src/verify/mod.rs:140-237 | Across any roots: if no state was certified as spent in two ways, the shorter of two accepted linked histories with one token id is a prefix of the longer one, reference times included, or a collision is exhibited. |
| History.OneHistory | src/verify/mod.rs:140-237 | The same under one root, where nothing is asked of the service: two accepted linked tokens with one id, all outer proofs against one root, do not diverge, or a collision is exhibited. |
| SealHistory.OneRootPerShard | src/verify/mod.rs:358-402 | Accepted certificates of one shard under one seal hash name one state root and are equal up to their seals, unless hashes collide. |
| SealHistory.OneSpendPerSeal | src/verify/mod.rs:300-356 | Accepted proofs of one state under one seal, whatever shards they name, have one certificate up to seals and certify one transaction, unless hashes collide. |
| SealHistory.OneHistoryPerSeal | src/verify/mod.rs:140-237 | Two accepted linked tokens with one id, all outer proofs under one seal, do not diverge, unless hashes collide: nothing is asked of the services. |
| Payment.ManifestRoundTrip | src/payment/manifest.rs:57-96 | A manifest within the decode limits is read back exactly. |
| Payment.ManifestCanonical | src/payment/manifest.rs:57-96 | Whatever is read as a manifest is the encoding of what it is read as, so that the burn is locked to the hash of the very bytes it carries. |
| Payment.CommitmentInjective | src/payment/commitment.rs:33-57 | The preimage of an output commitment determines source, network, recipient, salt, output id, type and payload. |
| Payment.VerifySplit | src/payment/verifier.rs:162-275 | The verifier's steps apart from the burned token's own verification: accepts exactly when payload, network, manifest, burn predicate, type, counts and every allocation proof with its root sum are right. |
| Payment.SplitKeepsKind | src/payment/verifier.rs:203-230 | An accepted output has the type and network of its source, the source ends in a burn, and all payloads are within the size limit. |
| Split.TreeOfAllocation | src/payment/split.rs:318-343 | The requests share out an amount exactly when the asset's tree is built and has that root sum. |
| Split.BuildSplit | src/payment/split.rs:270-395 | Succeeds exactly when the requests are valid and their totals equal the source amounts; the burn spends the latest state, is locked to the manifest hash and carries the manifest; each output repeats its request with the extracted proofs, of which none is ever missing. A refusal names a rule that is broken. |
| Split.SplitMeetsVerifier | src/payment/verifier.rs:203-272 | Every output of a successful split, minted with its returned fields and bytes within the decode limits, passes the split verifier against the certified burn. |
| SplitOutputs.WithinBurned | src/payment/verifier.rs:253-272 | All accepted outputs citing one manifest, with different ids, together hold at most the burned amount of every asset, or byte strings hashed for their proofs collide. Nothing is asked of the service. |
| SplitOutputs.OutputBound | src/payment/commitment.rs:33-57 | An allocation authorizes one mint: two accepted outputs of one manifest with one id that share an asset agree in network, recipient, salt, type, payload and proof, unless hashes collide. |
| Genealogy.BurnIsFinal | src/verify/mod.rs:600-620 | No certified transfer spends a burned state. |
| Genealogy.OneBurn | src/payment/verifier.rs:203-224 | A token id is burned for one manifest only, and the burn ends its history. |
| Genealogy.OneKind | src/payment/verifier.rs:162-230 | An accepted token and every source on the way back to the issued one are accepted, data included, of one type and on the authority's network, and every source ends in a burn. |
| Genealogy.ProvenanceOfMint | src/payment/verifier.rs:162-202 | The mint fixes the provenance of an accepted token: its justification names source and proofs, and so on back to the issued token. |
| Genealogy.LineageOfId | src/payment/verifier.rs:162-202 | Accepted tokens with one id have one lineage. |
| Genealogy.ApartById | src/payment/verifier.rs:162-202 | Neither token is an ancestor of the other exactly when neither id occurs in the lineage of the other. |
| Genealogy.OneGeneration | src/payment/verifier.rs:253-272 | All accepted outputs of all splits of one token id, with different ids, together hold at most the source's amount of every asset. |
| Genealogy.NothingCreated | src/payment/verifier.rs:162-275 | Accepted tokens that descend from one issued token id through any splits of splits, none being another's ancestor, together hold at most the issued amount of every asset, provided no state was certified as spent in two ways, or a collision is exhibited. |
| Genealogy.NothingCreatedUnderRoot | src/payment/verifier.rs:162-275 | Under one state-tree root, any root, the same without the proviso. |
| SealHistory.NothingCreatedUnderSeal | src/payment/verifier.rs:162-275 | Conservation under one seal, across all its shards, with nothing asked of the services. |
| GenealogyVerifier.VerifyToken | src/verify/mod.rs:140-209 | Complete verification in the order of the code, reading the justification and verifying the burned token in the same session: accepts exactly the tokens that have a provenance accepted from end to end within the limits on transfers, nesting and embedded bytes. |
| GenealogyVerifier.VerifyJustification | src/verify/context.rs:139-165 | Accepts exactly when the burned token is accepted one level deeper, within the limits, and the split is right. |
| GenealogyVerifier.SplitOutputPasses | src/payment/verifier.rs:162-275 | An output of a successful split, minted with a justification that is read back as its burn and proofs, is an accepted token once its mint is certified. |
| ShardCodec.DecodeBytes | src/api/bft/shard_id.rs:160-180 | The shifting loop finds the end marker and returns the bits before it. |
| ShardCodec.DecodeEncode | src/api/bft/shard_id.rs:183-195 | Every identifier is read back from its encoding. |
| ShardCodec.EncodeDecode | src/api/bft/shard_id.rs:160-195 | Every accepted byte string is the encoding of what it was read as. |
| ShardOrder.CanonicalCmp | src/api/bft/shard_id.rs:87-98 | The bitwise loop decides the lexicographic order in which a proper prefix comes first. |
| ShardOrder.BeforeTransitive | src/api/bft/shard_id.rs:87-98 | Canonical order is transitive. |
| ShardPass.CollapsesExactly | src/consolidation/shard_tree.rs:56-130 | Pushing leaves and merging siblings ends in one root subtree exactly on the left-to-right leaves of that full binary tree. |
| ShardScheme.TilesExactly | src/consolidation/topology.rs:140-155 | A leaf list is that of a full binary tree exactly when its ids are sorted, prefix-free and complete. |
| ShardTree.BuildCounted | src/consolidation/shard_tree.rs:56-130 | The arena pass accepts exactly the leaves of a full binary tree, with one inner hash fewer than leaves; unsorted input, and only that, is reported as such; the arena stores that tree. |
| ShardTree.Certificate | src/consolidation/shard_tree.rs:142-169 | A certificate exists exactly for the shards of the tree, and is the list of sibling hashes on the way up. |
| ShardTree.CertificateFolds | src/api/bft/unicity_certificate.rs:110-144 | Folding any leaf with its certificate by the certificate-side rule gives the root hash of the tree. |
| Topology.NeighboursSuffice | src/consolidation/topology.rs:121-130 | In sorted order, an overlap anywhere shows between neighbours. |
| Topology.Covers | src/consolidation/topology.rs:140-155 | The descent succeeds exactly when every 256-bit key below the prefix has an id of the list as prefix. |
| Topology.CanonicalOrder | src/consolidation/topology.rs:89-136 | Besides the empty scheme, accepts exactly the complete prefix-free schemes of at least two non-empty ids within the limits, and returns them sorted. |
| Topology.RouteIndex | src/consolidation/plan.rs:59-72 | For every accepted scheme and key the binary search lands on the one shard that prefixes the key; its default is never used. |
| Assemble.ValidateStructure | src/consolidation/assemble.rs:36-61 | Accepts exactly the views within the bounds, of the aggregation partition, whose leaves are the scheme in canonical order with matching pinned configurations; a refusal names a rule that is broken. |
| Assemble.VerifyTree | src/consolidation/assemble.rs:85-131 | Accepts exactly when the rebuilt tree commits to the enclosing seal and the enclosing certificate agrees with its own leaf and path; a refusal names a rule that is broken. |
| Assemble.Authenticate | src/consolidation/assemble.rs:185-237 | Authenticates exactly the views that pass structure, commitment and the strict seal verdict; a refusal names a rule that is broken or gives the reason of the seal verdict. |
| Assemble.DerivedAccepted | src/consolidation/assemble.rs:342-359 | Every certificate derived from an authenticated view gets the ordinary verdict, and the strict one, under the same authority. |
| Assemble.EnclosingIsDerived | src/consolidation/assemble.rs:342-359 | The certificate derived for the enclosing certificate's shard is the enclosing certificate. |
| Assemble.CertificateOf | src/consolidation/assemble.rs:334-340 | Found exactly for the shards of the view; the result is accepted. |
| ViewBinding.EveryKeyOneLeaf | src/consolidation/assemble.rs:36-61 | In a view that passes the structure check every 256-bit key lies in the shard of exactly one leaf, and the shards and configurations are the pinned ones. |
| ViewBinding.ViewBounds | src/consolidation/assemble.rs:36-61 | Such a view is of the aggregation partition, has at most 8 leaves, and every record and hash is within its size. |
| ViewBinding.OneViewPerSeal | src/consolidation/assemble.rs:185-237 | A seal admits one view: two authenticated views under one seal hash have the same leaves and partition path, unless hashes collide. |
| Admission.GroupItems | src/client/consolidate/mod.rs:439-508 | Succeeds exactly when every input is admitted and no checkpoint stops it; the groups are then the distinct states of each shard, in order. A refusal names what is wrong. |
| Admission.AdmittedMeans | src/client/consolidate/mod.rs:439-508 | Repeated states of admitted inputs have equal certification data and reference time, every state is served, and the caps on distinct states hold for all endpoints together and for each shard. |
| Admission.EveryStateGrouped | src/client/consolidate/mod.rs:439-508 | Every input's first occurrence is in exactly one group, at one place: that of the shard that prefixes its state id. |
| Consolidate.NewestRound | src/consolidation/plan.rs:156-175 | The newest round of the inputs, and the shard of the first input that has it. |
| Replacement.Place | src/client/consolidate/mod.rs:784-822 | Succeeds exactly when every served proof is bound to its original and proves its state under the target certificate; the replaced proofs keep certification data and reference time. |
| Replacement.HonestBatchMoves | src/client/consolidate/mod.rs:784-822 | What a service returns for proven states of its shard, namely the original certification and reference time with a path from the certified leaf to the state root, in a round not before that time, passes those checks under any accepted certificate of the shard. |
| Replacement.StoreIsHonest | src/client/consolidate/mod.rs:784-822 | A service that keeps the certified leaves in a radix tree and hands out their paths is honest in this sense. |
| Services.FetchAll | src/client/consolidate/mod.rs:850-866 | One result per job, each the service's answer or a failure; after a failure every later job is cancelled and sends no request. |
| Services.CheckBatch | src/client/consolidate/mod.rs:573-620 | Accepts exactly the batches with one proof per state, bound to certification data and reference time, all under one certificate and, if a root was requested, for that root; a refusal names what is wrong. |
| Services.FirstStop | src/client/consolidate/mod.rs:871-898 | Reports the first failure that is not a cancellation, and a cancellation, the first one, only if all failures are. |
| Services.OriginReported | src/client/consolidate/mod.rs:871-898 | Of an aborted wave, what is reported is the failure that aborted it. |
| Consolidate.LookupsSucceed | src/client/consolidate/mod.rs:906-914 | Once every group is placed, the final lookup of every input succeeds and serves the same state and certification. |
| Consolidate.HonestGroupMoves | src/client/consolidate/mod.rs:784-822 | Under an authenticated view, the honestly served proofs of a shard whose root the view names can all be moved: their derived certificate is accepted. |
| Consolidate.RunDirect | src/client/consolidate/mod.rs:929-1008 | The unsharded case: a success is moved under the batch's own authenticated certificate for one request. |
| Consolidate.OneDecides | src/client/consolidate/mod.rs:723-727 | One shard decides the target: the configured master, or else the one that the first input of the newest round routes to. |
| Consolidate.RunAdmitted | src/client/consolidate/mod.rs:687-782 | Acceptable inputs under one seal are returned as they are; a configured master that serves none of the inputs stops the attempt with a configuration error; otherwise the target seal is the one the deciding service serves. |
| Consolidate.Run | src/client/consolidate/mod.rs:623-924 | Whatever the services answer: on success every proof, in input order and with certification untouched, proves its state under one accepted seal, the one that the deciding service's latest batch carries, no older than any input unless the inputs already shared it; every other service was asked once, for exactly the root the view names; all evidence was proven and in context, and no checkpoint had expired, the last one included. A stop names a real reason. With proven inputs, it succeeds if the deciding service serves an authentic view and all services serve the certified leaves of the roots it names. |
| Consolidate.OneGroupPerShard | src/client/consolidate/mod.rs:439-508 | The number of groups, hence of requests, is the number of different shards the inputs route to. |
| ConsolidatedToken.RebuiltAccepted | src/consolidation/plan.rs:219-238 | A token rebuilt with replaced proofs stays linked and passes history verification. |
| ConsolidatedToken.ConsolidateToken | src/client/consolidate/mod.rs:345-405 | A consolidated token has the same transactions, is accepted by history and registry, and has all outer proofs under one seal. The second verification can fail only if the registry, having accepted the genesis with its old proof, refuses it with the new one; never if it judges the mint alone. With honest services, nothing else can go wrong. |
| Wave.StepInv | src/client/consolidate/run.rs:110-136 | Every step of every worker keeps: claimed indexes are held by one worker or finished with their own result. |
| Wave.EveryJobOnce | src/client/consolidate/run.rs:110-136 | Under every interleaving no job runs twice; when all workers have stopped, every job ran exactly once and result `i` is that of job `i`. |
| Wave.RunLength | src/client/consolidate/run.rs:110-136 | No interleaving has more than three steps per job and one per worker, so every run ends. |
| CivilDate.DayNumberCounts | src/client/http.rs:831-840 | For every valid date from 1970 to 9999 no checked step fails and the closed form is the number of days counted one by one. |
| CivilDate.SecondsExact | src/client/http.rs:816-844 | Seconds are returned exactly for valid dates and clock readings, and are what the calendar says. |

## Left out

- Network transport, JSON, polling, long polling and the remaining parts of the HTTP client: services are arbitrary functions here.
- secp256k1, SHA-256 internals and key generation: uninterpreted. That a lock's public key parses is part of the uninterpreted unlock predicate.
- The wire codecs of certificates, proofs, tokens and justifications beyond the encoders used in hashes and the signature map of a seal: they would add members of one kind. How justification bytes are read is a function of the setting, so that one justification has one reading.
- Mint justification registry and issuance policies: callers' code, given as predicates on the certified mint.
- The interner of unicity certificates: it adds nothing beyond `FifoIndex`. Of the session statistics only the number of quorum counts is specified.
- Overflow of counters, node indexes and sequence numbers: they are natural numbers. `usize` is taken as 64 bits, and byte vectors as shorter than 2^62.
- Library sorting and searching: modelled by a stable insertion sort and by bisection; the number of comparisons is not counted.
- Digests naming policies, views and authorities: kept abstract, with the assumption that different policies have different digests.
- A custom executor returning a wrong number of results: the second wave is one result per job, as proved of the threaded executor. Jobs run one after another in `Services.FetchAll`; how an abort interleaves with jobs already running is not modelled.
- CborMap.EncodeMapBytes: that the caller's slice is left sorted is not modelled; the sort is the specification's.
- CborDecode.Map: key order is the decoder's bytewise order; UTF-8 validity of text is not modelled here.
- SealEncoding.DecodedNamesOnce: UTF-8 validity is a parameter; the other fields of a seal are not decoded.
- SealMemory.TransparentExactly: asks that the memo keys of the seals presented do not collide; with collisions any memo keyed by a digest can mislead.
- RadixTree.PathFolds: the trees are those in which every junction stands where the keys below it first differ; how services build them is not modelled.
- TokenVerifier.VerifyHistory: the registry's data and justification verifiers are not part of it; GenealogyVerifier.VerifyToken joins them.
- Assemble.Authenticate: the digests that identify policy and view are not computed. Of several broken rules it names one, not necessarily the one a different order of checks would.
- Genealogy.NothingCreated: that the service certifies no state as spent in two ways across rounds is a hypothesis; how its trees grow is not modelled. Under one root or one seal, and for one manifest, nothing of the kind is assumed.
- GenealogyVerifier.VerifyToken: acceptance is modelled exactly; the error values of the split verifier and of the registry are not.
- GenealogyVerifier.VerifyJustification: the burned token is verified before payload and network are compared, which changes the reported reason only.
- Payment.VerifySplit: the burned token's own verification is not part of it; GenealogyVerifier.VerifyJustification joins them.
- Split.SplitMeetsVerifier: burned token and proofs are given, not read from a justification; GenealogyVerifier.SplitOutputPasses reads them.
- Consolidate.Run: which of several broken checks of an answer is reported (integrity, response, availability) is not specified; a stop for the inputs, their evidence, the configuration or the deadline is. It requires that the seals of a run are unambiguous, as decoding guarantees, and do not collide as memo keys.
- ConsolidatedToken.RebuiltAccepted: about the history only; the registry's part is in ConsolidatedToken.ConsolidateToken.
