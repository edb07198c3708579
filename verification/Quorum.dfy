/** The trust base and the early-exit count of distinct, valid validator signatures. */
module Quorum {
  import opened Hashing
  import opened CborHead
  import opened Bft

  type PublicKey = Data

  /** Decoding of a signature and its verification over a digest under a key. */
  type Verifier = (Digest, PublicKey, Data) -> bool

  datatype NodeInfo = NodeInfo(node: Data, key: PublicKey, stake: U64)

  datatype TrustBase = TrustBase(
    version: U64, networkId: U16, epoch: U64, epochStartRound: U64, nodes: seq<NodeInfo>, threshold: U64)

  const MAX_ROOT_NODES: nat := 4096
  const MAX_NODE_ID_BYTES: nat := 256

  /** What an authority must satisfy before it may judge anything. */
  predicate ValidTrustBase(tb: TrustBase) {
    && (tb.version == 0 || tb.version == 1)
    && 1 <= |tb.nodes| <= MAX_ROOT_NODES
    && 1 <= tb.threshold <= |tb.nodes|
    && (forall n :: n in tb.nodes ==> 1 <= |n.node| <= MAX_NODE_ID_BYTES && n.stake != 0)
    && (forall i, j :: 0 <= i < j < |tb.nodes| ==>
          tb.nodes[i].node != tb.nodes[j].node && tb.nodes[i].key != tb.nodes[j].key)
  }

  /** The key of the first validator with this id. */
  function SigningKey(nodes: seq<NodeInfo>, node: Data): (r: Option<PublicKey>) {
    if nodes == [] then None
    else if nodes[0].node == node then Some(nodes[0].key)
    else SigningKey(nodes[1..], node)
  }

  /** The key a signature entry counts for, if it counts at all. */
  function CountsFor(V: Verifier, tb: TrustBase, digest: Digest, s: Signature): (r: Option<PublicKey>) {
    match SigningKey(tb.nodes, s.node)
    case None => None
    case Some(key) => if V(digest, key, s.signature) then Some(key) else None
  }

  /** The validator keys having at least one valid entry. */
  function ValidKeys(V: Verifier, tb: TrustBase, digest: Digest, signatures: seq<Signature>): (keys: set<PublicKey>) {
    if signatures == [] then {}
    else
      ValidKeys(V, tb, digest, signatures[..|signatures| - 1]) +
      match CountsFor(V, tb, digest, signatures[|signatures| - 1]) case None => {} case Some(key) => {key}
  }

  lemma {:induction false} ValidKeyHasEntry(V: Verifier, tb: TrustBase, digest: Digest, signatures: seq<Signature>,
                                            key: PublicKey)
    ensures key in ValidKeys(V, tb, digest, signatures)
       <==> exists s :: s in signatures && CountsFor(V, tb, digest, s) == Some(key)
  {
    hide CountsFor;
    if signatures != [] {
      var init, last := signatures[..|signatures| - 1], signatures[|signatures| - 1];
      assert signatures == init + [last];
      ValidKeyHasEntry(V, tb, digest, init, key);
    }
  }

  // ---- the quorum, counted by validators ----

  /** The validator has an entry of its own that is valid under its own key. */
  ghost predicate Signed(V: Verifier, digest: Digest, n: NodeInfo, signatures: seq<Signature>) {
    exists s :: s in signatures && s.node == n.node && V(digest, n.key, s.signature)
  }

  ghost function Signers(V: Verifier, tb: TrustBase, digest: Digest, signatures: seq<Signature>): (r: set<NodeInfo>) {
    set n | n in tb.nodes && Signed(V, digest, n, signatures)
  }

  /** Where ids are distinct, the key found for an id is that of the one validator with this id. */
  lemma {:induction false} KeyOfNode(nodes: seq<NodeInfo>, node: Data, key: PublicKey)
    requires forall i, j :: 0 <= i < j < |nodes| ==> nodes[i].node != nodes[j].node
    ensures SigningKey(nodes, node) == Some(key) <==> exists n :: n in nodes && n.node == node && n.key == key
  {
    if nodes != [] {
      KeyOfNode(nodes[1..], node, key);
      assert forall n :: n in nodes <==> n == nodes[0] || n in nodes[1..];
      if nodes[0].node == node {
        forall n | n in nodes[1..] ensures n.node != node {
          var i :| 0 <= i < |nodes| - 1 && nodes[1..][i] == n;
          assert nodes[i + 1] == n;
        }
      }
    }
  }

  /** The valid keys are the keys of the signers. */
  lemma KeyOfSigner(V: Verifier, tb: TrustBase, digest: Digest, signatures: seq<Signature>, key: PublicKey)
    requires ValidTrustBase(tb)
    ensures key in ValidKeys(V, tb, digest, signatures)
       <==> exists n :: n in Signers(V, tb, digest, signatures) && n.key == key
  {
    hide SigningKey, ValidKeys;
    ValidKeyHasEntry(V, tb, digest, signatures, key);
    if s :| s in signatures && CountsFor(V, tb, digest, s) == Some(key) {
      KeyOfNode(tb.nodes, s.node, key);
      var n :| n in tb.nodes && n.node == s.node && n.key == key;
      assert Signed(V, digest, n, signatures);
    }
    if n :| n in Signers(V, tb, digest, signatures) && n.key == key {
      var s :| s in signatures && s.node == n.node && V(digest, n.key, s.signature);
      KeyOfNode(tb.nodes, s.node, key);
      assert CountsFor(V, tb, digest, s) == Some(key);
    }
  }

  lemma {:induction false} SameCount(nodes: set<NodeInfo>, keys: set<PublicKey>)
    requires forall m, n :: m in nodes && n in nodes && m != n ==> m.key != n.key
    requires forall key :: key in keys <==> exists n :: n in nodes && n.key == key
    ensures |nodes| == |keys|
    decreases nodes
  {
    if nodes == {} {
      assert keys == {};
    } else {
      var n :| n in nodes;
      assert n.key in keys;
      forall key ensures key in keys - {n.key} <==> exists m :: m in nodes - {n} && m.key == key {
        if m :| m in nodes && m.key == key && key != n.key {
          assert m in nodes - {n};
        }
      }
      SameCount(nodes - {n}, keys - {n.key});
    }
  }

  lemma DistinctKeysOfNodes(tb: TrustBase, m: NodeInfo, n: NodeInfo)
    requires ValidTrustBase(tb) && m in tb.nodes && n in tb.nodes && m != n
    ensures m.key != n.key
  {
    var i :| 0 <= i < |tb.nodes| && tb.nodes[i] == m;
    var j :| 0 <= j < |tb.nodes| && tb.nodes[j] == n;
  }

  /** A usable authority's quorum is reached exactly when at least the threshold number of its validators
      have signed, each under its own id and key. */
  lemma QuorumOfSigners(V: Verifier, tb: TrustBase, digest: Digest, signatures: seq<Signature>)
    requires ValidTrustBase(tb)
    ensures QuorumReached(V, tb, digest, signatures) <==> |Signers(V, tb, digest, signatures)| >= tb.threshold
  {
    hide ValidKeys, Signed;
    var nodes, keys := Signers(V, tb, digest, signatures), ValidKeys(V, tb, digest, signatures);
    forall m, n | m in nodes && n in nodes && m != n ensures m.key != n.key {
      DistinctKeysOfNodes(tb, m, n);
    }
    forall key ensures key in keys <==> exists n :: n in nodes && n.key == key {
      KeyOfSigner(V, tb, digest, signatures, key);
    }
    SameCount(nodes, keys);
  }

  /** No usable authority accepts anything without a valid signature of one of its validators. */
  lemma QuorumNeedsSigner(V: Verifier, tb: TrustBase, digest: Digest, signatures: seq<Signature>)
    requires ValidTrustBase(tb) && QuorumReached(V, tb, digest, signatures)
    ensures exists n :: n in tb.nodes && Signed(V, digest, n, signatures)
  {
    hide Signed;
    QuorumOfSigners(V, tb, digest, signatures);
    var n :| n in Signers(V, tb, digest, signatures);
  }

  ghost predicate QuorumReached(V: Verifier, tb: TrustBase, digest: Digest, signatures: seq<Signature>) {
    tb.threshold == 0 || |ValidKeys(V, tb, digest, signatures)| >= tb.threshold
  }

  ghost predicate SealQuorum(H: Hash, V: Verifier, tb: TrustBase, seal: UnicitySeal) {
    QuorumReached(V, tb, SealHash(H, seal), seal.signatures)
  }

  lemma {:induction false} KeysGrow(V: Verifier, tb: TrustBase, digest: Digest, signatures: seq<Signature>, n: nat)
    requires n <= |signatures|
    ensures |ValidKeys(V, tb, digest, signatures[..n])| <= |ValidKeys(V, tb, digest, signatures)|
  {
    hide CountsFor;
    if n < |signatures| {
      var init := signatures[..|signatures| - 1];
      assert init[..n] == signatures[..n];
      KeysGrow(V, tb, digest, init, n);
      SubsetSize(ValidKeys(V, tb, digest, init), ValidKeys(V, tb, digest, signatures));
    } else {
      assert signatures[..n] == signatures;
    }
  }

  lemma {:induction false} SubsetSize<T>(a: set<T>, b: set<T>)
    requires a <= b
    ensures |a| <= |b|
  {
    if a != {} {
      var x :| x in a;
      SubsetSize(a - {x}, b - {x});
    }
  }

  /** The loop: skip repeated ids, unknown nodes, counted keys and bad signatures; stop at the
      threshold.  It succeeds exactly when enough distinct validator keys signed. */
  method QuorumMet(V: Verifier, tb: TrustBase, digest: Digest, signatures: seq<Signature>) returns (ok: bool)
    ensures ok <==> QuorumReached(V, tb, digest, signatures)
    ensures ValidTrustBase(tb) ==> (ok <==> |Signers(V, tb, digest, signatures)| >= tb.threshold)
  {
    hide ValidTrustBase, Signers;
    if ValidTrustBase(tb) {
      QuorumOfSigners(V, tb, digest, signatures);
    }
    if tb.threshold == 0 {
      return true;
    }
    hide SigningKey, ValidKeys;
    var counted: set<Data> := {};
    var countedKeys: seq<PublicKey> := [];
    NoKeys(V, tb, digest);
    for i := 0 to |signatures|
      invariant forall key :: key in countedKeys <==> key in ValidKeys(V, tb, digest, signatures[..i])
      invariant |counted| == |ValidKeys(V, tb, digest, signatures[..i])| < tb.threshold
      invariant forall id :: id in counted ==>
                  SigningKey(tb.nodes, id).Some? && SigningKey(tb.nodes, id).value in countedKeys
    {
      var s := signatures[i];
      NextKey(V, tb, digest, signatures, i);
      ghost var before := ValidKeys(V, tb, digest, signatures[..i]);
      if s.node in counted {
        assert ValidKeys(V, tb, digest, signatures[..i + 1]) == before;
        continue;
      }
      var key := SigningKey(tb.nodes, s.node);
      if key.None? || key.value in countedKeys {
        assert ValidKeys(V, tb, digest, signatures[..i + 1]) == before;
        continue;
      }
      if V(digest, key.value, s.signature) {
        counted := counted + {s.node};
        countedKeys := countedKeys + [key.value];
        assert ValidKeys(V, tb, digest, signatures[..i + 1]) == before + {key.value};
        if |counted| >= tb.threshold {
          KeysGrow(V, tb, digest, signatures, i + 1);
          return true;
        }
      }
    }
    assert signatures[..|signatures|] == signatures;
    return false;
  }

  lemma NoKeys(V: Verifier, tb: TrustBase, digest: Digest)
    ensures ValidKeys(V, tb, digest, []) == {}
  {
  }

  lemma NextKey(V: Verifier, tb: TrustBase, digest: Digest, signatures: seq<Signature>, i: nat)
    requires i < |signatures|
    ensures ValidKeys(V, tb, digest, signatures[..i + 1])
         == ValidKeys(V, tb, digest, signatures[..i])
            + match CountsFor(V, tb, digest, signatures[i]) case None => {} case Some(key) => {key}
  {
    assert signatures[..i + 1][..i] == signatures[..i];
  }

  /** The verdict depends on the set of entries only: order, repetition and entries that count for
      nothing do not matter. */
  lemma VerdictOfEntries(V: Verifier, tb: TrustBase, digest: Digest, a: seq<Signature>, b: seq<Signature>)
    requires forall s :: CountsFor(V, tb, digest, s).Some? ==> (s in a <==> s in b)
    ensures QuorumReached(V, tb, digest, a) <==> QuorumReached(V, tb, digest, b)
  {
    hide CountsFor, ValidKeys;
    forall key ensures key in ValidKeys(V, tb, digest, a) <==> key in ValidKeys(V, tb, digest, b) {
      ValidKeyHasEntry(V, tb, digest, a, key);
      ValidKeyHasEntry(V, tb, digest, b, key);
    }
    assert ValidKeys(V, tb, digest, a) == ValidKeys(V, tb, digest, b);
  }
}
