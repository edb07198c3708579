/** No over-issuance: amounts proven against one sum-tree root never exceed the committed sum.

    The root is arbitrary.  Nothing is assumed about how it was built, or whether it is the root of a
    well-formed tree at all.
 */
module RsmstConservation {
  import opened Hashing
  import opened Radix
  import opened RsmstProof

  function Total(claims: seq<Claim>): (t: nat) {
    if claims == [] then 0 else claims[0].value + Total(claims[1..])
  }

  predicate DistinctKeys(claims: seq<Claim>) {
    forall i, j :: 0 <= i < j < |claims| ==> claims[i].key != claims[j].key
  }

  /** Every byte string hashed while verifying the family. */
  ghost function FamilyHashed(H: Hash, claims: seq<Claim>): (s: set<Bytes>) {
    if claims == [] then {} else Hashed(H, claims[0]) + FamilyHashed(H, claims[1..])
  }

  lemma {:induction false} FamilyHashedMember(H: Hash, claims: seq<Claim>, i: nat)
    requires i < |claims|
    ensures Hashed(H, claims[i]) <= FamilyHashed(H, claims)
  {
    if i > 0 {
      FamilyHashedMember(H, claims[1..], i - 1);
    }
  }

  /** The claims on one side of the junction at `depth`, each seen one junction lower. */
  ghost function Side(claims: seq<Claim>, depth: Byte, right: bool): (s: seq<Claim>)
    requires forall c :: c in claims ==> c.steps != []
    ensures forall d :: d in s ==>
              exists c :: c in claims && BitAt(c.key, depth) == right && d == c.Below()
  {
    if claims == [] then []
    else
      var rest := Side(claims[1..], depth, right);
      if BitAt(claims[0].key, depth) == right then [claims[0].Below()] + rest else rest
  }

  lemma {:induction false} TotalSplits(claims: seq<Claim>, depth: Byte)
    requires forall c :: c in claims ==> c.steps != []
    ensures Total(claims) == Total(Side(claims, depth, false)) + Total(Side(claims, depth, true))
  {
    if claims != [] {
      TotalSplits(claims[1..], depth);
      SideCons(claims, depth, false);
      SideCons(claims, depth, true);
    }
  }

  lemma SideCons(claims: seq<Claim>, depth: Byte, right: bool)
    requires claims != [] && forall c :: c in claims ==> c.steps != []
    ensures Total(Side(claims, depth, right)) == Total(Side(claims[1..], depth, right))
              + if BitAt(claims[0].key, depth) == right then claims[0].value else 0
  {
    var rest := Side(claims[1..], depth, right);
    var s := Side(claims, depth, right);
    if BitAt(claims[0].key, depth) == right {
      assert s == [claims[0].Below()] + rest && s[1..] == rest;
    }
  }

  lemma {:induction false} SideDistinct(claims: seq<Claim>, depth: Byte, right: bool)
    requires forall c :: c in claims ==> c.steps != []
    requires DistinctKeys(claims)
    ensures DistinctKeys(Side(claims, depth, right))
  {
    if claims != [] {
      var rest := Side(claims[1..], depth, right);
      SideDistinct(claims[1..], depth, right);
      forall d | d in rest ensures d.key != claims[0].key {
        var c :| c in claims[1..] && d == c.Below();
        var k :| 0 <= k < |claims[1..]| && claims[1..][k] == c;
        assert claims[k + 1] == c;
      }
    }
  }

  /** Claims that all fold to `node`, without a collision, by at most `n` steps each. */
  ghost predicate Family(H: Hash, hashed: set<Bytes>, claims: seq<Claim>, node: Node, n: nat) {
    && !Collision(H, hashed)
    && DistinctKeys(claims)
    && forall c :: c in claims ==> Hashed(H, c) <= hashed && Fold(H, c) == Some(node) && |c.steps| <= n
  }

  /** At a leaf there is room for one key. */
  lemma LeafHoldsOne(H: Hash, hashed: set<Bytes>, claims: seq<Claim>, node: Node, n: nat)
    requires Family(H, hashed, claims, node, n) && claims != [] && claims[0].steps == []
    ensures |claims| == 1
  {
    if |claims| > 1 {
      assert claims[1] in claims;
      SameTop(H, hashed, claims[0], claims[1]);
    }
  }

  /** Below a junction, each side is again such a family, for the child on that side. */
  lemma SideFamily(H: Hash, hashed: set<Bytes>, claims: seq<Claim>, node: Node, n: nat, right: bool)
    requires Family(H, hashed, claims, node, n) && claims != [] && claims[0].steps != []
    ensures n > 0 && forall c :: c in claims ==> c.steps != []
    ensures Family(H, hashed, Side(claims, claims[0].Last().depth, right),
                   if right then Right(H, claims[0]) else Left(H, claims[0]), n - 1)
  {
    var first := claims[0];
    forall c | c in claims
      ensures c.steps != [] && c.Last().depth == first.Last().depth
           && Left(H, c) == Left(H, first) && Right(H, c) == Right(H, first)
    {
      SameTop(H, hashed, first, c);
    }
    SideDistinct(claims, first.Last().depth, right);
  }

  lemma {:induction false} FamilyWithinSum(H: Hash, hashed: set<Bytes>, claims: seq<Claim>, node: Node, n: nat)
    requires Family(H, hashed, claims, node, n)
    ensures Total(claims) <= node.sum
    decreases n
  {
    if claims != [] {
      if claims[0].steps == [] {
        LeafHoldsOne(H, hashed, claims, node, n);
        assert claims[1..] == [];
      } else {
        var depth := claims[0].Last().depth;
        SideFamily(H, hashed, claims, node, n, false);
        SideFamily(H, hashed, claims, node, n, true);
        FamilyWithinSum(H, hashed, Side(claims, depth, false), Left(H, claims[0]), n - 1);
        FamilyWithinSum(H, hashed, Side(claims, depth, true), Right(H, claims[0]), n - 1);
        TotalSplits(claims, depth);
        FoldParts(H, claims[0]);
      }
    }
  }

  lemma MembersAgree(H: Hash, claims: seq<Claim>, root: Digest, c: Claim)
    requires c in claims && claims != []
    requires !Collision(H, FamilyHashed(H, claims))
    requires ProvenSum(H, claims[0], root).Some? && ProvenSum(H, c, root).Some?
    ensures Fold(H, c) == Fold(H, claims[0])
    ensures Hashed(H, c) <= FamilyHashed(H, claims)
  {
    var i :| 0 <= i < |claims| && claims[i] == c;
    FamilyHashedMember(H, claims, i);
    FamilyHashedMember(H, claims, 0);
    SameTop(H, FamilyHashed(H, claims), claims[0], c);
  }

  /** For any root and any finite family of accepted claims with pairwise different keys: all of
      them prove one and the same sum, and their amounts together do not exceed it, unless two of
      the byte strings hashed by the verifier collide. */
  lemma NoOverIssuance(H: Hash, claims: seq<Claim>, root: Digest)
    requires claims != [] && DistinctKeys(claims)
    requires forall c :: c in claims ==> ProvenSum(H, c, root).Some?
    ensures Collision(H, FamilyHashed(H, claims))
         || (forall c :: c in claims ==>
               ProvenSum(H, c, root) == ProvenSum(H, claims[0], root)
               && Total(claims) <= ProvenSum(H, c, root).value)
  {
    if !Collision(H, FamilyHashed(H, claims)) {
      forall c | c in claims ensures Fold(H, c) == Fold(H, claims[0]) && Hashed(H, c) <= FamilyHashed(H, claims) {
        MembersAgree(H, claims, root, c);
      }
      assert claims[0] in claims;
      FamilyWithinSum(H, FamilyHashed(H, claims), claims, Fold(H, claims[0]).value, MAX_PROOF_STEPS);
    }
  }

  /** For any root, one key proves at most one amount, by exactly one proof. */
  lemma AllocationUnique(H: Hash, a: Claim, b: Claim, root: Digest)
    requires ProvenSum(H, a, root).Some? && ProvenSum(H, b, root).Some? && a.key == b.key
    ensures a == b || Collision(H, Hashed(H, a) + Hashed(H, b))
  {
    if !Collision(H, Hashed(H, a) + Hashed(H, b)) {
      SameKeySameClaim(H, Hashed(H, a) + Hashed(H, b), a, b);
    }
  }
}
