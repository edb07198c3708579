/** Bytes, digests, fixed-width big-endian integers, and the vocabulary of hash collisions.

    SHA-256 is a parameter of every definition that hashes: a total function from byte strings to
    32-byte digests.  Results that rest on collision resistance name the finite set of byte strings
    that the modelled code really hashed, and hold unless two different members of that set collide.
 */
module Hashing {
  type Byte = x: int | 0 <= x < 256
  type Bytes = seq<Byte>
  type Digest = d: Bytes | |d| == 32 witness seq(32, _ => 0)
  type Hash = Bytes -> Digest

  datatype Option<+T> = None | Some(value: T)

  /** Two different members of `preimages` hash to the same digest. */
  ghost predicate Collision(H: Hash, preimages: set<Bytes>) {
    exists x, y :: x in preimages && y in preimages && x != y && H(x) == H(y)
  }

  /** A collision is never lost by looking at more preimages. */
  lemma CollisionMonotone(H: Hash, smaller: set<Bytes>, larger: set<Bytes>)
    requires smaller <= larger
    requires Collision(H, smaller)
    ensures Collision(H, larger)
  {
    var x, y :| x in smaller && y in smaller && x != y && H(x) == H(y);
    assert x in larger && y in larger;
  }

  /** Without a collision, equal digests come from equal preimages. */
  lemma SamePreimage(H: Hash, preimages: set<Bytes>, x: Bytes, y: Bytes)
    requires !Collision(H, preimages)
    requires x in preimages && y in preimages && H(x) == H(y)
    ensures x == y
  {
  }

  function Pow256(n: nat): (p: nat)
    ensures p > 0
  {
    if n == 0 then 1 else 256 * Pow256(n - 1)
  }

  /** The `n`-byte big-endian encoding of `v`. */
  function ToBE(v: nat, n: nat): (b: Bytes)
    requires v < Pow256(n)
    ensures |b| == n
    decreases n, v
  {
    if n == 0 then [] else ToBE(v / 256, n - 1) + [v % 256]
  }

  function FromBE(b: Bytes): (v: nat) {
    if b == [] then 0 else FromBE(b[..|b| - 1]) * 256 + b[|b| - 1]
  }

  lemma {:induction false} FromBEBound(b: Bytes)
    ensures FromBE(b) < Pow256(|b|)
  {
    if b != [] {
      FromBEBound(b[..|b| - 1]);
    }
  }

  lemma {:induction false} FromToBE(v: nat, n: nat)
    requires v < Pow256(n)
    ensures FromBE(ToBE(v, n)) == v
    decreases n
  {
    if n != 0 {
      var b := ToBE(v, n);
      assert b[..|b| - 1] == ToBE(v / 256, n - 1);
      FromToBE(v / 256, n - 1);
    }
  }

  lemma {:induction false} ToFromBE(b: Bytes)
    ensures FromBE(b) < Pow256(|b|)
    ensures ToBE(FromBE(b), |b|) == b
  {
    FromBEBound(b);
    if b != [] {
      ToFromBE(b[..|b| - 1]);
      assert b == b[..|b| - 1] + [b[|b| - 1]];
    }
  }
}
