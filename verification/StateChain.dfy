/** The states a token passes through, as a hash chain from its id.  A state belongs to one token and to
    one place in its history: no state is reached twice, by the same token or by another one.
 */
module StateChain {
  import opened Hashing
  import opened CborHead
  import opened CborScan
  import opened Bft
  import opened Tokens

  // ---- the chain ----

  /** What the `k`-th state is masked with: the token id, then the masks of the transfers. */
  function Mask(H: Hash, token: Token, k: nat): (m: Data)
    requires k <= |token.transfers|
  {
    if k == 0 then TokenId(H, token.genesis.mint) else token.transfers[k - 1].transfer.stateMask
  }

  /** The state spent by step `k`: step 0 is the mint, step `k` the `k`-th transfer. */
  function StateAt(H: Hash, token: Token, k: nat): (d: Digest)
    requires k <= |token.transfers| + 1
  {
    if k == 0 then MintState(H, TokenId(H, token.genesis.mint))
    else NextState(H, StateAt(H, token, k - 1), Mask(H, token, k - 1))
  }

  function IdBytes(m: Mint): (b: Bytes) { EncodeArray([EncodeByteString(m.salt), EncodeUint(m.networkId)]) }

  function MintBytes(id: Digest): (b: Bytes) { EncodeArray([EncodeByteString(id), EncodeByteString(MINT_SUFFIX)]) }

  function NextBytes(source: Digest, mask: Data): (b: Bytes) {
    EncodeArray([EncodeByteString([0, 0] + source), EncodeByteString(mask)])
  }

  /** The bytes whose digest the `k`-th state is. */
  function StateBytes(H: Hash, token: Token, k: nat): (b: Bytes)
    requires k <= |token.transfers| + 1
    ensures H(b) == StateAt(H, token, k)
  {
    if k == 0 then MintBytes(TokenId(H, token.genesis.mint))
    else NextBytes(StateAt(H, token, k - 1), Mask(H, token, k - 1))
  }

  /** Everything hashed to reach the `k`-th state. */
  ghost function ChainHashed(H: Hash, token: Token, k: nat): (s: set<Bytes>)
    requires k <= |token.transfers| + 1
  {
    {StateBytes(H, token, k)} + if k == 0 then {IdBytes(token.genesis.mint)} else ChainHashed(H, token, k - 1)
  }

  /** The state hash a linked token's transfer spends is that of the chain. */
  lemma {:induction false} ChainOfLinked(H: Hash, token: Token, k: nat)
    requires Linked(H, token) && k < |token.transfers|
    ensures token.transfers[k].transfer.sourceStateHash == StateAt(H, token, k + 1)
  {
    hide NextState, MintState, TokenId;
    assert token.transfers[k].transfer.sourceStateHash == StateBefore(H, token, k).0;
    if k > 0 {
      ChainOfLinked(H, token, k - 1);
    }
  }

  // ---- the bytes fall apart in one way ----

  lemma TwoItems(a: Bytes, b: Bytes, c: Bytes, d: Bytes)
    requires Item(a) && Item(b) && Item(c) && Item(d) && EncodeArray([a, b]) == EncodeArray([c, d])
    ensures a == c && b == d
  {
    hide Item, EncodeArray;
    ArrayInjective([a, b], [c, d]);
    assert [a, b][0] == [c, d][0] && [a, b][1] == [c, d][1];
  }

  lemma IdInjective(a: Mint, b: Mint)
    requires IdBytes(a) == IdBytes(b)
    ensures a.salt == b.salt && a.networkId == b.networkId
  {
    hide Item, EncodeArray, EncodeByteString, EncodeUint;
    ByteStringItem(a.salt);
    ByteStringItem(b.salt);
    UintItem(a.networkId);
    UintItem(b.networkId);
    TwoItems(EncodeByteString(a.salt), EncodeUint(a.networkId), EncodeByteString(b.salt), EncodeUint(b.networkId));
    ByteStringInjective(a.salt, b.salt);
    UintInjective(a.networkId, b.networkId);
  }

  lemma PairOfStrings(a: Data, b: Data, c: Data, d: Data)
    requires EncodeArray([EncodeByteString(a), EncodeByteString(b)]) == EncodeArray([EncodeByteString(c), EncodeByteString(d)])
    ensures a == c && b == d
  {
    hide Item, EncodeArray, EncodeByteString;
    ByteStringItem(a);
    ByteStringItem(b);
    ByteStringItem(c);
    ByteStringItem(d);
    TwoItems(EncodeByteString(a), EncodeByteString(b), EncodeByteString(c), EncodeByteString(d));
    ByteStringInjective(a, c);
    ByteStringInjective(b, d);
  }

  lemma MintInjective(a: Digest, b: Digest)
    requires MintBytes(a) == MintBytes(b)
    ensures a == b
  {
    hide EncodeArray, EncodeByteString;
    PairOfStrings(a, MINT_SUFFIX, b, MINT_SUFFIX);
  }

  lemma NextInjective(s: Digest, m: Data, t: Digest, n: Data)
    requires NextBytes(s, m) == NextBytes(t, n)
    ensures s == t && m == n
  {
    hide EncodeArray, EncodeByteString;
    var x: Data, y: Data := [0, 0] + s, [0, 0] + t;
    PairOfStrings(x, m, y, n);
    assert x[2..] == s && y[2..] == t;
  }

  /** The first state of a token is hashed from other bytes than any later state. */
  lemma MintIsNotNext(id: Digest, s: Digest, m: Data)
    ensures MintBytes(id) != NextBytes(s, m)
  {
    hide EncodeArray, EncodeByteString;
    var x: Data := [0, 0] + s;
    assert |x| != |id|;
    if MintBytes(id) == NextBytes(s, m) {
      PairOfStrings(id, MINT_SUFFIX, x, m);
    }
  }

  // ---- one state, one place ----

  /** The tokens are of one id, and their first `k` masks agree. */
  ghost predicate SamePast(H: Hash, a: Token, b: Token, k: nat) {
    && a.genesis.mint.salt == b.genesis.mint.salt && a.genesis.mint.networkId == b.genesis.mint.networkId
    && k <= |a.transfers| + 1 && k <= |b.transfers| + 1
    && forall i :: 0 <= i < k ==> Mask(H, a, i) == Mask(H, b, i)
  }

  ghost predicate SameStateAt(H: Hash, hashed: set<Bytes>, a: Token, i: nat, b: Token, j: nat) {
    && !Collision(H, hashed) && i <= |a.transfers| + 1 && j <= |b.transfers| + 1
    && ChainHashed(H, a, i) <= hashed && ChainHashed(H, b, j) <= hashed
    && StateAt(H, a, i) == StateAt(H, b, j)
  }

  lemma StateStep(H: Hash, hashed: set<Bytes>, a: Token, i: nat, b: Token, j: nat)
    requires SameStateAt(H, hashed, a, i, b, j)
    ensures i <= |a.transfers| + 1 && j <= |b.transfers| + 1 && (i == 0 <==> j == 0)
    ensures i > 0 && j > 0 ==> SameStateAt(H, hashed, a, i - 1, b, j - 1) && Mask(H, a, i - 1) == Mask(H, b, j - 1)
    ensures i == 0 ==> SamePast(H, a, b, 0)
  {
    hide NextBytes, MintBytes, NextState, MintState, TokenId, IdBytes;
    SamePreimage(H, hashed, StateBytes(H, a, i), StateBytes(H, b, j));
    if i > 0 && j > 0 {
      NextInjective(StateAt(H, a, i - 1), Mask(H, a, i - 1), StateAt(H, b, j - 1), Mask(H, b, j - 1));
    } else if i > 0 {
      MintIsNotNext(TokenId(H, b.genesis.mint), StateAt(H, a, i - 1), Mask(H, a, i - 1));
    } else if j > 0 {
      MintIsNotNext(TokenId(H, a.genesis.mint), StateAt(H, b, j - 1), Mask(H, b, j - 1));
    } else {
      SameId(H, hashed, a, b);
    }
  }

  lemma SameId(H: Hash, hashed: set<Bytes>, a: Token, b: Token)
    requires SameStateAt(H, hashed, a, 0, b, 0)
    ensures SamePast(H, a, b, 0)
  {
    hide MintBytes, IdBytes, MintState;
    SamePreimage(H, hashed, StateBytes(H, a, 0), StateBytes(H, b, 0));
    MintInjective(TokenId(H, a.genesis.mint), TokenId(H, b.genesis.mint));
    IdIs(H, a.genesis.mint);
    IdIs(H, b.genesis.mint);
    SamePreimage(H, hashed, IdBytes(a.genesis.mint), IdBytes(b.genesis.mint));
    IdInjective(a.genesis.mint, b.genesis.mint);
  }

  lemma IdIs(H: Hash, m: Mint)
    ensures TokenId(H, m) == H(IdBytes(m))
  {
  }

  lemma {:induction false} OnePast(H: Hash, hashed: set<Bytes>, a: Token, i: nat, b: Token, j: nat)
    requires SameStateAt(H, hashed, a, i, b, j)
    ensures i == j && SamePast(H, a, b, i)
    decreases i
  {
    hide SameStateAt, Mask;
    StateStep(H, hashed, a, i, b, j);
    if i > 0 {
      OnePast(H, hashed, a, i - 1, b, j - 1);
    }
  }

  /** A state belongs to one token and one place: if two tokens, or one token twice, reach one state, they
      do so after equally many steps, with one token id's salt and network and with the same masks, unless
      two of the byte strings hashed on the way collide. */
  lemma OneOwner(H: Hash, a: Token, i: nat, b: Token, j: nat)
    requires i <= |a.transfers| + 1 && j <= |b.transfers| + 1 && StateAt(H, a, i) == StateAt(H, b, j)
    ensures (i == j && SamePast(H, a, b, i)) || Collision(H, ChainHashed(H, a, i) + ChainHashed(H, b, j))
  {
    hide StateAt, ChainHashed, SamePast;
    var hashed := ChainHashed(H, a, i) + ChainHashed(H, b, j);
    if !Collision(H, hashed) {
      assert SameStateAt(H, hashed, a, i, b, j);
      OnePast(H, hashed, a, i, b, j);
    }
  }

  // ---- one key, one step ----

  /** The lock of step `k`; the mint's is given. */
  function LockAt(token: Token, minter: Predicate, k: nat): (p: Predicate)
    requires k <= |token.transfers|
  {
    if k == 0 then minter else token.transfers[k - 1].transfer.lockScript
  }

  /** The key under which step `k` is certified. */
  function KeyAt(H: Hash, token: Token, minter: Predicate, k: nat): (id: Digest)
    requires k <= |token.transfers|
  {
    StateId(H, LockAt(token, minter, k), StateAt(H, token, k))
  }

  ghost function KeyHashed(H: Hash, token: Token, minter: Predicate, k: nat): (s: set<Bytes>)
    requires k <= |token.transfers|
  {
    ChainHashed(H, token, k) + {StateIdPreimage(LockAt(token, minter, k), StateAt(H, token, k))}
  }

  lemma StateIdInjective(p: Predicate, s: Digest, q: Predicate, t: Digest)
    requires StateIdPreimage(p, s) == StateIdPreimage(q, t)
    ensures p == q && s == t
  {
    hide Item, EncodeArray, EncodeByteString, PredicateCbor;
    PredicateItem(p);
    PredicateItem(q);
    ByteStringItem(s);
    ByteStringItem(t);
    TwoItems(PredicateCbor(p), EncodeByteString(s), PredicateCbor(q), EncodeByteString(t));
    PredicateInjective(p, q);
    ByteStringInjective(s, t);
  }

  /** The proofs of a linked, accepted token are about the keys of its steps. */
  lemma KeysOfToken(H: Hash, token: Token, minter: Predicate, k: nat)
    requires Linked(H, token) && k < |token.transfers|
    ensures KeyAt(H, token, minter, k + 1)
         == StateId(H, token.transfers[k].transfer.lockScript, token.transfers[k].transfer.sourceStateHash)
  {
    hide StateId, StateAt;
    ChainOfLinked(H, token, k);
  }

  /** A key certifies one step of one token: steps of any two tokens, or of one, with the same key are the
      same step, with the same lock and the same past, unless two of the byte strings hashed for the keys
      collide. */
  lemma OneKeyOneStep(H: Hash, a: Token, p: Predicate, i: nat, b: Token, q: Predicate, j: nat)
    requires i <= |a.transfers| && j <= |b.transfers| && KeyAt(H, a, p, i) == KeyAt(H, b, q, j)
    ensures (i == j && LockAt(a, p, i) == LockAt(b, q, j) && SamePast(H, a, b, i))
         || Collision(H, KeyHashed(H, a, p, i) + KeyHashed(H, b, q, j))
  {
    hide StateAt, ChainHashed, SamePast, StateIdPreimage;
    var hashed := KeyHashed(H, a, p, i) + KeyHashed(H, b, q, j);
    if !Collision(H, hashed) {
      var s, t := StateAt(H, a, i), StateAt(H, b, j);
      SamePreimage(H, hashed, StateIdPreimage(LockAt(a, p, i), s), StateIdPreimage(LockAt(b, q, j), t));
      StateIdInjective(LockAt(a, p, i), s, LockAt(b, q, j), t);
      assert SameStateAt(H, hashed, a, i, b, j);
      OnePast(H, hashed, a, i, b, j);
    }
  }
}
