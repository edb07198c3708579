/** Admission of the inputs of a consolidation: every state is routed once, repeated states are folded
    into their first occurrence, and the distinct states are grouped by shard.
 */
module Admission {
  import opened Hashing
  import opened CborHead
  import opened Bft
  import opened Tokens
  import opened ShardOrder
  import opened ShardScheme
  import opened Topology

  const MAX_BATCH_STATE_IDS: nat := 256

  datatype ProofItem = ProofItem(stateId: Digest, proof: InclusionProof)

  /** The distinct states of one shard, as indexes of inputs. */
  datatype Group = Group(endpoint: nat, shard: ShardId, items: seq<nat>, ids: seq<Digest>)

  datatype Stop = Cancelled | Configuration | TooManyStates | Evidence | Integrity | InvalidResponse | Unavailable

  datatype GroupResult =
    | Grouped(groups: seq<Group>, firstOf: seq<nat>, shardOf: seq<nat>)
    | Refused(stop: Stop)

  /** Trusted configuration: the shards in canonical order, the endpoint serving each, and how many
      endpoints there are. */
  datatype Setup = Setup(shards: seq<ShardId>, endpointOf: seq<Option<nat>>, endpoints: nat)

  ghost predicate ValidSetup(s: Setup) { Canonical(s.shards) && |s.endpointOf| == |s.shards| }

  // ---- what grouping means ----

  /** The first shard whose id prefixes the key. */
  function Route(shards: seq<ShardId>, key: Digest): (i: nat) {
    if shards == [] || shards[0] <= KeyBits(key) then 0 else 1 + Route(shards[1..], key)
  }

  lemma {:induction false} RouteIs(shards: seq<ShardId>, key: Digest, i: nat)
    requires i < |shards| && shards[i] <= KeyBits(key)
    requires forall j :: 0 <= j < |shards| && shards[j] <= KeyBits(key) ==> j == i
    ensures Route(shards, key) == i
  {
    hide KeyBits;
    if i > 0 {
      assert forall j :: 0 <= j < |shards[1..]| && shards[1..][j] <= KeyBits(key) ==> j + 1 == i;
      RouteIs(shards[1..], key, i - 1);
    }
  }

  /** In a canonical scheme the route is the one shard that prefixes the key. */
  lemma RouteLands(shards: seq<ShardId>, key: Digest)
    requires Canonical(shards)
    ensures Route(shards, key) < |shards| && shards[Route(shards, key)] <= KeyBits(key)
  {
    hide KeyBits, ComparePrefix, StrictlySorted;
    var bits := KeyBits(key);
    assert [] <= bits && HasPrefix(shards, bits);
    var target :| 0 <= target < |shards| && shards[target] <= bits;
    forall j | 0 <= j < |shards| && shards[j] <= bits ensures j == target {
      SearchSides(shards, bits, target, j);
      ComparePrefixMeaning(shards[j], bits);
    }
    RouteIs(shards, key, target);
  }

  /** The first input with the state id of input `i`. */
  function FirstIndex(items: seq<ProofItem>, id: Digest): (i: nat)
    ensures i <= |items|
  {
    if items == [] || items[0].stateId == id then 0 else 1 + FirstIndex(items[1..], id)
  }

  lemma {:induction false} FirstIndexIs(items: seq<ProofItem>, id: Digest)
    ensures FirstIndex(items, id) < |items| ==> items[FirstIndex(items, id)].stateId == id
    ensures forall j :: 0 <= j < FirstIndex(items, id) ==> items[j].stateId != id
  {
    if items != [] && items[0].stateId != id {
      FirstIndexIs(items[1..], id);
      forall j | 0 <= j < FirstIndex(items, id) ensures items[j].stateId != id {
        if j > 0 {
          assert items[1..][j - 1] == items[j];
        }
      }
    }
  }

  lemma FirstIsFirst(items: seq<ProofItem>, i: nat)
    requires i < |items|
    ensures FirstIndex(items, items[i].stateId) <= i
    ensures IsFirst(items, FirstIndex(items, items[i].stateId))
    ensures items[FirstIndex(items, items[i].stateId)].stateId == items[i].stateId
  {
    hide FirstIndex;
    FirstIndexIs(items, items[i].stateId);
  }

  predicate IsFirst(items: seq<ProofItem>, i: nat)
    requires i < |items|
  {
    FirstIndex(items, items[i].stateId) == i
  }

  /** The distinct states among the first `n` inputs, one index each. */
  function Distinct(items: seq<ProofItem>, n: nat): (s: seq<nat>)
    requires n <= |items|
  {
    if n == 0 then [] else Distinct(items, n - 1) + if IsFirst(items, n - 1) then [n - 1] else []
  }

  /** Those of them that belong to shard `s`. */
  function Members(setup: Setup, items: seq<ProofItem>, n: nat, s: nat): (m: seq<nat>)
    requires n <= |items|
    ensures forall k :: 0 <= k < |m| ==> m[k] < n && IsFirst(items, m[k]) && Route(setup.shards, items[m[k]].stateId) == s
  {
    if n == 0 then []
    else
      Members(setup, items, n - 1, s) +
      if IsFirst(items, n - 1) && Route(setup.shards, items[n - 1].stateId) == s then [n - 1] else []
  }

  function IdsAt(items: seq<ProofItem>, at: seq<nat>): (ids: seq<Digest>)
    requires forall k :: 0 <= k < |at| ==> at[k] < |items|
    ensures |ids| == |at| && forall k :: 0 <= k < |at| ==> ids[k] == items[at[k]].stateId
  {
    seq(|at|, k requires 0 <= k < |at| => items[at[k]].stateId)
  }

  /** Two inputs for one state must agree on what was certified and when. */
  predicate Agrees(a: InclusionProof, b: InclusionProof) {
    a.certification == b.certification && a.referenceTime == b.referenceTime
  }

  /** The admission rules, at the input that could break them. */
  predicate Admits(setup: Setup, items: seq<ProofItem>, i: nat)
    requires i < |items|
  {
    var s := Route(setup.shards, items[i].stateId);
    if IsFirst(items, i) then
      && |Distinct(items, i + 1)| <= setup.endpoints * MAX_BATCH_STATE_IDS
      && s < |setup.endpointOf| && setup.endpointOf[s].Some?
      && |Members(setup, items, i + 1, s)| <= MAX_BATCH_STATE_IDS
    else
      FirstIsFirst(items, i);
      Agrees(items[FirstIndex(items, items[i].stateId)].proof, items[i].proof)
  }

  /** The rule that a refusal names is broken at the `i`-th input: too many states in all or for a shard, a
      repeated state with other evidence, or a shard that nobody serves. */
  ghost predicate BreaksAt(setup: Setup, items: seq<ProofItem>, i: nat, stop: Stop)
    requires i < |items|
  {
    var s := Route(setup.shards, items[i].stateId);
    match stop
    case TooManyStates =>
      || |Distinct(items, i + 1)| > setup.endpoints * MAX_BATCH_STATE_IDS
      || |Members(setup, items, i + 1, s)| > MAX_BATCH_STATE_IDS
    case Configuration =>
      || (exists j :: 0 <= j < i && items[j].stateId == items[i].stateId && !Agrees(items[j].proof, items[i].proof))
      || (s < |setup.endpointOf| && setup.endpointOf[s].None?)
    case _ => false
  }

  /** The group of shard `s`, if some state belongs to it. */
  ghost function SlotFor(setup: Setup, items: seq<ProofItem>, n: nat, s: nat): (g: Option<Group>)
    requires n <= |items| && s < |setup.shards| == |setup.endpointOf|
  {
    var m := Members(setup, items, n, s);
    if m == [] then None
    else Some(Group(if setup.endpointOf[s].Some? then setup.endpointOf[s].value else 0, setup.shards[s], m,
                    IdsAt(items, m)))
  }

  /** The groups of the shards below `s`, in order. */
  ghost function GroupsBelow(setup: Setup, items: seq<ProofItem>, s: nat): (g: seq<Group>)
    requires s <= |setup.shards| == |setup.endpointOf|
  {
    if s == 0 then []
    else
      GroupsBelow(setup, items, s - 1) +
      match SlotFor(setup, items, |items|, s - 1)
      case None => []
      case Some(g) => [g]
  }

  /** The result of a successful grouping. */
  ghost predicate GroupsOf(setup: Setup, items: seq<ProofItem>, groups: seq<Group>, firstOf: seq<nat>,
                           shardOf: seq<nat>) {
    && |setup.shards| == |setup.endpointOf|
    && groups == GroupsBelow(setup, items, |setup.shards|)
    && Tables(setup, items, |items|, firstOf, shardOf)
  }

  // ---- the algorithm ----

  /** The map from state ids seen so far to their first index. */
  ghost predicate Seen(items: seq<ProofItem>, n: nat, seen: map<Digest, nat>)
    requires n <= |items|
  {
    && (forall id :: id in seen <==> FirstIndex(items, id) < n)
    && (forall id :: id in seen ==> seen[id] == FirstIndex(items, id))
    && |seen| == |Distinct(items, n)|
  }

  lemma SeenRepeat(items: seq<ProofItem>, n: nat, seen: map<Digest, nat>)
    requires n < |items| && Seen(items, n, seen) && items[n].stateId in seen
    ensures !IsFirst(items, n) && Seen(items, n + 1, seen)
  {
    hide FirstIndex;
    forall id ensures FirstIndex(items, id) != n {
      FirstIndexIs(items, id);
    }
  }

  lemma CountNew(seen: map<Digest, nat>, id: Digest, n: nat)
    requires id !in seen
    ensures |seen[id := n]| == |seen| + 1
  {
    assert seen[id := n].Keys == seen.Keys + {id};
    assert |seen[id := n].Keys| == |seen.Keys| + 1;
  }

  lemma SeenNew(items: seq<ProofItem>, n: nat, seen: map<Digest, nat>)
    requires n < |items| && Seen(items, n, seen) && items[n].stateId !in seen
    ensures IsFirst(items, n) && Seen(items, n + 1, seen[items[n].stateId := n])
  {
    hide FirstIndex;
    FirstIsFirst(items, n);
    var id := items[n].stateId;
    var grown := seen[id := n];
    assert |grown| == |seen| + 1 by { CountNew(seen, id, n); }
    forall key ensures key in grown <==> FirstIndex(items, key) < n + 1 {
      FirstIndexIs(items, key);
    }
  }

  ghost predicate Slots(setup: Setup, items: seq<ProofItem>, n: nat, slots: seq<Option<Group>>)
    requires n <= |items| && |setup.shards| == |setup.endpointOf|
  {
    |slots| == |setup.shards| && forall s :: 0 <= s < |slots| ==> slots[s] == SlotFor(setup, items, n, s)
  }

  lemma SlotsRepeat(setup: Setup, items: seq<ProofItem>, n: nat, slots: seq<Option<Group>>)
    requires n < |items| && |setup.shards| == |setup.endpointOf| && Slots(setup, items, n, slots) && !IsFirst(items, n)
    ensures Slots(setup, items, n + 1, slots)
  {
    hide IsFirst;
    forall s | 0 <= s < |slots| ensures slots[s] == SlotFor(setup, items, n + 1, s) {
      assert Members(setup, items, n + 1, s) == Members(setup, items, n, s);
    }
  }

  lemma SlotsNew(setup: Setup, items: seq<ProofItem>, n: nat, slots: seq<Option<Group>>, si: nat, g: Group)
    requires n < |items| && |setup.shards| == |setup.endpointOf| && Slots(setup, items, n, slots) && IsFirst(items, n)
    requires si == Route(setup.shards, items[n].stateId) && si < |slots| && setup.endpointOf[si].Some?
    requires g == if slots[si].Some? then slots[si].value else Group(setup.endpointOf[si].value, setup.shards[si], [], [])
    ensures Members(setup, items, n + 1, si) == g.items + [n]
    ensures Slots(setup, items, n + 1, slots[si := Some(g.(items := g.items + [n], ids := g.ids + [items[n].stateId]))])
  {
    hide IsFirst;
    var id := items[n].stateId;
    var g' := g.(items := g.items + [n], ids := g.ids + [id]);
    var slots' := slots[si := Some(g')];
    forall s | 0 <= s < |slots'| ensures slots'[s] == SlotFor(setup, items, n + 1, s) {
      if s == si {
        assert slots[si] == SlotFor(setup, items, n, si);
        assert g.items == Members(setup, items, n, si) && g.ids == IdsAt(items, g.items);
        assert Members(setup, items, n + 1, s) == g.items + [n];
        assert g'.ids == IdsAt(items, g'.items);
      } else {
        assert Members(setup, items, n + 1, s) == Members(setup, items, n, s);
        assert slots[s] == SlotFor(setup, items, n, s);
      }
    }
  }

  lemma AdmitsRepeat(setup: Setup, items: seq<ProofItem>, i: nat)
    requires i < |items| && !IsFirst(items, i)
    ensures FirstIndex(items, items[i].stateId) < |items|
    ensures Admits(setup, items, i) <==> Agrees(items[FirstIndex(items, items[i].stateId)].proof, items[i].proof)
  {
    hide FirstIndex, Agrees;
    FirstIsFirst(items, i);
  }

  lemma AdmitsNew(setup: Setup, items: seq<ProofItem>, i: nat, s: nat)
    requires i < |items| && IsFirst(items, i) && s == Route(setup.shards, items[i].stateId)
    ensures Admits(setup, items, i) <==>
              && |Distinct(items, i + 1)| <= setup.endpoints * MAX_BATCH_STATE_IDS
              && s < |setup.endpointOf| && setup.endpointOf[s].Some?
              && |Members(setup, items, i + 1, s)| <= MAX_BATCH_STATE_IDS
  {
    hide IsFirst, Members, Distinct, Route;
  }

  /** The number of deadline checks made for `n` inputs: one every 64. */
  function Checkpoints(n: nat): (c: nat) { (n + 63) / 64 }

  predicate AtCheckpoint(i: nat) { i % 64 == 0 }

  lemma NoCheckpoints()
    ensures Checkpoints(0) == 0
  {
  }

  lemma EverySixtyFour(n: nat)
    ensures n <= 64 * Checkpoints(n) < n + 64
  {
  }

  lemma NextCheckpoint(i: nat, n: nat)
    requires i < n
    ensures Checkpoints(i + 1) == Checkpoints(i) + if AtCheckpoint(i) then 1 else 0
    ensures AtCheckpoint(i) ==> Checkpoints(i) < Checkpoints(n)
  {
  }

  /** Place a state not seen before into the slot of its shard. */
  method PlaceNew(setup: Setup, items: seq<ProofItem>, i: nat, si: nat, seen: map<Digest, nat>,
                  slots: seq<Option<Group>>)
    returns (stop: Option<Stop>, seen': map<Digest, nat>, slots': seq<Option<Group>>)
    requires i < |items| && ValidSetup(setup) && si < |setup.shards| && si == Route(setup.shards, items[i].stateId)
    requires Seen(items, i, seen) && Slots(setup, items, i, slots) && items[i].stateId !in seen
    ensures stop.None? <==> Admits(setup, items, i)
    ensures IsFirst(items, i) && (stop.Some? ==> BreaksAt(setup, items, i, stop.value))
    ensures stop.None? ==> Seen(items, i + 1, seen') && Slots(setup, items, i + 1, slots')
  {
    hide Canonical, Route, Seen, Slots, IsFirst, Members, Admits, Distinct;
    SeenNew(items, i, seen);
    AdmitsNew(setup, items, i, si);
    slots' := slots;
    seen' := seen[items[i].stateId := i];
    SeenCount(items, i + 1, seen');
    if |seen'| > setup.endpoints * MAX_BATCH_STATE_IDS {
      return Some(TooManyStates), seen', slots';
    }
    if setup.endpointOf[si].None? {
      return Some(Configuration), seen', slots';
    }
    SlotsSize(setup, items, i, slots);
    var g := if slots[si].Some? then slots[si].value else Group(setup.endpointOf[si].value, setup.shards[si], [], []);
    SlotsNew(setup, items, i, slots, si, g);
    g := g.(items := g.items + [i], ids := g.ids + [items[i].stateId]);
    slots' := slots[si := Some(g)];
    SlotLengths(setup, items, i + 1, slots', si);
    return if |g.ids| > MAX_BATCH_STATE_IDS then Some(TooManyStates) else None, seen', slots';
  }

  method RouteItem(setup: Setup, id: Digest) returns (si: nat)
    requires ValidSetup(setup)
    ensures si == Route(setup.shards, id) && si < |setup.shards|
  {
    si := RouteIndex(setup.shards, id);
    RouteIs(setup.shards, id, si);
  }

  lemma Conflicting(setup: Setup, items: seq<ProofItem>, i: nat, first: nat)
    requires i < |items| && !IsFirst(items, i) && first == FirstIndex(items, items[i].stateId)
    requires first < |items| && !Agrees(items[first].proof, items[i].proof)
    ensures BreaksAt(setup, items, i, Configuration)
  {
    hide Agrees, Route, FirstIndex;
    FirstIsFirst(items, i);
  }

  /** Fold a repeated state into its first occurrence, or place a new one. */
  method AdmitOne(setup: Setup, items: seq<ProofItem>, i: nat, si: nat, seen: map<Digest, nat>,
                  slots: seq<Option<Group>>)
    returns (stop: Option<Stop>, first: nat, seen': map<Digest, nat>, slots': seq<Option<Group>>)
    requires i < |items| && ValidSetup(setup) && si < |setup.shards| && si == Route(setup.shards, items[i].stateId)
    requires Seen(items, i, seen) && Slots(setup, items, i, slots)
    ensures stop.None? <==> Admits(setup, items, i)
    ensures first == FirstIndex(items, items[i].stateId) && (stop.Some? ==> BreaksAt(setup, items, i, stop.value))
    ensures stop.None? ==> Seen(items, i + 1, seen') && Slots(setup, items, i + 1, slots')
  {
    hide Canonical, Route, Seen, Slots, IsFirst, Admits, FirstIndex, Agrees;
    SeenLookup(items, i, seen);
    seen', slots' := seen, slots;
    if items[i].stateId in seen {
      first := seen[items[i].stateId];
      SeenRepeat(items, i, seen);
      SlotsRepeat(setup, items, i, slots);
      AdmitsRepeat(setup, items, i);
      if !Agrees(items[first].proof, items[i].proof) {
        Conflicting(setup, items, i, first);
        stop := Some(Configuration);
      } else {
        stop := None;
      }
    } else {
      first := i;
      stop, seen', slots' := PlaceNew(setup, items, i, si, seen, slots);
      IsFirstMeans(items, i);
    }
  }

  /** Why inputs are refused: there are none, one of them breaks a rule, or the attempt is over. */
  ghost predicate Refuses(setup: Setup, items: seq<ProofItem>, live: nat -> bool, stop: Stop) {
    || (stop == Configuration && items == [])
    || (exists i: nat :: i < |items| && BreaksAt(setup, items, i, stop))
    || (stop == Cancelled && exists k: nat :: !live(k))
  }

  lemma RefusesBy(setup: Setup, items: seq<ProofItem>, live: nat -> bool, i: nat, stop: Stop)
    requires i < |items| && BreaksAt(setup, items, i, stop)
    ensures Refuses(setup, items, live, stop)
  {
  }

  lemma RefusesDead(setup: Setup, items: seq<ProofItem>, live: nat -> bool, k: nat)
    requires !live(k)
    ensures Refuses(setup, items, live, Cancelled)
  {
  }

  lemma RefusesNothing(setup: Setup, items: seq<ProofItem>, live: nat -> bool)
    requires items == []
    ensures Refuses(setup, items, live, Configuration)
  {
  }

  /** Admit and group the inputs.  `live` says, checkpoint by checkpoint, whether the attempt may go
      on; grouping succeeds exactly when it always may and every input is admitted. */
  method GroupItems(setup: Setup, items: seq<ProofItem>, live: nat -> bool, start: nat)
    returns (r: GroupResult, tick: nat)
    requires ValidSetup(setup)
    ensures r.Grouped? <==> items != [] && Admitted(setup, items, |items|) && Alive(live, start, start + Checkpoints(|items|))
    ensures r.Grouped? ==> GroupsOf(setup, items, r.groups, r.firstOf, r.shardOf) && tick == start + Checkpoints(|items|)
    ensures r.Grouped? ==> |items| <= 64 * (tick - start) < |items| + 64
    ensures r.Refused? ==> Refuses(setup, items, live, r.stop)
  {
    hide *;
    ValidSetupMeans(setup);
    tick := start;
    if items == [] {
      RefusesNothing(setup, items, live);
      return Refused(Configuration), tick;
    }
    var seen: map<Digest, nat>, firstOf: seq<nat>, shardOf: seq<nat> := map[], [], [];
    var slots: seq<Option<Group>> := seq(|setup.shards|, _ => None);
    StartEmpty(setup, items, slots, live, start);
    NoCheckpoints();
    for i := 0 to |items|
      invariant tick == start + Checkpoints(i) && Alive(live, start, tick)
      invariant Admitted(setup, items, i)
      invariant Seen(items, i, seen) && Slots(setup, items, i, slots) && Tables(setup, items, i, firstOf, shardOf)
    {
      NextCheckpoint(i, |items|);
      if AtCheckpoint(i) {
        AliveStep(live, start, tick, start + Checkpoints(|items|));
        if !live(tick) {
          RefusesDead(setup, items, live, tick);
          return Refused(Cancelled), tick;
        }
        tick := tick + 1;
      }
      var si := RouteItem(setup, items[i].stateId);
      var stop, first;
      stop, first, seen, slots := AdmitOne(setup, items, i, si, seen, slots);
      AdmittedStep(setup, items, i);
      if stop.Some? {
        RefusesBy(setup, items, live, i, stop.value);
        return Refused(stop.value), tick;
      }
      TablesStep(setup, items, i, firstOf, shardOf, first, si);
      firstOf, shardOf := firstOf + [first], shardOf + [si];
    }
    var groups := Flatten(setup, items, slots);
    GroupsOfIntro(setup, items, groups, firstOf, shardOf);
    EverySixtyFour(|items|);
    return Grouped(groups, firstOf, shardOf), tick;
  }

  ghost predicate Admitted(setup: Setup, items: seq<ProofItem>, n: nat)
    requires n <= |items|
  {
    forall i :: 0 <= i < n ==> Admits(setup, items, i)
  }

  /** Admitted inputs: repeated states come with the same evidence, every state's shard is served, and
      neither the distinct states in all nor those of any shard exceed what can be asked for. */
  lemma AdmittedMeans(setup: Setup, items: seq<ProofItem>)
    requires Admitted(setup, items, |items|) && |setup.shards| == |setup.endpointOf|
    ensures forall i, j :: 0 <= i < |items| && 0 <= j < |items| && items[i].stateId == items[j].stateId ==>
              && items[i].proof.certification == items[j].proof.certification
              && items[i].proof.referenceTime == items[j].proof.referenceTime
    ensures |Distinct(items, |items|)| <= setup.endpoints * MAX_BATCH_STATE_IDS
    ensures forall s :: 0 <= s < |setup.shards| ==> |Members(setup, items, |items|, s)| <= MAX_BATCH_STATE_IDS
    ensures forall i :: 0 <= i < |items| ==>
              var s := Route(setup.shards, items[i].stateId);
              s < |setup.endpointOf| && setup.endpointOf[s].Some?
  {
    hide FirstIndex, Distinct, Members, Route;
    forall i, j | 0 <= i < |items| && 0 <= j < |items| && items[i].stateId == items[j].stateId
      ensures && items[i].proof.certification == items[j].proof.certification
              && items[i].proof.referenceTime == items[j].proof.referenceTime
    {
      FirstAgrees(setup, items, i);
      FirstAgrees(setup, items, j);
    }
    forall i | 0 <= i < |items|
      ensures var s := Route(setup.shards, items[i].stateId); s < |setup.endpointOf| && setup.endpointOf[s].Some?
    {
      FirstAgrees(setup, items, i);
      assert Admits(setup, items, FirstIndex(items, items[i].stateId));
    }
    DistinctWithin(setup, items, |items|);
    forall s: nat | s < |setup.shards| ensures |Members(setup, items, |items|, s)| <= MAX_BATCH_STATE_IDS {
      MembersWithin(setup, items, |items|, s);
    }
  }

  lemma FirstAgrees(setup: Setup, items: seq<ProofItem>, i: nat)
    requires Admitted(setup, items, |items|) && i < |items|
    ensures var first := FirstIndex(items, items[i].stateId);
            && first <= i && items[first].stateId == items[i].stateId && IsFirst(items, first)
            && Agrees(items[first].proof, items[i].proof)
  {
    hide FirstIndex, Distinct, Members, Route;
    FirstIsFirst(items, i);
    assert Admits(setup, items, i);
  }

  lemma {:induction false} DistinctWithin(setup: Setup, items: seq<ProofItem>, n: nat)
    requires n <= |items| && Admitted(setup, items, n)
    ensures |Distinct(items, n)| <= setup.endpoints * MAX_BATCH_STATE_IDS
  {
    hide IsFirst, Members, Route;
    if n > 0 {
      DistinctWithin(setup, items, n - 1);
      assert Admits(setup, items, n - 1);
    }
  }

  lemma {:induction false} MembersWithin(setup: Setup, items: seq<ProofItem>, n: nat, s: nat)
    requires n <= |items| && Admitted(setup, items, n)
    ensures |Members(setup, items, n, s)| <= MAX_BATCH_STATE_IDS
  {
    hide IsFirst, Distinct, Route;
    if n > 0 {
      MembersWithin(setup, items, n - 1, s);
      assert Admits(setup, items, n - 1);
    }
  }

  lemma AdmittedStep(setup: Setup, items: seq<ProofItem>, n: nat)
    requires n < |items| && Admitted(setup, items, n)
    ensures Admits(setup, items, n) ==> Admitted(setup, items, n + 1)
    ensures !Admits(setup, items, n) ==> !Admitted(setup, items, |items|)
  {
    hide Admits;
  }

  /** The attempt may go on at every checkpoint from `from` up to `to`. */
  ghost predicate Alive(live: nat -> bool, from: nat, to: nat) {
    forall k :: from <= k < to ==> live(k)
  }

  lemma AliveStep(live: nat -> bool, from: nat, tick: nat, to: nat)
    requires from <= tick < to && Alive(live, from, tick)
    ensures live(tick) ==> Alive(live, from, tick + 1)
    ensures !live(tick) ==> !Alive(live, from, to)
  {
  }

  ghost predicate Tables(setup: Setup, items: seq<ProofItem>, n: nat, firstOf: seq<nat>, shardOf: seq<nat>)
    requires n <= |items|
  {
    && |firstOf| == n && (forall i :: 0 <= i < n ==> firstOf[i] == FirstIndex(items, items[i].stateId))
    && |shardOf| == n && (forall i :: 0 <= i < n ==> shardOf[i] == Route(setup.shards, items[i].stateId))
  }

  lemma TablesStep(setup: Setup, items: seq<ProofItem>, n: nat, firstOf: seq<nat>, shardOf: seq<nat>, first: nat,
                   si: nat)
    requires n < |items| && Tables(setup, items, n, firstOf, shardOf)
    requires first == FirstIndex(items, items[n].stateId) && si == Route(setup.shards, items[n].stateId)
    ensures Tables(setup, items, n + 1, firstOf + [first], shardOf + [si])
  {
    hide FirstIndex, Route;
    var f, s := firstOf + [first], shardOf + [si];
    forall i | 0 <= i < n + 1 ensures f[i] == FirstIndex(items, items[i].stateId) && s[i] == Route(setup.shards, items[i].stateId) {
      if i < n {
        assert f[i] == firstOf[i] && s[i] == shardOf[i];
      }
    }
  }

  lemma IsFirstMeans(items: seq<ProofItem>, i: nat)
    requires i < |items| && IsFirst(items, i)
    ensures FirstIndex(items, items[i].stateId) == i
  {
  }

  lemma ValidSetupMeans(setup: Setup)
    requires ValidSetup(setup)
    ensures Canonical(setup.shards) && |setup.endpointOf| == |setup.shards|
  {
  }

  lemma GroupsOfIntro(setup: Setup, items: seq<ProofItem>, groups: seq<Group>, firstOf: seq<nat>, shardOf: seq<nat>)
    requires |setup.shards| == |setup.endpointOf| && groups == GroupsBelow(setup, items, |setup.shards|)
    requires Tables(setup, items, |items|, firstOf, shardOf)
    ensures GroupsOf(setup, items, groups, firstOf, shardOf)
  {
  }

  lemma StartEmpty(setup: Setup, items: seq<ProofItem>, slots: seq<Option<Group>>, live: nat -> bool, start: nat)
    requires |setup.shards| == |setup.endpointOf| == |slots| && forall s :: 0 <= s < |slots| ==> slots[s].None?
    ensures Seen(items, 0, map[]) && Slots(setup, items, 0, slots)
    ensures Tables(setup, items, 0, [], []) && Admitted(setup, items, 0) && Alive(live, start, start)
  {
  }

  lemma SeenLookup(items: seq<ProofItem>, n: nat, seen: map<Digest, nat>)
    requires n < |items| && Seen(items, n, seen)
    ensures items[n].stateId in seen ==> seen[items[n].stateId] == FirstIndex(items, items[n].stateId) < n
  {
  }

  lemma SeenCount(items: seq<ProofItem>, n: nat, seen: map<Digest, nat>)
    requires n <= |items| && Seen(items, n, seen)
    ensures |seen| == |Distinct(items, n)|
  {
  }

  lemma SlotsSize(setup: Setup, items: seq<ProofItem>, n: nat, slots: seq<Option<Group>>)
    requires n <= |items| && |setup.shards| == |setup.endpointOf| && Slots(setup, items, n, slots)
    ensures |slots| == |setup.shards|
  {
  }

  lemma SlotLengths(setup: Setup, items: seq<ProofItem>, n: nat, slots: seq<Option<Group>>, s: nat)
    requires n <= |items| && |setup.shards| == |setup.endpointOf| && Slots(setup, items, n, slots)
    requires s < |slots| && slots[s].Some?
    ensures |slots[s].value.ids| == |slots[s].value.items| == |Members(setup, items, n, s)|
  {
    assert slots[s] == SlotFor(setup, items, n, s);
  }

  method Flatten(setup: Setup, ghost items: seq<ProofItem>, slots: seq<Option<Group>>) returns (groups: seq<Group>)
    requires |setup.shards| == |setup.endpointOf| && Slots(setup, items, |items|, slots)
    ensures groups == GroupsBelow(setup, items, |setup.shards|)
  {
    hide SlotFor;
    groups := [];
    for s := 0 to |slots|
      invariant groups == GroupsBelow(setup, items, s)
    {
      assert slots[s] == SlotFor(setup, items, |items|, s);
      if slots[s].Some? {
        groups := groups + [slots[s].value];
      }
    }
  }

  // ---- grouping partitions the distinct states by shard ----

  /** Every distinct state is in the group of its shard. */
  lemma {:induction false} MemberOfShard(setup: Setup, items: seq<ProofItem>, n: nat, i: nat)
    requires i < n <= |items| && IsFirst(items, i)
    ensures i in Members(setup, items, n, Route(setup.shards, items[i].stateId))
  {
    hide IsFirst, Route;
    if i < n - 1 {
      MemberOfShard(setup, items, n - 1, i);
    }
  }

  lemma {:induction false} MembersIncrease(setup: Setup, items: seq<ProofItem>, n: nat, s: nat, i: nat, j: nat)
    requires n <= |items| && i < j < |Members(setup, items, n, s)|
    ensures Members(setup, items, n, s)[i] < Members(setup, items, n, s)[j]
  {
    hide IsFirst, Route;
    var below := Members(setup, items, n - 1, s);
    if j < |below| {
      MembersIncrease(setup, items, n - 1, s, i, j);
    } else {
      assert Members(setup, items, n, s)[i] == below[i] && below[i] in below;
    }
  }

  /** What each group is. */
  lemma {:induction false} GroupIs(setup: Setup, items: seq<ProofItem>, n: nat, k: nat) returns (s: nat)
    requires n <= |setup.shards| == |setup.endpointOf| && k < |GroupsBelow(setup, items, n)|
    ensures s < n && SlotFor(setup, items, |items|, s) == Some(GroupsBelow(setup, items, n)[k])
  {
    hide SlotFor;
    if k < |GroupsBelow(setup, items, n - 1)| {
      s := GroupIs(setup, items, n - 1, k);
    } else {
      s := n - 1;
    }
  }

  lemma {:induction false} GroupOf(setup: Setup, items: seq<ProofItem>, n: nat, s: nat) returns (k: nat)
    requires s < n <= |setup.shards| == |setup.endpointOf| && SlotFor(setup, items, |items|, s).Some?
    ensures k < |GroupsBelow(setup, items, n)|
    ensures SlotFor(setup, items, |items|, s) == Some(GroupsBelow(setup, items, n)[k])
  {
    hide SlotFor;
    if s == n - 1 {
      k := |GroupsBelow(setup, items, n - 1)|;
    } else {
      k := GroupOf(setup, items, n - 1, s);
    }
  }

  /** Every input's first occurrence stands in exactly one group, that of the shard it routes to. */
  lemma EveryStateGrouped(setup: Setup, items: seq<ProofItem>, groups: seq<Group>, firstOf: seq<nat>,
                          shardOf: seq<nat>, i: nat)
    returns (k: nat, at: nat)
    requires ValidSetup(setup) && GroupsOf(setup, items, groups, firstOf, shardOf) && i < |items|
    ensures k < |groups| && at < |groups[k].items| && groups[k].items[at] == firstOf[i]
    ensures shardOf[i] < |setup.shards| && groups[k].shard == setup.shards[shardOf[i]] <= KeyBits(items[i].stateId)
    ensures forall h, b :: 0 <= h < |groups| && 0 <= b < |groups[h].items| && groups[h].items[b] == firstOf[i] ==> h == k && b == at
  {
    hide KeyBits, Canonical, Members, FirstIndex, GroupsBelow;
    var f, s := firstOf[i], shardOf[i];
    FirstIsFirst(items, i);
    RouteLands(setup.shards, items[i].stateId);
    assert items[f].stateId == items[i].stateId;
    MemberOfShard(setup, items, |items|, f);
    var m := Members(setup, items, |items|, s);
    at :| 0 <= at < |m| && m[at] == f;
    k := GroupOf(setup, items, |setup.shards|, s);
    forall h, b | 0 <= h < |groups| && 0 <= b < |groups[h].items| && groups[h].items[b] == f ensures h == k && b == at {
      var s' := GroupIs(setup, items, |setup.shards|, h);
      assert f in Members(setup, items, |items|, s');
      assert s' == s;
      GroupPlace(setup, items, |setup.shards|, h, k, s);
      if b < at {
        MembersIncrease(setup, items, |items|, s, b, at);
      } else if at < b {
        MembersIncrease(setup, items, |items|, s, at, b);
      }
    }
  }

  /** One group per shard. */
  lemma {:induction false} GroupPlace(setup: Setup, items: seq<ProofItem>, n: nat, h: nat, k: nat, s: nat)
    requires n <= |setup.shards| == |setup.endpointOf| && s < |setup.shards|
    requires h < |GroupsBelow(setup, items, n)| && k < |GroupsBelow(setup, items, n)|
    requires SlotFor(setup, items, |items|, s) == Some(GroupsBelow(setup, items, n)[h]) == Some(GroupsBelow(setup, items, n)[k])
    ensures h == k
  {
    hide Members, Route, IsFirst;
    var below := |GroupsBelow(setup, items, n - 1)|;
    if h < below && k < below {
      GroupPlace(setup, items, n - 1, h, k, s);
    } else if h != k {
      var other := GroupIs(setup, items, n - 1, if h < below then h else k);
      SlotShards(setup, items, other, n - 1);
    }
  }

  lemma SlotShards(setup: Setup, items: seq<ProofItem>, a: nat, b: nat)
    requires a < |setup.shards| == |setup.endpointOf| && b < |setup.shards|
    requires SlotFor(setup, items, |items|, a).Some?
    requires SlotFor(setup, items, |items|, a) == SlotFor(setup, items, |items|, b)
    ensures a == b
  {
    hide IsFirst;
    var m := Members(setup, items, |items|, a);
    assert m[0] in m;
  }
}
