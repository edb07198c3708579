/** A bounded FIFO set with hashed lookup, and the linear queue it stands for. */
module FifoIndex {

  datatype Slot<T> = Slot(seqNo: nat, hash: nat, value: T)

  // ---- the linear reference: a list with linear lookup and removal at the front ----

  datatype Entry<T> = Entry(hash: nat, value: T)

  function Enqueue<T>(queue: seq<Entry<T>>, capacity: nat, e: Entry<T>): (q: seq<Entry<T>>)
    ensures |queue| <= capacity ==> |q| <= capacity
  {
    if capacity == 0 then queue
    else if |queue| == capacity then queue[1..] + [e]
    else queue + [e]
  }

  ghost predicate Holds<T(!new)>(queue: seq<Entry<T>>, hash: nat, eq: T -> bool) {
    exists e :: e in queue && e.hash == hash && eq(e.value)
  }

  /** The least power of two not below `n`. */
  function NextPowerOfTwo(n: nat): (p: nat)
    ensures p >= 1 && p >= n
  {
    PowerAtLeast(1, n)
  }

  function PowerAtLeast(p: nat, n: nat): (q: nat)
    requires p >= 1
    ensures q >= p && q >= n
    decreases n - p
  {
    if p >= n then p else PowerAtLeast(2 * p, n)
  }

  // ---- buckets ----

  ghost predicate DistinctSeqs<T>(slots: seq<Slot<T>>) {
    forall i, j :: 0 <= i < j < |slots| ==> slots[i].seqNo != slots[j].seqNo
  }

  /** Slots with pairwise different numbers drawn from `queue` are no more than `queue`. */
  lemma {:induction false} NoMoreThan<T(!new)>(slots: seq<Slot<T>>, queue: seq<Slot<T>>)
    requires DistinctSeqs(slots) && forall s :: s in slots ==> s in queue
    ensures |slots| <= |queue|
  {
    if slots != [] {
      var init, last := slots[..|slots| - 1], slots[|slots| - 1];
      assert slots == init + [last] && last in slots;
      var k :| 0 <= k < |queue| && queue[k] == last;
      var rest := queue[..k] + queue[k + 1..];
      forall s | s in init ensures s in rest {
        assert s in slots;
        var j :| 0 <= j < |queue| && queue[j] == s;
        assert j != k;
        assert if j < k then rest[j] == s else rest[j - 1] == s;
      }
      NoMoreThan(init, rest);
    }
  }

  function SwapRemove<T>(s: seq<T>, i: nat): (r: seq<T>)
    requires i < |s|
  {
    s[i := s[|s| - 1]][..|s| - 1]
  }

  lemma SwapRemoveMembers<T(!new)>(s: seq<Slot<T>>, i: nat)
    requires i < |s| && DistinctSeqs(s)
    ensures DistinctSeqs(SwapRemove(s, i))
    ensures forall x :: x in SwapRemove(s, i) <==> x in s && x != s[i]
  {
    var r := SwapRemove(s, i);
    forall x | x in s && x != s[i] ensures x in r {
      var j :| 0 <= j < |s| && s[j] == x;
      assert if j < |s| - 1 then r[j] == x else r[i] == x;
    }
  }

  class FifoIndex<T(==,!new)> {
    const capacity: nat
    var buckets: seq<seq<Slot<T>>>
    var order: seq<(nat, nat)>
    var nextSeq: nat
    var probes: nat
    ghost var queue: seq<Slot<T>>

    ghost predicate Valid()
      reads this
    {
      && |buckets| == (if capacity == 0 then 0 else NextPowerOfTwo(capacity))
      && |queue| == |order| <= capacity
      && (forall i :: 0 <= i < |queue| ==> order[i] == (queue[i].seqNo, Bucket(queue[i].hash)))
      && Increasing(queue, nextSeq)
      && forall b :: 0 <= b < |buckets| ==> BucketOk(buckets[b], b, |buckets|, queue)
    }

    function Bucket(hash: nat): (b: nat)
      reads this
    {
      if |buckets| == 0 then 0 else hash % |buckets|
    }

    /** The content as the linear reference sees it, oldest first. */
    ghost function Entries(): (q: seq<Entry<T>>)
      reads this
    {
      View(queue)
    }

    constructor (capacity: nat)
      ensures Valid() && this.capacity == capacity && Entries() == [] && probes == 0
    {
      this.capacity := capacity;
      buckets := seq(if capacity == 0 then 0 else NextPowerOfTwo(capacity), _ => []);
      order := [];
      nextSeq := 0;
      probes := 0;
      queue := [];
    }

    /** Scan one bucket.  The answer is that of a linear search through everything held, and at most
        `capacity` slots are examined. */
    method Contains(hash: nat, eq: T -> bool) returns (found: bool)
      requires Valid()
      modifies this`probes
      ensures Valid()
      ensures found <==> Holds(Entries(), hash, eq)
      ensures old(probes) <= probes <= old(probes) + capacity
    {
      found := false;
      if capacity == 0 {
        return;
      }
      var b := Bucket(hash);
      assert BucketOk(buckets[b], b, |buckets|, queue);
      NoMoreThan(buckets[b], queue);
      var n := 0;
      while n < |buckets[b]|
        invariant n <= |buckets[b]|
        invariant probes == old(probes) + n
        invariant forall i :: 0 <= i < n ==> !(buckets[b][i].hash == hash && eq(buckets[b][i].value))
      {
        probes := probes + 1;
        var slot := buckets[b][n];
        if slot.hash == hash && eq(slot.value) {
          ghost var i :| 0 <= i < |queue| && queue[i] == slot;
          assert Entries()[i] == Entry(hash, slot.value);
          found := true;
          return;
        }
        n := n + 1;
      }
      NotHeld(queue, buckets[b], b, |buckets|, hash, eq);
    }

    /** Append, evicting the oldest entry when full: exactly the step of the linear queue. */
    method Insert(hash: nat, value: T)
      requires Valid()
      modifies this
      ensures Valid()
      ensures Entries() == Enqueue(old(Entries()), capacity, Entry(hash, value))
      ensures old(probes) <= probes <= old(probes) + capacity
    {
      if capacity == 0 {
        return;
      }
      if |order| == capacity {
        Evict();
      }
      var b := Bucket(hash);
      var slot := Slot(nextSeq, hash, value);
      PushKeepsAll(buckets, queue, slot, nextSeq);
      hide BucketOk;
      buckets := buckets[b := buckets[b] + [slot]];
      order := order + [(nextSeq, b)];
      queue := queue + [slot];
      nextSeq := nextSeq + 1;
    }

    /** Drop the oldest entry from the queue and from its bucket. */
    method Evict()
      requires Valid() && 0 < capacity == |order|
      modifies this`buckets, this`order, this`probes, this`queue
      ensures Valid()
      ensures queue == old(queue)[1..]
      ensures old(probes) <= probes <= old(probes) + capacity
    {
      var (seqNo, bucket) := order[0];
      ghost var oldest := queue[0];
      order := order[1..];
      var slots := buckets[bucket];
      assert BucketOk(slots, bucket, |buckets|, queue);
      NoMoreThan(slots, queue);
      assert oldest in slots;
      var i := 0;
      while slots[i].seqNo != seqNo
        invariant i < |slots| && (forall k :: 0 <= k < i ==> slots[k].seqNo != seqNo)
        invariant probes == old(probes) + i
        invariant buckets == old(buckets) && queue == old(queue) && order == old(order)[1..]
        decreases |slots| - i
      {
        probes := probes + 1;
        assert oldest in slots[i + 1..] by {
          ghost var k :| 0 <= k < |slots| && slots[k] == oldest;
        }
        i := i + 1;
      }
      probes := probes + 1;
      assert slots[i] == oldest;
      ghost var before := buckets;
      buckets := buckets[bucket := SwapRemove(slots, i)];
      forall c | 0 <= c < |buckets|
        ensures BucketOk(buckets[c], c, |buckets|, queue[1..])
      {
        assert BucketOk(before[c], c, |before|, queue);
        RemoveKeeps(before[c], c, |before|, queue, i, nextSeq);
      }
      queue := queue[1..];
    }
  }

  function View<T>(queue: seq<Slot<T>>): (q: seq<Entry<T>>)
    ensures |q| == |queue|
    ensures forall i :: 0 <= i < |q| ==> q[i] == Entry(queue[i].hash, queue[i].value)
  {
    seq(|queue|, i requires 0 <= i < |queue| => Entry(queue[i].hash, queue[i].value))
  }

  /** Sequence numbers grow along the queue and have all been handed out already. */
  ghost predicate Increasing<T>(queue: seq<Slot<T>>, nextSeq: nat) {
    && (forall i, j :: 0 <= i < j < |queue| ==> queue[i].seqNo < queue[j].seqNo)
    && (forall i :: 0 <= i < |queue| ==> queue[i].seqNo < nextSeq)
  }

  /** Bucket `b` of `n` holds exactly the queued slots whose hash selects it, each once. */
  ghost predicate BucketOk<T(!new)>(slots: seq<Slot<T>>, b: nat, n: nat, queue: seq<Slot<T>>) {
    && n > 0 && DistinctSeqs(slots)
    && forall s :: s in slots <==> s in queue && s.hash % n == b
  }

  lemma NotHeld<T(!new)>(queue: seq<Slot<T>>, slots: seq<Slot<T>>, b: nat, n: nat, hash: nat, eq: T -> bool)
    requires BucketOk(slots, b, n, queue) && b == hash % n
    requires forall i :: 0 <= i < |slots| ==> !(slots[i].hash == hash && eq(slots[i].value))
    ensures !Holds(View(queue), hash, eq)
  {
    forall e | e in View(queue) && e.hash == hash ensures !eq(e.value) {
      var i :| 0 <= i < |queue| && View(queue)[i] == e;
      assert queue[i] in slots;
    }
  }

  lemma PushKeeps<T(!new)>(slots: seq<Slot<T>>, b: nat, n: nat, queue: seq<Slot<T>>, slot: Slot<T>, nextSeq: nat)
    requires BucketOk(slots, b, n, queue) && Increasing(queue, nextSeq) && slot.seqNo == nextSeq
    ensures BucketOk(if slot.hash % n == b then slots + [slot] else slots, b, n, queue + [slot])
  {
    forall i | 0 <= i < |slots| ensures slots[i].seqNo != nextSeq {
      assert slots[i] in slots;
    }
  }

  lemma PushKeepsAll<T(!new)>(buckets: seq<seq<Slot<T>>>, queue: seq<Slot<T>>, slot: Slot<T>, nextSeq: nat)
    requires |buckets| > 0 && forall b :: 0 <= b < |buckets| ==> BucketOk(buckets[b], b, |buckets|, queue)
    requires Increasing(queue, nextSeq) && slot.seqNo == nextSeq
    ensures var b := slot.hash % |buckets|;
            var after := buckets[b := buckets[b] + [slot]];
            forall c :: 0 <= c < |buckets| ==> BucketOk(after[c], c, |buckets|, queue + [slot])
  {
    hide BucketOk;
    var b := slot.hash % |buckets|;
    var after := buckets[b := buckets[b] + [slot]];
    forall c | 0 <= c < |buckets|
      ensures BucketOk(after[c], c, |buckets|, queue + [slot])
    {
      PushKeeps(buckets[c], c, |buckets|, queue, slot, nextSeq);
    }
  }

  lemma RemoveKeeps<T(!new)>(slots: seq<Slot<T>>, b: nat, n: nat, queue: seq<Slot<T>>, i: nat, nextSeq: nat)
    requires BucketOk(slots, b, n, queue) && queue != [] && Increasing(queue, nextSeq)
    requires queue[0].hash % n == b ==> i < |slots| && slots[i] == queue[0]
    ensures BucketOk(if queue[0].hash % n == b then SwapRemove(slots, i) else slots, b, n, queue[1..])
  {
    assert queue == [queue[0]] + queue[1..];
    assert queue[0] !in queue[1..];
    if queue[0].hash % n == b {
      SwapRemoveMembers(slots, i);
    }
  }

  // ---- every run ----

  datatype Op<!T> = Lookup(hash: nat, eq: T -> bool) | Add(hash: nat, value: T)

  /** The linear queue after one operation, and the operation's answer if it has one. */
  ghost function After<T(!new)>(queue: seq<Entry<T>>, capacity: nat, op: Op<T>): (q: seq<Entry<T>>) {
    match op
    case Lookup(_, _) => queue
    case Add(hash, value) => Enqueue(queue, capacity, Entry(hash, value))
  }

  ghost function Answer<T(!new)>(queue: seq<Entry<T>>, op: Op<T>): (a: seq<bool>) {
    match op
    case Lookup(hash, eq) => [Holds(queue, hash, eq)]
    case Add(_, _) => []
  }

  /** Answers of the linear reference to a run of operations. */
  ghost function LinearRun<T(!new)>(queue: seq<Entry<T>>, capacity: nat, ops: seq<Op<T>>): (answers: seq<bool>)
    decreases ops
  {
    if ops == [] then []
    else Answer(queue, ops[0]) + LinearRun(After(queue, capacity, ops[0]), capacity, ops[1..])
  }

  /** Over any run, from any state, the index answers as the linear queue does, and examines at most
      `capacity` slots per operation. */
  method RunAll<T(==,!new)>(index: FifoIndex<T>, ops: seq<Op<T>>) returns (answers: seq<bool>)
    requires index.Valid()
    modifies index
    ensures index.Valid()
    ensures answers == LinearRun(old(index.Entries()), index.capacity, ops)
    ensures |index.Entries()| <= index.capacity
    ensures index.probes <= old(index.probes) + |ops| * index.capacity
  {
    hide After, Answer;
    answers := [];
    ghost var all := LinearRun(index.Entries(), index.capacity, ops);
    for i := 0 to |ops|
      invariant index.Valid()
      invariant all == answers + LinearRun(index.Entries(), index.capacity, ops[i..])
      invariant index.probes <= old(index.probes) + i * index.capacity
    {
      assert ops[i..][1..] == ops[i + 1..];
      var answer := Apply(index, ops[i]);
      answers := answers + answer;
      assert (i + 1) * index.capacity == i * index.capacity + index.capacity;
    }
  }

  /** One operation, with its answer if it has one. */
  method Apply<T(==,!new)>(index: FifoIndex<T>, op: Op<T>) returns (answer: seq<bool>)
    requires index.Valid()
    modifies index
    ensures index.Valid()
    ensures index.Entries() == After(old(index.Entries()), index.capacity, op)
    ensures answer == Answer(old(index.Entries()), op)
    ensures index.probes <= old(index.probes) + index.capacity
  {
    hide Holds, Enqueue;
    match op
    case Lookup(hash, eq) =>
      var found := index.Contains(hash, eq);
      answer := [found];
    case Add(hash, value) =>
      index.Insert(hash, value);
      answer := [];
  }
}
