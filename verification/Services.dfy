/** The services of the shards as a consolidation sees them: requests, deadlines, and the second wave. */
module Services {
  import opened Hashing
  import opened Bft
  import opened Tokens
  import opened Admission
  import opened Replacement
  import opened Assemble

  datatype Response = Served(batch: Batch<PartitionView>) | Failed(stop: Stop)

  /** The trusted configuration of a consolidator, and everything outside its control: which
      checkpoints it survives, and what the services answer. */
  datatype Attempt = Attempt(
    setup: Setup, pins: Pins, policy: Digest, master: Option<ShardId>,
    live: nat -> bool, latest: nat -> Response, exact: (nat, Digest) -> Response)

  /** The attempt survives every checkpoint. */
  ghost predicate Uncancelled(a: Attempt) {
    forall k :: a.live(k)
  }

  /** Some service failed with this. */
  ghost predicate Said(a: Attempt, stop: Stop) {
    || (exists k: nat :: a.latest(k) == Failed(stop))
    || (exists k: nat, root: Digest :: a.exact(k, root) == Failed(stop))
  }

  ghost predicate Interrupted(a: Attempt) {
    exists k: nat :: !a.live(k)
  }

  /** What may end the requests and the placing: an answer that is refused, a failure of a service, or the
      end of the attempt. */
  ghost predicate Real(a: Attempt, stop: Stop) {
    || stop == Integrity || stop == InvalidResponse || stop == Unavailable
    || Said(a, stop) || (stop == Cancelled && Interrupted(a))
  }

  /** One request, between two checks of the deadline. */
  method Fetch(live: nat -> bool, response: Response, tick: nat, requests: nat)
    returns (r: Response, tick': nat, requests': nat)
    ensures requests' <= requests + 1 && (r.Served? ==> r == response && requests' == requests + 1)
    ensures r.Served? <==> response.Served? && live(tick) && live(tick + 1)
    ensures r.Served? ==> tick' == tick + 2
    ensures r.Failed? ==> r == response || (r.stop == Cancelled && !(live(tick) && live(tick + 1)))
  {
    if !live(tick) {
      return Failed(Cancelled), tick + 1, requests;
    }
    requests' := requests + 1;
    if !live(tick + 1) {
      return Failed(Cancelled), tick + 2, requests';
    }
    r, tick' := response, tick + 2;
  }

  datatype Job = Job(group: nat, root: Digest)

  /** The groups other than the master's. */
  function Others(n: nat, master: nat): (s: seq<nat>)
    ensures |s| == if master < n then n - 1 else n
    ensures forall j :: 0 <= j < |s| ==> s[j] < n && s[j] != master
  {
    if n == 0 then [] else Others(n - 1, master) + if n - 1 == master then [] else [n - 1]
  }

  lemma {:induction false} OthersAll(n: nat, master: nat, k: nat) returns (j: nat)
    requires k < n && k != master
    ensures j < |Others(n, master)| && Others(n, master)[j] == k
  {
    if k == n - 1 {
      j := |Others(n, master)| - 1;
    } else {
      j := OthersAll(n - 1, master, k);
    }
  }

  /** One job for every group but the master's, in order. */
  ghost predicate JobsFor(jobs: seq<Job>, n: nat, master: nat) {
    |jobs| == |Others(n, master)| && forall j :: 0 <= j < |jobs| ==> jobs[j].group == Others(n, master)[j]
  }

  ghost predicate AllServed(results: seq<Response>) {
    forall j :: 0 <= j < |results| ==> results[j].Served?
  }

  lemma AllServedMore(results: seq<Response>, r: Response)
    ensures AllServed(results + [r]) <==> AllServed(results) && r.Served?
  {
    assert forall j :: 0 <= j < |results| ==> (results + [r])[j] == results[j];
    assert (results + [r])[|results|] == r;
    if AllServed(results + [r]) {
      forall j | 0 <= j < |results| ensures results[j].Served? {
        assert (results + [r])[j].Served?;
      }
    }
  }

  /** After the first failure every result is a cancellation. */
  ghost predicate AbortedAfter(results: seq<Response>) {
    forall i, j :: 0 <= i < j < |results| && results[i].Failed? ==> results[j] == Failed(Cancelled)
  }

  lemma AbortedMore(results: seq<Response>, r: Response)
    requires AbortedAfter(results) && (AllServed(results) || r == Failed(Cancelled))
    ensures AbortedAfter(results + [r])
  {
  }

  /** Position `k` holds the first failure. */
  ghost predicate Origin(results: seq<Response>, k: nat) {
    k < |results| && results[k].Failed? && forall i :: 0 <= i < k ==> results[i].Served?
  }

  lemma FirstFailure(results: seq<Response>, r: Response)
    requires AllServed(results) && r.Failed?
    ensures Origin(results + [r], |results|) && (results + [r])[|results|] == r
  {
  }

  lemma OriginKept(results: seq<Response>, r: Response)
    ensures forall k: nat :: Origin(results, k) ==> Origin(results + [r], k) && (results + [r])[k] == results[k]
  {
  }

  lemma FailureIsReal(a: Attempt, job: Job, r: Response, tick: nat)
    requires r.Failed?
    requires || r == a.exact(job.group, job.root)
             || (r.stop == Cancelled && exists k: nat :: !a.live(k))
    ensures Real(a, r.stop)
  {
  }

  /** The second wave, one job after another: one result per job, in the order of the jobs.  A failure
      aborts the attempt, so that no job after it sends a request. */
  method FetchAll(a: Attempt, jobs: seq<Job>, start: nat, requests: nat)
    returns (results: seq<Response>, tick: nat, requests': nat)
    ensures |results| == |jobs| && AbortedAfter(results)
    ensures !AllServed(results) ==> exists k: nat :: Origin(results, k) && Real(a, results[k].stop)
    ensures AllServed(results) ==> requests' == requests + |jobs|
    ensures AllServed(results) ==> tick == start + 2 * |jobs| && Alive(a.live, start, tick)
    ensures forall k :: 0 <= k < |results| && results[k].Failed? ==> requests' <= requests + k + 1
    ensures forall j :: 0 <= j < |jobs| && results[j].Served? ==> results[j] == a.exact(jobs[j].group, jobs[j].root)
    ensures Uncancelled(a) && (forall j :: 0 <= j < |jobs| ==> a.exact(jobs[j].group, jobs[j].root).Served?) ==> AllServed(results)
  {
    results, tick, requests' := [], start, requests;
    var aborted := false;
    for i := 0 to |jobs|
      invariant |results| == i && AbortedAfter(results)
      invariant aborted <==> !AllServed(results)
      invariant aborted ==> exists k: nat :: Origin(results, k) && Real(a, results[k].stop)
      invariant AllServed(results) ==> requests' == requests + i
      invariant AllServed(results) ==> tick == start + 2 * i && Alive(a.live, start, tick)
      invariant forall k :: 0 <= k < |results| && results[k].Failed? ==> requests' <= requests + k + 1
      invariant forall j :: 0 <= j < i && results[j].Served? ==> results[j] == a.exact(jobs[j].group, jobs[j].root)
      invariant Uncancelled(a) && (forall j :: 0 <= j < |jobs| ==> a.exact(jobs[j].group, jobs[j].root).Served?) ==>
                  AllServed(results)
    {
      var r := Failed(Cancelled);
      if aborted {
        tick := tick + 1;
      } else {
        r, tick, requests' := Fetch(a.live, a.exact(jobs[i].group, jobs[i].root), tick, requests');
        aborted := r.Failed?;
        if aborted {
          FailureIsReal(a, jobs[i], r, tick);
          FirstFailure(results, r);
        }
      }
      AllServedMore(results, r);
      OriginKept(results, r);
      AbortedMore(results, r);
      results := results + [r];
    }
  }

  /** Position `j` holds the failure to report: only cancellations fail before it, and if it is one itself
      then nothing fails before it and only cancellations after it. */
  ghost predicate Reported(results: seq<Response>, j: nat) {
    && j < |results| && results[j].Failed?
    && (forall i :: 0 <= i < j ==> results[i].Served? || results[i] == Failed(Cancelled))
    && (results[j] == Failed(Cancelled) ==>
          && (forall i :: 0 <= i < j ==> results[i].Served?)
          && forall i :: 0 <= i < |results| ==> results[i].Served? || results[i] == Failed(Cancelled))
  }

  /** The failure to report: the first that is not a cancellation, or else the first. */
  method FirstStop(results: seq<Response>) returns (stop: Option<Stop>)
    ensures stop.None? <==> AllServed(results)
    ensures stop.Some? ==> exists j: nat :: Reported(results, j) && results[j] == Failed(stop.value)
  {
    stop := None;
    ghost var at := 0;
    for i := 0 to |results|
      invariant stop.None? <==> forall j :: 0 <= j < i ==> results[j].Served?
      invariant stop.Some? ==> at < i && Reported(results[..i], at) && results[at] == Failed(stop.value)
    {
      assert results[..i + 1] == results[..i] + [results[i]];
      if results[i].Failed? && (stop.None? || (stop == Some(Cancelled) && results[i].stop != Cancelled)) {
        stop, at := Some(results[i].stop), i;
      }
    }
    assert results[..|results|] == results;
  }

  /** What is reported of an aborted wave is the failure that aborted it. */
  lemma OriginReported(results: seq<Response>, j: nat, k: nat)
    requires AbortedAfter(results) && Reported(results, j) && Origin(results, k)
    ensures results[j] == results[k]
  {
    assert k <= j;
  }

  /** A batch answers its request: one proof per state, each bound to the original certification, all
      under one certificate; an exact answer carries no view and has the requested root. */
  predicate BatchOk(g: Group, items: seq<ProofItem>, batch: Batch<PartitionView>, root: Option<Digest>)
    requires Within(items, g)
  {
    && |batch.proofs| == |g.items|
    && (root.Some? ==> batch.view.None?)
    && (forall k :: 0 <= k < |g.items| ==>
          && Agrees(items[g.items[k]].proof, batch.proofs[k])
          && batch.proofs[k].uc == batch.proofs[0].uc)
    && (root.Some? && |batch.proofs| > 0 ==> batch.proofs[0].uc.inputRecord.hash == Some(root.value))
  }

  /** What a refused batch has wrong: its shape, or its binding to the originals and to the requested root. */
  ghost predicate BatchRefused(g: Group, items: seq<ProofItem>, batch: Batch<PartitionView>, root: Option<Digest>,
                               stop: Stop)
    requires Within(items, g)
  {
    match stop
    case InvalidResponse =>
      || |batch.proofs| != |g.items| || (root.Some? && batch.view.Some?)
      || exists k :: 0 <= k < |batch.proofs| && batch.proofs[k].uc != batch.proofs[0].uc
    case Integrity =>
      && |batch.proofs| == |g.items|
      && (|| (exists k :: 0 <= k < |g.items| && !BoundTo(items[g.items[k]].proof, batch.proofs[k]))
          || (root.Some? && batch.proofs != [] && batch.proofs[0].uc.inputRecord.hash != Some(root.value)))
    case _ => false
  }

  /** The served proof is for the very certification, at the very time. */
  predicate BoundTo(original: InclusionProof, served: InclusionProof) {
    served.certification == original.certification && served.referenceTime == original.referenceTime
  }

  /** The checks of a batch in order. */
  method CheckBatch(g: Group, items: seq<ProofItem>, batch: Batch<PartitionView>, root: Option<Digest>)
    returns (stop: Option<Stop>)
    requires Within(items, g)
    ensures stop.None? <==> BatchOk(g, items, batch, root)
    ensures stop.Some? ==> BatchRefused(g, items, batch, root, stop.value)
  {
    if |batch.proofs| != |g.items| || (root.Some? && batch.view.Some?) {
      return Some(InvalidResponse);
    }
    for k := 0 to |g.items|
      invariant forall j :: 0 <= j < k ==>
                  && Agrees(items[g.items[j]].proof, batch.proofs[j]) && batch.proofs[j].uc == batch.proofs[0].uc
    {
      var original, served := items[g.items[k]].proof, batch.proofs[k];
      if served.certification != original.certification || served.referenceTime != original.referenceTime {
        assert !BoundTo(original, served);
        return Some(Integrity);
      }
      if served.uc != batch.proofs[0].uc {
        return Some(InvalidResponse);
      }
    }
    if root.Some? && |batch.proofs| > 0 && batch.proofs[0].uc.inputRecord.hash != Some(root.value) {
      return Some(Integrity);
    }
    return None;
  }

  lemma BatchSize(g: Group, items: seq<ProofItem>, batch: Batch<PartitionView>, root: Option<Digest>)
    requires Within(items, g) && BatchOk(g, items, batch, root)
    ensures |batch.proofs| == |g.items|
  {
  }
}
