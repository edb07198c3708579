/** The threaded wave executor as a step system: workers claim indexes from a shared counter, run the
    job, and store the result under a lock.  Any interleaving of their steps is a run.
 */
module Wave {
  import opened Hashing

  datatype Worker<T> =
    | Idle
    | Claimed(index: nat)
    | Computed(index: nat, value: T)
    | Stopped

  /** `executed[i]` counts how often job `i` was run. */
  datatype State<T> = State(next: nat, results: seq<Option<T>>, executed: seq<nat>, workers: seq<Worker<T>>)

  function Initial<T>(jobs: nat, workers: nat): (s: State<T>) {
    State(0, seq(jobs, _ => None), seq(jobs, _ => 0), seq(workers, _ => Idle))
  }

  /** One atomic step of worker `w`; `job(i)` is what running job `i` returns. */
  function Step<T>(job: nat -> T, s: State<T>, w: nat): (r: State<T>)
    requires w < |s.workers| && !s.workers[w].Stopped? && |s.executed| == |s.results|
    requires s.workers[w].Claimed? || s.workers[w].Computed? ==> s.workers[w].index < |s.results|
  {
    match s.workers[w]
    case Idle =>
      var i := s.next;
      s.(next := i + 1, workers := s.workers[w := if i < |s.results| then Claimed(i) else Stopped])
    case Claimed(i) =>
      s.(executed := s.executed[i := s.executed[i] + 1], workers := s.workers[w := Computed(i, job(i))])
    case Computed(i, v) =>
      s.(results := s.results[i := Some(v)], workers := s.workers[w := Idle])
  }

  // ---- the invariant ----

  predicate Holds<T>(x: Worker<T>, i: nat) { (x.Claimed? || x.Computed?) && x.index == i }

  /** What a worker knows about the index it holds. */
  ghost predicate WorkerOk<T(!new)>(job: nat -> T, s: State<T>, x: Worker<T>)
    requires |s.executed| == |s.results|
  {
    match x
    case Idle => true
    case Claimed(i) => i < |s.results| && i < s.next && s.results[i].None? && s.executed[i] == 0
    case Computed(i, v) => i < |s.results| && i < s.next && s.results[i].None? && s.executed[i] == 1 && v == job(i)
    case Stopped => s.next >= |s.results|
  }

  /** Job `i` is not yet claimed, in the hands of a worker, or finished with its own result. */
  ghost predicate JobOk<T(!new)>(job: nat -> T, s: State<T>, i: nat)
    requires |s.executed| == |s.results| && i < |s.results|
  {
    if i >= s.next then s.results[i].None? && s.executed[i] == 0
    else (s.results[i] == Some(job(i)) && s.executed[i] == 1) || exists w :: 0 <= w < |s.workers| && Holds(s.workers[w], i)
  }

  ghost predicate Inv<T(!new)>(job: nat -> T, s: State<T>) {
    && |s.executed| == |s.results|
    && (forall w :: 0 <= w < |s.workers| ==> WorkerOk(job, s, s.workers[w]))
    && (forall v, w, i :: 0 <= v < |s.workers| && 0 <= w < |s.workers| && Holds(s.workers[v], i) && Holds(s.workers[w], i) ==> v == w)
    && (forall i :: 0 <= i < |s.results| ==> JobOk(job, s, i))
  }

  lemma InitialInv<T(!new)>(job: nat -> T, jobs: nat, workers: nat)
    ensures Inv(job, Initial<T>(jobs, workers))
  {
  }

  /** Some worker still holds what it held, when another one moves. */
  lemma HolderKept<T(!new)>(s: State<T>, r: State<T>, w: nat, i: nat)
    requires w < |s.workers| && |r.workers| == |s.workers|
    requires forall v :: 0 <= v < |s.workers| && v != w ==> r.workers[v] == s.workers[v]
    requires exists v :: 0 <= v < |s.workers| && v != w && Holds(s.workers[v], i)
    ensures exists v :: 0 <= v < |r.workers| && Holds(r.workers[v], i)
  {
    var v :| 0 <= v < |s.workers| && v != w && Holds(s.workers[v], i);
    assert Holds(r.workers[v], i);
  }

  /** Every step of every worker keeps the invariant. */
  lemma StepInv<T(!new)>(job: nat -> T, s: State<T>, w: nat)
    requires Inv(job, s) && w < |s.workers| && !s.workers[w].Stopped?
    ensures WorkerOk(job, s, s.workers[w])
    ensures Inv(job, Step(job, s, w))
  {
    assert WorkerOk(job, s, s.workers[w]);
    assert s.next < |s.results| ==> JobOk(job, s, s.next);
    var r := Step(job, s, w);
    forall v | 0 <= v < |r.workers| ensures WorkerOk(job, r, r.workers[v]) {
      assert WorkerOk(job, s, s.workers[v]);
      if v != w && s.workers[w].Computed? {
        assert forall i :: Holds(s.workers[v], i) ==> !Holds(s.workers[w], i);
        assert Holds(s.workers[w], s.workers[w].index);
        assert Holds(s.workers[v], s.workers[w].index) ==> v == w;
      }
      if v != w && s.workers[w].Claimed? {
        assert Holds(s.workers[w], s.workers[w].index);
        assert Holds(s.workers[v], s.workers[w].index) ==> v == w;
      }
    }
    forall i | 0 <= i < |r.results| ensures JobOk(job, r, i) {
      assert JobOk(job, s, i);
      if Holds(r.workers[w], i) {
      } else if s.workers[w].Computed? && s.workers[w].index == i {
      } else if exists v :: 0 <= v < |s.workers| && Holds(s.workers[v], i) {
        var v :| 0 <= v < |s.workers| && Holds(s.workers[v], i);
        assert v != w;
        HolderKept(s, r, w, i);
      }
    }
    forall v, x, i | 0 <= v < |r.workers| && 0 <= x < |r.workers| && Holds(r.workers[v], i) && Holds(r.workers[x], i)
      ensures v == x
    {
      assert WorkerOk(job, s, s.workers[v]) && WorkerOk(job, s, s.workers[x]);
    }
  }

  // ---- whole runs ----

  /** A run: the states passed and the worker that moved at each step. */
  ghost predicate IsRun<T(!new)>(job: nat -> T, jobs: nat, workers: nat, states: seq<State<T>>, moves: seq<nat>) {
    && |states| == |moves| + 1 && states[0] == Initial<T>(jobs, workers)
    && forall k :: 0 <= k < |moves| ==> Moves(job, states[k], states[k + 1], moves[k])
  }

  ghost predicate Moves<T(!new)>(job: nat -> T, s: State<T>, r: State<T>, w: nat) {
    && w < |s.workers| && !s.workers[w].Stopped? && |s.executed| == |s.results|
    && (s.workers[w].Claimed? || s.workers[w].Computed? ==> s.workers[w].index < |s.results|)
    && r == Step(job, s, w)
  }

  lemma {:induction false} RunInv<T(!new)>(job: nat -> T, jobs: nat, workers: nat, states: seq<State<T>>,
                                           moves: seq<nat>, k: nat)
    requires IsRun(job, jobs, workers, states, moves) && k < |states|
    ensures Inv(job, states[k]) && |states[k].results| == jobs && |states[k].workers| == workers
  {
    hide Inv;
    if k == 0 {
      InitialInv(job, jobs, workers);
    } else {
      RunInv(job, jobs, workers, states, moves, k - 1);
      assert Moves(job, states[k - 1], states[k], moves[k - 1]);
      StepInv(job, states[k - 1], moves[k - 1]);
    }
  }

  ghost predicate AllStopped<T(!new)>(s: State<T>) {
    forall w :: 0 <= w < |s.workers| ==> s.workers[w].Stopped?
  }

  /** Under every interleaving, no job runs twice; and once all workers have stopped, every job has run
      exactly once and its result stands at its own place. */
  lemma EveryJobOnce<T(!new)>(job: nat -> T, jobs: nat, workers: nat, states: seq<State<T>>, moves: seq<nat>, i: nat)
    requires IsRun(job, jobs, workers, states, moves) && workers > 0 && i < jobs
    ensures var s := states[|moves|];
            && |s.results| == |s.executed| == jobs && s.executed[i] <= 1
            && (AllStopped(s) ==> s.executed[i] == 1 && s.results[i] == Some(job(i)))
  {
    var s := states[|moves|];
    RunInv(job, jobs, workers, states, moves, |moves|);
    assert JobOk(job, s, i) && WorkerOk(job, s, s.workers[0]);
    if i < s.next && !(s.results[i] == Some(job(i)) && s.executed[i] == 1) {
      var w :| 0 <= w < |s.workers| && Holds(s.workers[w], i);
      assert WorkerOk(job, s, s.workers[w]);
    }
  }

  // ---- every run ends ----

  /** Steps a worker still makes before it asks for the next index. */
  function Ahead<T>(x: Worker<T>): (n: nat) {
    match x
    case Idle => 1
    case Claimed(_) => 3
    case Computed(_, _) => 2
    case Stopped => 0
  }

  function WorkersAhead<T>(workers: seq<Worker<T>>): (n: nat) {
    if workers == [] then 0 else Ahead(workers[0]) + WorkersAhead(workers[1..])
  }

  lemma {:induction false} OneWorkerMoves<T>(workers: seq<Worker<T>>, w: nat, x: Worker<T>)
    requires w < |workers|
    ensures WorkersAhead(workers[w := x]) + Ahead(workers[w]) == WorkersAhead(workers) + Ahead(x)
  {
    hide Ahead;
    if w == 0 {
      assert workers[w := x][1..] == workers[1..];
    } else {
      OneWorkerMoves(workers[1..], w - 1, x);
      assert workers[w := x][1..] == workers[1..][w - 1 := x];
    }
  }

  /** An upper bound on the steps left: three for every unclaimed job, and those under way. */
  function Left<T>(s: State<T>): (n: nat) {
    3 * (if s.next < |s.results| then |s.results| - s.next else 0) + WorkersAhead(s.workers)
  }

  /** Every step brings the end nearer, so no interleaving goes on for ever. */
  lemma StepsRunOut<T(!new)>(job: nat -> T, s: State<T>, r: State<T>, w: nat)
    requires Moves(job, s, r, w)
    ensures Left(r) < Left(s)
  {
    hide WorkersAhead;
    OneWorkerMoves(s.workers, w, r.workers[w]);
  }

  /** No run has more than three steps per job and one per worker. */
  lemma {:induction false} RunLength<T(!new)>(job: nat -> T, jobs: nat, workers: nat, states: seq<State<T>>,
                                              moves: seq<nat>, k: nat)
    requires IsRun(job, jobs, workers, states, moves) && k < |states|
    ensures k + Left(states[k]) <= 3 * jobs + workers
  {
    hide Left, Step;
    if k == 0 {
      LeftInitially<T>(jobs, workers);
    } else {
      RunLength(job, jobs, workers, states, moves, k - 1);
      assert Moves(job, states[k - 1], states[k], moves[k - 1]);
      StepsRunOut(job, states[k - 1], states[k], moves[k - 1]);
    }
  }

  lemma LeftInitially<T>(jobs: nat, workers: nat)
    ensures Left(Initial<T>(jobs, workers)) == 3 * jobs + workers
  {
    AllIdle<T>(workers);
  }

  lemma {:induction false} AllIdle<T>(workers: nat)
    ensures WorkersAhead(seq<Worker<T>>(workers, _ => Idle)) == workers
  {
    if workers > 0 {
      AllIdle<T>(workers - 1);
      assert seq<Worker<T>>(workers, _ => Idle)[1..] == seq<Worker<T>>(workers - 1, _ => Idle);
    }
  }
}
