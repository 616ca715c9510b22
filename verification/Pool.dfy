/** The round-robin worker pool of pkg/compressio/compressio.go.

    N workers each own an input and an output channel of capacity one and hold
    at most one chunk in between. The pool sends chunk k to worker k % N and
    receives results from the workers in the same rotation. The goroutines are
    steps of a transition system; schedule and stop are methods that take
    arbitrary worker steps wherever the source may block. */
module Pool {
  import opened Options

  type Err = nat
  const NIL: Err := 0

  datatype Job = Job(compressed: seq<bv8>, uncompressed: seq<bv8>, lastSum: seq<bv8>, sum: seq<bv8>)
  datatype Result = Result(chunk: Job, err: Err)

  /** One pass through the body of worker.work: hash and (de)compression are
      whatever this function says. */
  type Work = Job -> Result

  datatype Worker = Worker(input: Option<Job>, hand: Option<Job>, output: Option<Result>)

  const IDLE := Worker(None, None, None)

  // ---------------------------------------------------------------------
  // Steps of the worker goroutines
  // ---------------------------------------------------------------------

  predicate CanTake(w: Worker) { w.input.Some? && w.hand.None? }
  predicate CanEmit(w: Worker) { w.hand.Some? && w.output.None? }
  predicate CanStep(w: Worker) { CanTake(w) || CanEmit(w) }

  /** Finish the chunk in hand if the output channel has room, else take the
      next one. */
  function StepWorker(work: Work, w: Worker): Worker
    requires CanStep(w)
  {
    if CanEmit(w) then Worker(w.input, None, Some(work(w.hand.value)))
    else Worker(None, w.input, w.output)
  }

  function Load(w: Worker): nat {
    (if w.input.Some? then 2 else 0) + (if w.hand.Some? then 1 else 0)
  }

  lemma StepLowersLoad(work: Work, w: Worker)
    requires CanStep(w)
    ensures Load(StepWorker(work, w)) < Load(w)
  {
  }

  function OptSeq<T>(o: Option<T>): seq<T> {
    if o.Some? then [o.value] else []
  }

  function Finished(work: Work, o: Option<Job>): seq<Result> {
    if o.Some? then [work(o.value)] else []
  }

  /** The results this worker will deliver, in order. */
  function Held(work: Work, w: Worker): seq<Result> {
    OptSeq(w.output) + Finished(work, w.hand) + Finished(work, w.input)
  }

  lemma StepKeepsHeld(work: Work, w: Worker)
    requires CanStep(w)
    ensures Held(work, StepWorker(work, w)) == Held(work, w)
  {
  }

  /** A worker with nothing left to do on its own: its first result is in the
      output channel, and its input channel is free unless it holds three. */
  lemma SettledWorker(work: Work, w: Worker)
    requires !CanStep(w)
    ensures |Held(work, w)| <= 3
    ensures w.output.Some? <==> Held(work, w) != []
    ensures w.input.None? <==> |Held(work, w)| < 3
  {
  }

  // ---------------------------------------------------------------------
  // The rotation
  // ---------------------------------------------------------------------

  /** The worker whose turn it is after k sends, or k receives. */
  function Turn(k: nat, n: nat): (w: nat)
    requires n > 0
    ensures w < n
  {
    (k + 1) % n
  }

  lemma TurnIs(k: nat, n: nat)
    requires n > 0
    ensures Turn(k, n) == (k + 1) % n
  {
  }

  /** The results that worker w owes when jobs have been scheduled and lo of
      them received. */
  function Queue(work: Work, jobs: seq<Job>, n: nat, w: nat, lo: nat): seq<Result>
    requires n > 0
    decreases |jobs|
  {
    if |jobs| <= lo then []
    else
      var k := |jobs| - 1;
      Queue(work, jobs[..k], n, w, lo) + if |jobs| % n == w then [work(jobs[k])] else []
  }

  lemma {:induction false} QueueFront(work: Work, jobs: seq<Job>, n: nat, w: nat, lo: nat)
    requires n > 0 && lo < |jobs|
    ensures Queue(work, jobs, n, w, lo) ==
            (if Turn(lo, n) == w then [work(jobs[lo])] else []) + Queue(work, jobs, n, w, lo + 1)
    decreases |jobs|
  {
    var k := |jobs| - 1;
    if lo < k {
      QueueFront(work, jobs[..k], n, w, lo);
    }
  }

  lemma DivStep(x: int, n: int)
    requires n > 0
    ensures x / n - (x - 1) / n == if x % n == 0 then 1 else 0
  {
    var q, r := x / n, x % n;
    assert x == n * q + r;
    if r == 0 {
      assert x - 1 == n * (q - 1) + (n - 1);
      DivUnique(x - 1, n, q - 1, n - 1);
    } else {
      assert x - 1 == n * q + (r - 1);
      DivUnique(x - 1, n, q, r - 1);
    }
  }

  lemma Scale(n: int, d: int, m: int)
    requires n > 0
    ensures d >= m ==> n * d >= n * m
    ensures d <= m ==> n * d <= n * m
  {
    if d >= m { assert n * (d - m) >= 0; } else { assert n * (m - d) >= 0; }
  }

  lemma DivUnique(x: int, n: int, q: int, r: int)
    requires n > 0 && x == n * q + r && 0 <= r < n
    ensures x / n == q && x % n == r
  {
    var d := x / n - q;
    assert n * d == r - x % n;
    Scale(n, d, 1);
    Scale(n, d, -1);
  }

  lemma ModShift(k: int, n: int, w: int)
    requires n > 0 && 0 <= w < n
    ensures (k - w) % n == 0 <==> k % n == w
  {
    var q, r := k / n, k % n;
    assert k - w == n * q + (r - w);
    if r >= w {
      DivUnique(k - w, n, q, r - w);
    } else {
      assert k - w == n * (q - 1) + (n + r - w);
      DivUnique(k - w, n, q - 1, n + r - w);
    }
  }

  /** Passing k adds one turn for worker k % n. */
  lemma OneTurn(k: int, n: int, w: int)
    requires n > 0 && 0 <= w < n
    ensures (k - w) / n - (k - 1 - w) / n == if k % n == w then 1 else 0
  {
    DivStep(k - w, n);
    ModShift(k, n, w);
  }

  lemma QueueSnoc(work: Work, jobs: seq<Job>, n: nat, w: nat, lo: nat)
    requires n > 0 && lo < |jobs|
    ensures |Queue(work, jobs, n, w, lo)| ==
            |Queue(work, jobs[..|jobs| - 1], n, w, lo)| + if |jobs| % n == w then 1 else 0
  {
  }

  /** Worker w owes one result for each k in (lo, |jobs|] with k % n == w. */
  lemma {:induction false} QueueLength(work: Work, jobs: seq<Job>, n: nat, w: nat, lo: nat)
    requires n > 0 && w < n && lo <= |jobs|
    ensures |Queue(work, jobs, n, w, lo)| == (|jobs| - w) / n - (lo - w) / n
    decreases |jobs|
  {
    if lo < |jobs| {
      hide Queue;
      QueueLength(work, jobs[..|jobs| - 1], n, w, lo);
      QueueSnoc(work, jobs, n, w, lo);
      OneTurn(|jobs|, n, w);
    }
  }

  /** For the next k in the rotation, three or more earlier ones of the same
      worker lie above lo exactly when k - 1 - lo is at least 3n. */
  lemma ThreeTurns(k: nat, n: nat, lo: nat)
    requires n > 0 && lo < k
    ensures var w := k % n; (k - 1 - w) / n - (lo - w) / n >= 3 <==> k - 1 - lo >= 3 * n
  {
    var q, w := k / n, k % n;
    var p, r := (lo - w) / n, (lo - w) % n;
    assert k - 1 - w == n * (q - 1) + (n - 1);
    DivUnique(k - 1 - w, n, q - 1, n - 1);
    var d := q - 1 - p;
    assert k - 1 - lo == n * d + (n - 1 - r) by {
      assert lo - w == n * p + r;
      assert n * (q - 1) - n * p == n * d;
    }
    Scale(n, d, 3);
    Scale(n, d, 2);
  }

  /** The worker whose turn it is for input owes fewer than three results
      exactly when fewer than 3n chunks are outstanding. */
  lemma NextInputQueue(work: Work, jobs: seq<Job>, n: nat, lo: nat)
    requires n > 0 && lo <= |jobs|
    ensures |Queue(work, jobs, n, Turn(|jobs|, n), lo)| < 3 <==> |jobs| - lo < 3 * n
  {
    QueueLength(work, jobs, n, Turn(|jobs|, n), lo);
    ThreeTurns(|jobs| + 1, n, lo);
  }

  /** The last worker given a chunk owes at most three results only if at most
      3n chunks are outstanding. */
  lemma LastInputQueue(work: Work, jobs: seq<Job>, n: nat, lo: nat)
    requires n > 0 && lo < |jobs|
    requires |Queue(work, jobs, n, |jobs| % n, lo)| <= 3
    ensures |jobs| - lo <= 3 * n
  {
    NextInputQueue(work, jobs[..|jobs| - 1], n, lo);
  }

  // ---------------------------------------------------------------------
  // States and the invariant
  // ---------------------------------------------------------------------

  function Results(work: Work, jobs: seq<Job>): seq<Result> {
    seq(|jobs|, k requires 0 <= k < |jobs| => work(jobs[k]))
  }

  /** Every worker holds exactly the results it owes. */
  ghost predicate Routed(work: Work, workers: seq<Worker>, jobs: seq<Job>, lo: nat) {
    |workers| > 0 ==>
      forall w | 0 <= w < |workers| :: Held(work, workers[w]) == Queue(work, jobs, |workers|, w, lo)
  }

  ghost predicate PoolInv(work: Work, workers: seq<Worker>, jobs: seq<Job>, received: seq<Result>) {
    && |received| <= |jobs|
    && received == Results(work, jobs[..|received|])
    && Routed(work, workers, jobs, |received|)
    && (|workers| == 0 ==> |received| == |jobs|)
  }

  // ---------------------------------------------------------------------
  // Worker steps alone
  // ---------------------------------------------------------------------

  function StepAt(work: Work, workers: seq<Worker>, i: nat): seq<Worker>
    requires i < |workers| && CanStep(workers[i])
  {
    workers[i := StepWorker(work, workers[i])]
  }

  predicate Settled(workers: seq<Worker>) {
    forall i | 0 <= i < |workers| :: !CanStep(workers[i])
  }

  function TotalLoad(workers: seq<Worker>): nat {
    if workers == [] then 0 else TotalLoad(workers[..|workers| - 1]) + Load(workers[|workers| - 1])
  }

  lemma {:induction false} TotalLoadUpdate(workers: seq<Worker>, i: nat, w: Worker)
    requires i < |workers|
    ensures TotalLoad(workers[i := w]) == TotalLoad(workers) - Load(workers[i]) + Load(w)
  {
    var k := |workers| - 1;
    if i < k {
      TotalLoadUpdate(workers[..k], i, w);
      assert workers[i := w][..k] == workers[..k][i := w];
    } else {
      assert workers[i := w][..k] == workers[..k];
    }
  }

  lemma StepAtKeeps(work: Work, workers: seq<Worker>, jobs: seq<Job>, lo: nat, i: nat)
    requires Routed(work, workers, jobs, lo) && i < |workers| && CanStep(workers[i])
    ensures Routed(work, StepAt(work, workers, i), jobs, lo)
    ensures TotalLoad(StepAt(work, workers, i)) < TotalLoad(workers)
  {
    StepKeepsHeld(work, workers[i]);
    StepLowersLoad(work, workers[i]);
    TotalLoadUpdate(workers, i, StepWorker(work, workers[i]));
  }

  /** A sequence of worker steps, named by the worker that takes them. */
  predicate IsWorkerRun(work: Work, workers: seq<Worker>, steps: seq<nat>)
    decreases |steps|
  {
    steps == [] ||
    (&& steps[0] < |workers| && CanStep(workers[steps[0]])
     && IsWorkerRun(work, StepAt(work, workers, steps[0]), steps[1..]))
  }

  function AfterSteps(work: Work, workers: seq<Worker>, steps: seq<nat>): seq<Worker>
    requires IsWorkerRun(work, workers, steps)
    decreases |steps|
  {
    if steps == [] then workers else AfterSteps(work, StepAt(work, workers, steps[0]), steps[1..])
  }

  lemma {:induction false} WorkerRunKeeps(work: Work, workers: seq<Worker>, jobs: seq<Job>, lo: nat, steps: seq<nat>)
    requires Routed(work, workers, jobs, lo) && IsWorkerRun(work, workers, steps)
    ensures var workers' := AfterSteps(work, workers, steps);
            && |workers'| == |workers|
            && Routed(work, workers', jobs, lo)
            && |steps| + TotalLoad(workers') <= TotalLoad(workers)
    decreases |steps|
  {
    hide TotalLoad;
    hide Routed;
    if steps != [] {
      StepAtKeeps(work, workers, jobs, lo, steps[0]);
      WorkerRunKeeps(work, StepAt(work, workers, steps[0]), jobs, lo, steps[1..]);
    }
  }

  /** Once no worker can move: the next input channel is free exactly when
      fewer than 3n chunks are outstanding, and the next output channel holds a
      result exactly when any is. */
  lemma SettledChannels(work: Work, workers: seq<Worker>, jobs: seq<Job>, lo: nat)
    requires |workers| > 0 && Routed(work, workers, jobs, lo) && lo <= |jobs| && Settled(workers)
    ensures workers[Turn(|jobs|, |workers|)].input.None? <==> |jobs| - lo < 3 * |workers|
    ensures workers[Turn(lo, |workers|)].output.Some? <==> lo < |jobs|
  {
    var n := |workers|;
    SettledWorker(work, workers[Turn(|jobs|, n)]);
    SettledWorker(work, workers[Turn(lo, n)]);
    NextInputQueue(work, jobs, n, lo);
    if lo < |jobs| { QueueFront(work, jobs, n, Turn(lo, n), lo); }
  }

  /** Worker steps alone make the next chunk schedulable if and only if fewer
      than 3n are outstanding: every run of worker steps is finite, and where
      it cannot go on the channel is free or not accordingly. */
  lemma ForcedSchedule(work: Work, workers: seq<Worker>, jobs: seq<Job>, received: seq<Result>, steps: seq<nat>)
    requires PoolInv(work, workers, jobs, received) && |workers| > 0
    requires IsWorkerRun(work, workers, steps)
    ensures |steps| <= TotalLoad(workers)
    ensures var workers' := AfterSteps(work, workers, steps);
            && |workers'| == |workers|
            && (Settled(workers') ==>
                  (workers'[Turn(|jobs|, |workers|)].input.None? <==> |jobs| - |received| < 3 * |workers|))
  {
    WorkerRunKeeps(work, workers, jobs, |received|, steps);
    var workers' := AfterSteps(work, workers, steps);
    if Settled(workers') { SettledChannels(work, workers', jobs, |received|); }
  }

  /** The memory bound: at most three chunks per worker are outstanding. */
  lemma AtMostThreePerWorker(work: Work, workers: seq<Worker>, jobs: seq<Job>, received: seq<Result>)
    requires PoolInv(work, workers, jobs, received)
    ensures |jobs| - |received| <= 3 * |workers|
  {
    if |received| < |jobs| {
      assert |Held(work, workers[|jobs| % |workers|])| <= 3;
      LastInputQueue(work, jobs, |workers|, |received|);
    }
  }

  // ---------------------------------------------------------------------
  // Sending and receiving
  // ---------------------------------------------------------------------

  lemma SendKeeps(work: Work, workers: seq<Worker>, jobs: seq<Job>, received: seq<Result>, c: Job)
    requires PoolInv(work, workers, jobs, received) && |workers| > 0
    requires workers[Turn(|jobs|, |workers|)].input.None?
    ensures var i := Turn(|jobs|, |workers|);
            PoolInv(work, workers[i := workers[i].(input := Some(c))], jobs + [c], received)
  {
    var n := |workers|;
    var i := Turn(|jobs|, n);
    var workers' := workers[i := workers[i].(input := Some(c))];
    assert (jobs + [c])[..|received|] == jobs[..|received|];
    assert (jobs + [c])[..|jobs|] == jobs;
    forall w | 0 <= w < n
      ensures Held(work, workers'[w]) == Queue(work, jobs + [c], n, w, |received|)
    {
    }
  }

  lemma HeldFront(work: Work, w: Worker)
    requires w.output.Some?
    ensures Held(work, w) == [w.output.value] + Held(work, w.(output := None))
  {
  }

  lemma ReceiveRouted(work: Work, workers: seq<Worker>, jobs: seq<Job>, lo: nat, i: nat, w: nat)
    requires |workers| > 0 && i == Turn(lo, |workers|) && w < |workers| && lo < |jobs|
    requires workers[i].output.Some? && Held(work, workers[w]) == Queue(work, jobs, |workers|, w, lo)
    ensures w == i ==> workers[i].output.value == work(jobs[lo])
    ensures Held(work, workers[i := workers[i].(output := None)][w]) == Queue(work, jobs, |workers|, w, lo + 1)
  {
    hide Queue;
    hide Held;
    QueueFront(work, jobs, |workers|, w, lo);
    if w == i {
      HeldFront(work, workers[i]);
      assert Held(work, workers[i])[0] == workers[i].output.value;
      assert Held(work, workers[i].(output := None)) == Held(work, workers[i])[1..];
      assert Queue(work, jobs, |workers|, w, lo + 1) == Queue(work, jobs, |workers|, w, lo)[1..];
    }
  }

  lemma ResultsSnoc(work: Work, jobs: seq<Job>, lo: nat)
    requires lo < |jobs|
    ensures Results(work, jobs[..lo + 1]) == Results(work, jobs[..lo]) + [work(jobs[lo])]
  {
  }

  lemma ReceiveKeeps(work: Work, workers: seq<Worker>, jobs: seq<Job>, received: seq<Result>)
    requires PoolInv(work, workers, jobs, received) && |workers| > 0 && |received| < |jobs|
    requires workers[Turn(|received|, |workers|)].output.Some?
    ensures var i := Turn(|received|, |workers|);
            var r := workers[i].output.value;
            PoolInv(work, workers[i := workers[i].(output := None)], jobs, received + [r])
  {
    hide Queue;
    hide Held;
    hide Results;
    var i := Turn(|received|, |workers|);
    ReceiveRouted(work, workers, jobs, |received|, i, i);
    ResultsSnoc(work, jobs, |received|);
    var workers' := workers[i := workers[i].(output := None)];
    forall w | 0 <= w < |workers'|
      ensures Held(work, workers'[w]) == Queue(work, jobs, |workers|, w, |received| + 1)
    {
      ReceiveRouted(work, workers, jobs, |received|, i, w);
    }
  }

  lemma StepKeepsPool(work: Work, workers: seq<Worker>, jobs: seq<Job>, received: seq<Result>, i: nat)
    requires PoolInv(work, workers, jobs, received) && i < |workers| && CanStep(workers[i])
    ensures PoolInv(work, StepAt(work, workers, i), jobs, received)
    ensures TotalLoad(StepAt(work, workers, i)) < TotalLoad(workers)
  {
    hide Routed;
    hide TotalLoad;
    StepAtKeeps(work, workers, jobs, |received|, i);
  }

  lemma PoolSettled(work: Work, workers: seq<Worker>, jobs: seq<Job>, received: seq<Result>)
    requires |workers| > 0 && PoolInv(work, workers, jobs, received) && Settled(workers)
    ensures workers[Turn(|jobs|, |workers|)].input.None? <==> |jobs| - |received| < 3 * |workers|
    ensures workers[Turn(|received|, |workers|)].output.Some? <==> |received| < |jobs|
  {
    hide Routed;
    SettledChannels(work, workers, jobs, |received|);
  }

  lemma PoolBounds(work: Work, workers: seq<Worker>, jobs: seq<Job>, received: seq<Result>)
    requires PoolInv(work, workers, jobs, received)
    ensures |received| <= |jobs| <= |received| + 3 * |workers|
  {
    AtMostThreePerWorker(work, workers, jobs, received);
  }

  /** With everything received, the workers are idle and the pool may drop
      them. */
  lemma PoolDrained(work: Work, workers: seq<Worker>, jobs: seq<Job>, received: seq<Result>)
    requires PoolInv(work, workers, jobs, received) && |received| == |jobs|
    ensures forall w | 0 <= w < |workers| :: workers[w] == IDLE
    ensures received == Results(work, jobs) && PoolInv(work, [], jobs, received)
  {
    assert jobs[..|jobs|] == jobs;
    forall w | 0 <= w < |workers|
      ensures workers[w] == IDLE
    {
      NothingHeld(work, workers[w]);
    }
  }

  lemma NothingHeld(work: Work, w: Worker)
    requires Held(work, w) == []
    ensures w == IDLE
  {
  }

  // ---------------------------------------------------------------------
  // The pool
  // ---------------------------------------------------------------------

  /** What the callback answers, given all results received so far. */
  type Callback = seq<Result> -> Err

  /** handleResult: the worker's error comes first; only without one is the
      callback asked. */
  function HandleResult(callback: Option<Callback>, received: seq<Result>): Err
    requires received != []
  {
    var r := received[|received| - 1];
    if r.err != NIL then r.err else if callback.Some? then callback.value(received) else NIL
  }

  /** Result number k had no error, nor had the callback when it was given it. */
  predicate Fine(callback: Callback, received: seq<Result>, k: nat)
    requires 0 < k <= |received|
  {
    received[k - 1].err == NIL && callback(received[..k]) == NIL
  }

  predicate NoErrors(callback: Callback, received: seq<Result>, lo: nat, hi: nat)
    requires hi <= |received| + 1
  {
    forall k | lo < k < hi :: Fine(callback, received, k)
  }

  lemma NothingNew(callback: Callback, received: seq<Result>)
    ensures NoErrors(callback, received, |received|, |received| + 1)
  {
  }

  lemma NoErrorsLess(callback: Callback, received: seq<Result>, lo: nat)
    requires NoErrors(callback, received, lo, |received| + 1)
    ensures NoErrors(callback, received, lo, |received|)
    ensures lo < |received| ==> received[|received| - 1].err == NIL && callback(received) == NIL
  {
    assert received[..|received|] == received;
    assert lo < |received| ==> Fine(callback, received, |received|);
  }

  lemma NoErrorsSnoc(callback: Callback, received: seq<Result>, lo: nat, r: Result)
    requires NoErrors(callback, received, lo, |received| + 1)
    ensures NoErrors(callback, received + [r], lo, |received| + 1)
    ensures HandleResult(Some(callback), received + [r]) == NIL ==>
              NoErrors(callback, received + [r], lo, |received| + 2)
    ensures HandleResult(Some(callback), received + [r])
            == if r.err != NIL then r.err else callback(received + [r])
  {
    var after := received + [r];
    assert after[..|after|] == after;
    forall k | lo < k < |received| + 1
      ensures Fine(callback, after, k)
    {
      assert Fine(callback, received, k) && after[..k] == received[..k];
    }
  }

  class Pool {
    const work: Work
    var workers: seq<Worker>
    var nextInput: nat
    var nextOutput: nat
    ghost var jobs: seq<Job>

    /** All results received so far, which is what a callback can know. */
    var received: seq<Result>

    /** Results come back in scheduling order, and each worker holds exactly
        the ones it owes. */
    ghost predicate Valid()
      reads this
    {
      && nextInput == |jobs| && nextOutput == |received|
      && PoolInv(work, workers, jobs, received)
    }

    constructor (work: Work, n: nat)
      ensures Valid() && jobs == [] && received == [] && |workers| == n && this.work == work
    {
      this.work := work;
      workers := seq(n, _ => IDLE);
      nextInput, nextOutput, jobs, received := 0, 0, [], [];
    }

    predicate InputFree()
      reads this
    {
      |workers| > 0 && workers[Turn(nextInput, |workers|)].input.None?
    }

    predicate OutputReady()
      reads this
    {
      |workers| > 0 && nextOutput != nextInput && workers[Turn(nextOutput, |workers|)].output.Some?
    }

    /** Block in a select on the given channels while the workers run: any
        worker may take any steps, and they stop only once a channel is
        ready. That one gets ready is proved, not assumed. */
    method Select(forInput: bool, forOutput: bool)
      requires Valid() && |workers| > 0
      requires || (forInput && nextInput - nextOutput < 3 * |workers|)
               || (forOutput && nextOutput < nextInput)
      modifies this`workers
      ensures Valid() && |workers| == old(|workers|)
      ensures (forInput && InputFree()) || (forOutput && OutputReady())
    {
      hide PoolInv;
      hide Turn;
      hide TotalLoad;
      hide StepWorker;
      var more := *;
      while (more || !((forInput && InputFree()) || (forOutput && OutputReady())))
            && exists i :: 0 <= i < |workers| && CanStep(workers[i])
        invariant Valid() && |workers| == old(|workers|)
        decreases TotalLoad(workers)
      {
        var i :| 0 <= i < |workers| && CanStep(workers[i]);
        StepKeepsPool(work, workers, jobs, received, i);
        workers := StepAt(work, workers, i);
        more := *;
      }
      if Settled(workers) { PoolSettled(work, workers, jobs, received); }
    }

    /** Receive the next result. */
    method Receive()
      requires Valid() && OutputReady()
      modifies this`workers, this`nextOutput, this`received
      ensures Valid() && |workers| == old(|workers|)
      ensures received == old(received) + [work(jobs[old(nextOutput)])]
      ensures var i := (old(nextOutput) + 1) % |workers|;
              workers == old(workers)[i := old(workers[i]).(output := None)]
    {
      var i := Turn(nextOutput, |workers|);
      var r := workers[i].output.value;
      ReceiveKeeps(work, workers, jobs, received);
      ReceiveRouted(work, workers, jobs, |received|, i, i);
      workers := workers[i := workers[i].(output := None)];
      nextOutput := nextOutput + 1;
      received := received + [r];
    }

    method Send(c: Job)
      requires Valid() && InputFree()
      modifies this`workers, this`nextInput, this`jobs
      ensures Valid() && |workers| == old(|workers|) && jobs == old(jobs) + [c]
      ensures var i := (old(nextInput) + 1) % |workers|;
              workers == old(workers)[i := old(workers[i]).(input := Some(c))]
    {
      hide PoolInv;
      hide Turn;
      SendKeeps(work, workers, jobs, received, c);
      var i := Turn(nextInput, |workers|);
      TurnIs(nextInput, |workers|);
      workers := workers[i := workers[i].(input := Some(c))];
      nextInput := nextInput + 1;
      jobs := jobs + [c];
    }

    /** With a chunk, returns once it is scheduled; without one, once nothing
        is outstanding; in both cases earlier if a result's error or the
        callback's answer says so. Without a callback the chunk must be
        schedulable, which means fewer than 3n outstanding. */
    method Schedule(c: Option<Job>, callback: Option<Callback>) returns (err: Err)
      requires Valid()
      requires c.Some? && callback.None? && |workers| > 0 ==> nextInput - nextOutput < 3 * |workers|
      modifies this`workers, this`nextInput, this`nextOutput, this`jobs, this`received
      ensures Valid() && |workers| == old(|workers|)
      ensures jobs == old(jobs) + (if err == NIL && |workers| > 0 then OptSeq(c) else [])
      ensures old(received) <= received && (callback.None? ==> received == old(received))
      ensures callback.Some? ==> NoErrors(callback.value, received, |old(received)|, |received|)
      ensures received != old(received) ==>
                var r := received[|received| - 1];
                err == if r.err != NIL then r.err else callback.value(received)
      ensures err != NIL ==> received != old(received)
      ensures err == NIL && c.None? && callback.Some? ==> |received| == |jobs|
    {
      hide PoolInv;
      hide Turn;
      hide NoErrors;
      hide HandleResult;
      ghost var lo := |received|;
      if callback.Some? { NothingNew(callback.value, received); }
      while true
        invariant Valid() && |workers| == old(|workers|) && jobs == old(jobs)
        invariant old(received) <= received && (callback.None? ==> received == old(received))
        invariant callback.Some? ==> NoErrors(callback.value, received, lo, |received| + 1)
        decreases |jobs| - |received|
      {
        var input := c.Some? && |workers| != 0;
        var output := callback.Some? && nextOutput != nextInput && |workers| != 0;
        PoolBounds(work, workers, jobs, received);
        if callback.Some? { NoErrorsLess(callback.value, received, lo); }
        if !input && !output {
          return NIL;
        }
        Select(input, output);
        if {
          case input && InputFree() =>
            Send(c.value);
            return NIL;
          case output && OutputReady() =>
            ghost var before := received;
            Receive();
            NoErrorsSnoc(callback.value, before, lo, received[|before|]);
            err := HandleResult(callback, received);
            if err != NIL {
              return;
            }
        }
      }
    }

    /** Close the inputs, wait for everything outstanding and let the workers
        go: they are idle, so each of them ends. */
    method Stop() returns (ended: seq<Worker>)
      requires Valid()
      modifies this`workers, this`nextOutput, this`received
      ensures Valid() && workers == []
      ensures |ended| == old(|workers|) && forall w | 0 <= w < |ended| :: ended[w] == IDLE
      ensures old(received) <= received && received == Results(work, jobs)
    {
      hide PoolInv;
      hide Turn;
      if |workers| != 0 {
        while nextOutput < nextInput
          invariant Valid() && |workers| == old(|workers|) && old(received) <= received
        {
          Select(false, true);
          Receive();
        }
      }
      ended := workers;
      PoolBounds(work, workers, jobs, received);
      PoolDrained(work, workers, jobs, received);
      workers := [];
    }

    /** How Read schedules a chunk: when the callback ends the first attempt
        because a buffer is ready, the chunk is forced in without a callback.
        Unless a real error comes back, it is scheduled exactly once. */
    method ScheduleOrForce(c: Job, callback: Callback, newBuffer: Err) returns (err: Err)
      requires Valid() && newBuffer != NIL
      modifies this`workers, this`nextInput, this`nextOutput, this`jobs, this`received
      ensures Valid() && old(received) <= received
      ensures err == NIL ==> jobs == old(jobs) + (if old(|workers|) > 0 then [c] else [])
      ensures err != NIL ==> jobs == old(jobs) && workers == [] && received == Results(work, jobs)
      ensures err != NIL ==> err != newBuffer && exists k | |old(received)| < k <= |received| ::
                err == if received[k - 1].err != NIL then received[k - 1].err else callback(received[..k])
    {
      hide PoolInv;
      PoolBounds(work, workers, jobs, received);
      err := Schedule(Some(c), Some(callback));
      if err == newBuffer {
        err := Schedule(Some(c), None);
      } else if err != NIL {
        ghost var before := received;
        var _ := Stop();
        assert received[..|before|] == before;
      }
    }
  }
}
