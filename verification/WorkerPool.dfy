// The worker pool of worker_pool.go as interleaved steps of its goroutines. A job is
// known by its place in the order of submission.
module WorkerPool {
  import opened Bits
  import opened Cutting

  datatype Pool = Pool(workers: nat, submitted: nat, queue: seq<nat>,
                       running: map<nat, nat>, // worker to job
                       started: seq<nat>, finished: set<nat>, stopped: bool, exited: set<nat>)

  /** NewWorkerPool and Start: at least one worker. */
  function New(workers: int): Pool
  {
    Pool(if workers <= 0 then 1 else workers, 0, [], map[], [], {}, false, {})
  }

  datatype Step = Submit | Take(worker: nat) | Finish(worker: nat) | Stop | Exit(worker: nat)

  predicate Enabled(p: Pool, s: Step)
  {
    match s
    case Submit => |p.queue| < 2 * p.workers
    case Take(w) => w < p.workers && w !in p.running && w !in p.exited && p.queue != []
    case Finish(w) => w in p.running
    case Stop => true
    case Exit(w) => p.stopped && w < p.workers && w !in p.running
  }

  function Next(p: Pool, s: Step): Pool
    requires Enabled(p, s)
  {
    match s
    case Submit => p.(queue := p.queue + [p.submitted], submitted := p.submitted + 1)
    case Take(w) =>
      p.(running := p.running[w := p.queue[0]], queue := p.queue[1..], started := p.started + [p.queue[0]])
    case Finish(w) => p.(running := p.running - {w}, finished := p.finished + {p.running[w]})
    case Stop => p.(stopped := true)
    case Exit(w) => p.(exited := p.exited + {w})
  }

  ghost predicate Run(pools: seq<Pool>, steps: seq<Step>, workers: int)
  {
    && |pools| == |steps| + 1 && pools[0] == New(workers)
    && forall i :: 0 <= i < |steps| ==> Enabled(pools[i], steps[i]) && pools[i + 1] == Next(pools[i], steps[i])
  }

  function Upto(n: nat): (s: set<nat>)
    ensures |s| == n && forall j: nat :: j in s <==> j < n
  {
    if n == 0 then {} else Upto(n - 1) + {n - 1}
  }

  /** The workers busy with a job submitted before job j. */
  ghost function Behind(p: Pool, j: nat): set<nat> { set w | w in p.running && p.running[w] < j }

  ghost predicate Invariant(p: Pool)
  {
    && p.workers >= 1 && |p.queue| <= 2 * p.workers
    && |p.started| + |p.queue| == p.submitted
    && (forall i :: 0 <= i < |p.started| ==> p.started[i] == i)
    && (forall i :: 0 <= i < |p.queue| ==> p.queue[i] == |p.started| + i)
    && (forall w :: w in p.running ==> w < p.workers && p.running[w] < |p.started| && p.running[w] !in p.finished)
    && Injective(p.running)
    && (forall j :: j in p.finished ==> j < |p.started|)
    && (forall j: nat :: j < |p.started| ==> j in p.finished || j in p.running.Values)
    && (forall j: nat :: j < |p.started| ==> |Behind(p, j)| <= p.workers - 1)
  }

  lemma SubsetSize<T>(a: set<T>, b: set<T>)
    requires a <= b
    ensures |a| <= |b|
  {
    assert b == a + (b - a);
  }

  /** Nobody behind an idle worker's back: it leaves at most workers - 1 busy ones. */
  lemma IdleLeavesRoom(p: Pool, w: nat, j: nat)
    requires Invariant(p) && w < p.workers && w !in p.running
    ensures |Behind(p, j)| <= p.workers - 1
  {
    SubsetSize(Behind(p, j), Upto(p.workers) - {w});
    assert |Upto(p.workers) - {w}| == p.workers - 1;
  }

  lemma TakeKeepsInvariant(p: Pool, w: nat)
    requires Invariant(p) && Enabled(p, Take(w))
    ensures Invariant(Next(p, Take(w)))
  {
    var q, n := Next(p, Take(w)), |p.started|;
    assert q.running[w] == n;
    forall j: nat | j < |q.started| ensures |Behind(q, j)| <= q.workers - 1 {
      assert Behind(q, j) == Behind(p, j);
      IdleLeavesRoom(p, w, j);
    }
    forall j: nat | j < |q.started| ensures j in q.finished || j in q.running.Values {
      if j in p.running.Values {
        var v :| v in p.running && p.running[v] == j;
        assert q.running[v] == j;
      }
    }
  }

  lemma FinishKeepsInvariant(p: Pool, w: nat)
    requires Invariant(p) && Enabled(p, Finish(w))
    ensures Invariant(Next(p, Finish(w)))
  {
    var q := Next(p, Finish(w));
    forall j: nat | j < |q.started| ensures |Behind(q, j)| <= q.workers - 1 {
      SubsetSize(Behind(q, j), Behind(p, j));
    }
    forall j: nat | j < |q.started| ensures j in q.finished || j in q.running.Values {
      if j !in p.finished && j != p.running[w] {
        var v :| v in p.running && p.running[v] == j;
        assert v in q.running && q.running[v] == j;
      }
    }
  }

  lemma StepKeepsInvariant(p: Pool, s: Step)
    requires Invariant(p) && Enabled(p, s)
    ensures Invariant(Next(p, s))
  {
    match s
    case Take(w) => TakeKeepsInvariant(p, w);
    case Finish(w) => FinishKeepsInvariant(p, w);
    case _ =>
      forall j: nat | j < |p.started| ensures Behind(Next(p, s), j) == Behind(p, j) {}
  }

  lemma {:induction false} RunKeepsInvariant(pools: seq<Pool>, steps: seq<Step>, workers: int, i: nat)
    requires Run(pools, steps, workers) && i <= |steps|
    ensures Invariant(pools[i]) && pools[i].workers == New(workers).workers
  {
    hide Invariant;
    if i > 0 {
      RunKeepsInvariant(pools, steps, workers, i - 1);
      StepKeepsInvariant(pools[i - 1], steps[i - 1]);
    } else {
      StartInvariant(workers);
    }
  }

  lemma StartInvariant(workers: int)
    ensures Invariant(New(workers))
  {
  }

  /** Jobs start in the order of submission, and a job starts at most once. */
  lemma FirstInFirstOut(pools: seq<Pool>, steps: seq<Step>, workers: int, i: nat, k: nat)
    requires Run(pools, steps, workers) && i <= |steps| && k < |pools[i].started|
    ensures pools[i].started[k] == k < pools[i].submitted
  {
    RunKeepsInvariant(pools, steps, workers, i);
  }

  ghost predicate Injective(m: map<nat, nat>)
  {
    forall v, w :: v in m && w in m && v != w ==> m[v] != m[w]
  }

  lemma WithoutOne(m: map<nat, nat>, k: nat)
    requires Injective(m) && k in m
    ensures var rest := m - {k};
      Injective(rest) && m.Values == rest.Values + {m[k]} && m[k] !in rest.Values && |rest| == |m| - 1
  {
    var rest := m - {k};
    forall x | x in m.Values ensures x in rest.Values + {m[k]} {
      var v :| v in m && m[v] == x;
      if v != k { assert rest[v] == x; }
    }
    assert m.Keys == rest.Keys + {k};
  }

  lemma {:induction false} InjectiveValues(m: map<nat, nat>)
    requires Injective(m)
    ensures |m.Values| == |m|
    decreases |m|
  {
    if m.Keys != {} {
      var k :| k in m;
      WithoutOne(m, k);
      InjectiveValues(m - {k});
    } else {
      assert m.Values == {};
    }
  }

  /** No job is lost or doubled: each one submitted is queued, running or finished. */
  lemma JobsAreConserved(pools: seq<Pool>, steps: seq<Step>, workers: int, i: nat)
    requires Run(pools, steps, workers) && i <= |steps|
    ensures pools[i].submitted == |pools[i].queue| + |pools[i].running| + |pools[i].finished|
  {
    RunKeepsInvariant(pools, steps, workers, i);
    var p := pools[i];
    InjectiveValues(p.running);
    assert p.running.Values !! p.finished;
    assert Upto(|p.started|) == p.running.Values + p.finished;
  }

  /** What Wait has waited for once its own job j runs: all earlier jobs started, all but workers - 1 finished. */
  lemma WaitGuarantee(pools: seq<Pool>, steps: seq<Step>, workers: int, i: nat, j: nat)
    requires Run(pools, steps, workers) && i <= |steps| && j < |pools[i].started|
    ensures forall k: nat :: k < j ==> k in pools[i].started
    ensures |Upto(j) - pools[i].finished| <= New(workers).workers - 1
  {
    RunKeepsInvariant(pools, steps, workers, i);
    var p := pools[i];
    forall k: nat | k < j ensures k in p.started {
      assert p.started[k] == k;
    }
    var late := map w | w in Behind(p, j) :: p.running[w];
    InjectiveValues(late);
    assert late.Keys == Behind(p, j);
    forall k | k in Upto(j) - p.finished ensures k in late.Values {
      var w :| w in p.running && p.running[w] == k;
      assert late[w] == k;
    }
    SubsetSize(Upto(j) - p.finished, late.Values);
  }

  /** Once Wait's job n, after n others, has started, those have all finished. */
  ghost predicate WaitsForAll(workers: int, n: nat)
  {
    forall p :: Reachable(p, workers) && n < |p.started| ==> Upto(n) <= p.finished
  }

  ghost predicate Reachable(p: Pool, workers: int)
  {
    exists pools: seq<Pool>, steps: seq<Step> :: Run(pools, steps, workers) && pools[|steps|] == p
  }

  /** Wait's job n can be finished while exactly the jobs in u, of those before it, are not. */
  ghost predicate LeftBehind(workers: int, n: nat, u: set<nat>)
  {
    exists p :: Reachable(p, workers) && n in p.finished && Upto(n) - p.finished == u
  }

  /** The first j jobs have been taken, and all but those in u are finished; the jobs in u hold the first workers. */
  ghost predicate Stalled(p: Pool, j: nat, u: set<nat>, workers: nat)
  {
    && p.workers == workers && p.submitted == j && p.queue == [] && p.exited == {}
    && p.running.Keys == Upto(|u * Upto(j)|) && p.finished == Upto(j) - u
  }

  lemma Extend(pools: seq<Pool>, steps: seq<Step>, workers: int, s: Step)
    requires Run(pools, steps, workers) && Enabled(pools[|steps|], s)
    ensures Run(pools + [Next(pools[|steps|], s)], steps + [s], workers)
  {
    hide Enabled, Next;
    var ps, ss := pools + [Next(pools[|steps|], s)], steps + [s];
    forall i | 0 <= i < |ss| ensures Enabled(ps[i], ss[i]) && ps[i + 1] == Next(ps[i], ss[i]) {
      assert i < |steps| ==> Enabled(pools[i], steps[i]) && pools[i + 1] == Next(pools[i], steps[i]);
    }
  }

  /** One more job comes, is taken by the first idle worker, and finishes unless it is in u. */
  lemma StallNext(p: Pool, j: nat, u: set<nat>, workers: nat)
    requires Stalled(p, j, u, workers) && |u * Upto(j + 1)| < workers
    ensures var w := |u * Upto(j)|;
      Enabled(p, Submit) && Enabled(Next(p, Submit), Take(w))
      && var q := Next(Next(p, Submit), Take(w));
      if j in u then Stalled(q, j + 1, u, workers)
      else Enabled(q, Finish(w)) && Stalled(Next(q, Finish(w)), j + 1, u, workers)
  {
    hide Upto, Enabled, Next;
    var w := |u * Upto(j)|;
    OneMore(w, {});
    OneMore(j, u);
    assert w !in Upto(w);
    Served(p, j, w);
  }

  /** An empty queue: a job comes, idle worker w takes it and may finish it. */
  lemma Served(p: Pool, j: nat, w: nat)
    requires p.queue == [] && p.submitted == j && p.exited == {} && w < p.workers && w !in p.running
    ensures Enabled(p, Submit) && Enabled(Next(p, Submit), Take(w))
    ensures var q := Next(Next(p, Submit), Take(w));
      && q.(started := [], running := map[]) == p.(submitted := j + 1, started := [], running := map[])
      && q.running.Keys == p.running.Keys + {w} && Enabled(q, Finish(w))
      && var r := Next(q, Finish(w));
      && r.(started := [], running := map[])
         == p.(submitted := j + 1, started := [], running := map[], finished := p.finished + {j})
      && r.running.Keys == p.running.Keys
  {
    var p' := Next(p, Submit);
    assert p'.queue == [j];
    var q := Next(p', Take(w));
    assert q.running == p.running[w := j];
    assert Next(q, Finish(w)).running.Keys == p.running.Keys;
  }

  lemma OneMore(j: nat, u: set<nat>)
    ensures |u * Upto(j + 1)| == |u * Upto(j)| + if j in u then 1 else 0
    ensures Upto(j + 1) == Upto(j) + {j}
    ensures Upto(j + 1) - u == if j in u then Upto(j) - u else (Upto(j) - u) + {j}
  {
    var before, after := Upto(j), Upto(j + 1);
    assert after == before + {j} && j !in before;
    hide Upto;
    WithOneMore(before, after, j, u);
  }

  lemma WithOneMore(before: set<nat>, after: set<nat>, j: nat, u: set<nat>)
    requires after == before + {j} && j !in before
    ensures |u * after| == |u * before| + if j in u then 1 else 0
    ensures after - u == if j in u then before - u else (before - u) + {j}
  {
    if j in u {
      assert u * after == (u * before) + {j};
    } else {
      assert u * after == u * before;
    }
  }

  lemma {:induction false} Stall(workers: int, j: nat, u: set<nat>) returns (pools: seq<Pool>, steps: seq<Step>)
    requires |u * Upto(j)| < New(workers).workers
    ensures Run(pools, steps, workers) && Stalled(pools[|steps|], j, u, New(workers).workers)
  {
    if j == 0 {
      pools, steps := [New(workers)], [];
      assert u * Upto(0) == {};
    } else {
      hide Run, Enabled, Next, Stalled, New;
      SubsetSize(u * Upto(j - 1), u * Upto(j));
      pools, steps := Stall(workers, j - 1, u);
      StallNext(pools[|steps|], j - 1, u, New(workers).workers);
      pools, steps := Continue(pools, steps, workers, Submit);
      pools, steps := Continue(pools, steps, workers, Take(|u * Upto(j - 1)|));
      if j - 1 !in u {
        pools, steps := Continue(pools, steps, workers, Finish(|u * Upto(j - 1)|));
      }
    }
  }

  lemma Continue(pools: seq<Pool>, steps: seq<Step>, workers: int, s: Step)
    returns (pools': seq<Pool>, steps': seq<Step>)
    requires |pools| == |steps| + 1 && Run(pools, steps, workers) && Enabled(pools[|steps|], s)
    ensures |pools'| == |steps'| + 1 && Run(pools', steps', workers)
    ensures pools'[|steps'|] == Next(pools[|steps|], s)
  {
    Extend(pools, steps, workers, s);
    pools', steps' := pools + [Next(pools[|steps|], s)], steps + [s];
  }

  lemma LeftBehindFew(workers: int, n: nat, u: set<nat>)
    requires LeftBehind(workers, n, u)
    ensures |u| < New(workers).workers
  {
    var p :| Reachable(p, workers) && n in p.finished && Upto(n) - p.finished == u;
    var pools: seq<Pool>, steps: seq<Step> :| Run(pools, steps, workers) && pools[|steps|] == p;
    RunKeepsInvariant(pools, steps, workers, |steps|);
    hide Run;
    WaitGuarantee(pools, steps, workers, |steps|, n);
  }

  /** What Wait can leave unfinished: any jobs, as long as they are fewer than the workers. */
  lemma LeftBehindIff(workers: int, n: nat, u: set<nat>)
    requires u <= Upto(n)
    ensures LeftBehind(workers, n, u) <==> |u| < New(workers).workers
  {
    if LeftBehind(workers, n, u) {
      LeftBehindFew(workers, n, u);
    }
    if |u| < New(workers).workers {
      LeftBehindMany(workers, n, u);
    }
  }

  lemma LeftBehindMany(workers: int, n: nat, u: set<nat>)
    requires u <= Upto(n) && |u| < New(workers).workers
    ensures LeftBehind(workers, n, u)
  {
    hide Upto, New, Stalled;
    LeftOver(n, u);
    var pools, steps := Stall(workers, n + 1, u);
    var p := pools[|steps|];
    assert Reachable(p, workers);
    StalledFinished(p, n + 1, u, New(workers).workers);
  }

  lemma StalledFinished(p: Pool, j: nat, u: set<nat>, workers: nat)
    requires Stalled(p, j, u, workers)
    ensures p.finished == Upto(j) - u
  {
  }

  lemma LeftOver(n: nat, u: set<nat>)
    requires u <= Upto(n)
    ensures n in Upto(n + 1) - u && Upto(n) - (Upto(n + 1) - u) == u == u * Upto(n + 1)
  {
    hide Upto;
    OneMore(n, u);
  }

  /** The promise in Wait's comment holds, for any number of jobs before it, in pools of one worker and in no others. */
  lemma WaitsForAllIff(workers: int, n: nat)
    requires n >= 1
    ensures WaitsForAll(workers, n) <==> workers <= 1
  {
    if workers <= 1 {
      forall p | Reachable(p, workers) && n < |p.started| ensures Upto(n) <= p.finished {
        var pools: seq<Pool>, steps: seq<Step> :| Run(pools, steps, workers) && pools[|steps|] == p;
        WaitGuarantee(pools, steps, workers, |steps|, n);
        assert Upto(n) - p.finished == {};
      }
    } else {
      LeftBehindIff(workers, n, {0});
      var p :| Reachable(p, workers) && n in p.finished && Upto(n) - p.finished == {0};
      var pools: seq<Pool>, steps: seq<Step> :| Run(pools, steps, workers) && pools[|steps|] == p;
      RunKeepsInvariant(pools, steps, workers, |steps|);
      assert 0 in Upto(n) - p.finished;
    }
  }

  // Batches

  /** Why a loop over batches ended. */
  datatype Ending = Completed | Cancelled | Failed

  /** NewBatchProcessor's default. */
  function BatchSize(n: int): nat { if n <= 0 then 10 else n }

  /** Process: cancelled(i) is the context before batch i, fn whether a batch succeeds; done are the batches given
      to fn. */
  method Process<T>(items: seq<T>, batchSize: int, cancelled: nat -> bool, fn: seq<T> -> bool)
    returns (done: seq<seq<T>>, ending: Ending)
    ensures var all := Pieces(items, BatchSize(batchSize));
      && done <= all
      && (forall k :: 0 <= k < |done| ==> !cancelled(k))
      && (forall k :: 0 <= k < |done| - 1 ==> fn(done[k]))
      && (ending == Completed ==> done == all && (done != [] ==> fn(done[|done| - 1])))
      && (ending == Failed ==> done != [] && !fn(done[|done| - 1]))
      && (ending == Cancelled ==> |done| < |all| && cancelled(|done|) && (done != [] ==> fn(done[|done| - 1])))
  {
    hide Pieces, Rest;
    var size := BatchSize(batchSize);
    ghost var all := Pieces(items, size);
    done := [];
    var i := 0;
    RestEnds(items, 0, size);
    while i < |items|
      invariant 0 <= i
      invariant all == done + Pieces(Rest(items, i), size)
      invariant forall k :: 0 <= k < |done| ==> !cancelled(k) && fn(done[k])
      decreases |items| - i
    {
      BatchNext(items, i, size);
      if cancelled(|done|) {
        ending := Cancelled;
        return;
      }
      var end := i + size;
      if end > |items| {
        end := |items|;
      }
      var batch := items[i..end];
      done := done + [batch];
      if !fn(batch) {
        ending := Failed;
        return;
      }
      i := i + size;
    }
    RestEnds(items, i, size);
    ending := Completed;
  }

  /** The submitting loop of ProcessWithConcurrency: job k is batch k, and a cancelled context cuts the jobs off. */
  method SubmitBatches<T>(items: seq<T>, batchSize: int, cancelled: nat -> bool)
    returns (jobs: seq<seq<T>>, ending: Ending)
    ensures var all := Pieces(items, BatchSize(batchSize));
      && jobs <= all && ending != Failed
      && (forall k :: 0 <= k < |jobs| ==> !cancelled(k))
      && (ending == Completed <==> jobs == all)
      && (ending == Cancelled ==> cancelled(|jobs|))
  {
    hide Pieces, Rest;
    var size := BatchSize(batchSize);
    ghost var all := Pieces(items, size);
    jobs := [];
    var i := 0;
    RestEnds(items, 0, size);
    while i < |items|
      invariant 0 <= i
      invariant all == jobs + Pieces(Rest(items, i), size)
      invariant forall k :: 0 <= k < |jobs| ==> !cancelled(k)
      decreases |items| - i
    {
      BatchNext(items, i, size);
      if cancelled(|jobs|) {
        ending := Cancelled;
        return;
      }
      var end := i + size;
      if end > |items| {
        end := |items|;
      }
      jobs := jobs + [items[i..end]];
      i := i + size;
    }
    RestEnds(items, i, size);
    ending := Completed;
  }

  /** NewBatchProcessor's default number of workers. */
  function MaxWorkers(n: int): nat { if n <= 0 then 5 else n }

  /** ProcessWithConcurrency can return no error: a run finishes Wait's job, submitted after the batches, while no
      batch that fn refuses has finished. */
  ghost predicate CanReturnNil<T>(jobs: seq<seq<T>>, workers: int, fn: seq<T> -> bool)
  {
    exists p :: Reachable(p, workers) && |jobs| in p.finished
      && forall k: nat :: k < |jobs| && k in p.finished ==> fn(jobs[k])
  }

  /** The batches that fn refuses. */
  function Failing<T>(jobs: seq<seq<T>>, fn: seq<T> -> bool): set<nat>
  {
    set k: nat | k < |jobs| && !fn(jobs[k])
  }

  /** An error of some batch can go unnoticed exactly when fewer batches fail than there are workers. */
  lemma ErrorMissedIff<T>(items: seq<T>, batchSize: int, maxWorkers: int, fn: seq<T> -> bool)
    ensures var jobs := Pieces(items, BatchSize(batchSize));
      CanReturnNil(jobs, MaxWorkers(maxWorkers), fn) <==> |Failing(jobs, fn)| < MaxWorkers(maxWorkers)
  {
    hide Pieces, Reachable;
    var jobs, workers := Pieces(items, BatchSize(batchSize)), MaxWorkers(maxWorkers);
    var n, failing := |jobs|, Failing(jobs, fn);
    if CanReturnNil(jobs, workers, fn) {
      var p :| Reachable(p, workers) && |jobs| in p.finished
        && forall k: nat :: k < |jobs| && k in p.finished ==> fn(jobs[k]);
      var u := Upto(n) - p.finished;
      assert LeftBehind(workers, n, u);
      LeftBehindIff(workers, n, u);
      SubsetSize(failing, u);
    }
    if |failing| < workers {
      LeftBehindIff(workers, n, failing);
      var p :| Reachable(p, workers) && n in p.finished && Upto(n) - p.finished == failing;
      forall k: nat | k < n && k in p.finished ensures fn(jobs[k]) {
        assert k in Upto(n) && k !in failing;
      }
    }
  }

  lemma RestEnds<T>(items: seq<T>, i: nat, size: nat)
    requires size > 0
    ensures Rest(items, 0) == items
    ensures i >= |items| ==> Pieces(Rest(items, i), size) == []
  {
  }

  function Rest<T>(items: seq<T>, i: nat): seq<T> { if i <= |items| then items[i..] else [] }

  lemma BatchNext<T>(items: seq<T>, i: nat, size: nat)
    requires i < |items| && size > 0
    ensures Pieces(Rest(items, i), size) == [items[i..Min(i + size, |items|)]] + Pieces(Rest(items, i + size), size)
  {
    var n := Min(size, |items| - i);
    assert items[i..][..n] == items[i..Min(i + size, |items|)];
    assert items[i..][n..] == Rest(items, i + size);
  }

  /** Every batch but the last has batchSize items, or 10 where no size is set. */
  lemma BatchesFull<T>(items: seq<T>, batchSize: int, k: nat)
    requires k < |Pieces(items, BatchSize(batchSize))|
    ensures var batch, size := Pieces(items, BatchSize(batchSize))[k], if batchSize >= 1 then batchSize else 10;
      0 < |batch| <= size && (k < |Pieces(items, BatchSize(batchSize))| - 1 ==> |batch| == size)
  {
    PiecesFull(items, BatchSize(batchSize), k);
  }

  /** No more than the number of workers run at a time, which is 5 where none is set; the queue takes jobs exactly
      while fewer than twice as many have been submitted and not started. */
  lemma PoolBounds(pools: seq<Pool>, steps: seq<Step>, workers: int, i: nat)
    requires Run(pools, steps, MaxWorkers(workers)) && i <= |steps|
    ensures var p, n := pools[i], if workers >= 1 then workers else 5;
      |p.running.Keys| <= n && (Enabled(p, Submit) <==> p.submitted - |p.started| < 2 * n)
  {
    RunKeepsInvariant(pools, steps, MaxWorkers(workers), i);
    var p := pools[i];
    SubsetSize(p.running.Keys, Upto(p.workers));
  }

  /** A pool asked for no worker has one. */
  lemma AtLeastOneWorker(workers: int)
    ensures New(workers).workers == (if workers >= 1 then workers else 1) && New(workers).queue == []
  {
  }
}
