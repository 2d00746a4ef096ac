/** Boost_Searcher/limonp/include/limonp/ThreadPool.hpp: workers that pop closures until they pop a NULL, and a
    shutdown that pushes one NULL for each worker and joins them.

    The pool is a system of steps built on those of the bounded queue. Threads `0..workers` are the started
    workers, thread `workers` is the owner, who may add closures and calls `Stop`, and later threads only
    add. A closure may itself call `Add` on the pool that runs it. That no `Add` overlaps `Stop` or follows it
    is an assumption of the model; the source does not state it. */
module ThreadPool {
  import opened Wrappers
  import Q = BoundedBlockingQueue

  /** A closure is known by a number; no closure is the source's NULL. */
  type Job = Option<nat>

  datatype Worker = Ready | Running(task: nat) | Done

  /** `Stop`: the first loop has pushed `k` NULLs, the second has joined `k` workers. */
  datatype Owner = Serving | Pushing(k: nat) | Joining(k: nat) | Stopped

  /** `live` is `threads_.size()`. `ran` records the closures run to their end, and `nulls` how many NULLs each
      worker has popped. */
  datatype Pool = Pool(
    queue: Q.Queue<Job>,
    workers: seq<Worker>,
    owner: Owner,
    live: nat,
    ran: seq<nat>,
    nulls: seq<nat>)

  /** A pool just started: the queue holds as many elements as there are workers. */
  ghost predicate Init(p: Pool) {
    && Q.Init(p.queue) && p.queue.capacity == |p.workers| == p.live
    && |p.workers| < |p.queue.threads|
    && (forall i :: 0 <= i < |p.workers| ==> p.workers[i] == Ready)
    && p.owner == Serving && p.ran == []
    && |p.nulls| == |p.workers| && forall i :: 0 <= i < |p.nulls| ==> p.nulls[i] == 0
  }

  // ---------------------------------------------------------------- steps

  /** Worker `i` pops, or waits for something to pop. */
  ghost predicate WorkerPops(p: Pool, p': Pool, i: nat) {
    && i < |p.workers| && p.workers[i] == Ready
    && ((Q.PopWaits(p.queue, p'.queue, i) && p' == p.(queue := p'.queue))
     || exists job :: WorkerTakes(p, p', i, job))
  }

  ghost predicate WorkerTakes(p: Pool, p': Pool, i: nat, job: Job) {
    && i < |p.workers| && p.workers[i] == Ready && i < |p.nulls|
    && Q.PopDone(p.queue, p'.queue, i, job)
    && match job
       case Some(task) => p' == p.(queue := p'.queue, workers := p.workers[i := Running(task)])
       case None => p' == p.(queue := p'.queue, workers := p.workers[i := Done], nulls := p.nulls[i := p.nulls[i] + 1])
  }

  /** The closure, not inside a call of `Add`, returns or throws; the worker catches what it throws. */
  ghost predicate WorkerFinishes(p: Pool, p': Pool, i: nat) {
    && i < |p.workers| && p.workers[i].Running?
    && i < |p.queue.threads| && p.queue.threads[i] == Q.Outside
    && p' == p.(workers := p.workers[i := Ready], ran := p.ran + [p.workers[i].task])
  }

  /** A thread other than a worker, or the closure a worker is running, adds a closure before `Stop`. */
  ghost predicate Adds(p: Pool, p': Pool, t: nat, task: nat) {
    && (t < |p.workers| ==> p.workers[t].Running?) && p.owner == Serving
    && (Q.PushWaits(p.queue, p'.queue, t, Some(task)) || Q.PushDone(p.queue, p'.queue, t, Some(task)))
    && p' == p.(queue := p'.queue)
  }

  /** `Stop` is called when no `Add` is under way; it may be called again once it has returned. */
  ghost predicate StopBegins(p: Pool, p': Pool) {
    && (p.owner == Serving || p.owner == Stopped)
    && (forall t :: 0 <= t < |p.queue.threads| ==> !Adding(p.queue.threads[t]))
    && p' == p.(owner := Pushing(0))
  }

  /** The thread is inside `Add`. */
  predicate Adding(ph: Q.Phase<Job>) {
    ph.PushAsleep? || ph.PushWoken?
  }

  ghost predicate StopPushes(p: Pool, p': Pool) {
    && p.owner.Pushing?
    && if p.owner.k == p.live then p' == p.(owner := Joining(0))
       else
         || (Q.PushWaits(p.queue, p'.queue, |p.workers|, None) && p' == p.(queue := p'.queue))
         || (Q.PushDone(p.queue, p'.queue, |p.workers|, None) && p' == p.(queue := p'.queue, owner := Pushing(p.owner.k + 1)))
  }

  /** Joins one more worker, or clears `threads_` and returns. */
  ghost predicate StopJoins(p: Pool, p': Pool) {
    && p.owner.Joining?
    && if p.owner.k == p.live then p' == p.(owner := Stopped, live := 0)
       else p.owner.k < |p.workers| && p.workers[p.owner.k] == Done && p' == p.(owner := Joining(p.owner.k + 1))
  }

  ghost predicate Wakes(p: Pool, p': Pool, t: nat) {
    Q.Spurious(p.queue, p'.queue, t) && p' == p.(queue := p'.queue)
  }

  /** A step by which a thread gets on: every step but a spurious wakeup. */
  ghost predicate Progress(p: Pool, p': Pool) {
    || (exists i :: WorkerPops(p, p', i))
    || (exists i :: WorkerFinishes(p, p', i))
    || (exists t, task :: Adds(p, p', t, task))
    || StopBegins(p, p') || StopPushes(p, p') || StopJoins(p, p')
  }

  ghost predicate Step(p: Pool, p': Pool) {
    Progress(p, p') || exists t :: Wakes(p, p', t)
  }

  // ---------------------------------------------------------------- the invariant

  function Nulls(jobs: seq<Job>): nat {
    if jobs == [] then 0 else Nulls(jobs[..|jobs| - 1]) + (if jobs[|jobs| - 1] == None then 1 else 0)
  }

  /** The closures among the jobs, with their multiplicities. */
  function Tasks(jobs: seq<Job>): multiset<nat> {
    if jobs == [] then multiset{}
    else
      var last := jobs[|jobs| - 1];
      Tasks(jobs[..|jobs| - 1]) + (if last.Some? then multiset{last.value} else multiset{})
  }

  function Dones(ws: seq<Worker>): nat {
    if ws == [] then 0 else (if ws[0] == Done then 1 else 0) + Dones(ws[1..])
  }

  /** The closures being run. */
  function InHand(ws: seq<Worker>): multiset<nat> {
    if ws == [] then multiset{} else TaskOf(ws[0]) + InHand(ws[1..])
  }

  /** Behind the first NULL there are only NULLs. */
  ghost predicate NullsLast(jobs: seq<Job>) {
    forall a, b :: 0 <= a < b < |jobs| && jobs[a] == None ==> jobs[b] == None
  }

  /** How many NULLs `Stop` has pushed so far. */
  function NullsPushed(p: Pool): nat {
    match p.owner
    case Serving => 0
    case Pushing(k) => if p.live == 0 then |p.workers| else k
    case Joining(_) => |p.workers|
    case Stopped => |p.workers|
  }

  ghost predicate PhasesAgree(p: Pool) {
    && |p.workers| == |p.nulls| == p.queue.capacity
    && |p.workers| < |p.queue.threads|
    && (forall i :: 0 <= i < |p.workers| ==>
          WorkerPhase(p, i) && p.nulls[i] == if p.workers[i] == Done then 1 else 0)
    && (forall t :: |p.workers| <= t < |p.queue.threads| ==> ClientPhase(p, t))
  }

  /** A worker is inside `Pop` only between two closures, and inside `Add` only while it runs one. */
  ghost predicate WorkerPhase(p: Pool, i: nat)
    requires i < |p.workers| && i < |p.queue.threads|
  {
    var ph := p.queue.threads[i];
    match p.workers[i]
    case Ready => ph == Q.Outside || ph == Q.PopAsleep || ph == Q.PopWoken
    case Running(_) => ph == Q.Outside || (p.owner == Serving && Adding(ph) && ph.x.Some?)
    case Done => ph == Q.Outside
  }

  /** After `Stop` has begun only the owner can be inside `Push`, with a NULL. */
  ghost predicate ClientPhase(p: Pool, t: nat)
    requires t < |p.queue.threads|
  {
    var ph := p.queue.threads[t];
    if p.owner == Serving then ph == Q.Outside || (Adding(ph) && ph.x.Some?)
    else if t == |p.workers| && p.owner.Pushing? then ph == Q.Outside || ph == Q.PushAsleep(None) || ph == Q.PushWoken(None)
    else ph == Q.Outside
  }

  ghost predicate OwnerAgrees(p: Pool) {
    && (p.live == |p.workers| || (p.live == 0 && p.owner != Serving && Dones(p.workers) == |p.workers|))
    && (p.owner.Pushing? ==> p.owner.k <= p.live)
    && (p.owner.Joining? ==> p.owner.k <= p.live && forall i :: 0 <= i < p.owner.k ==> p.workers[i] == Done)
    && (p.owner == Stopped ==> p.live == 0)
    && (p.owner.Pushing? && p.owner.k == p.live ==> |p.workers| < |p.queue.threads| && p.queue.threads[|p.workers|] == Q.Outside)
  }

  ghost predicate Inv(p: Pool) {
    && Q.Inv(p.queue)
    && PhasesAgree(p)
    && OwnerAgrees(p)
    && Nulls(p.queue.pushed) == NullsPushed(p) && NullsLast(p.queue.pushed)
    && Dones(p.workers) == Nulls(p.queue.popped)
    && Tasks(p.queue.popped) == multiset(p.ran) + InHand(p.workers)
  }

  // ---------------------------------------------------------------- counting

  lemma NullsSnoc(jobs: seq<Job>, j: Job)
    ensures Nulls(jobs + [j]) == Nulls(jobs) + (if j == None then 1 else 0)
    ensures Tasks(jobs + [j]) == Tasks(jobs) + (if j.Some? then multiset{j.value} else multiset{})
  {
    assert (jobs + [j])[..|jobs|] == jobs;
  }

  lemma {:induction false} NullsAppend(a: seq<Job>, b: seq<Job>)
    ensures Nulls(a + b) == Nulls(a) + Nulls(b)
    decreases |b|
  {
    if b == [] {
      assert a + b == a;
    } else {
      var n := |b| - 1;
      NullsAppend(a, b[..n]);
      assert a + b == (a + b[..n]) + [b[n]];
      NullsSnoc(a + b[..n], b[n]);
    }
  }

  lemma {:induction false} NoNulls(jobs: seq<Job>)
    requires Nulls(jobs) == 0
    ensures None !in jobs
  {
    if jobs != [] {
      var n := |jobs| - 1;
      NoNulls(jobs[..n]);
      assert jobs == jobs[..n] + [jobs[n]];
    }
  }

  function TaskOf(w: Worker): multiset<nat> {
    if w.Running? then multiset{w.task} else multiset{}
  }

  lemma Exchange<X>(a: multiset<X>, b: multiset<X>, rest: multiset<X>)
    ensures (a + rest) + b == (b + rest) + a
  {
  }

  lemma AddFirst<X>(first: multiset<X>, n: multiset<X>, b: multiset<X>, r: multiset<X>, a: multiset<X>)
    requires n + b == r + a
    ensures (first + n) + b == (first + r) + a
  {
    assert (first + n) + b == first + (n + b);
    assert (first + r) + a == first + (r + a);
  }

  lemma {:induction false} WorkerUpdate(ws: seq<Worker>, i: nat, w: Worker)
    requires i < |ws|
    ensures Dones(ws[i := w]) + (if ws[i] == Done then 1 else 0) == Dones(ws) + (if w == Done then 1 else 0)
    ensures InHand(ws[i := w]) + TaskOf(ws[i]) == InHand(ws) + TaskOf(w)
  {
    hide TaskOf, Dones, InHand;
    WorkersCons(ws);
    WorkersCons(ws[i := w]);
    if i == 0 {
      assert ws[i := w][1..] == ws[1..];
      Exchange(TaskOf(w), TaskOf(ws[0]), InHand(ws[1..]));
    } else {
      WorkerUpdate(ws[1..], i - 1, w);
      assert ws[i := w][1..] == ws[1..][i - 1 := w];
      AddFirst(TaskOf(ws[0]), InHand(ws[1..][i - 1 := w]), TaskOf(ws[i]), InHand(ws[1..]), TaskOf(w));
    }
  }

  lemma WorkersCons(ws: seq<Worker>)
    requires ws != []
    ensures Dones(ws) == (if ws[0] == Done then 1 else 0) + Dones(ws[1..])
    ensures InHand(ws) == TaskOf(ws[0]) + InHand(ws[1..])
  {
  }

  lemma {:induction false} DonesBound(ws: seq<Worker>)
    ensures Dones(ws) <= |ws|
    ensures Dones(ws) == |ws| <==> forall i :: 0 <= i < |ws| ==> ws[i] == Done
    ensures Dones(ws) == |ws| ==> InHand(ws) == multiset{}
  {
    if ws != [] {
      DonesBound(ws[1..]);
      assert Dones(ws) == |ws| ==> forall i :: 0 < i < |ws| ==> ws[1..][i - 1] == ws[i];
      if forall i :: 0 <= i < |ws| ==> ws[i] == Done {
        assert ws[0] == Done;
      }
    }
  }

  // ---------------------------------------------------------------- the invariant is kept

  lemma InitInv(p: Pool)
    requires Init(p)
    ensures Inv(p)
  {
    IdleWorkers(p.workers);
  }

  lemma {:induction false} IdleWorkers(ws: seq<Worker>)
    requires forall i :: 0 <= i < |ws| ==> ws[i] == Ready
    ensures Dones(ws) == 0 && InHand(ws) == multiset{}
  {
    if ws != [] {
      IdleWorkers(ws[1..]);
    }
  }

  lemma WorkerWaitsKeepsInv(p: Pool, p': Pool, i: nat)
    requires Inv(p) && i < |p.workers| && p.workers[i] == Ready
    requires Q.PopWaits(p.queue, p'.queue, i) && p' == p.(queue := p'.queue)
    ensures Inv(p')
  {
    hide Q.Inv, NullsLast, Nulls, Tasks, Dones, InHand;
    Q.PopWaitsKeepsInv(p.queue, p'.queue, i);
    assert forall t :: |p.workers| <= t < |p.queue.threads| ==> ClientPhase(p, t) ==> ClientPhase(p', t);
  }

  lemma WorkerTakesKeepsPhases(p: Pool, p': Pool, i: nat, job: Job)
    requires Inv(p) && WorkerTakes(p, p', i, job)
    requires Dones(p'.workers) >= Dones(p.workers) && Dones(p'.workers) <= |p'.workers|
    ensures PhasesAgree(p') && OwnerAgrees(p')
  {
    hide Q.Inv, NullsLast, Nulls, Tasks, Dones, InHand;
    assert forall t :: |p.workers| <= t < |p.queue.threads| ==> ClientPhase(p, t) ==> ClientPhase(p', t);
  }

  lemma WorkerTakesKeepsInv(p: Pool, p': Pool, i: nat, job: Job)
    requires Inv(p) && WorkerTakes(p, p', i, job)
    ensures Inv(p')
  {
    hide Q.Inv, NullsLast, Nulls, Tasks, Dones, InHand, PhasesAgree, OwnerAgrees, Q.NotifyNotFull;
    Q.PopDoneKeepsInv(p.queue, p'.queue, i, job);
    NullsSnoc(p.queue.popped, job);
    WorkerUpdate(p.workers, i, p'.workers[i]);
    DonesBound(p'.workers);
    WorkerTakesKeepsPhases(p, p', i, job);
    assert InHand(p'.workers) == InHand(p.workers) + TaskOf(p'.workers[i]);
  }

  lemma WorkerFinishesKeepsInv(p: Pool, p': Pool, i: nat)
    requires Inv(p) && WorkerFinishes(p, p', i)
    ensures Inv(p')
  {
    hide Q.Inv, NullsLast, Nulls, Tasks, Dones, InHand;
    WorkerUpdate(p.workers, i, Ready);
    DonesBound(p.workers);
    assert forall t :: |p.workers| <= t < |p.queue.threads| ==> ClientPhase(p, t) ==> ClientPhase(p', t);
    assert InHand(p'.workers) + TaskOf(p.workers[i]) == InHand(p.workers);
    assert multiset(p'.ran) == multiset(p.ran) + TaskOf(p.workers[i]);
  }

  lemma PushKeepsNullsLast(jobs: seq<Job>, j: Job)
    requires NullsLast(jobs) && (j == None || Nulls(jobs) == 0)
    ensures NullsLast(jobs + [j])
  {
    if Nulls(jobs) == 0 {
      NoNulls(jobs);
    }
  }

  lemma AddsKeepsInv(p: Pool, p': Pool, t: nat, task: nat)
    requires Inv(p) && Adds(p, p', t, task)
    ensures Inv(p')
  {
    hide Q.Inv, NullsLast, Nulls, Tasks, Dones, InHand;
    Q.PushKeepsInv(p.queue, p'.queue, t, Some(task));
    NullsSnoc(p.queue.pushed, Some(task));
    PushKeepsNullsLast(p.queue.pushed, Some(task));
    assert forall t :: |p.workers| <= t < |p.queue.threads| ==> ClientPhase(p, t) ==> ClientPhase(p', t);
  }

  lemma StopPushesKeepsInv(p: Pool, p': Pool)
    requires Inv(p) && StopPushes(p, p')
    ensures Inv(p')
  {
    hide Q.Inv, NullsLast, Nulls, Tasks, Dones, InHand;
    if p.owner.k != p.live {
      Q.PushKeepsInv(p.queue, p'.queue, |p.workers|, None);
      NullsSnoc(p.queue.pushed, None);
      PushKeepsNullsLast(p.queue.pushed, None);
    }
    assert forall t :: |p.workers| <= t < |p.queue.threads| ==> ClientPhase(p, t) ==> ClientPhase(p', t);
  }

  lemma StopBeginsKeepsInv(p: Pool, p': Pool)
    requires Inv(p) && StopBegins(p, p')
    ensures Inv(p')
  {
    hide Q.Inv, NullsLast, Nulls, Tasks, Dones, InHand;
    DonesBound(p.workers);
    forall t | |p.workers| <= t < |p.queue.threads|
      ensures ClientPhase(p', t)
    {
      assert ClientPhase(p, t) && !Adding(p.queue.threads[t]);
    }
    forall i | 0 <= i < |p.workers|
      ensures WorkerPhase(p', i)
    {
      assert WorkerPhase(p, i) && !Adding(p.queue.threads[i]);
    }
    assert ClientPhase(p, |p.workers|) && !Adding(p.queue.threads[|p.workers|]);
  }

  lemma StopJoinsKeepsInv(p: Pool, p': Pool)
    requires Inv(p) && StopJoins(p, p')
    ensures Inv(p')
  {
    hide Q.Inv, NullsLast, Nulls, Tasks, Dones, InHand;
    DonesBound(p.workers);
    assert forall t :: |p.workers| <= t < |p.queue.threads| ==> ClientPhase(p, t) ==> ClientPhase(p', t);
  }

  lemma WakesKeepsInv(p: Pool, p': Pool, t: nat)
    requires Inv(p) && Wakes(p, p', t)
    ensures Inv(p')
  {
    hide Q.Inv, NullsLast, Nulls, Tasks, Dones, InHand;
    Q.SpuriousKeepsInv(p.queue, p'.queue, t);
    assert forall t :: |p.workers| <= t < |p.queue.threads| ==> ClientPhase(p, t) ==> ClientPhase(p', t);
  }

  lemma StepKeepsInv(p: Pool, p': Pool)
    requires Inv(p) && Step(p, p')
    ensures Inv(p')
  {
    hide Inv, WorkerTakes, WorkerFinishes, Adds, StopBegins, StopPushes, StopJoins, Wakes, Q.PopWaits;
    if i :| WorkerPops(p, p', i) {
      if Q.PopWaits(p.queue, p'.queue, i) && p' == p.(queue := p'.queue) {
        WorkerWaitsKeepsInv(p, p', i);
      } else {
        var job :| WorkerTakes(p, p', i, job);
        WorkerTakesKeepsInv(p, p', i, job);
      }
    } else if i :| WorkerFinishes(p, p', i) {
      WorkerFinishesKeepsInv(p, p', i);
    } else if t, task :| Adds(p, p', t, task) {
      AddsKeepsInv(p, p', t, task);
    } else if StopPushes(p, p') {
      StopPushesKeepsInv(p, p');
    } else if t :| Wakes(p, p', t) {
      WakesKeepsInv(p, p', t);
    } else if StopBegins(p, p') {
      StopBeginsKeepsInv(p, p');
    } else {
      StopJoinsKeepsInv(p, p');
    }
  }

  // ---------------------------------------------------------------- every run

  ghost predicate IsRun(run: seq<Pool>) {
    && run != [] && Init(run[0])
    && forall i :: 0 < i < |run| ==> Step(run[i - 1], run[i])
  }

  lemma {:induction false} EveryStateIsSafe(run: seq<Pool>, i: nat)
    requires IsRun(run) && i < |run|
    ensures Inv(run[i])
  {
    hide Init, Step, Inv;
    if i == 0 {
      InitInv(run[0]);
    } else {
      EveryStateIsSafe(run, i - 1);
      StepKeepsInv(run[i - 1], run[i]);
    }
  }

  /** Once `Stop` has returned, nothing is left: the queue is empty, every worker has ended after popping exactly
      one NULL, and the closures that were added are the closures that were run, each exactly as often. */
  lemma ShutdownIsExact(run: seq<Pool>, i: nat)
    requires IsRun(run) && i < |run| && run[i].owner == Stopped
    ensures var p := run[i];
            && p.queue.items == []
            && (forall w :: 0 <= w < |p.workers| ==> p.workers[w] == Done && w < |p.nulls| && p.nulls[w] == 1)
            && (forall task :: multiset(p.ran)[task] == multiset(p.queue.pushed)[Some(task)])
  {
    hide IsRun, Nulls, Tasks, Dones, InHand;
    var p := run[i];
    EveryStateIsSafe(run, i);
    DonesBound(p.workers);
    NothingLeft(p.queue.popped, p.queue.items);
    forall task
      ensures multiset(p.ran)[task] == multiset(p.queue.pushed)[Some(task)]
    {
      TasksAreMultiplicity(p.queue.pushed, task);
    }
  }

  lemma {:induction false} TasksAreMultiplicity(jobs: seq<Job>, task: nat)
    ensures Tasks(jobs)[task] == multiset(jobs)[Some(task)]
  {
    if jobs != [] {
      var n := |jobs| - 1;
      TasksAreMultiplicity(jobs[..n], task);
      assert jobs == jobs[..n] + [jobs[n]];
    }
  }

  /** If the NULLs popped are all that were pushed, and they were pushed last, everything was popped. */
  lemma NothingLeft(popped: seq<Job>, items: seq<Job>)
    requires NullsLast(popped + items) && Nulls(popped) == Nulls(popped + items) > 0
    ensures items == [] && popped + items == popped
  {
    NullsAppend(popped, items);
    NoNulls(items);
    if None !in popped {
      NoNullsMeansZero(popped);
    }
    OnlyNullsBehind(popped, items);
  }

  lemma OnlyNullsBehind(popped: seq<Job>, items: seq<Job>)
    requires NullsLast(popped + items) && None in popped
    ensures items != [] ==> None in items
  {
    var a :| 0 <= a < |popped| && popped[a] == None;
    assert (popped + items)[a] == None;
    if items != [] {
      assert items[0] == (popped + items)[|popped|];
    }
  }

  lemma {:induction false} NoNullsMeansZero(jobs: seq<Job>)
    requires None !in jobs
    ensures Nulls(jobs) == 0
  {
    if jobs != [] {
      var n := |jobs| - 1;
      assert forall j :: j in jobs[..n] ==> j in jobs;
      NoNullsMeansZero(jobs[..n]);
    }
  }

  /** While the pool serves, no closure is lost and none is run twice. */
  lemma NothingLostBefore(run: seq<Pool>, i: nat)
    requires IsRun(run) && i < |run|
    ensures var p := run[i];
            && p.queue.pushed == p.queue.popped + p.queue.items
            && Tasks(p.queue.popped) == multiset(p.ran) + InHand(p.workers)
  {
    EveryStateIsSafe(run, i);
  }

  /** `Stop` has cleared `threads_`, so it has returned at least once. */
  ghost predicate Cleared(p: Pool) {
    Inv(p) && p.live == 0
  }

  function NextOwner(o: Owner): Owner {
    match o
    case Serving => Serving
    case Pushing(_) => Joining(0)
    case Joining(_) => Stopped
    case Stopped => Pushing(0)
  }

  lemma ClearedIsQuiet(p: Pool)
    requires Cleared(p)
    ensures |p.workers| > 0 && p.owner != Serving && (p.owner.Pushing? || p.owner.Joining? ==> p.owner.k == 0)
    ensures forall i :: 0 <= i < |p.workers| ==> p.workers[i] == Done
    ensures forall t :: 0 <= t < |p.queue.threads| ==> p.queue.threads[t] == Q.Outside
  {
    hide Q.NoLostWakeup, NullsLast, Nulls, Tasks, Dones, InHand;
    DonesBound(p.workers);
    assert forall i :: 0 <= i < |p.workers| ==> p.workers[i] == Done;
    forall t | 0 <= t < |p.queue.threads|
      ensures p.queue.threads[t] == Q.Outside
    {
      if t < |p.workers| {
        assert p.workers[t] == Done;
      } else {
        assert ClientPhase(p, t);
      }
    }
  }

  /** Then no thread can take any step but the owner, who goes through another `Stop` that pushes and joins nothing. */
  lemma NothingElseAfterStop(p: Pool, p': Pool)
    requires Cleared(p) && Step(p, p')
    ensures p' == p.(owner := NextOwner(p.owner))
  {
    ClearedIsQuiet(p);
    hide Inv;
  }

  /** However often `Stop` is called again and whatever the interleaving, only the owner's own position changes. */
  lemma {:induction false} StoppedForGood(run: seq<Pool>, i: nat, j: nat)
    requires IsRun(run) && i <= j < |run| && run[i].owner == Stopped
    ensures Cleared(run[j]) && run[j] == run[i].(owner := run[j].owner)
    ensures run[j].owner == Stopped || run[j].owner == Pushing(0) || run[j].owner == Joining(0)
    decreases j
  {
    hide Step, Q.Inv, NullsLast, Nulls, Tasks, Dones, InHand;
    EveryStateIsSafe(run, j);
    if i < j {
      StoppedForGood(run, i, j - 1);
      NothingElseAfterStop(run[j - 1], run[j]);
    }
  }

  /** When a second `Stop` returns, the pool is as it was before. */
  lemma SecondStopDoesNothing(run: seq<Pool>, i: nat, j: nat)
    requires IsRun(run) && i <= j < |run| && run[i].owner == Stopped && run[j].owner == Stopped
    ensures run[j] == run[i]
  {
    StoppedForGood(run, i, j);
  }

  // ---------------------------------------------------------------- Stop returns

  ghost predicate CanProgress(p: Pool) {
    exists p' :: Progress(p, p')
  }

  lemma RunningWorkerProgresses(p: Pool, i: nat)
    requires i < |p.workers| && p.workers[i].Running? && i < |p.queue.threads| && p.queue.threads[i] == Q.Outside
    ensures CanProgress(p)
  {
    var p' := p.(workers := p.workers[i := Ready], ran := p.ran + [p.workers[i].task]);
    assert WorkerFinishes(p, p', i);
    assert Progress(p, p');
  }

  /** Wakes every thread asleep in `Push`. */
  function AllAwake(a: seq<Q.Phase<Job>>): (b: seq<Q.Phase<Job>>)
    ensures Q.NotifyNotFull(a, b)
  {
    var b := seq(|a|, t requires 0 <= t < |a| => if a[t].PushAsleep? then Q.PushWoken(a[t].x) else a[t]);
    assert (exists t :: 0 <= t < |a| && a[t].PushAsleep?) ==> exists t :: 0 <= t < |a| && a[t].PushAsleep? && b[t].PushWoken? by {
      if t :| 0 <= t < |a| && a[t].PushAsleep? {
        assert b[t].PushWoken?;
      }
    }
    b
  }

  lemma AwakeWorkerProgresses(p: Pool, i: nat)
    requires Inv(p) && i < |p.workers| && p.workers[i] == Ready && p.queue.threads[i] != Q.PopAsleep
    ensures CanProgress(p)
  {
    hide Q.NotifyNotFull;
    var q := p.queue;
    if q.items == [] {
      var q' := q.(threads := q.threads[i := Q.PopAsleep]);
      var p' := p.(queue := q');
      assert Q.PopWaits(q, q', i);
      assert WorkerPops(p, p', i);
      assert Progress(p, p');
    } else {
      var job := q.items[0];
      var q' := q.(items := q.items[1..], popped := q.popped + [job], threads := AllAwake(q.threads[i := Q.Outside]));
      var p' := match job
        case Some(task) => p.(queue := q', workers := p.workers[i := Running(task)])
        case None => p.(queue := q', workers := p.workers[i := Done], nulls := p.nulls[i := p.nulls[i] + 1]);
      assert Q.PopDone(q, q', i, job);
      assert WorkerTakes(p, p', i, job);
      assert WorkerPops(p, p', i);
      assert Progress(p, p');
    }
  }

  function AllConsumersAwake(a: seq<Q.Phase<Job>>): (b: seq<Q.Phase<Job>>)
    ensures Q.NotifyNotEmpty(a, b)
  {
    var b := seq(|a|, t requires 0 <= t < |a| => if a[t].PopAsleep? then Q.PopWoken else a[t]);
    assert (exists t :: 0 <= t < |a| && a[t].PopAsleep?) ==> exists t :: 0 <= t < |a| && a[t].PopAsleep? && b[t].PopWoken? by {
      if t :| 0 <= t < |a| && a[t].PopAsleep? {
        assert b[t].PopWoken?;
      }
    }
    b
  }

  lemma AwakeOwnerProgresses(p: Pool)
    requires Inv(p) && p.owner.Pushing? && p.queue.threads[|p.workers|] != Q.PushAsleep(None)
    ensures CanProgress(p)
  {
    hide Q.NotifyNotEmpty;
    var q, n := p.queue, |p.workers|;
    assert ClientPhase(p, n);
    var p';
    if p.owner.k == p.live {
      p' := p.(owner := Joining(0));
    } else if |q.items| == q.capacity {
      p' := p.(queue := q.(threads := q.threads[n := Q.PushAsleep(None)]));
      assert Q.PushWaits(q, p'.queue, n, None);
    } else {
      var q' := q.(items := q.items + [None], pushed := q.pushed + [None], threads := AllConsumersAwake(q.threads[n := Q.Outside]));
      p' := p.(queue := q', owner := Pushing(p.owner.k + 1));
      assert Q.PushDone(q, q', n, None);
    }
    assert StopPushes(p, p');
    assert Progress(p, p');
  }

  /** With nobody awake, a sleeping owner means a full queue and a sleeping worker an empty one. */
  lemma AllAsleep(p: Pool)
    requires Inv(p) && p.owner != Serving
    requires forall i :: 0 <= i < |p.workers| ==> p.workers[i] == Done || p.queue.threads[i] == Q.PopAsleep
    requires p.owner.Pushing? ==> p.queue.threads[|p.workers|] == Q.PushAsleep(None)
    ensures Dones(p.workers) < |p.workers| ==> p.queue.items == []
    ensures p.owner.Pushing? ==> |p.queue.items| == p.queue.capacity
  {
    hide Nulls, Tasks, InHand, NullsLast;
    DonesBound(p.workers);
    forall t | 0 <= t < |p.queue.threads|
      ensures !p.queue.threads[t].PopWoken? && !p.queue.threads[t].PushWoken?
    {
      if t >= |p.workers| {
        assert ClientPhase(p, t);
      }
    }
    Q.NobodyWoken(p.queue.threads);
  }

  /** `Stop` never hangs: until it has returned, some thread can always get on. */
  lemma StopNeverHangs(run: seq<Pool>, i: nat)
    requires IsRun(run) && i < |run| && (run[i].owner.Pushing? || run[i].owner.Joining?)
    ensures CanProgress(run[i])
  {
    EveryStateIsSafe(run, i);
    StopProgresses(run[i]);
  }

  lemma StopProgresses(p: Pool)
    requires Inv(p) && (p.owner.Pushing? || p.owner.Joining?)
    ensures CanProgress(p)
  {
    hide CanProgress, Q.Inv, Nulls, Tasks, Dones, InHand, NullsLast;
    if w :| 0 <= w < |p.workers| && p.workers[w].Running? {
      RunningWorkerProgresses(p, w);
    } else if w :| 0 <= w < |p.workers| && p.workers[w] == Ready && p.queue.threads[w] != Q.PopAsleep {
      AwakeWorkerProgresses(p, w);
    } else if p.owner.Pushing? && p.queue.threads[|p.workers|] != Q.PushAsleep(None) {
      AwakeOwnerProgresses(p);
    } else {
      AllAsleep(p);
      DonesBound(p.workers);
      Conserved(p);
      if p.owner.Joining? {
        JoinProgresses(p);
      }
    }
  }

  /** An empty queue has passed on every NULL. */
  lemma Conserved(p: Pool)
    requires Inv(p)
    ensures Nulls(p.queue.popped) <= NullsPushed(p)
    ensures p.queue.items == [] ==> Nulls(p.queue.popped) == NullsPushed(p)
    ensures p.queue.capacity == |p.workers| > 0
  {
    hide Nulls, Tasks, Dones, InHand, NullsLast;
    NullsAppend(p.queue.popped, p.queue.items);
    assert p.queue.items == [] ==> p.queue.popped + p.queue.items == p.queue.popped;
  }

  lemma JoinProgresses(p: Pool)
    requires Inv(p) && p.owner.Joining?
    requires forall i :: 0 <= i < |p.workers| ==> p.workers[i] == Done
    ensures CanProgress(p)
  {
    var p' := if p.owner.k == p.live then p.(owner := Stopped, live := 0) else p.(owner := Joining(p.owner.k + 1));
    assert StopJoins(p, p');
    assert Progress(p, p');
  }
}
