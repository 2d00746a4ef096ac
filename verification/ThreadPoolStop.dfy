/** Boost_Searcher/limonp/include/limonp/ThreadPool.hpp: how long `Stop` can take. A rank of the states falls with every step by which
    a thread gets on, so that only spurious wakeups can prolong a shutdown. */
module ThreadPoolStop {
  import opened Wrappers
  import opened ThreadPool
  import Q = BoundedBlockingQueue

  ghost predicate Stopping(p: Pool) {
    Inv(p) && (p.owner.Pushing? || p.owner.Joining?)
  }

  // ---------------------------------------------------------------- counting

  function Count(flags: seq<bool>): nat {
    if flags == [] then 0 else (if flags[0] then 1 else 0) + Count(flags[1..])
  }

  lemma {:induction false} CountBound(flags: seq<bool>)
    ensures Count(flags) <= |flags|
  {
    if flags != [] {
      CountBound(flags[1..]);
    }
  }

  lemma {:induction false} CountUpdate(flags: seq<bool>, i: nat, b: bool)
    requires i < |flags|
    ensures Count(flags[i := b]) + (if flags[i] then 1 else 0) == Count(flags) + (if b then 1 else 0)
  {
    if i == 0 {
      assert flags[0 := b][1..] == flags[1..];
    } else {
      CountUpdate(flags[1..], i - 1, b);
      assert flags[i := b][1..] == flags[1..][i - 1 := b];
    }
  }

  /** Which workers are running a closure. */
  function Runners(ws: seq<Worker>): (r: seq<bool>)
    ensures |r| == |ws| && forall i :: 0 <= i < |r| ==> r[i] == ws[i].Running?
  {
    seq(|ws|, i requires 0 <= i < |ws| => ws[i].Running?)
  }

  /** Which workers will look at the queue without being woken. */
  function Lookers(p: Pool): (r: seq<bool>)
    requires |p.workers| <= |p.queue.threads|
    ensures |r| == |p.workers|
    ensures forall i :: 0 <= i < |r| ==> r[i] == (p.workers[i] == Ready && p.queue.threads[i] != Q.PopAsleep)
  {
    seq(|p.workers|, i requires 0 <= i < |p.workers| => p.workers[i] == Ready && p.queue.threads[i] != Q.PopAsleep)
  }

  // ---------------------------------------------------------------- the rank

  /** What `Stop` has still to do itself: a NULL to push is one to be popped as well. */
  function OwnerWork(p: Pool): nat {
    match p.owner
    case Pushing(k) => (if k <= p.live then 3 * (p.live - k) else 0) + p.live + 2
    case Joining(k) => (if k <= p.live then p.live - k else 0) + 1
    case _ => 0
  }

  /** Steps that are still to be taken, apart from going to sleep. */
  function Work(p: Pool): nat {
    OwnerWork(p) + 2 * |p.queue.items| + Count(Runners(p.workers))
  }

  /** Threads that may still go to sleep before the next of those steps. */
  function Awake(p: Pool): nat
    requires |p.workers| < |p.queue.threads|
  {
    Count(Lookers(p)) + if p.owner.Pushing? && !p.queue.threads[|p.workers|].PushAsleep? then 1 else 0
  }

  function Rank(p: Pool): nat
    requires |p.workers| < |p.queue.threads|
  {
    Work(p) * (|p.workers| + 2) + Awake(p)
  }

  lemma AwakeBound(p: Pool)
    requires |p.workers| < |p.queue.threads|
    ensures Awake(p) <= |p.workers| + 1
  {
    CountBound(Lookers(p));
  }

  /** Less work outweighs any number of threads that have woken up. */
  lemma LessWork(p: Pool, p': Pool)
    requires |p.workers| < |p.queue.threads| && |p'.workers| < |p'.queue.threads| && |p'.workers| == |p.workers|
    requires Work(p') < Work(p)
    ensures Rank(p') < Rank(p)
  {
    hide Work, Awake;
    AwakeBound(p');
    Outweighs(Work(p'), Work(p), |p.workers| + 2);
  }

  lemma {:induction false} Outweighs(a: nat, b: nat, n: nat)
    requires a < b
    ensures a * n + n <= b * n
    decreases b
  {
    assert b * n == (b - 1) * n + n;
    if a < b - 1 {
      Outweighs(a, b - 1, n);
    }
  }

  /** With the same work left, only the threads awake count. */
  lemma SameWork(p: Pool, p': Pool)
    requires |p.workers| < |p.queue.threads| && |p'.workers| < |p'.queue.threads| && p'.workers == p.workers
    requires p'.owner == p.owner && p'.live == p.live && p'.queue.items == p.queue.items
    ensures Rank(p') - Awake(p') == Rank(p) - Awake(p)
  {
    assert Work(p') == Work(p);
    hide Work, Awake;
  }

  lemma StoppingShape(p: Pool)
    requires Stopping(p)
    ensures |p.workers| < |p.queue.threads|
  {
  }

  lemma WorkerTakesRank(p: Pool, p': Pool, i: nat, job: Job)
    requires Stopping(p) && WorkerTakes(p, p', i, job)
    ensures |p'.workers| == |p.workers| < |p'.queue.threads| && Rank(p') < Rank(p)
  {
    hide Rank, Inv, Q.NotifyNotFull, Count;
    CountUpdate(Runners(p.workers), i, p'.workers[i].Running?);
    assert Runners(p'.workers) == Runners(p.workers)[i := p'.workers[i].Running?];
    TakesKeepsThreads(p, p', i, job);
    LessWork(p, p');
  }

  lemma TakesKeepsThreads(p: Pool, p': Pool, i: nat, job: Job)
    requires Inv(p) && WorkerTakes(p, p', i, job)
    ensures |p.workers| < |p.queue.threads| == |p'.queue.threads|
  {
  }

  lemma WorkerFinishesRank(p: Pool, p': Pool, i: nat)
    requires Stopping(p) && WorkerFinishes(p, p', i)
    ensures |p'.workers| == |p.workers| < |p'.queue.threads| && Rank(p') < Rank(p)
  {
    StoppingShape(p);
    hide Rank, Count, Inv;
    CountUpdate(Runners(p.workers), i, false);
    assert Runners(p'.workers) == Runners(p.workers)[i := false];
    LessWork(p, p');
  }

  lemma WorkerWaitsRank(p: Pool, p': Pool, i: nat)
    requires Stopping(p) && i < |p.workers| && p.workers[i] == Ready
    requires Q.PopWaits(p.queue, p'.queue, i) && p' == p.(queue := p'.queue)
    ensures |p'.workers| == |p.workers| < |p'.queue.threads| && Rank(p') < Rank(p)
  {
    StoppingShape(p);
    SameWork(p, p');
    hide Count, Inv, Rank;
    CountUpdate(Lookers(p), i, false);
    assert Lookers(p') == Lookers(p)[i := false];
  }

  lemma StopPushesRank(p: Pool, p': Pool)
    requires Stopping(p) && StopPushes(p, p')
    ensures |p'.workers| == |p.workers| < |p'.queue.threads| && Rank(p') < Rank(p)
  {
    hide Rank, Count, Inv, StopPushes;
    PushesKeepsThreads(p, p');
    if p'.owner == p.owner {
      SleepingRank(p, p');
    } else {
      LessWork(p, p');
    }
  }

  lemma PushesKeepsThreads(p: Pool, p': Pool)
    requires Inv(p) && StopPushes(p, p')
    ensures |p.workers| < |p.queue.threads| == |p'.queue.threads| && p'.workers == p.workers && p'.live == p.live
    ensures p.owner.Pushing? && p.owner.k <= p.live
    ensures p'.owner == p.owner
         || (p'.owner == Joining(0) && p'.queue == p.queue && p.owner.k == p.live)
         || (p'.owner == Pushing(p.owner.k + 1) && p.owner.k < p.live && |p'.queue.items| == |p.queue.items| + 1)
    ensures p'.owner == p.owner ==>
              && p'.queue == p.queue.(threads := p.queue.threads[|p.workers| := Q.PushAsleep(None)])
              && !p.queue.threads[|p.workers|].PushAsleep? && p' == p.(queue := p'.queue)
  {
    hide Q.Inv, Nulls, NullsLast, Tasks, Dones, InHand;
  }

  /** The owner goes to sleep. */
  lemma SleepingRank(p: Pool, p': Pool)
    requires |p.workers| < |p.queue.threads| && p.owner.Pushing? && !p.queue.threads[|p.workers|].PushAsleep?
    requires p' == p.(queue := p.queue.(threads := p.queue.threads[|p.workers| := Q.PushAsleep(None)]))
    ensures Rank(p') < Rank(p)
  {
    SameWork(p, p');
    hide Count, Rank;
    assert Lookers(p') == Lookers(p);
  }

  lemma StopJoinsRank(p: Pool, p': Pool)
    requires Stopping(p) && StopJoins(p, p')
    ensures |p'.workers| == |p.workers| < |p'.queue.threads| && Rank(p') < Rank(p)
  {
    hide Rank, Count;
    LessWork(p, p');
  }

  /** Every step by which a thread gets on lowers the rank. */
  lemma ProgressLowersRank(p: Pool, p': Pool)
    requires Stopping(p) && Progress(p, p')
    ensures |p'.workers| == |p.workers| && |p.workers| < |p.queue.threads| && |p.workers| < |p'.queue.threads|
    ensures Rank(p') < Rank(p)
  {
    StoppingShape(p);
    hide Inv, Rank, WorkerTakes, WorkerFinishes, StopPushes, StopJoins, Q.PopWaits;
    if i :| WorkerPops(p, p', i) {
      if Q.PopWaits(p.queue, p'.queue, i) && p' == p.(queue := p'.queue) {
        WorkerWaitsRank(p, p', i);
      } else {
        var job :| WorkerTakes(p, p', i, job);
        WorkerTakesRank(p, p', i, job);
      }
    } else if i :| WorkerFinishes(p, p', i) {
      WorkerFinishesRank(p, p', i);
    } else if StopPushes(p, p') {
      StopPushesRank(p, p');
    } else {
      StopJoinsRank(p, p');
    }
  }

  /** A spurious wakeup raises the rank by one at most. */
  lemma WakeRaisesRankByOne(p: Pool, p': Pool, t: nat)
    requires Stopping(p) && Wakes(p, p', t)
    ensures |p'.workers| == |p.workers| && |p.workers| < |p.queue.threads| && |p.workers| < |p'.queue.threads|
    ensures Rank(p') <= Rank(p) + 1
  {
    StoppingShape(p);
    hide Inv, Rank, Awake;
    SameWork(p, p');
    AwakeByOne(p, p', t);
  }

  lemma AwakeByOne(p: Pool, p': Pool, t: nat)
    requires |p.workers| < |p.queue.threads| && Wakes(p, p', t)
    ensures |p'.workers| < |p'.queue.threads| && Awake(p') <= Awake(p) + 1
  {
    hide Count;
    if t < |p.workers| && p.queue.threads[t].PopAsleep? {
      CountUpdate(Lookers(p), t, p.workers[t] == Ready);
      assert Lookers(p') == Lookers(p)[t := p.workers[t] == Ready];
    } else {
      assert Lookers(p') == Lookers(p);
    }
  }

  // ---------------------------------------------------------------- how many steps

  /** How many of the steps from state `i` to state `j` are nothing but spurious wakeups. */
  ghost function Spurious(run: seq<Pool>, i: nat, j: nat): nat
    requires i <= j < |run|
    decreases j
  {
    if i == j then 0
    else Spurious(run, i, j - 1) + if Progress(run[j - 1], run[j]) then 0 else 1
  }

  lemma StepRank(p: Pool, p': Pool)
    requires Stopping(p) && Step(p, p')
    ensures |p.workers| < |p.queue.threads| && |p'.workers| < |p'.queue.threads|
    ensures Rank(p') + 1 <= Rank(p) + 2 * if Progress(p, p') then 0 else 1
  {
    hide Inv, Rank, Progress, Wakes;
    if Progress(p, p') {
      ProgressLowersRank(p, p');
    } else {
      var t :| Wakes(p, p', t);
      WakeRaisesRankByOne(p, p', t);
    }
  }

  /** `Stop` takes at most as many steps, of all threads together, as the rank of the state says, and two more for
      every spurious wakeup. */
  lemma {:induction false} StopIsBounded(run: seq<Pool>, i: nat, j: nat)
    requires IsRun(run) && i <= j < |run|
    requires forall k :: i <= k < j ==> run[k].owner.Pushing? || run[k].owner.Joining?
    ensures |run[i].workers| < |run[i].queue.threads| && |run[j].workers| < |run[j].queue.threads|
    ensures Rank(run[j]) + (j - i) <= Rank(run[i]) + 2 * Spurious(run, i, j)
    decreases j
  {
    hide Inv, Init, Rank, Progress, Step;
    EveryStateIsSafe(run, i);
    EveryStateIsSafe(run, j);
    SafeShape(run[i]);
    SafeShape(run[j]);
    if i < j {
      EveryStateIsSafe(run, j - 1);
      StopIsBounded(run, i, j - 1);
      StepRank(run[j - 1], run[j]);
    }
  }

  lemma SafeShape(p: Pool)
    requires Inv(p)
    ensures |p.workers| < |p.queue.threads|
  {
  }

  /** The rank is quadratic in the number of workers. */
  lemma RankBound(p: Pool)
    requires Stopping(p)
    ensures |p.workers| < |p.queue.threads|
    ensures Rank(p) < (7 * |p.workers| + 3) * (|p.workers| + 2)
  {
    var n := |p.workers|;
    CountBound(Runners(p.workers));
    AwakeBound(p);
    hide Count;
    assert Work(p) <= 7 * n + 2;
    hide Work, Awake;
    Outweighs(Work(p), 7 * n + 3, n + 2);
  }
}
