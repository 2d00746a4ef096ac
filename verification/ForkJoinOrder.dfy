/** Boost_Searcher/data/input/boost_asio/example/cpp11/executors/fork_join.cpp: the order in which forked functions are run. Functions
    are queued in a FIFO queue, and run at once when the queue is loaded. */
module ForkJoinOrder {
  import opened ForkJoin

  // ---------------------------------------------------------------- what one step shows

  /** What a step puts into the queue. */
  function Queues(s: Pool, s': Pool): seq<nat> {
    if |s'.queue| > |s.queue| then s'.queue[|s.queue|..] else []
  }

  /** Thread `t` begins to run a function of group `g` that was queued. */
  ghost predicate Begins(s: Pool, s': Pool, t: int, g: nat) {
    && 0 <= t < |s.threads| && |s'.threads| == |s.threads|
    && s'.threads[t].stack == s.threads[t].stack + [Run(g, false)]
  }

  /** The group whose function a step takes from the queue. */
  ghost function Takes(s: Pool, s': Pool): seq<nat> {
    if exists t, g :: Begins(s, s', t, g) then
      var t, g :| Begins(s, s', t, g);
      [g]
    else []
  }

  /** Any thread that begins a function begins this one. */
  lemma TakesThis(s: Pool, s': Pool, t: int, g: nat)
    requires Begins(s, s', t, g)
    requires forall t', g' :: Begins(s, s', t', g') ==> g' == g
    ensures Takes(s, s') == [g]
  {
  }

  lemma TakesNothing(s: Pool, s': Pool)
    requires |s'.threads| == |s.threads| ==> forall t :: 0 <= t < |s.threads| ==> NothingBegun(s.threads[t], s'.threads[t])
    ensures Takes(s, s') == []
  {
  }

  /** The stack grows by no function from the queue. */
  ghost predicate NothingBegun(a: Thread, b: Thread) {
    |b.stack| <= |a.stack| || forall g :: b.stack[|a.stack|] != Run(g, false)
  }

  // ---------------------------------------------------------------- one step

  /** What a step takes is the oldest in the queue, and what it queues is the newest. */
  ghost predicate InOrder(s: Pool, s': Pool) {
    s.queue + Queues(s, s') == Takes(s, s') + s'.queue
  }

  lemma ForksInOrder(s: Pool, s': Pool, t: nat, g: nat)
    requires Forks(s, s', t, g)
    ensures InOrder(s, s')
  {
    assert forall k :: 0 <= k < |s.threads| ==> NothingBegun(s.threads[k], s'.threads[k]);
    hide NothingBegun, Takes;
    TakesNothing(s, s');
    assert [] + s'.queue == s'.queue;
  }

  lemma LoopsInOrder(s: Pool, s': Pool, t: nat)
    requires Loops(s, s', t)
    ensures InOrder(s, s')
  {
    if GoesOn(s.threads[t].Top(), s.workCount, s.useCount) && s.queue != [] {
      var g := s.queue[0];
      assert Begins(s, s', t, g);
      forall t', g' | Begins(s, s', t', g')
        ensures g' == g
      {
        assert s'.threads[t'].stack[|s.threads[t'].stack|] == Run(g', false);
      }
      hide Takes;
      TakesThis(s, s', t, g);
      assert s.queue + [] == [g] + s'.queue;
    } else {
      assert forall k :: 0 <= k < |s.threads| ==> NothingBegun(s.threads[k], s'.threads[k]);
      hide NothingBegun, Takes;
      TakesNothing(s, s');
      assert s.queue + [] == [] + s'.queue;
    }
  }

  lemma OthersInOrder(s: Pool, s': Pool, t: nat, g: nat)
    requires NewGroup(s, s') || BeginsJoin(s, s', t, g) || Finishes(s, s', t) || Throws(s, s', t) || Stops(s, s') || WakesSpuriously(s, s', t)
    ensures InOrder(s, s')
  {
    assert forall k :: 0 <= k < |s.threads| ==> NothingBegun(s.threads[k], s'.threads[k]);
    hide NothingBegun, Takes;
    TakesNothing(s, s');
    assert s.queue + [] == [] + s'.queue;
  }

  lemma StepInOrder(s: Pool, s': Pool)
    requires Step(s, s')
    ensures InOrder(s, s')
  {
    hide InOrder, NewGroup, Forks, BeginsJoin, Loops, Finishes, Throws, Stops, WakesSpuriously;
    if t, g :| Forks(s, s', t, g) {
      ForksInOrder(s, s', t, g);
    } else if t :| Loops(s, s', t) {
      LoopsInOrder(s, s', t);
    } else if t, g :| BeginsJoin(s, s', t, g) {
      OthersInOrder(s, s', t, g);
    } else if t: nat :| Finishes(s, s', t) {
      OthersInOrder(s, s', t, 0);
    } else if t: nat :| Throws(s, s', t) {
      OthersInOrder(s, s', t, 0);
    } else if t :| WakesSpuriously(s, s', t) {
      OthersInOrder(s, s', t, 0);
    } else {
      OthersInOrder(s, s', 0, 0);
    }
  }

  // ---------------------------------------------------------------- every run

  /** What the first `i` steps of a run put into the queue. */
  function QueuedBy(run: seq<Pool>, i: nat): seq<nat>
    requires i < |run|
  {
    if i == 0 then [] else QueuedBy(run, i - 1) + Queues(run[i - 1], run[i])
  }

  /** What they took from the queue to run it. */
  ghost function TakenBy(run: seq<Pool>, i: nat): seq<nat>
    requires i < |run|
  {
    if i == 0 then [] else TakenBy(run, i - 1) + Takes(run[i - 1], run[i])
  }

  /** In every run, functions are begun in the order in which they were queued, none is begun twice and none is lost. */
  lemma {:induction false} FirstQueuedFirstRun(run: seq<Pool>, i: nat)
    requires IsRun(run) && i < |run|
    ensures QueuedBy(run, i) == TakenBy(run, i) + run[i].queue
  {
    hide Step, Queues, Takes;
    if i > 0 {
      FirstQueuedFirstRun(run, i - 1);
      StepInOrder(run[i - 1], run[i]);
      Joined(TakenBy(run, i - 1), run[i - 1].queue, Queues(run[i - 1], run[i]), Takes(run[i - 1], run[i]), run[i].queue);
    }
  }

  lemma Joined(a: seq<nat>, b: seq<nat>, c: seq<nat>, d: seq<nat>, e: seq<nat>)
    requires b + c == d + e
    ensures a + b + c == a + d + e
  {
    assert a + b + c == a + (b + c) == a + (d + e) == a + d + e;
  }

  /** Forking runs the function at once, on top of what its thread is doing, if more than sixteen functions for each pool
      thread are queued; otherwise the function goes to the end of the queue and no thread begins or ends anything. */
  lemma ForksExactly(s: Pool, s': Pool, t: nat, g: nat)
    requires Forks(s, s', t, g)
    ensures |s'.threads| == |s.threads| && s'.workCount == s.workCount[g := s.workCount[g] + 1]
    ensures |s.queue| > 16 * s.threadCount ==>
              s'.queue == s.queue && s'.threads[t].stack == s.threads[t].stack + [Run(g, true)]
    ensures |s.queue| <= 16 * s.threadCount ==>
              s'.queue == s.queue + [g] && forall k :: 0 <= k < |s.threads| ==> s'.threads[k].stack == s.threads[k].stack
    ensures forall k :: 0 <= k < |s.threads| && k != t ==> s'.threads[k].stack == s.threads[k].stack
  {
  }

  /** So the queue stays short. */
  lemma QueueIsShort(run: seq<Pool>, i: nat)
    requires IsRun(run) && i < |run|
    ensures |run[i].queue| <= 16 * run[i].threadCount + 1
  {
    hide IsRun;
    EveryStateAccounts(run, i);
  }
}
