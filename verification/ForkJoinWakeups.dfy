/** Boost_Searcher/data/input/boost_asio/example/cpp11/executors/fork_join.cpp: no thread of the fork/join pool sleeps while there
    is work that nobody is about to fetch. */
module ForkJoinWakeups {
  import opened ForkJoin

  /** Awake at the head of a loop that will go round again, so about to look at the queue. */
  predicate Looking(th: Thread, workCount: seq<int>, useCount: int) {
    th.AtLoopHead() && !th.asleep && GoesOn(th.Top(), workCount, useCount)
  }

  function Flags(s: Pool): (r: seq<bool>)
    ensures |r| == |s.threads|
    ensures forall t :: 0 <= t < |r| ==> r[t] == Looking(s.threads[t], s.workCount, s.useCount)
  {
    seq(|s.threads|, t requires 0 <= t < |s.threads| => Looking(s.threads[t], s.workCount, s.useCount))
  }

  function Count(flags: seq<bool>): nat {
    if flags == [] then 0 else (if flags[0] then 1 else 0) + Count(flags[1..])
  }

  lemma {:induction false} CountMonotone(a: seq<bool>, b: seq<bool>)
    requires |a| == |b| && forall t :: 0 <= t < |a| && a[t] ==> b[t]
    ensures Count(a) <= Count(b)
    ensures (exists t :: 0 <= t < |a| && !a[t] && b[t]) ==> Count(a) < Count(b)
  {
    if a != [] {
      assert forall t :: 0 <= t < |a| - 1 ==> a[1..][t] == a[t + 1] && b[1..][t] == b[t + 1];
      CountMonotone(a[1..], b[1..]);
    }
  }

  lemma {:induction false} CountAllButOne(a: seq<bool>, b: seq<bool>, i: nat)
    requires |a| == |b| && i < |a| && forall t :: 0 <= t < |a| && t != i && a[t] ==> b[t]
    ensures Count(a) <= Count(b) + 1
  {
    if i == 0 {
      CountMonotone(a[1..], b[1..]);
    } else {
      CountAllButOne(a[1..], b[1..], i - 1);
    }
  }

  ghost predicate Sleeper(s: Pool) {
    exists t :: 0 <= t < |s.threads| && s.threads[t].asleep
  }

  /** A thread sleeps only in a loop that would go round again, and while one sleeps there are at least as many
      threads about to look at the queue as there are functions in it. */
  ghost predicate NoLostWakeup(s: Pool) {
    && (forall t :: 0 <= t < |s.threads| && s.threads[t].asleep ==>
          s.threads[t].AtLoopHead() && GoesOn(s.threads[t].Top(), s.workCount, s.useCount))
    && (Sleeper(s) ==> |s.queue| <= Count(Flags(s)))
  }

  /** The counters that keep loops going are no lower in `s'`. */
  ghost predicate KeepsGoing(s: Pool, s': Pool) {
    && |s.workCount| <= |s'.workCount|
    && (forall g :: 0 <= g < |s.workCount| && s.workCount[g] > 0 ==> s'.workCount[g] > 0)
    && (s.useCount > 0 ==> s'.useCount > 0)
  }

  /** Counters that are no lower keep every loop going that was going. */
  lemma AllKeepGoing(s: Pool, s': Pool)
    requires KeepsGoing(s, s')
    ensures forall k :: 0 <= k < |s.threads| && s.threads[k].AtLoopHead() && GoesOn(s.threads[k].Top(), s.workCount, s.useCount)
              ==> GoesOn(s.threads[k].Top(), s'.workCount, s'.useCount)
  {
  }

  lemma NobodySleeps(s: Pool)
    requires forall t :: 0 <= t < |s.threads| ==> !s.threads[t].asleep
    ensures NoLostWakeup(s)
  {
  }

  /** One thread changes its stack in user code or wakes: nobody else stops looking. */
  lemma OneThreadMoves(s: Pool, s': Pool, t: nat)
    requires NoLostWakeup(s) && t < |s.threads| && KeepsGoing(s, s') && s'.queue == s.queue
    requires |s'.threads| == |s.threads| && !s'.threads[t].asleep
    requires forall k :: 0 <= k < |s.threads| && k != t ==> s'.threads[k] == s.threads[k]
    requires !Looking(s.threads[t], s.workCount, s.useCount) || Looking(s'.threads[t], s'.workCount, s'.useCount)
    ensures NoLostWakeup(s')
  {
    AllKeepGoing(s, s');
    CountMonotone(Flags(s), Flags(s'));
    if Sleeper(s') {
      var k :| 0 <= k < |s'.threads| && s'.threads[k].asleep;
      assert s.threads[k].asleep;
    }
  }

  /** Queueing a function wakes one more thread, if any sleeps. */
  lemma NotifiedOneKeepsWakeups(s: Pool, s': Pool)
    requires NoLostWakeup(s) && KeepsGoing(s, s') && |s'.queue| == |s.queue| + 1 && NotifiedOne(s.threads, s'.threads)
    ensures NoLostWakeup(s')
  {
    hide Count, KeepsGoing;
    AllKeepGoing(s, s');
    hide GoesOn;
    if Sleeper(s') {
      var k :| 0 <= k < |s'.threads| && s'.threads[k].asleep;
      assert s.threads[k].asleep;
      OneMoreLooks(s, s');
    }
  }

  lemma OneMoreLooks(s: Pool, s': Pool)
    requires NoLostWakeup(s) && KeepsGoing(s, s') && NotifiedOne(s.threads, s'.threads) && Sleeper(s)
    ensures Count(Flags(s)) < Count(Flags(s'))
  {
    hide Count, KeepsGoing;
    AllKeepGoing(s, s');
    hide GoesOn;
    var woken :| 0 <= woken < |s.threads| && s.threads[woken].asleep && !s'.threads[woken].asleep;
    assert !Flags(s)[woken] && Flags(s')[woken];
    CountMonotone(Flags(s), Flags(s'));
  }

  lemma ForksKeepsWakeups(s: Pool, s': Pool, t: nat, g: nat)
    requires Accounts(s) && NoLostWakeup(s) && Forks(s, s', t, g)
    ensures NoLostWakeup(s')
  {
    hide Queued, Running, Busy, GroupsKnown, NoLostWakeup;
    if |s.queue| > s.threadCount * 16 {
      OneThreadMoves(s, s', t);
    } else {
      NotifiedOneKeepsWakeups(s, s');
    }
  }

  lemma LoopsKeepsWakeups(s: Pool, s': Pool, t: nat)
    requires NoLostWakeup(s) && Loops(s, s', t)
    ensures NoLostWakeup(s')
  {
    hide Count;
    var th := s.threads[t];
    if !GoesOn(th.Top(), s.workCount, s.useCount) {
      OneThreadMoves(s, s', t);
    } else if s.queue != [] {
      CountAllButOne(Flags(s), Flags(s'), t);
      if Sleeper(s') {
        var k :| 0 <= k < |s'.threads| && s'.threads[k].asleep;
        assert s.threads[k].asleep;
      }
    }
  }

  lemma WorkFinishedKeepsWakeups(s: Pool, mid: Pool, t: nat, g: nat)
    requires Accounts(s) && NoLostWakeup(s) && t < |s.threads| && g < |s.workCount|
    requires s.threads[t].stack != [] && s.threads[t].Top().Run? && s.threads[t].Top().group == g
    requires |mid.threads| == |s.threads| && !mid.threads[t].asleep
    requires mid == s.(threads := s.threads[t := mid.threads[t]])
    ensures NoLostWakeup(WorkFinished(mid, g))
  {
    hide Queued, Running, Busy, GroupsKnown, Count;
    RunningGroupHasWork(s, t);
    var s' := WorkFinished(mid, g);
    if s.workCount[g] - 1 == 0 {
      NobodySleeps(s');
    } else {
      OneThreadMoves(s, s', t);
    }
  }

  lemma StepKeepsWakeups(s: Pool, s': Pool)
    requires Accounts(s) && NoLostWakeup(s) && Step(s, s')
    ensures NoLostWakeup(s')
  {
    hide Accounts, Forks, Loops;
    if NewGroup(s, s') {
      NewGroupKeepsWakeups(s, s');
    } else if t, g :| Forks(s, s', t, g) {
      ForksKeepsWakeups(s, s', t, g);
    } else if t, g :| BeginsJoin(s, s', t, g) {
      OneThreadMoves(s, s', t);
    } else if t :| Loops(s, s', t) {
      LoopsKeepsWakeups(s, s', t);
    } else if t: nat :| Finishes(s, s', t) {
      var mid := s.(threads := s.threads[t := s.threads[t].Returned()]);
      WorkFinishedKeepsWakeups(s, mid, t, s.threads[t].Top().group);
    } else if t: nat :| Throws(s, s', t) {
      var mid := s.(threads := s.threads[t := s.threads[t].Unwound()]);
      WorkFinishedKeepsWakeups(s, mid, t, s.threads[t].Top().group);
    } else if t :| WakesSpuriously(s, s', t) {
      OneThreadMoves(s, s', t);
    } else {
      NobodySleeps(s');
    }
  }

  lemma NewGroupKeepsWakeups(s: Pool, s': Pool)
    requires NoLostWakeup(s) && NewGroup(s, s')
    ensures NoLostWakeup(s')
  {
    AllKeepGoing(s, s');
    CountMonotone(Flags(s), Flags(s'));
  }

  lemma {:induction false} NoWakeupIsLost(run: seq<Pool>, i: nat)
    requires IsRun(run) && i < |run|
    ensures NoLostWakeup(run[i])
  {
    hide Step, Accounts;
    if i == 0 {
      NobodySleeps(run[0]);
    } else {
      NoWakeupIsLost(run, i - 1);
      EveryStateAccounts(run, i - 1);
      StepKeepsWakeups(run[i - 1], run[i]);
    }
  }

  lemma {:induction false} NobodyLooks(flags: seq<bool>)
    requires forall t :: 0 <= t < |flags| ==> !flags[t]
    ensures Count(flags) == 0
  {
    if flags != [] {
      NobodyLooks(flags[1..]);
    }
  }

  /** If no thread is about to look at the queue, a thread sleeps only because the queue is empty. */
  lemma SleepersMissNothing(run: seq<Pool>, i: nat)
    requires IsRun(run) && i < |run| && Sleeper(run[i])
    requires forall t :: 0 <= t < |run[i].threads| ==> !Looking(run[i].threads[t], run[i].workCount, run[i].useCount)
    ensures run[i].queue == []
  {
    hide IsRun;
    NoWakeupIsLost(run, i);
    NobodyLooks(Flags(run[i]));
  }
}
