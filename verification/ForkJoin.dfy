/** Boost_Searcher/data/input/boost_asio/example/cpp11/executors/fork_join.cpp: a pool that runs forked functions and lends its
    threads to whoever joins a group, as a system of steps.

    A thread is a stack of frames, because a thread that waits in a join may run another function, which may
    fork and join in turn. Every step is one critical section of the pool's mutex, or user code between two of
    them. Where the source keeps the mutex from one loop round to the next, the model lets other threads
    in between as well. */
module ForkJoin {

  /** `Loop` is the lambda of a pool thread, `Join(g)` a call of `join` on group `g`, and `Run(g)` a function of
      group `g`, which runs inline if `do_execute` called it and otherwise on behalf of the frame below. */
  datatype Frame = Loop | Join(group: nat) | Run(group: nat, inlined: bool)

  /** `asleep`: waiting on the condition variable and not notified. */
  datatype Thread = Thread(stack: seq<Frame>, asleep: bool) {
    /** The thread executes user code: a function, or the program outside the pool. */
    predicate InUserCode() {
      stack == [] || stack[|stack| - 1].Run?
    }

    predicate AtLoopHead() {
      stack != [] && !stack[|stack| - 1].Run?
    }

    function Top(): Frame
      requires stack != []
    {
      stack[|stack| - 1]
    }

    function Below(): seq<Frame>
      requires stack != []
    {
      stack[..|stack| - 1]
    }

    function Called(f: Frame): Thread {
      Thread(stack + [f], false)
    }

    function Returned(): Thread
      requires stack != []
    {
      Thread(Below(), false)
    }

    /** An exception leaves the top frame, and the join below it if there is one. */
    function Unwound(): Thread
      requires stack != []
    {
      if Returned().AtLoopHead() then Returned().Returned() else Returned()
    }
  }

  /** `queue` holds the groups of the queued functions, `workCount` one counter for each group. Counters are
      integers here, so that an underflow would show. */
  datatype Pool = Pool(
    queue: seq<nat>,
    workCount: seq<int>,
    useCount: int,
    threads: seq<Thread>,
    threadCount: nat,
    stopped: bool)

  ghost predicate Init(s: Pool) {
    && s.queue == [] && s.workCount == [] && s.useCount == 1 && !s.stopped
    && forall t :: 0 <= t < |s.threads| ==> s.threads[t] == Thread([], false) || s.threads[t] == Thread([Loop], false)
  }

  // ---------------------------------------------------------------- counters and notifications

  /** `do_work_started`. */
  function WorkStarted(s: Pool, g: nat): Pool
    requires g < |s.workCount|
  {
    s.(workCount := s.workCount[g := s.workCount[g] + 1],
       useCount := if s.workCount[g] + 1 == 1 then s.useCount + 1 else s.useCount)
  }

  /** `do_work_finished`, with `notify_all` when the group runs out of work. */
  function WorkFinished(s: Pool, g: nat): Pool
    requires g < |s.workCount|
  {
    var s' := s.(workCount := s.workCount[g := s.workCount[g] - 1]);
    if s.workCount[g] - 1 == 0 then s'.(useCount := s.useCount - 1, threads := AllAwake(s.threads)) else s'
  }

  function AllAwake(threads: seq<Thread>): (r: seq<Thread>)
    ensures |r| == |threads|
    ensures forall t :: 0 <= t < |r| ==> r[t] == threads[t].(asleep := false)
  {
    seq(|threads|, t requires 0 <= t < |threads| => threads[t].(asleep := false))
  }

  /** `notify_one`: of the sleeping threads some wake, at least one if there is any. */
  ghost predicate NotifiedOne(a: seq<Thread>, b: seq<Thread>) {
    && |a| == |b|
    && (forall t :: 0 <= t < |a| ==> b[t] == a[t] || b[t] == a[t].(asleep := false))
    && ((exists t :: 0 <= t < |a| && a[t].asleep) ==> exists t :: 0 <= t < |a| && a[t].asleep && !b[t].asleep)
  }

  // ---------------------------------------------------------------- steps

  ghost predicate NewGroup(s: Pool, s': Pool) {
    s' == s.(workCount := s.workCount + [0])
  }

  /** `do_execute`: runs the function at once if the queue is loaded, and queues it otherwise. */
  ghost predicate Forks(s: Pool, s': Pool, t: nat, g: nat) {
    && t < |s.threads| && s.threads[t].InUserCode() && g < |s.workCount|
    && if |s.queue| > s.threadCount * 16 then
         s' == WorkStarted(s, g).(threads := s.threads[t := s.threads[t].Called(Run(g, true))])
       else
         && s' == WorkStarted(s, g).(queue := s.queue + [g], threads := s'.threads)
         && NotifiedOne(s.threads, s'.threads)
  }

  ghost predicate BeginsJoin(s: Pool, s': Pool, t: nat, g: nat) {
    && t < |s.threads| && s.threads[t].InUserCode() && g < |s.workCount|
    && s' == s.(threads := s.threads[t := s.threads[t].Called(Join(g))])
  }

  /** The condition under which a loop goes round again. */
  predicate GoesOn(f: Frame, workCount: seq<int>, useCount: int) {
    match f
    case Loop => useCount > 0
    case Join(g) => g < |workCount| && workCount[g] > 0
    case Run(_, _) => false
  }

  /** One round of the loop of a pool thread or of `join`: leave, take the oldest function, or wait. */
  ghost predicate Loops(s: Pool, s': Pool, t: nat) {
    && t < |s.threads| && s.threads[t].AtLoopHead() && !s.threads[t].asleep
    && var th := s.threads[t];
       if !GoesOn(th.Top(), s.workCount, s.useCount) then
         s' == s.(threads := s.threads[t := th.Returned()])
       else if s.queue != [] then
         s' == s.(queue := s.queue[1..], threads := s.threads[t := th.Called(Run(s.queue[0], false))])
       else
         s' == s.(threads := s.threads[t := th.(asleep := true)])
  }

  ghost predicate Finishes(s: Pool, s': Pool, t: nat) {
    && t < |s.threads| && s.threads[t].stack != [] && s.threads[t].Top().Run?
    && s.threads[t].Top().group < |s.workCount|
    && s' == WorkFinished(s.(threads := s.threads[t := s.threads[t].Returned()]), s.threads[t].Top().group)
  }

  /** The function throws: the same accounting, and the exception leaves the join that was running the
      function as well. An exception that would leave a pool thread ends the program; there is no step for it. */
  ghost predicate Throws(s: Pool, s': Pool, t: nat) {
    && t < |s.threads| && s.threads[t].stack != [] && s.threads[t].Top().Run?
    && s.threads[t].Top().group < |s.workCount|
    && (s.threads[t].Below() != [] ==> s.threads[t].Returned().Top() != Loop)
    && s' == WorkFinished(s.(threads := s.threads[t := s.threads[t].Unwound()]), s.threads[t].Top().group)
  }

  /** `stop_threads`, called once. */
  ghost predicate Stops(s: Pool, s': Pool) {
    !s.stopped && s' == s.(stopped := true, useCount := s.useCount - 1, threads := AllAwake(s.threads))
  }

  ghost predicate WakesSpuriously(s: Pool, s': Pool, t: nat) {
    t < |s.threads| && s' == s.(threads := s.threads[t := s.threads[t].(asleep := false)])
  }

  ghost predicate Step(s: Pool, s': Pool) {
    || NewGroup(s, s')
    || (exists t, g :: Forks(s, s', t, g))
    || (exists t, g :: BeginsJoin(s, s', t, g))
    || (exists t :: Loops(s, s', t))
    || (exists t :: Finishes(s, s', t))
    || (exists t :: Throws(s, s', t))
    || Stops(s, s')
    || (exists t :: WakesSpuriously(s, s', t))
  }

  // ---------------------------------------------------------------- the accounts

  function Queued(queue: seq<nat>, g: nat): nat {
    if queue == [] then 0 else (if queue[0] == g then 1 else 0) + Queued(queue[1..], g)
  }

  function RunsIn(stack: seq<Frame>, g: nat): nat {
    if stack == [] then 0
    else RunsIn(stack[..|stack| - 1], g) + (var f := stack[|stack| - 1]; if f.Run? && f.group == g then 1 else 0)
  }

  /** How many functions of group `g` are being executed, on whatever thread and however deeply nested. */
  function Running(threads: seq<Thread>, g: nat): nat {
    if threads == [] then 0 else RunsIn(threads[0].stack, g) + Running(threads[1..], g)
  }

  /** How many groups have work. */
  function Busy(workCount: seq<int>): nat {
    if workCount == [] then 0
    else Busy(workCount[..|workCount| - 1]) + (if workCount[|workCount| - 1] > 0 then 1 else 0)
  }

  ghost predicate Accounts(s: Pool) {
    && (forall g :: 0 <= g < |s.workCount| ==> s.workCount[g] == Queued(s.queue, g) + Running(s.threads, g))
    && s.useCount == (if s.stopped then 0 else 1) + Busy(s.workCount)
    && (forall k :: 0 <= k < |s.queue| ==> s.queue[k] < |s.workCount|)
    && (forall t :: 0 <= t < |s.threads| ==> GroupsKnown(s.threads[t].stack, |s.workCount|))
    && |s.queue| <= s.threadCount * 16 + 1
  }

  predicate FrameKnown(f: Frame, n: nat) {
    match f
    case Loop => true
    case Join(g) => g < n
    case Run(g, _) => g < n
  }

  ghost predicate GroupsKnown(stack: seq<Frame>, n: nat) {
    forall k :: 0 <= k < |stack| ==> FrameKnown(stack[k], n)
  }

  // ---------------------------------------------------------------- counting lemmas

  lemma {:induction false} QueuedSnoc(queue: seq<nat>, h: nat, g: nat)
    ensures Queued(queue + [h], g) == Queued(queue, g) + (if h == g then 1 else 0)
  {
    if queue == [] {
      assert [h][1..] == [] && queue + [h] == [h];
    } else {
      QueuedSnoc(queue[1..], h, g);
      assert (queue + [h])[1..] == queue[1..] + [h];
    }
  }

  lemma {:induction false} QueuedPositive(queue: seq<nat>, k: nat)
    requires k < |queue|
    ensures Queued(queue, queue[k]) > 0
  {
    if k > 0 {
      QueuedPositive(queue[1..], k - 1);
    }
  }

  lemma {:induction false} RunningUpdate(threads: seq<Thread>, t: nat, th: Thread, g: nat)
    requires t < |threads|
    ensures Running(threads[t := th], g) + RunsIn(threads[t].stack, g) == Running(threads, g) + RunsIn(th.stack, g)
  {
    if t == 0 {
      assert threads[t := th][1..] == threads[1..];
    } else {
      RunningUpdate(threads[1..], t - 1, th, g);
      assert threads[t := th][1..] == threads[1..][t - 1 := th];
    }
  }

  lemma RunsSnoc(stack: seq<Frame>, f: Frame, g: nat)
    ensures RunsIn(stack + [f], g) == RunsIn(stack, g) + (if f.Run? && f.group == g then 1 else 0)
  {
    assert (stack + [f])[..|stack|] == stack;
  }

  lemma {:induction false} RunningSameStacks(a: seq<Thread>, b: seq<Thread>, g: nat)
    requires |a| == |b| && forall t :: 0 <= t < |a| ==> a[t].stack == b[t].stack
    ensures Running(a, g) == Running(b, g)
  {
    if a != [] {
      assert forall t :: 0 <= t < |a| - 1 ==> a[1..][t] == a[t + 1] && b[1..][t] == b[t + 1];
      RunningSameStacks(a[1..], b[1..], g);
    }
  }

  lemma {:induction false} BusyUpdate(workCount: seq<int>, g: nat, n: int)
    requires g < |workCount|
    ensures Busy(workCount[g := n]) + (if workCount[g] > 0 then 1 else 0) == Busy(workCount) + (if n > 0 then 1 else 0)
    decreases |workCount|
  {
    var last := |workCount| - 1;
    if g == last {
      assert workCount[g := n][..last] == workCount[..last];
    } else {
      BusyUpdate(workCount[..last], g, n);
      assert workCount[g := n][..last] == workCount[..last][g := n];
    }
  }

  lemma {:induction false} BusyZero(workCount: seq<int>)
    ensures Busy(workCount) == 0 <==> forall g :: 0 <= g < |workCount| ==> workCount[g] <= 0
  {
    if workCount != [] {
      var last := |workCount| - 1;
      BusyZero(workCount[..last]);
      if Busy(workCount) == 0 {
        forall g | 0 <= g < |workCount|
          ensures workCount[g] <= 0
        {
          if g < last {
            assert workCount[g] == workCount[..last][g];
          }
        }
      }
    }
  }

  lemma {:induction false} UnknownGroupIdle(s: Pool, g: nat)
    requires g >= |s.workCount|
    requires forall k :: 0 <= k < |s.queue| ==> s.queue[k] < |s.workCount|
    requires forall t :: 0 <= t < |s.threads| ==> GroupsKnown(s.threads[t].stack, |s.workCount|)
    ensures Queued(s.queue, g) == 0 && Running(s.threads, g) == 0
    decreases |s.queue| + |s.threads|
  {
    if s.queue != [] {
      UnknownGroupIdle(s.(queue := s.queue[1..]), g);
    } else if s.threads != [] {
      UnknownFrames(s.threads[0].stack, |s.workCount|, g);
      UnknownGroupIdle(s.(threads := s.threads[1..]), g);
    }
    if s.threads != [] && s.queue != [] {
      UnknownFrames(s.threads[0].stack, |s.workCount|, g);
    }
  }

  lemma {:induction false} UnknownFrames(stack: seq<Frame>, n: nat, g: nat)
    requires GroupsKnown(stack, n) && g >= n
    ensures RunsIn(stack, g) == 0
  {
    if stack != [] {
      var last := |stack| - 1;
      assert forall k :: 0 <= k < last ==> stack[..last][k] == stack[k];
      UnknownFrames(stack[..last], n, g);
    }
  }

  lemma {:induction false} RunsAtLeast(threads: seq<Thread>, t: nat, g: nat)
    requires t < |threads|
    ensures Running(threads, g) >= RunsIn(threads[t].stack, g)
  {
    if t > 0 {
      RunsAtLeast(threads[1..], t - 1, g);
    }
  }

  // ---------------------------------------------------------------- the accounts are kept

  lemma InitAccounts(s: Pool)
    requires Init(s)
    ensures Accounts(s)
  {
  }

  lemma NewGroupKeepsAccounts(s: Pool, s': Pool)
    requires Accounts(s) && NewGroup(s, s')
    ensures Accounts(s')
  {
    hide Queued, Running;
    UnknownGroupIdle(s, |s.workCount|);
    assert s'.workCount[..|s.workCount|] == s.workCount;
    KnownGrows(s.threads, |s.workCount|, |s'.workCount|);
  }

  lemma KnownGrows(threads: seq<Thread>, n: nat, m: nat)
    requires n <= m && forall t :: 0 <= t < |threads| ==> GroupsKnown(threads[t].stack, n)
    ensures forall t :: 0 <= t < |threads| ==> GroupsKnown(threads[t].stack, m)
  {
  }

  /** Calls and returns change the accounts of the group that is run and of no other. */
  lemma CallAccounts(threads: seq<Thread>, t: nat, f: Frame, g: nat)
    requires t < |threads|
    ensures Running(threads[t := threads[t].Called(f)], g) == Running(threads, g) + (if f.Run? && f.group == g then 1 else 0)
  {
    hide Running, RunsIn;
    RunningUpdate(threads, t, threads[t].Called(f), g);
    RunsSnoc(threads[t].stack, f, g);
  }

  lemma ReturnAccounts(threads: seq<Thread>, t: nat, g: nat)
    requires t < |threads| && threads[t].stack != []
    ensures var f := threads[t].Top();
            Running(threads, g) == Running(threads[t := threads[t].Returned()], g) + (if f.Run? && f.group == g then 1 else 0)
  {
    RunningUpdate(threads, t, threads[t].Returned(), g);
  }

  lemma CallKnown(th: Thread, f: Frame, n: nat)
    requires GroupsKnown(th.stack, n) && FrameKnown(f, n)
    ensures GroupsKnown(th.Called(f).stack, n)
  {
  }

  lemma ReturnKnown(th: Thread, n: nat)
    requires th.stack != [] && GroupsKnown(th.stack, n)
    ensures GroupsKnown(th.Returned().stack, n) && GroupsKnown(th.Unwound().stack, n)
  {
  }

  lemma ForksKeepsAccounts(s: Pool, s': Pool, t: nat, g: nat)
    requires Accounts(s) && Forks(s, s', t, g)
    ensures Accounts(s')
  {
    hide Queued, Running, Busy, GroupsKnown;
    BusyUpdate(s.workCount, g, s.workCount[g] + 1);
    CallKnown(s.threads[t], Run(g, true), |s.workCount|);
    forall h: nat | h < |s.workCount|
      ensures s'.workCount[h] == Queued(s'.queue, h) + Running(s'.threads, h)
    {
      CallAccounts(s.threads, t, Run(g, true), h);
      QueuedSnoc(s.queue, g, h);
      if |s.queue| <= s.threadCount * 16 {
        RunningSameStacks(s.threads, s'.threads, h);
      }
    }
  }

  lemma BeginsJoinKeepsAccounts(s: Pool, s': Pool, t: nat, g: nat)
    requires Accounts(s) && BeginsJoin(s, s', t, g)
    ensures Accounts(s')
  {
    hide Queued, Running, Busy, GroupsKnown;
    CallKnown(s.threads[t], Join(g), |s.workCount|);
    forall h: nat | h < |s.workCount|
      ensures s'.workCount[h] == Queued(s'.queue, h) + Running(s'.threads, h)
    {
      CallAccounts(s.threads, t, Join(g), h);
    }
  }

  lemma LoopsKeepsAccounts(s: Pool, s': Pool, t: nat)
    requires Accounts(s) && Loops(s, s', t)
    ensures Accounts(s')
  {
    hide Running, Busy, GroupsKnown;
    var th := s.threads[t];
    ReturnKnown(th, |s.workCount|);
    if s.queue != [] {
      CallKnown(th, Run(s.queue[0], false), |s.workCount|);
    }
    forall h: nat | h < |s.workCount|
      ensures s'.workCount[h] == Queued(s'.queue, h) + Running(s'.threads, h)
    {
      if !GoesOn(th.Top(), s.workCount, s.useCount) {
        ReturnAccounts(s.threads, t, h);
      } else if s.queue != [] {
        CallAccounts(s.threads, t, Run(s.queue[0], false), h);
      } else {
        RunningSameStacks(s.threads, s'.threads, h);
      }
    }
  }

  /** The counters that a finishing function decrements are positive. */
  lemma RunningGroupHasWork(s: Pool, t: nat)
    requires Accounts(s) && t < |s.threads| && s.threads[t].stack != [] && s.threads[t].Top().Run?
    requires s.threads[t].Top().group < |s.workCount|
    ensures s.workCount[s.threads[t].Top().group] > 0 && s.useCount > 0
  {
    var g := s.threads[t].Top().group;
    assert RunsIn(s.threads[t].stack, g) > 0;
    hide Queued, Running, Busy, GroupsKnown, RunsIn;
    RunsAtLeast(s.threads, t, g);
    BusyZero(s.workCount);
  }

  /** Removing a running function and finishing its work go together. */
  lemma WorkFinishedAccounts(s: Pool, mid: Pool, t: nat)
    requires Accounts(s) && t < |s.threads| && s.threads[t].stack != [] && s.threads[t].Top().Run?
    requires s.threads[t].Top().group < |s.workCount|
    requires mid == s.(threads := mid.threads) && |mid.threads| == |s.threads|
    requires forall k :: 0 <= k < |s.threads| ==> GroupsKnown(mid.threads[k].stack, |s.workCount|)
    requires forall h :: Running(mid.threads, h) == Running(s.threads[t := s.threads[t].Returned()], h)
    ensures Accounts(WorkFinished(mid, s.threads[t].Top().group))
  {
    var g := s.threads[t].Top().group;
    hide Queued, Running, Busy, GroupsKnown, RunsIn;
    RunningGroupHasWork(s, t);
    BusyUpdate(s.workCount, g, s.workCount[g] - 1);
    var s' := WorkFinished(mid, g);
    forall h: nat | h < |s.workCount|
      ensures s'.workCount[h] == Queued(s'.queue, h) + Running(s'.threads, h)
    {
      ReturnAccounts(s.threads, t, h);
      RunningSameStacks(mid.threads, s'.threads, h);
    }
  }

  lemma FinishesKeepsAccounts(s: Pool, s': Pool, t: nat)
    requires Accounts(s) && Finishes(s, s', t)
    ensures Accounts(s')
  {
    hide Queued, Running, Busy, GroupsKnown, RunsIn;
    ReturnKnown(s.threads[t], |s.workCount|);
    WorkFinishedAccounts(s, s.(threads := s.threads[t := s.threads[t].Returned()]), t);
  }

  lemma ThrowsKeepsAccounts(s: Pool, s': Pool, t: nat)
    requires Accounts(s) && Throws(s, s', t)
    ensures Accounts(s')
  {
    hide Queued, Running, Busy, GroupsKnown, RunsIn;
    var th := s.threads[t];
    ReturnKnown(th, |s.workCount|);
    var mid := s.(threads := s.threads[t := th.Unwound()]);
    forall h
      ensures Running(mid.threads, h) == Running(s.threads[t := th.Returned()], h)
    {
      if th.Returned().AtLoopHead() {
        ReturnAccounts(s.threads[t := th.Returned()], t, h);
        assert s.threads[t := th.Returned()][t := th.Unwound()] == mid.threads;
      }
    }
    WorkFinishedAccounts(s, mid, t);
  }

  lemma StopsOrWakesKeepsAccounts(s: Pool, s': Pool, t: nat)
    requires Accounts(s) && (Stops(s, s') || WakesSpuriously(s, s', t))
    ensures Accounts(s')
  {
    hide Queued, Running, Busy, GroupsKnown;
    forall h: nat | h < |s.workCount|
      ensures Running(s.threads, h) == Running(s'.threads, h)
    {
      RunningSameStacks(s.threads, s'.threads, h);
    }
  }

  lemma StepKeepsAccounts(s: Pool, s': Pool)
    requires Accounts(s) && Step(s, s')
    ensures Accounts(s')
  {
    hide Accounts, NewGroup, Forks, BeginsJoin, Loops, Finishes, Throws, Stops, WakesSpuriously;
    if NewGroup(s, s') {
      NewGroupKeepsAccounts(s, s');
    } else if t, g :| Forks(s, s', t, g) {
      ForksKeepsAccounts(s, s', t, g);
    } else if t, g :| BeginsJoin(s, s', t, g) {
      BeginsJoinKeepsAccounts(s, s', t, g);
    } else if t :| Loops(s, s', t) {
      LoopsKeepsAccounts(s, s', t);
    } else if t: nat :| Finishes(s, s', t) {
      FinishesKeepsAccounts(s, s', t);
    } else if t: nat :| Throws(s, s', t) {
      ThrowsKeepsAccounts(s, s', t);
    } else if t :| WakesSpuriously(s, s', t) {
      StopsOrWakesKeepsAccounts(s, s', t);
    } else {
      StopsOrWakesKeepsAccounts(s, s', 0);
    }
  }

  // ---------------------------------------------------------------- every run

  ghost predicate IsRun(run: seq<Pool>) {
    && run != [] && Init(run[0])
    && forall i :: 0 < i < |run| ==> Step(run[i - 1], run[i])
  }

  /** In every reachable state a group's counter is its queued plus its running functions, and the use count is one
      for the unstopped pool plus one for each group with work. */
  lemma {:induction false} EveryStateAccounts(run: seq<Pool>, i: nat)
    requires IsRun(run) && i < |run|
    ensures Accounts(run[i])
  {
    hide Init, Step, Accounts;
    if i == 0 {
      InitAccounts(run[0]);
    } else {
      EveryStateAccounts(run, i - 1);
      StepKeepsAccounts(run[i - 1], run[i]);
    }
  }

  /** `join` returns only when its group has nothing queued and nothing running. */
  lemma JoinReturnsWhenDone(run: seq<Pool>, i: nat, t: nat, g: nat)
    requires IsRun(run) && 0 < i < |run| && Loops(run[i - 1], run[i], t)
    requires run[i - 1].threads[t].Top() == Join(g)
    requires run[i].threads[t] == run[i - 1].threads[t].Returned()
    ensures Queued(run[i].queue, g) == 0 && Running(run[i].threads, g) == 0
  {
    hide IsRun, Queued, Running, Busy, RunsIn;
    var s := run[i - 1];
    EveryStateAccounts(run, i - 1);
    EveryStateAccounts(run, i);
    var th := s.threads[t];
    assert GroupsKnown(th.stack, |s.workCount|);
    assert FrameKnown(th.stack[|th.stack| - 1], |s.workCount|);
    assert |th.Returned().stack| != |th.Called(Loop).stack|;
  }

  /** A pool thread leaves its loop only after the pool was stopped, when nothing is queued and no function of any
      group is running. */
  lemma ThreadExitsWhenAllDone(run: seq<Pool>, i: nat, t: nat)
    requires IsRun(run) && 0 < i < |run| && Loops(run[i - 1], run[i], t)
    requires run[i - 1].threads[t].Top() == Loop
    requires run[i].threads[t] == run[i - 1].threads[t].Returned()
    ensures run[i].stopped && run[i].queue == []
    ensures forall g: nat :: Running(run[i].threads, g) == 0
  {
    hide IsRun, Queued, Running, Busy, RunsIn, GroupsKnown;
    var s, s' := run[i - 1], run[i];
    EveryStateAccounts(run, i - 1);
    EveryStateAccounts(run, i);
    var th := s.threads[t];
    assert |th.Returned().stack| != |th.Called(Loop).stack|;
    BusyZero(s'.workCount);
    if s'.queue != [] {
      QueuedPositive(s'.queue, 0);
    }
    forall g: nat
      ensures Running(s'.threads, g) == 0
    {
      if g >= |s'.workCount| {
        UnknownGroupIdle(s', g);
      }
    }
  }

  /** Nor does it end in any other way, by an exception for example. */
  lemma ThreadEndsInNoOtherWay(run: seq<Pool>, i: nat, t: nat)
    requires IsRun(run) && 0 < i < |run| && t < |run[i - 1].threads| && t < |run[i].threads|
    requires run[i - 1].threads[t].stack != [] && run[i - 1].threads[t].stack[0] == Loop && run[i].threads[t].stack == []
    ensures run[i].stopped && run[i].queue == []
    ensures forall g: nat :: Running(run[i].threads, g) == 0
  {
    hide Queued, Running, Busy, RunsIn, GroupsKnown;
    assert Step(run[i - 1], run[i]);
    OnlyLoopsEnd(run[i - 1], run[i], t);
    ThreadExitsWhenAllDone(run, i, t);
  }

  lemma OnlyLoopsEnd(s: Pool, s': Pool, t: nat)
    requires Step(s, s') && t < |s.threads| && t < |s'.threads|
    requires s.threads[t].stack != [] && s.threads[t].stack[0] == Loop && s'.threads[t].stack == []
    ensures Loops(s, s', t) && s.threads[t].Top() == Loop && s'.threads[t] == s.threads[t].Returned()
  {
    hide NewGroup, Forks, BeginsJoin, Loops, Finishes, Throws, Stops, WakesSpuriously;
    if u :| Loops(s, s', u) {
      LoopsEnd(s, s', u, t);
    } else if u, g :| Forks(s, s', u, g) {
      ForksEndNothing(s, s', u, g, t);
    } else if u: nat :| Finishes(s, s', u) {
      FinishedEndNothing(s, s', u, t);
    } else if u: nat :| Throws(s, s', u) {
      FinishedEndNothing(s, s', u, t);
    } else if u, g :| BeginsJoin(s, s', u, g) {
      OthersEndNothing(s, s', u, g, t);
    } else if u :| WakesSpuriously(s, s', u) {
      OthersEndNothing(s, s', u, 0, t);
    } else {
      OthersEndNothing(s, s', 0, 0, t);
    }
  }

  lemma LoopsEnd(s: Pool, s': Pool, u: nat, t: nat)
    requires Loops(s, s', u) && t < |s.threads| && s.threads[t].stack != [] && s'.threads[t].stack == []
    requires s.threads[t].stack[0] == Loop
    ensures t == u && s.threads[t].Top() == Loop && s'.threads[t] == s.threads[t].Returned()
  {
    hide GoesOn;
  }

  lemma ForksEndNothing(s: Pool, s': Pool, u: nat, g: nat, t: nat)
    requires Forks(s, s', u, g) && t < |s.threads| && s.threads[t].stack != []
    ensures s'.threads[t].stack != []
  {
  }

  lemma FinishedEndNothing(s: Pool, s': Pool, u: nat, t: nat)
    requires (Finishes(s, s', u) || Throws(s, s', u)) && t < |s.threads| && s.threads[t].stack != [] && s.threads[t].stack[0] == Loop
    ensures s'.threads[t].stack != []
  {
  }

  lemma OthersEndNothing(s: Pool, s': Pool, u: nat, g: nat, t: nat)
    requires NewGroup(s, s') || BeginsJoin(s, s', u, g) || Stops(s, s') || WakesSpuriously(s, s', u)
    requires t < |s.threads| && s.threads[t].stack != []
    ensures s'.threads[t].stack != []
  {
  }

  /** No counter ever underflows. */
  lemma CountersStayInRange(run: seq<Pool>, i: nat)
    requires IsRun(run) && i < |run|
    ensures run[i].useCount >= 0 && forall g :: 0 <= g < |run[i].workCount| ==> run[i].workCount[g] >= 0
  {
    hide IsRun;
    EveryStateAccounts(run, i);
  }
}
