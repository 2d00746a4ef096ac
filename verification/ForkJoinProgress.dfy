/** Boost_Searcher/data/input/boost_asio/example/cpp11/executors/fork_join.cpp: joins do not deadlock as long as no function joins a
    group whose creator began before that function did. `join_guard` keeps to that: a function joins the groups it
    created itself. So a thread that waits may be borrowed for functions that have nothing to do with what it waits for.

    The states of the pool are extended by a history: when each frame began, and when the function began that created
    each group. A program outside the pool began at time 0. */
module ForkJoinProgress {
  import opened ForkJoin
  import opened ForkJoinWakeups

  datatype Timed = Timed(pool: Pool, clock: nat, births: seq<seq<nat>>, owner: seq<nat>)

  /** When the user code that thread `t` executes began. */
  function Began(births: seq<nat>): nat {
    if births == [] then 0 else births[|births| - 1]
  }

  /** The births of the frames of a stack of `n` frames, once it has been cut or a frame has begun. */
  function Fitted(births: seq<nat>, n: nat, now: nat): seq<nat> {
    if n <= |births| then births[..n] else births + [now]
  }

  ghost predicate Starts(a: Timed) {
    && Init(a.pool) && a.owner == [] && a.clock == 1 && |a.births| == |a.pool.threads|
    && forall t :: 0 <= t < |a.births| ==> a.births[t] == (if a.pool.threads[t].stack == [] then [] else [1])
  }

  /** Time passes, and frames keep the times at which they began. */
  ghost predicate Ticks(a: Timed, b: Timed) {
    && b.clock == a.clock + 1
    && |a.births| == |b.births| == |b.pool.threads| == |a.pool.threads|
    && forall t :: 0 <= t < |b.births| ==> b.births[t] == Fitted(a.births[t], |b.pool.threads[t].stack|, b.clock)
  }

  /** A function, or a program outside, creates a group. */
  ghost predicate Creates(a: Timed, b: Timed, t: nat) {
    && t < |a.pool.threads| && t < |a.births| && a.pool.threads[t].InUserCode()
    && NewGroup(a.pool, b.pool) && b.owner == a.owner + [Began(a.births[t])]
  }

  /** A group is joined by the function that created it, or by one that began before its creator. */
  ghost predicate JoinsYounger(a: Timed, b: Timed, t: nat, g: nat) {
    && t < |a.births| && g < |a.owner| && BeginsJoin(a.pool, b.pool, t, g)
    && a.owner[g] >= Began(a.births[t]) && b.owner == a.owner
  }

  ghost predicate Otherwise(s: Pool, s': Pool) {
    || (exists t, g :: Forks(s, s', t, g))
    || (exists t :: Loops(s, s', t))
    || (exists t :: Finishes(s, s', t))
    || (exists t :: Throws(s, s', t))
    || Stops(s, s')
    || (exists t :: WakesSpuriously(s, s', t))
  }

  ghost predicate TimedStep(a: Timed, b: Timed) {
    && Ticks(a, b)
    && ((exists t :: Creates(a, b, t))
     || (exists t, g :: JoinsYounger(a, b, t, g))
     || (Otherwise(a.pool, b.pool) && b.owner == a.owner))
  }

  lemma TimedStepIsStep(a: Timed, b: Timed)
    requires TimedStep(a, b)
    ensures Step(a.pool, b.pool)
  {
    hide NewGroup, Forks, BeginsJoin, Loops, Finishes, Throws, Stops, WakesSpuriously, Ticks;
  }

  function Pools(run: seq<Timed>): (r: seq<Pool>)
    ensures |r| == |run| && forall i :: 0 <= i < |r| ==> r[i] == run[i].pool
  {
    seq(|run|, i requires 0 <= i < |run| => run[i].pool)
  }

  /** Without its history a run is a run of the pool. */
  lemma TimedRunIsRun(run: seq<Timed>)
    requires IsTimedRun(run)
    ensures IsRun(Pools(run))
  {
    hide TimedStep, Step;
    forall i | 0 < i < |run|
      ensures Step(Pools(run)[i - 1], Pools(run)[i])
    {
      TimedStepIsStep(run[i - 1], run[i]);
    }
  }

  // ---------------------------------------------------------------- what the history says

  ghost predicate Shape(s: Timed) {
    && |s.births| == |s.pool.threads| && |s.owner| == |s.pool.workCount|
    && (forall g :: 0 <= g < |s.owner| ==> s.owner[g] <= s.clock)
    && forall t :: 0 <= t < |s.births| ==> StackOk(s.pool.threads[t].stack, s.births[t], s.owner, s.clock)
  }

  /** Frames began one after the other, functions after the one that created their group, and no group is joined by a
      function that began after its creator. */
  ghost predicate StackOk(stack: seq<Frame>, births: seq<nat>, owner: seq<nat>, clock: nat) {
    && |births| == |stack|
    && (forall k :: 0 <= k < |births| ==> 1 <= births[k] <= clock)
    && (forall j, k :: 0 <= j < k < |births| ==> births[j] < births[k])
    && forall k :: 0 <= k < |stack| ==> FrameOk(stack, births, owner, k)
  }

  ghost predicate FrameOk(stack: seq<Frame>, births: seq<nat>, owner: seq<nat>, k: nat)
    requires k < |stack| == |births|
  {
    match stack[k]
    case Loop => k == 0
    case Join(g) => g < |owner| && owner[g] >= Began(births[..k])
    case Run(g, _) => g < |owner| && owner[g] < births[k]
  }

  lemma StackCut(stack: seq<Frame>, births: seq<nat>, owner: seq<nat>, clock: nat, n: nat)
    requires StackOk(stack, births, owner, clock) && n <= |stack|
    ensures StackOk(stack[..n], births[..n], owner, clock + 1)
  {
    forall k | 0 <= k < n
      ensures FrameOk(stack[..n], births[..n], owner, k)
    {
      assert FrameOk(stack, births, owner, k);
      assert births[..n][..k] == births[..k];
    }
  }

  lemma StackGrown(stack: seq<Frame>, births: seq<nat>, owner: seq<nat>, clock: nat, f: Frame)
    requires StackOk(stack, births, owner, clock)
    requires match f
             case Loop => false
             case Join(g) => g < |owner| && owner[g] >= Began(births)
             case Run(g, _) => g < |owner| && owner[g] <= clock
    ensures StackOk(stack + [f], births + [clock + 1], owner, clock + 1)
  {
    var longer, times := stack + [f], births + [clock + 1];
    forall k | 0 <= k < |longer|
      ensures FrameOk(longer, times, owner, k)
    {
      assert times[..k] == births[..k];
      if k < |stack| {
        assert FrameOk(stack, births, owner, k);
      } else {
        assert births[..k] == births;
      }
    }
  }

  lemma OwnersGrown(stack: seq<Frame>, births: seq<nat>, owner: seq<nat>, clock: nat, x: nat)
    requires StackOk(stack, births, owner, clock)
    ensures StackOk(stack, births, owner + [x], clock + 1)
  {
    forall k | 0 <= k < |stack|
      ensures FrameOk(stack, births, owner + [x], k)
    {
      assert FrameOk(stack, births, owner, k);
    }
  }

  /** How the stack of a thread can change in one step. */
  ghost predicate StackMoves(a: Timed, b: Timed, t: nat)
    requires t < |a.births| == |a.pool.threads| == |b.pool.threads|
  {
    var old_, new_ := a.pool.threads[t].stack, b.pool.threads[t].stack;
    || (|new_| <= |old_| && new_ == old_[..|new_|])
    || (exists f :: new_ == old_ + [f] && NewFrameOk(a, t, f))
  }

  ghost predicate NewFrameOk(a: Timed, t: nat, f: Frame)
    requires t < |a.births|
  {
    match f
    case Loop => false
    case Join(g) => g < |a.owner| && a.owner[g] >= Began(a.births[t])
    case Run(g, _) => g < |a.owner|
  }

  lemma MovesKeepShape(a: Timed, b: Timed)
    requires Shape(a) && Ticks(a, b) && b.owner == a.owner && |b.pool.workCount| == |a.pool.workCount|
    requires forall t :: 0 <= t < |a.births| ==> StackMoves(a, b, t)
    ensures Shape(b)
  {
    hide StackOk;
    forall t | 0 <= t < |b.births|
      ensures StackOk(b.pool.threads[t].stack, b.births[t], b.owner, b.clock)
    {
      var stack, births := a.pool.threads[t].stack, a.births[t];
      assert StackOk(stack, births, a.owner, a.clock);
      StackLength(stack, births, a.owner, a.clock);
      assert StackMoves(a, b, t);
      var new_ := b.pool.threads[t].stack;
      if |new_| <= |stack| && new_ == stack[..|new_|] {
        StackCut(stack, births, a.owner, a.clock, |new_|);
      } else {
        var f :| new_ == stack + [f] && NewFrameOk(a, t, f);
        StackGrown(stack, births, a.owner, a.clock, f);
      }
    }
  }

  lemma StackLength(stack: seq<Frame>, births: seq<nat>, owner: seq<nat>, clock: nat)
    requires StackOk(stack, births, owner, clock)
    ensures |births| == |stack|
  {
  }

  lemma UnchangedMoves(a: Timed, b: Timed, t: nat)
    requires t < |a.births| == |a.pool.threads| == |b.pool.threads|
    requires b.pool.threads[t].stack == a.pool.threads[t].stack
    ensures StackMoves(a, b, t)
  {
    var stack := a.pool.threads[t].stack;
    assert stack[..|stack|] == stack;
  }

  /** In a step of thread `t` alone no other stack changes. */
  lemma OthersUnchanged(a: Timed, b: Timed, t: nat)
    requires t < |a.births| == |a.pool.threads| == |b.pool.threads| && StackMoves(a, b, t)
    requires forall k :: 0 <= k < |a.births| && k != t ==> b.pool.threads[k].stack == a.pool.threads[k].stack
    ensures forall k :: 0 <= k < |a.births| ==> StackMoves(a, b, k)
  {
    hide StackMoves;
    forall k | 0 <= k < |a.births|
      ensures StackMoves(a, b, k)
    {
      if k != t {
        UnchangedMoves(a, b, k);
      }
    }
  }

  lemma ForksMoves(a: Timed, b: Timed, t: nat, g: nat)
    requires Shape(a) && Forks(a.pool, b.pool, t, g)
    ensures |b.pool.workCount| == |a.pool.workCount| && |b.pool.threads| == |a.pool.threads|
    ensures forall k :: 0 <= k < |a.births| ==> StackMoves(a, b, k)
  {
    hide StackOk;
    if |a.pool.queue| > a.pool.threadCount * 16 {
      assert b.pool.threads[t].stack == a.pool.threads[t].stack + [Run(g, true)] && NewFrameOk(a, t, Run(g, true));
    } else {
      UnchangedMoves(a, b, t);
    }
    OthersUnchanged(a, b, t);
  }

  lemma LoopsMoves(a: Timed, b: Timed, t: nat)
    requires Shape(a) && Accounts(a.pool) && Loops(a.pool, b.pool, t)
    ensures |b.pool.workCount| == |a.pool.workCount| && |b.pool.threads| == |a.pool.threads|
    ensures forall k :: 0 <= k < |a.births| ==> StackMoves(a, b, k)
  {
    hide StackOk, Queued, Running, Busy, GroupsKnown;
    var th := a.pool.threads[t];
    if GoesOn(th.Top(), a.pool.workCount, a.pool.useCount) && a.pool.queue != [] {
      var f := Run(a.pool.queue[0], false);
      assert b.pool.threads[t].stack == th.stack + [f] && NewFrameOk(a, t, f);
    } else if GoesOn(th.Top(), a.pool.workCount, a.pool.useCount) {
      UnchangedMoves(a, b, t);
    }
    OthersUnchanged(a, b, t);
  }

  lemma ReturnsMoves(a: Timed, b: Timed, t: nat)
    requires Shape(a) && (Finishes(a.pool, b.pool, t) || Throws(a.pool, b.pool, t))
    ensures |b.pool.workCount| == |a.pool.workCount| && |b.pool.threads| == |a.pool.threads|
    ensures forall k :: 0 <= k < |a.births| ==> StackMoves(a, b, k)
  {
    hide StackOk;
    var stack := a.pool.threads[t].stack;
    assert |stack| >= 2 ==> stack[..|stack| - 1][..|stack| - 2] == stack[..|stack| - 2];
    assert StackMoves(a, b, t);
    OthersUnchanged(a, b, t);
  }

  lemma WakesMoves(a: Timed, b: Timed, t: nat)
    requires Shape(a) && (Stops(a.pool, b.pool) || WakesSpuriously(a.pool, b.pool, t))
    ensures |b.pool.workCount| == |a.pool.workCount| && |b.pool.threads| == |a.pool.threads|
    ensures forall k :: 0 <= k < |a.births| ==> StackMoves(a, b, k)
  {
    hide StackOk, StackMoves;
    forall k | 0 <= k < |a.births|
      ensures StackMoves(a, b, k)
    {
      UnchangedMoves(a, b, k);
    }
  }

  /** Apart from the frames of functions that begin, a step only cuts stacks. */
  lemma OtherwiseMoves(a: Timed, b: Timed)
    requires Shape(a) && Accounts(a.pool) && Otherwise(a.pool, b.pool)
    ensures |b.pool.workCount| == |a.pool.workCount| && |b.pool.threads| == |a.pool.threads|
    ensures forall t :: 0 <= t < |a.births| ==> StackMoves(a, b, t)
  {
    hide Shape, Accounts, StackMoves, Forks, Loops, Finishes, Throws, Stops, WakesSpuriously;
    if t, g :| Forks(a.pool, b.pool, t, g) {
      ForksMoves(a, b, t, g);
    } else if t :| Loops(a.pool, b.pool, t) {
      LoopsMoves(a, b, t);
    } else if t: nat :| Finishes(a.pool, b.pool, t) || Throws(a.pool, b.pool, t) {
      ReturnsMoves(a, b, t);
    } else if t: nat :| WakesSpuriously(a.pool, b.pool, t) {
      WakesMoves(a, b, t);
    } else {
      WakesMoves(a, b, 0);
    }
  }

  lemma InitShape(a: Timed)
    requires Starts(a)
    ensures Shape(a)
  {
    forall t | 0 <= t < |a.births|
      ensures StackOk(a.pool.threads[t].stack, a.births[t], a.owner, a.clock)
    {
    }
  }

  lemma CreatesKeepsShape(a: Timed, b: Timed, t: nat)
    requires Shape(a) && Ticks(a, b) && Creates(a, b, t)
    ensures Shape(b)
  {
    hide StackOk;
    StackLength(a.pool.threads[t].stack, a.births[t], a.owner, a.clock);
    BeganBefore(a.pool.threads[t].stack, a.births[t], a.owner, a.clock);
    forall k | 0 <= k < |b.births|
      ensures StackOk(b.pool.threads[k].stack, b.births[k], b.owner, b.clock)
    {
      var stack, births := a.pool.threads[k].stack, a.births[k];
      StackLength(stack, births, a.owner, a.clock);
      OwnersGrown(stack, births, a.owner, a.clock, Began(a.births[t]));
      assert births[..|births|] == births;
    }
  }

  lemma BeganBefore(stack: seq<Frame>, births: seq<nat>, owner: seq<nat>, clock: nat)
    requires StackOk(stack, births, owner, clock)
    ensures Began(births) <= clock
  {
  }

  lemma JoinsYoungerMoves(a: Timed, b: Timed, t: nat, g: nat)
    requires Shape(a) && JoinsYounger(a, b, t, g)
    ensures |b.pool.workCount| == |a.pool.workCount| && |b.pool.threads| == |a.pool.threads| && b.owner == a.owner
    ensures forall k :: 0 <= k < |a.births| ==> StackMoves(a, b, k)
  {
    hide StackOk;
    assert b.pool.threads[t].stack == a.pool.threads[t].stack + [Join(g)] && NewFrameOk(a, t, Join(g));
    OthersUnchanged(a, b, t);
  }

  lemma StepKeepsShape(a: Timed, b: Timed)
    requires Shape(a) && Accounts(a.pool) && TimedStep(a, b)
    ensures Shape(b)
  {
    hide Shape, Accounts, Ticks, Creates, JoinsYounger, Otherwise, StackMoves;
    if t :| Creates(a, b, t) {
      CreatesKeepsShape(a, b, t);
    } else if t, g :| JoinsYounger(a, b, t, g) {
      JoinsYoungerMoves(a, b, t, g);
      MovesKeepShape(a, b);
    } else {
      OtherwiseMoves(a, b);
      MovesKeepShape(a, b);
    }
  }

  // ---------------------------------------------------------------- runs

  ghost predicate IsTimedRun(run: seq<Timed>) {
    && run != [] && Starts(run[0])
    && forall i :: 0 < i < |run| ==> TimedStep(run[i - 1], run[i])
  }

  ghost predicate TimedInv(s: Timed) {
    Shape(s) && Accounts(s.pool) && NoLostWakeup(s.pool)
  }

  lemma {:induction false} EveryTimedStateIsSafe(run: seq<Timed>, i: nat)
    requires IsTimedRun(run) && i < |run|
    ensures TimedInv(run[i])
  {
    hide Starts, TimedStep, TimedInv;
    if i == 0 {
      InitTimed(run[0]);
    } else {
      EveryTimedStateIsSafe(run, i - 1);
      TimedStepKeepsInv(run[i - 1], run[i]);
    }
  }

  lemma TimedStepKeepsInv(a: Timed, b: Timed)
    requires TimedInv(a) && TimedStep(a, b)
    ensures TimedInv(b)
  {
    hide TimedStep, Shape, Accounts, NoLostWakeup;
    TimedStepIsStep(a, b);
    StepKeepsShape(a, b);
    StepKeepsAccounts(a.pool, b.pool);
    StepKeepsWakeups(a.pool, b.pool);
  }

  lemma InitTimed(a: Timed)
    requires Starts(a)
    ensures TimedInv(a)
  {
    InitShape(a);
    InitAccounts(a.pool);
    NobodySleeps(a.pool);
    hide Shape, Accounts, NoLostWakeup;
  }

  // ---------------------------------------------------------------- no deadlock

  /** Thread `t` finishes a function, takes one from the queue, or leaves its loop: it does anything but fall asleep. */
  ghost predicate GetsOn(s: Pool, s': Pool, t: nat) {
    Finishes(s, s', t) || (Loops(s, s', t) && t < |s'.threads| && !s'.threads[t].asleep)
  }

  /** No thread can. */
  ghost predicate Stuck(s: Pool) {
    forall t: nat, s' :: !GetsOn(s, s', t)
  }

  /** Thread `t` waits in a join, which is its innermost frame. */
  predicate Waits(s: Pool, t: nat) {
    t < |s.threads| && s.threads[t].stack != [] && s.threads[t].Top().Join?
  }

  /** When the function began that created the group for which thread `t` waits. */
  function CreatorBegan(s: Timed, t: nat): nat
    requires Waits(s.pool, t)
  {
    var g := s.pool.threads[t].Top().group;
    if g < |s.owner| then s.owner[g] else 0
  }

  /** The state behind the step that thread `t` would take next inside the pool. */
  function Ahead(s: Pool, t: nat): Pool
    requires t < |s.threads| && s.threads[t].stack != []
    requires s.threads[t].Top().Run? ==> s.threads[t].Top().group < |s.workCount|
  {
    var th := s.threads[t];
    if th.Top().Run? then WorkFinished(s.(threads := s.threads[t := th.Returned()]), th.Top().group)
    else if !GoesOn(th.Top(), s.workCount, s.useCount) then s.(threads := s.threads[t := th.Returned()])
    else if s.queue != [] then s.(queue := s.queue[1..], threads := s.threads[t := th.Called(Run(s.queue[0], false))])
    else s.(threads := s.threads[t := th.(asleep := true)])
  }

  lemma AheadGetsOn(s: Pool, t: nat)
    requires t < |s.threads| && s.threads[t].stack != []
    requires s.threads[t].Top().Run? ==> s.threads[t].Top().group < |s.workCount|
    ensures s.threads[t].Top().Run? ==> GetsOn(s, Ahead(s, t), t)
    ensures !s.threads[t].asleep && !(GoesOn(s.threads[t].Top(), s.workCount, s.useCount) && s.queue == []) ==>
              GetsOn(s, Ahead(s, t), t)
  {
  }

  lemma StuckMeans(s: Pool, t: nat)
    requires Accounts(s) && Stuck(s) && t < |s.threads| && s.threads[t].stack != []
    ensures !s.threads[t].Top().Run?
    ensures !s.threads[t].asleep ==> GoesOn(s.threads[t].Top(), s.workCount, s.useCount) && s.queue == []
  {
    hide Queued, Running, Busy;
    assert FrameKnown(s.threads[t].Top(), |s.workCount|);
    AheadGetsOn(s, t);
    hide GetsOn, Ahead;
  }

  /** If nobody can get on, nothing is queued. */
  lemma StuckQueueIsEmpty(s: Pool, t: nat)
    requires Accounts(s) && NoLostWakeup(s) && Stuck(s) && t < |s.threads| && s.threads[t].stack != []
    ensures s.queue == [] && GoesOn(s.threads[t].Top(), s.workCount, s.useCount)
  {
    hide Accounts, Stuck, Count;
    StuckMeans(s, t);
    if s.queue != [] {
      forall k | 0 <= k < |s.threads|
        ensures !Flags(s)[k]
      {
        if s.threads[k].stack != [] {
          StuckMeans(s, k);
        }
      }
      NobodyLooks(Flags(s));
    }
  }

  lemma {:induction false} SomebodyRuns(threads: seq<Thread>, g: nat) returns (t: nat, k: nat)
    requires Running(threads, g) > 0
    ensures t < |threads| && k < |threads[t].stack| && threads[t].stack[k].Run? && threads[t].stack[k].group == g
  {
    if RunsIn(threads[0].stack, g) > 0 {
      t := 0;
      k := RunsSomewhere(threads[0].stack, g);
    } else {
      t, k := SomebodyRuns(threads[1..], g);
      t := t + 1;
    }
  }

  lemma {:induction false} RunsSomewhere(stack: seq<Frame>, g: nat) returns (k: nat)
    requires RunsIn(stack, g) > 0
    ensures k < |stack| && stack[k].Run? && stack[k].group == g
    decreases |stack|
  {
    var last := |stack| - 1;
    if stack[last].Run? && stack[last].group == g {
      k := last;
    } else {
      k := RunsSomewhere(stack[..last], g);
    }
  }

  /** What a stuck waiter waits for is buried below another stuck waiter, for a group whose creator began later. */
  lemma NextWaiter(s: Timed, t: nat) returns (t': nat)
    requires TimedInv(s) && Stuck(s.pool) && Waits(s.pool, t)
    ensures Waits(s.pool, t') && CreatorBegan(s, t) < CreatorBegan(s, t') <= s.clock
  {
    hide NoLostWakeup, Stuck, StackOk;
    var g := s.pool.threads[t].Top().group;
    StuckQueueIsEmpty(s.pool, t);
    assert s.pool.workCount[g] == Queued(s.pool.queue, g) + Running(s.pool.threads, g);
    var k;
    t', k := SomebodyRuns(s.pool.threads, g);
    StuckMeans(s.pool, t');
    hide Accounts, Running;
    TopIsLater(s.pool.threads[t'].stack, s.births[t'], s.owner, s.clock, k);
  }

  lemma TopIsLater(stack: seq<Frame>, births: seq<nat>, owner: seq<nat>, clock: nat, k: nat)
    requires StackOk(stack, births, owner, clock) && k < |stack| && stack[k].Run? && !stack[|stack| - 1].Run?
    requires forall g :: 0 <= g < |owner| ==> owner[g] <= clock
    ensures stack[k].group < |owner|
    ensures var f := stack[|stack| - 1];
            f.Join? && f.group < |owner| && owner[stack[k].group] < owner[f.group] <= clock
  {
    var last := |stack| - 1;
    assert FrameOk(stack, births, owner, k) && FrameOk(stack, births, owner, last);
    assert births[..last][last - 1] == births[last - 1];
  }

  /** So waiting would have to go on to the groups of ever later functions. */
  lemma {:induction false} NobodyWaitsStuck(s: Timed, t: nat)
    requires TimedInv(s) && Stuck(s.pool) && Waits(s.pool, t)
    ensures false
    decreases s.clock - CreatorBegan(s, t)
  {
    var t' := NextWaiter(s, t);
    NobodyWaitsStuck(s, t');
  }

  /** As long as some join has not returned, some thread can get on. */
  lemma JoinsNeverDeadlock(run: seq<Timed>, i: nat, t: nat, k: nat)
    requires IsTimedRun(run) && i < |run|
    requires t < |run[i].pool.threads| && k < |run[i].pool.threads[t].stack| && run[i].pool.threads[t].stack[k].Join?
    ensures exists t': nat, s' :: GetsOn(run[i].pool, s', t')
  {
    EveryTimedStateIsSafe(run, i);
    hide IsTimedRun, GetsOn;
    if Stuck(run[i].pool) {
      TopWaits(run[i], t, k);
      NobodyWaitsStuck(run[i], t);
    }
  }

  lemma TopWaits(s: Timed, t: nat, k: nat)
    requires TimedInv(s) && Stuck(s.pool)
    requires t < |s.pool.threads| && k < |s.pool.threads[t].stack| && s.pool.threads[t].stack[k].Join?
    ensures Waits(s.pool, t)
  {
    hide NoLostWakeup, Accounts, Stuck;
    StuckMeans(s.pool, t);
    var stack := s.pool.threads[t].stack;
    assert StackOk(stack, s.births[t], s.owner, s.clock);
    assert FrameOk(stack, s.births[t], s.owner, |stack| - 1);
  }
}
