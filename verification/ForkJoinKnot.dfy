/** Boost_Searcher/data/input/boost_asio/example/cpp11/executors/fork_join.cpp: when joins deadlock, whoever joins what. A knot is a set
    of joins each of which waits for a function that sits below another of them on some stack. A pool whose threads
    can all only sleep has a knot if any join is pending, and the joins of a knot never return. */
module ForkJoinKnot {
  import opened ForkJoin
  import opened ForkJoinWakeups
  import opened ForkJoinProgress

  /** A frame of a thread, by its depth in the stack. */
  datatype Place = Place(thread: nat, depth: nat)

  predicate JoinAt(s: Pool, a: Place) {
    a.thread < |s.threads| && a.depth < |s.threads[a.thread].stack| && s.threads[a.thread].stack[a.depth].Join?
  }

  /** Below join `b` is a function of the group that join `a` waits for. */
  predicate WaitsBelow(s: Pool, a: Place, b: Place) {
    && JoinAt(s, a) && JoinAt(s, b)
    && Below(s.threads[b.thread].stack[..b.depth], s.threads[a.thread].stack[a.depth].group)
  }

  predicate Below(stack: seq<Frame>, g: nat) {
    exists k :: 0 <= k < |stack| && stack[k].Run? && stack[k].group == g
  }

  ghost predicate Knot(s: Pool, joins: set<Place>) {
    joins != {} && forall a :: a in joins ==> Tied(s, a, joins)
  }

  ghost predicate Tied(s: Pool, a: Place, joins: set<Place>) {
    exists b :: b in joins && WaitsBelow(s, a, b)
  }

  // ---------------------------------------------------------------- the joins of a knot never return

  /** An exception leaves the function right above join `a`, and the join with it. */
  ghost predicate Escapes(s: Pool, s': Pool, a: Place) {
    Throws(s, s', a.thread) && |s.threads[a.thread].stack| == a.depth + 2
  }

  ghost predicate NoneEscapes(s: Pool, s': Pool, joins: set<Place>) {
    forall a :: a in joins ==> !Escapes(s, s', a)
  }

  lemma {:induction false} BelowRuns(stack: seq<Frame>, g: nat)
    requires Below(stack, g)
    ensures RunsIn(stack, g) > 0
  {
    var last := |stack| - 1;
    if !(stack[last].Run? && stack[last].group == g) {
      var k :| 0 <= k < |stack| && stack[k].Run? && stack[k].group == g;
      assert stack[..last][k] == stack[k];
      BelowRuns(stack[..last], g);
    }
  }

  /** A join that waits for a function on some stack goes on waiting. */
  lemma TiedGoesOn(s: Pool, a: Place, b: Place)
    requires Accounts(s) && WaitsBelow(s, a, b)
    ensures GoesOn(s.threads[a.thread].stack[a.depth], s.workCount, s.useCount)
  {
    hide Queued, Running, Busy, RunsIn, Below;
    var stack := s.threads[a.thread].stack;
    assert GroupsKnown(stack, |s.workCount|) && FrameKnown(stack[a.depth], |s.workCount|);
    var g, below := stack[a.depth].group, s.threads[b.thread].stack;
    assert below[..b.depth] <= below;
    BelowLonger(below, b.depth, g);
    BelowRuns(below, g);
    RunsAtLeast(s.threads, b.thread, g);
  }

  lemma BelowLonger(stack: seq<Frame>, n: nat, g: nat)
    requires n <= |stack| && Below(stack[..n], g)
    ensures Below(stack, g)
  {
    var k :| 0 <= k < n && stack[..n][k].Run? && stack[..n][k].group == g;
    assert stack[k].Run? && stack[k].group == g;
  }

  /** The stack of the thread still ends no earlier than with join `a`, and nothing up to it has changed. */
  ghost predicate Stays(s: Pool, s': Pool, a: Place)
    requires JoinAt(s, a)
  {
    a.thread < |s'.threads| && s.threads[a.thread].stack[..a.depth + 1] <= s'.threads[a.thread].stack
  }

  lemma SameStackStays(s: Pool, s': Pool, a: Place)
    requires JoinAt(s, a) && a.thread < |s'.threads| && s.threads[a.thread].stack <= s'.threads[a.thread].stack
    ensures Stays(s, s', a)
  {
  }

  lemma LoopsStays(s: Pool, s': Pool, t: nat, a: Place)
    requires JoinAt(s, a) && GoesOn(s.threads[a.thread].stack[a.depth], s.workCount, s.useCount)
    requires Loops(s, s', t)
    ensures Stays(s, s', a)
  {
    hide GoesOn;
    if t != a.thread || s.threads[t].stack <= s'.threads[t].stack {
      SameStackStays(s, s', a);
    }
  }

  lemma ReturnsStays(s: Pool, s': Pool, t: nat, a: Place)
    requires JoinAt(s, a) && (Finishes(s, s', t) || (Throws(s, s', t) && !Escapes(s, s', a)))
    ensures Stays(s, s', a)
  {
    if t != a.thread {
      SameStackStays(s, s', a);
    }
  }

  lemma OtherwiseStays(s: Pool, s': Pool, t: nat, g: nat, a: Place)
    requires JoinAt(s, a)
    requires NewGroup(s, s') || Forks(s, s', t, g) || BeginsJoin(s, s', t, g) || Stops(s, s') || WakesSpuriously(s, s', t)
    ensures Stays(s, s', a)
  {
    SameStackStays(s, s', a);
  }

  lemma StepStays(s: Pool, s': Pool, a: Place, b: Place)
    requires Accounts(s) && Step(s, s') && WaitsBelow(s, a, b) && !Escapes(s, s', a)
    ensures Stays(s, s', a)
  {
    TiedGoesOn(s, a, b);
    hide Accounts, Stays, Below, GoesOn, Escapes, NewGroup, Forks, BeginsJoin, Loops, Finishes, Throws, Stops, WakesSpuriously;
    if t, g :| Forks(s, s', t, g) || BeginsJoin(s, s', t, g) {
      OtherwiseStays(s, s', t, g, a);
    } else if t :| Loops(s, s', t) {
      LoopsStays(s, s', t, a);
    } else if t: nat :| Finishes(s, s', t) || Throws(s, s', t) {
      ReturnsStays(s, s', t, a);
    } else if t: nat :| WakesSpuriously(s, s', t) {
      OtherwiseStays(s, s', t, 0, a);
    } else {
      OtherwiseStays(s, s', 0, 0, a);
    }
  }

  lemma StaysTied(s: Pool, s': Pool, a: Place, b: Place)
    requires WaitsBelow(s, a, b) && Stays(s, s', a) && Stays(s, s', b)
    ensures WaitsBelow(s', a, b)
  {
    hide Below;
    var was, now := s.threads[b.thread].stack, s'.threads[b.thread].stack;
    assert was[..b.depth + 1][..b.depth] == was[..b.depth];
    assert now[..b.depth + 1] == was[..b.depth + 1] && now[..b.depth + 1][..b.depth] == now[..b.depth];
    assert now[b.depth] == was[..b.depth + 1][b.depth];
    assert s'.threads[a.thread].stack[a.depth] == s.threads[a.thread].stack[..a.depth + 1][a.depth];
  }

  lemma Successor(s: Pool, joins: set<Place>, a: Place) returns (b: Place)
    requires Knot(s, joins) && a in joins
    ensures b in joins && WaitsBelow(s, a, b) && JoinAt(s, a) && JoinAt(s, b)
  {
    assert Tied(s, a, joins);
    b :| b in joins && WaitsBelow(s, a, b);
  }

  lemma KnottedStays(s: Pool, s': Pool, joins: set<Place>, a: Place)
    requires Accounts(s) && Step(s, s') && Knot(s, joins) && NoneEscapes(s, s', joins) && a in joins
    ensures JoinAt(s, a) && Stays(s, s', a)
  {
    hide Accounts, Step, Stays, Escapes, WaitsBelow, Knot, JoinAt;
    var b := Successor(s, joins, a);
    StepStays(s, s', a, b);
  }

  lemma KnottedStaysTied(s: Pool, s': Pool, joins: set<Place>, a: Place)
    requires Accounts(s) && Step(s, s') && Knot(s, joins) && NoneEscapes(s, s', joins) && a in joins
    ensures Tied(s', a, joins)
  {
    hide Accounts, Step, Stays, NoneEscapes, WaitsBelow, Knot, JoinAt;
    var b := Successor(s, joins, a);
    KnottedStays(s, s', joins, a);
    KnottedStays(s, s', joins, b);
    StaysTied(s, s', a, b);
  }

  /** A step unties no knot and moves none of its joins, unless an exception leaves one of them. */
  lemma StepKeepsKnot(s: Pool, s': Pool, joins: set<Place>)
    requires Accounts(s) && Step(s, s') && Knot(s, joins) && NoneEscapes(s, s', joins)
    ensures Knot(s', joins)
  {
    hide Accounts, Step, NoneEscapes, Tied;
    forall a | a in joins
      ensures Tied(s', a, joins)
    {
      KnottedStaysTied(s, s', joins, a);
    }
  }

  /** Nothing but exceptions that leave them is the end of a knot. */
  lemma {:induction false} KnotsLast(run: seq<Pool>, i: nat, j: nat, joins: set<Place>)
    requires IsRun(run) && i <= j < |run| && Knot(run[i], joins)
    requires forall k :: i < k <= j ==> NoneEscapes(run[k - 1], run[k], joins)
    ensures Knot(run[j], joins)
    decreases j
  {
    hide Init, Step, NoneEscapes, Knot;
    if i < j {
      KnotsLast(run, i, j - 1, joins);
      EveryStateAccounts(run, j - 1);
      StepKeepsKnot(run[j - 1], run[j], joins);
    }
  }

  /** The joins of a knot never return, whatever anybody does: in every later state they are where they were. */
  lemma {:induction false} KnottedJoinsNeverReturn(run: seq<Pool>, i: nat, j: nat, joins: set<Place>, a: Place)
    requires IsRun(run) && i <= j < |run| && Knot(run[i], joins) && a in joins
    requires forall k :: i < k <= j ==> NoneEscapes(run[k - 1], run[k], joins)
    ensures JoinAt(run[i], a) && Stays(run[i], run[j], a)
    decreases j
  {
    hide Init, Step, NoneEscapes, Knot, JoinAt, Stays, WaitsBelow;
    var _ := Successor(run[i], joins, a);
    if i == j {
      StaysPut(run[i], a);
    } else {
      KnottedJoinsNeverReturn(run, i, j - 1, joins, a);
      KnotsLast(run, i, j - 1, joins);
      EveryStateAccounts(run, j - 1);
      KnottedStays(run[j - 1], run[j], joins, a);
      StaysLonger(run[i], run[j - 1], run[j], a);
    }
  }

  lemma StaysPut(s: Pool, a: Place)
    requires JoinAt(s, a)
    ensures Stays(s, s, a)
  {
  }

  lemma StaysLonger(s: Pool, s': Pool, s'': Pool, a: Place)
    requires JoinAt(s, a) && Stays(s, s', a) && JoinAt(s', a) && Stays(s', s'', a)
    ensures Stays(s, s'', a)
  {
    var now := s'.threads[a.thread].stack;
    assert now[..a.depth + 1] == s.threads[a.thread].stack[..a.depth + 1];
  }

  /** The simplest knot: a function that joins its own group, directly or with other frames in between. */
  lemma SelfJoinIsKnot(s: Pool, t: nat, k: nat, m: nat)
    requires t < |s.threads| && k < m < |s.threads[t].stack|
    requires s.threads[t].stack[k].Run? && s.threads[t].stack[m] == Join(s.threads[t].stack[k].group)
    ensures Knot(s, {Place(t, m)})
  {
    var stack := s.threads[t].stack;
    assert stack[..m][k] == stack[k];
    assert WaitsBelow(s, Place(t, m), Place(t, m));
  }

  /** So in every run a join above a function of its own group never returns, unless an exception leaves it. */
  lemma SelfJoinNeverReturns(run: seq<Pool>, i: nat, j: nat, t: nat, k: nat, m: nat)
    requires IsRun(run) && i <= j < |run| && t < |run[i].threads| && k < m < |run[i].threads[t].stack|
    requires run[i].threads[t].stack[k].Run? && run[i].threads[t].stack[m] == Join(run[i].threads[t].stack[k].group)
    requires forall n :: i < n <= j ==> !Escapes(run[n - 1], run[n], Place(t, m))
    ensures t < |run[j].threads| && run[i].threads[t].stack[..m + 1] <= run[j].threads[t].stack
  {
    hide IsRun, Escapes, Knot;
    SelfJoinIsKnot(run[i], t, k, m);
    KnottedJoinsNeverReturn(run, i, j, {Place(t, m)}, Place(t, m));
  }

  // ---------------------------------------------------------------- a deadlock is a knot

  /** The loop of a pool thread is its outermost frame. */
  ghost predicate LoopsFirst(s: Pool) {
    forall t :: 0 <= t < |s.threads| ==> LoopFirst(s.threads[t].stack)
  }

  ghost predicate LoopFirst(stack: seq<Frame>) {
    forall k :: 0 < k < |stack| ==> stack[k] != Loop
  }

  /** In a step of the pool a stack is cut, or it gets one more frame, which is no loop. */
  ghost predicate Moves(old_: seq<Frame>, new_: seq<Frame>) {
    || (|new_| <= |old_| && new_ == old_[..|new_|])
    || (|new_| == |old_| + 1 && new_[..|old_|] == old_ && new_[|old_|] != Loop)
  }

  lemma MovesKeepLoopFirst(old_: seq<Frame>, new_: seq<Frame>)
    requires LoopFirst(old_) && Moves(old_, new_)
    ensures LoopFirst(new_)
  {
    assert forall k :: 0 < k < |old_| && k < |new_| ==> new_[k] == old_[k];
  }

  lemma SameMoves(stack: seq<Frame>)
    ensures Moves(stack, stack)
  {
  }

  lemma ThreadMoves(s: Pool, s': Pool, t: nat, g: nat, k: nat)
    requires k < |s'.threads|
    requires Forks(s, s', t, g) || BeginsJoin(s, s', t, g) || Loops(s, s', t) || Finishes(s, s', t) || Throws(s, s', t)
    ensures |s'.threads| == |s.threads| && Moves(s.threads[k].stack, s'.threads[k].stack)
  {
    hide GoesOn;
    SameMoves(s.threads[k].stack);
    if k == t {
      UnwoundMoves(s.threads[t]);
    }
  }

  lemma UnwoundMoves(th: Thread)
    ensures th.stack != [] ==> Moves(th.stack, th.Unwound().stack) && Moves(th.stack, th.Returned().stack)
  {
  }

  lemma StillMoves(s: Pool, s': Pool, t: nat, k: nat)
    requires k < |s'.threads| && (NewGroup(s, s') || Stops(s, s') || WakesSpuriously(s, s', t))
    ensures |s'.threads| == |s.threads| && Moves(s.threads[k].stack, s'.threads[k].stack)
  {
    SameMoves(s.threads[k].stack);
  }

  lemma StepMoves(s: Pool, s': Pool, k: nat)
    requires Step(s, s') && k < |s'.threads|
    ensures |s'.threads| == |s.threads| && Moves(s.threads[k].stack, s'.threads[k].stack)
  {
    hide Moves, NewGroup, Forks, BeginsJoin, Loops, Finishes, Throws, Stops, WakesSpuriously;
    if t, g :| Forks(s, s', t, g) || BeginsJoin(s, s', t, g) {
      ThreadMoves(s, s', t, g, k);
    } else if t: nat :| Loops(s, s', t) || Finishes(s, s', t) || Throws(s, s', t) {
      ThreadMoves(s, s', t, 0, k);
    } else if t: nat :| WakesSpuriously(s, s', t) {
      StillMoves(s, s', t, k);
    } else {
      StillMoves(s, s', 0, k);
    }
  }

  lemma {:induction false} LoopsStayFirst(run: seq<Pool>, i: nat, k: nat)
    requires IsRun(run) && i < |run| && k < |run[i].threads|
    ensures LoopFirst(run[i].threads[k].stack)
  {
    hide Step, Moves;
    if i > 0 {
      StepMoves(run[i - 1], run[i], k);
      LoopsStayFirst(run, i - 1, k);
      MovesKeepLoopFirst(run[i - 1].threads[k].stack, run[i].threads[k].stack);
    }
  }

  /** The joins for which threads wait with nothing above them. */
  function Pending(s: Pool): set<Place> {
    set t: nat | t < |s.threads| && Waits(s, t) :: Place(t, |s.threads[t].stack| - 1)
  }

  /** If no thread can get on, each waiting join waits for a function below another one. */
  lemma StuckIsTied(s: Pool, t: nat)
    requires Accounts(s) && NoLostWakeup(s) && Stuck(s) && Waits(s, t)
    requires LoopsFirst(s)
    ensures Tied(s, Place(t, |s.threads[t].stack| - 1), Pending(s))
  {
    hide NoLostWakeup, Stuck;
    var g := s.threads[t].Top().group;
    StuckQueueIsEmpty(s, t);
    assert s.workCount[g] == Queued(s.queue, g) + Running(s.threads, g);
    var t', k := SomebodyRuns(s.threads, g);
    StuckMeans(s, t');
    hide Accounts, Running;
    var stack := s.threads[t'].stack;
    assert LoopFirst(stack);
    assert stack[..|stack| - 1][k] == stack[k];
    assert Below(stack[..|stack| - 1], g);
    assert WaitsBelow(s, Place(t, |s.threads[t].stack| - 1), Place(t', |stack| - 1));
  }

  lemma StuckHasKnot(s: Pool, t: nat)
    requires Accounts(s) && NoLostWakeup(s) && Stuck(s) && Waits(s, t)
    requires LoopsFirst(s)
    ensures Knot(s, Pending(s))
  {
    hide Accounts, NoLostWakeup, Stuck, LoopsFirst, Tied;
    assert Place(t, |s.threads[t].stack| - 1) in Pending(s);
    forall a | a in Pending(s)
      ensures Tied(s, a, Pending(s))
    {
      StuckIsTied(s, a.thread);
    }
  }

  /** The innermost frame of a thread that cannot get on and has a join pending is a join. */
  lemma StuckJoinWaits(s: Pool, a: Place)
    requires Accounts(s) && Stuck(s) && LoopsFirst(s) && JoinAt(s, a)
    ensures Waits(s, a.thread)
  {
    StuckMeans(s, a.thread);
    hide Accounts, Stuck;
    assert LoopFirst(s.threads[a.thread].stack);
  }

  /** In every run, whoever joins what: if a join is pending and no thread can get on, there is a knot. */
  lemma DeadlocksAreKnots(run: seq<Pool>, i: nat, a: Place)
    requires IsRun(run) && i < |run| && JoinAt(run[i], a) && Stuck(run[i])
    ensures Knot(run[i], Pending(run[i]))
  {
    EveryStateAccounts(run, i);
    NoWakeupIsLost(run, i);
    forall k | 0 <= k < |run[i].threads|
      ensures LoopFirst(run[i].threads[k].stack)
    {
      LoopsStayFirst(run, i, k);
    }
    hide IsRun, Accounts, NoLostWakeup, Stuck, LoopFirst, Knot, Waits;
    StuckJoinWaits(run[i], a);
    StuckHasKnot(run[i], a.thread);
  }

  // ---------------------------------------------------------------- the discipline ties no knots

  function CreatorOf(s: Timed, a: Place): nat
    requires JoinAt(s.pool, a)
  {
    var g := s.pool.threads[a.thread].stack[a.depth].group;
    if g < |s.owner| then s.owner[g] else 0
  }

  lemma LaterCreator(s: Timed, a: Place, b: Place)
    requires Shape(s) && WaitsBelow(s.pool, a, b)
    ensures CreatorOf(s, a) < CreatorOf(s, b) <= s.clock
  {
    var stack, births, g := s.pool.threads[b.thread].stack, s.births[b.thread], s.pool.threads[a.thread].stack[a.depth].group;
    var k :| 0 <= k < b.depth && stack[..b.depth][k].Run? && stack[..b.depth][k].group == g;
    assert StackOk(stack, births, s.owner, s.clock);
    assert FrameOk(stack, births, s.owner, k) && FrameOk(stack, births, s.owner, b.depth);
    assert births[..b.depth][b.depth - 1] == births[b.depth - 1];
  }

  lemma {:induction false} NoKnotInShape(s: Timed, joins: set<Place>, a: Place)
    requires Shape(s) && Knot(s.pool, joins) && a in joins && JoinAt(s.pool, a)
    ensures false
    decreases s.clock - CreatorOf(s, a)
  {
    hide Shape, Knot, WaitsBelow, CreatorOf;
    var b := Successor(s.pool, joins, a);
    LaterCreator(s, a, b);
    NoKnotInShape(s, joins, b);
  }

  /** If no function joins a group whose creator began before it, there is never a knot. */
  lemma DisciplineTiesNoKnot(run: seq<Timed>, i: nat, joins: set<Place>)
    requires IsTimedRun(run) && i < |run|
    ensures !Knot(run[i].pool, joins)
  {
    EveryTimedStateIsSafe(run, i);
    hide IsTimedRun, Shape, Accounts, NoLostWakeup, Tied;
    if Knot(run[i].pool, joins) {
      var a :| a in joins;
      var _ := Successor(run[i].pool, joins, a);
      NoKnotInShape(run[i], joins, a);
    }
  }

  // ---------------------------------------------------------------- without the discipline

  const OUTSIDE: Thread := Thread([], false)
  const IDLE: Thread := Thread([Loop], false)
  const BUSY: Thread := Thread([Loop, Run(0, false)], false)
  const SELF_JOIN: Thread := Thread([Loop, Run(0, false), Join(0)], false)

  /** One program outside and one pool thread; the program forks a function, which joins its own group. */
  const SELF_JOIN_RUN: seq<Pool> := [
    Pool([], [], 1, [OUTSIDE, IDLE], 1, false),
    Pool([], [0], 1, [OUTSIDE, IDLE], 1, false),
    Pool([0], [1], 2, [OUTSIDE, IDLE], 1, false),
    Pool([], [1], 2, [OUTSIDE, BUSY], 1, false),
    Pool([], [1], 2, [OUTSIDE, SELF_JOIN], 1, false),
    Pool([], [1], 2, [OUTSIDE, SELF_JOIN.(asleep := true)], 1, false),
    Pool([], [1], 2, [Thread([Join(0)], false), SELF_JOIN.(asleep := true)], 1, false),
    Pool([], [1], 2, [Thread([Join(0)], true), SELF_JOIN.(asleep := true)], 1, false)]

  lemma SelfJoinStacks()
    ensures IDLE.Called(Run(0, false)) == BUSY && BUSY.Called(Join(0)) == SELF_JOIN
    ensures OUTSIDE.Called(Join(0)) == Thread([Join(0)], false)
  {
  }

  lemma SelfJoinIsRun()
    ensures IsRun(SELF_JOIN_RUN)
  {
    SelfJoinStacks();
    SelfJoinBegins();
    SelfJoinEnds();
    hide Step;
  }

  lemma SelfJoinBegins()
    ensures var r := SELF_JOIN_RUN; Step(r[0], r[1]) && Step(r[1], r[2]) && Step(r[2], r[3])
  {
    var r := SELF_JOIN_RUN;
    SelfJoinStacks();
    assert NewGroup(r[0], r[1]) && Forks(r[1], r[2], 0, 0) && Loops(r[2], r[3], 1);
    hide NewGroup, Forks, Loops, BeginsJoin, Finishes, Throws, Stops, WakesSpuriously;
  }

  lemma SelfJoinEnds()
    ensures var r := SELF_JOIN_RUN; Step(r[3], r[4]) && Step(r[4], r[5]) && Step(r[5], r[6]) && Step(r[6], r[7])
  {
    var r := SELF_JOIN_RUN;
    SelfJoinStacks();
    assert BeginsJoin(r[3], r[4], 1, 0) && Loops(r[4], r[5], 1);
    assert BeginsJoin(r[5], r[6], 0, 0) && Loops(r[6], r[7], 0);
    hide NewGroup, Forks, Loops, BeginsJoin, Finishes, Throws, Stops, WakesSpuriously;
  }

  /** A function that joins its own group waits for itself, and so does everybody else. */
  lemma SelfJoinDeadlocks()
    ensures IsRun(SELF_JOIN_RUN) && Knot(SELF_JOIN_RUN[4], {Place(1, 2)}) && Stuck(SELF_JOIN_RUN[7])
  {
    SelfJoinIsRun();
    SelfJoinIsKnot(SELF_JOIN_RUN[4], 1, 1, 2);
    hide IsRun, Knot;
  }
}
