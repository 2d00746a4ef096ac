/** Boost_Searcher/data/input/boost_asio/example/cpp11/executors/fork_join.cpp: `fork_join_sort` never comes to a standstill. Its calls
    join the groups they create themselves, so the threads that wait in joins cannot wait for one another in a circle. */
module ForkJoinSortProgress {
  import opened ForkJoin
  import opened ForkJoinWakeups
  import opened ForkJoinProgress
  import opened CallTree
  import opened ForkJoinSort

  /** A step that is neither falling asleep nor a spurious wakeup. */
  ghost predicate GoesAhead(s: Sort, s': Sort) {
    || (exists t, p :: CallStep(s, s', t, p))
    || (exists t: nat :: Rounds(s, s', t) && t < |s'.Pool().threads| && !s'.Pool().threads[t].asleep)
  }

  ghost predicate CanGoAhead(s: Sort) {
    exists s' :: GoesAhead(s, s')
  }

  // ---------------------------------------------------------------- what the library can do

  function Insert(x: real, s: seq<real>): seq<real> {
    if s == [] || x <= s[0] then [x] + s else [s[0]] + Insert(x, s[1..])
  }

  function InOrder(s: seq<real>): seq<real> {
    if s == [] then [] else Insert(s[0], InOrder(s[1..]))
  }

  lemma {:induction false} InsertAscends(x: real, s: seq<real>)
    requires Ascending(s)
    ensures Ascending(Insert(x, s)) && multiset(Insert(x, s)) == multiset(s) + multiset{x}
  {
    if s == [] || x <= s[0] {
      ConsAscends(x, s);
    } else {
      InsertAscends(x, s[1..]);
      InsertBounded(x, s[1..], s[0]);
      ConsAscends(s[0], Insert(x, s[1..]));
      assert s == [s[0]] + s[1..];
    }
  }

  lemma ConsAscends(x: real, s: seq<real>)
    requires Ascending(s) && (s != [] ==> x <= s[0])
    ensures Ascending([x] + s)
  {
  }

  lemma InsertBounded(x: real, s: seq<real>, b: real)
    requires b <= x && (s != [] ==> b <= s[0])
    ensures Insert(x, s) != [] && b <= Insert(x, s)[0]
  {
  }

  lemma {:induction false} InOrderAscends(s: seq<real>)
    ensures Ascending(InOrder(s)) && multiset(InOrder(s)) == multiset(s)
  {
    if s != [] {
      InOrderAscends(s[1..]);
      InsertAscends(s[0], InOrder(s[1..]));
      assert s == [s[0]] + s[1..];
    }
  }

  function SortedPart(data: seq<real>, r: Range): seq<real>
    requires r.Within(|data|)
  {
    data[..r.lo] + InOrder(Part(data, r)) + data[r.hi..]
  }

  lemma SortedPartSorts(data: seq<real>, r: Range)
    requires r.Within(|data|)
    ensures Sorts(data, SortedPart(data, r), r) && InplaceMerges(data, SortedPart(data, r), r)
  {
    var part := InOrder(Part(data, r));
    InOrderAscends(Part(data, r));
    SameLength(part, Part(data, r));
    hide InOrder;
    assert Part(SortedPart(data, r), r) == part;
  }

  lemma SameLength(a: seq<real>, b: seq<real>)
    requires multiset(a) == multiset(b)
    ensures |a| == |b|
  {
    assert |multiset(a)| == |a| && |multiset(b)| == |b|;
  }

  // ---------------------------------------------------------------- a call can always go on

  /** The history after a step to `pool`. */
  function Tick(a: Timed, pool: Pool): Timed
    requires |a.births| == |pool.threads|
  {
    Timed(pool, a.clock + 1, seq(|a.births|, t requires 0 <= t < |a.births| =>
      Fitted(a.births[t], |pool.threads[t].stack|, a.clock + 1)), a.owner)
  }

  lemma TickTicks(a: Timed, pool: Pool)
    requires |a.births| == |a.pool.threads| == |pool.threads|
    ensures Ticks(a, Tick(a, pool)) && Tick(a, pool).owner == a.owner && Tick(a, pool).pool == pool
  {
    hide Fitted;
  }

  lemma DataCanChange(s: Sort, t: nat, p: Path)
    requires Acts(s, t, p)
    requires (p !in s.nodes && RangeOf(|s.data|, p).Size() <= GRAIN) || (IsOpen(s.nodes, p) && s.nodes[p].pc == Joined)
    ensures exists s' :: CallStep(s, s', t, p)
  {
    hide Acts, RangeOf, Sorts, InplaceMerges, SortedPart;
    SortedPartSorts(s.data, RangeOf(|s.data|, p));
    var s' := s.(nodes := s.nodes[p := Sorted], data := SortedPart(s.data, RangeOf(|s.data|, p)));
    assert SortsLeaf(s, s', t, p) || Merges(s, s', t, p);
    hide SortsLeaf, Merges, Splits, ForksHalf, Joins, Returns;
    assert CallStep(s, s', t, p);
  }

  lemma CanSplit(s: Sort, t: nat, p: Path)
    requires Acts(s, t, p) && |s.timed.births| == |s.Pool().threads|
    requires p !in s.nodes && RangeOf(|s.data|, p).Size() > GRAIN
    ensures exists s' :: CallStep(s, s', t, p)
  {
    hide RangeOf, Fitted;
    var pool' := s.Pool().(workCount := s.Pool().workCount + [0]);
    TickTicks(s.timed, pool');
    var timed' := Tick(s.timed, pool').(owner := s.timed.owner + [Began(s.timed.births[t])]);
    assert Ticks(s.timed, timed') && Creates(s.timed, timed', t);
    var s' := s.(timed := timed', nodes := s.nodes[p := Open(|s.Pool().workCount|, Forking(0))]);
    hide Ticks, Creates;
    assert Splits(s, s', t, p);
    hide SortsLeaf, Merges, Splits, ForksHalf, Joins, Returns;
    assert CallStep(s, s', t, p);
  }

  lemma CanFork(s: Sort, t: nat, p: Path)
    requires Acts(s, t, p) && |s.timed.births| == |s.Pool().threads|
    requires IsForking(s, p) && s.nodes[p].pc.k < 2 && s.nodes[p].group < |s.Pool().workCount|
    ensures exists s' :: CallStep(s, s', t, p)
  {
    hide Fitted, Kid;
    var pool, g, k := s.Pool(), s.nodes[p].group, s.nodes[p].pc.k;
    var started := WorkStarted(pool, g);
    var pool' := if Inline(pool) then started.(threads := pool.threads[t := pool.threads[t].Called(Run(g, true))])
                 else started.(queue := pool.queue + [g], threads := AllAwake(pool.threads));
    assert Forks(pool, pool', t, g);
    TickTicks(s.timed, pool');
    var s0 := s.(timed := Tick(s.timed, pool'), nodes := s.nodes[p := s.nodes[p].(pc := Forking(k + 1))]);
    var s' := if Inline(pool) then s0.(labels := s.labels[t := s.labels[t] + [Kid(p, k == 1)]])
              else s0.(todo := s.todo + [Kid(p, k == 1)]);
    hide Ticks, Forks, Tick;
    assert ForksHalf(s, s', t, p);
    hide SortsLeaf, Merges, Splits, ForksHalf, Joins, Returns;
    assert CallStep(s, s', t, p);
  }

  lemma CanJoin(s: Sort, t: nat, p: Path)
    requires Acts(s, t, p) && |s.timed.births| == |s.Pool().threads|
    requires IsForking(s, p) && s.nodes[p].pc.k == 2 && s.nodes[p].group < |s.Pool().workCount|
    ensures exists s' :: CallStep(s, s', t, p)
  {
    hide Fitted;
    var pool, g := s.Pool(), s.nodes[p].group;
    var pool' := pool.(threads := pool.threads[t := pool.threads[t].Called(Join(g))]);
    assert BeginsJoin(pool, pool', t, g);
    TickTicks(s.timed, pool');
    var s' := s.(timed := Tick(s.timed, pool'), nodes := s.nodes[p := s.nodes[p].(pc := Joining)],
                 labels := s.labels[t := s.labels[t] + [[]]]);
    hide Ticks, BeginsJoin, Tick;
    assert Joins(s, s', t, p);
    hide SortsLeaf, Merges, Splits, ForksHalf, Joins, Returns;
    assert CallStep(s, s', t, p);
  }

  lemma CanReturn(s: Sort, t: nat, p: Path)
    requires Acts(s, t, p) && |s.timed.births| == |s.Pool().threads| && IsSorted(s.nodes, p)
    requires s.Stack(t) != [] && s.Pool().threads[t].Top().group < |s.Pool().workCount|
    ensures exists s' :: CallStep(s, s', t, p)
  {
    hide Fitted;
    var pool := s.Pool();
    var pool' := WorkFinished(pool.(threads := pool.threads[t := pool.threads[t].Returned()]), pool.threads[t].Top().group);
    assert Finishes(pool, pool', t);
    TickTicks(s.timed, pool');
    var s' := s.(timed := Tick(s.timed, pool'), labels := s.labels[t := s.labels[t][..|s.labels[t]| - 1]]);
    hide Ticks, Finishes, Tick;
    assert Returns(s, s', t, p);
    hide SortsLeaf, Merges, Splits, ForksHalf, Joins, Returns;
    assert CallStep(s, s', t, p);
  }

  /** Whatever a call is about to do it can do; only the outermost call has nothing left to do when it is sorted. */
  lemma CallGoesAhead(s: Sort, input: seq<real>, t: nat, p: Path)
    requires Inv(s, input) && Acts(s, t, p) && (p == [] ==> !IsSorted(s.nodes, p))
    ensures exists s' :: CallStep(s, s', t, p)
  {
    hide Inv, CallStep, RangeOf, OnTop;
    LabelsOfInv(s, input);
    GroupsCounted(s, input);
    TopCallFits(s, input, t, p);
    ActiveCall(s, input, t, p);
    if p !in s.nodes {
      if RangeOf(|s.data|, p).Size() <= GRAIN {
        DataCanChange(s, t, p);
      } else {
        CanSplit(s, t, p);
      }
    } else if s.nodes[p] == Sorted {
      TopKnown(s, input, t);
      CanReturn(s, t, p);
    } else if s.nodes[p].pc == Joined {
      DataCanChange(s, t, p);
    } else if s.nodes[p].pc.k < 2 {
      CanFork(s, t, p);
    } else {
      CanJoin(s, t, p);
    }
  }

  lemma TopKnown(s: Sort, input: seq<real>, t: nat)
    requires Inv(s, input) && t < |s.Pool().threads| && s.Stack(t) != [] && s.Stack(t)[|s.Stack(t)| - 1].Run?
    ensures s.Pool().threads[t].Top().group < |s.Pool().workCount|
  {
    hide Inv, Queued, Running, Busy;
    AccountsOfInv(s, input);
    assert GroupsKnown(s.Stack(t), |s.Pool().workCount|);
    assert FrameKnown(s.Stack(t)[|s.Stack(t)| - 1], |s.Pool().workCount|);
  }

  // ---------------------------------------------------------------- never a standstill

  /** No call is above the other frames of its thread. */
  ghost predicate NobodyActs(s: Sort) {
    forall t, p :: !Acts(s, t, p)
  }

  /** Then the program outside waits in a join. */
  lemma RootWaits(s: Sort, input: seq<real>)
    requires Inv(s, input) && NobodyActs(s)
    ensures Waits(s.Pool(), 0)
  {
    hide Inv;
    LabelsOfInv(s, input);
    var stack := s.Stack(0);
    assert !Acts(s, 0, []);
    NoRunOnTop(s, 0);
    StackOfInv(s, input, 0);
    var last := |stack| - 1;
    assert FrameFits(s.nodes, s.timed.owner, stack, s.labels[0], s.timed.births[0], last);
  }

  lemma NoRunOnTop(s: Sort, t: nat)
    requires NobodyActs(s) && t < |s.Pool().threads| == |s.labels| && |s.labels[t]| == |s.Stack(t)|
    ensures s.Stack(t) != [] ==> !s.Stack(t)[|s.Stack(t)| - 1].Run?
  {
    assert s.Stack(t) != [] ==> !Acts(s, t, s.labels[t][|s.labels[t]| - 1]);
  }

  lemma TimedOfInv(s: Sort, input: seq<real>)
    requires Inv(s, input)
    ensures TimedInv(s.timed)
  {
    hide TimedInv, StackFits, TreeOk, DataOk, QueueFits, Jobs;
  }

  /** A step of the pool by which a thread gets on is one of the sort, if no call is on top of a thread. */
  lemma PoolGoesAhead(s: Sort, input: seq<real>, pool': Pool, t: nat)
    requires Inv(s, input) && NobodyActs(s) && ForkJoinProgress.GetsOn(s.Pool(), pool', t)
    ensures CanGoAhead(s)
  {
    hide Inv;
    LabelsOfInv(s, input);
    QueueOfInv(s, input);
    NoRunOnTop(s, t);
    RoundGoesAhead(s, pool', t);
  }

  lemma RoundGoesAhead(s: Sort, pool': Pool, t: nat)
    requires |s.labels| == |s.Pool().threads| == |s.timed.births| && |s.todo| == |s.Pool().queue|
    requires t < |s.labels| && |s.labels[t]| == |s.Stack(t)|
    requires Loops(s.Pool(), pool', t) && t < |pool'.threads| && !pool'.threads[t].asleep
    ensures CanGoAhead(s)
  {
    hide Fitted, GoesOn, Caller, BehindJoin;
    assert |pool'.threads| == |s.Pool().threads| && s.Stack(t) != [];
    TickTicks(s.timed, pool');
    var s0 := s.(timed := Tick(s.timed, pool'));
    var last := |s.labels[t]| - 1;
    var top := s.Pool().threads[t].Top();
    var s' := if !GoesOn(top, s.Pool().workCount, s.Pool().useCount) then
                s0.(labels := s.labels[t := s.labels[t][..last]],
                    nodes := if top.Join? then BehindJoin(s.nodes, Caller(s, t, last)) else s.nodes)
              else if s.Pool().queue != [] then s0.(todo := s.todo[1..], labels := s.labels[t := s.labels[t] + [s.todo[0]]])
              else s0;
    hide Ticks, Loops, Tick;
    assert Rounds(s, s', t);
    hide Rounds;
    assert GoesAhead(s, s');
  }

  /** Until the outermost call has returned, some thread can get on, in every state of every run. */
  lemma NeverStuck(run: seq<Sort>, i: nat)
    requires ForkJoinSort.IsRun(run) && i < |run| && !IsSorted(run[i].nodes, [])
    ensures exists s' :: GoesAhead(run[i], s') && ForkJoinSort.Step(run[i], s')
  {
    EveryStateIsSound(run, i);
    hide ForkJoinSort.IsRun, Inv, CallStep, Rounds, ForkJoinSort.Otherwise;
    StateGoesAhead(run[i], run[0].data);
    var s' :| GoesAhead(run[i], s');
    assert ForkJoinSort.Step(run[i], s');
  }

  lemma StateGoesAhead(s: Sort, input: seq<real>)
    requires Inv(s, input) && !IsSorted(s.nodes, [])
    ensures CanGoAhead(s)
  {
    hide Inv, Acts, CallStep, Rounds, CanGoAhead, Waits, TimedInv, ForkJoinProgress.GetsOn;
    if t, p :| Acts(s, t, p) {
      CallGoesAhead(s, input, t, p);
      var s' :| CallStep(s, s', t, p);
      CallStepGoesAhead(s, s', t, p);
    } else {
      RootWaits(s, input);
      TimedOfInv(s, input);
      if Stuck(s.Pool()) {
        NobodyWaitsStuck(s.timed, 0);
      } else {
        var t: nat, pool' :| ForkJoinProgress.GetsOn(s.Pool(), pool', t);
        PoolGoesAhead(s, input, pool', t);
      }
    }
  }

  lemma CallStepGoesAhead(s: Sort, s': Sort, t: nat, p: Path)
    requires CallStep(s, s', t, p)
    ensures CanGoAhead(s)
  {
    hide CallStep, Rounds;
    assert GoesAhead(s, s');
  }
}
