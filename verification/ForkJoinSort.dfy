/** Boost_Searcher/data/input/boost_asio/example/cpp11/executors/fork_join.cpp: `fork_join_sort` on the fork/join pool. The threads work
    on the same data without a lock of their own; that they sort it, however they are interleaved, rests on what `join`
    waits for.

    The pool is the system of steps of module `ForkJoin`. `todo` and `labels` say which call of the sort each queued
    function and each frame of a stack is, and `nodes` where that call stands. Thread 0 is the program outside,
    which makes the outermost call, and the other threads are those of the pool. `std::sort` and
    `std::inplace_merge` are one step each. */
module ForkJoinSort {
  import opened ForkJoin
  import opened ForkJoinWakeups
  import opened ForkJoinProgress
  import opened CallTree

  datatype Sort = Sort(timed: Timed, todo: seq<Path>, labels: seq<seq<Path>>, nodes: Nodes, data: seq<real>) {
    function Pool(): Pool {
      timed.pool
    }

    function Stack(t: nat): seq<Frame>
      requires t < |timed.pool.threads|
    {
      timed.pool.threads[t].stack
    }
  }

  /** Frames that execute no call have the label of the outermost call. */
  ghost predicate Starts(s: Sort) {
    && ForkJoinProgress.Starts(s.timed) && s.todo == [] && s.nodes == map[]
    && |s.labels| == |s.Pool().threads| > 0
    && forall t :: 0 <= t < |s.labels| ==>
         if t == 0 then s.Stack(t) == [] && s.labels[t] == [] else s.Stack(t) == [Loop] && s.labels[t] == [[]]
  }

  /** The call whose code is above all other frames of thread `t`. */
  predicate Acts(s: Sort, t: nat, p: Path) {
    && t < |s.Pool().threads| && t < |s.labels| && |s.labels[t]| == |s.Stack(t)|
    && if s.Stack(t) == [] then t == 0 && p == []
       else s.Stack(t)[|s.Stack(t)| - 1].Run? && p == s.labels[t][|s.labels[t]| - 1]
  }

  /** A step of the pool other than the creation of a group. */
  ghost predicate Ticked(s: Sort, s': Sort) {
    Ticks(s.timed, s'.timed) && s'.timed.owner == s.timed.owner
  }

  // ---------------------------------------------------------------- the steps of a call

  ghost predicate SortsLeaf(s: Sort, s': Sort, t: nat, p: Path) {
    && Acts(s, t, p) && p !in s.nodes && RangeOf(|s.data|, p).Size() <= GRAIN
    && Sorts(s.data, s'.data, RangeOf(|s.data|, p))
    && s' == s.(nodes := s.nodes[p := Sorted], data := s'.data)
  }

  ghost predicate Splits(s: Sort, s': Sort, t: nat, p: Path) {
    && Acts(s, t, p) && p !in s.nodes && RangeOf(|s.data|, p).Size() > GRAIN
    && Ticks(s.timed, s'.timed) && Creates(s.timed, s'.timed, t)
    && s' == s.(timed := s'.timed, nodes := s.nodes[p := Open(|s.Pool().workCount|, Forking(0))])
  }

  predicate IsForking(s: Sort, p: Path) {
    IsOpen(s.nodes, p) && s.nodes[p].pc.Forking?
  }

  predicate Inline(s: Pool) {
    |s.queue| > s.threadCount * 16
  }

  ghost predicate ForksHalf(s: Sort, s': Sort, t: nat, p: Path) {
    && Acts(s, t, p) && IsForking(s, p) && s.nodes[p].pc.k < 2
    && Ticked(s, s') && Forks(s.Pool(), s'.Pool(), t, s.nodes[p].group)
    && var k := s.nodes[p].pc.k;
       var s0 := s.(timed := s'.timed, nodes := s.nodes[p := s.nodes[p].(pc := Forking(k + 1))]);
       s' == if Inline(s.Pool()) then s0.(labels := s.labels[t := s.labels[t] + [Kid(p, k == 1)]])
             else s0.(todo := s.todo + [Kid(p, k == 1)])
  }

  ghost predicate Joins(s: Sort, s': Sort, t: nat, p: Path) {
    && Acts(s, t, p) && IsForking(s, p) && s.nodes[p].pc.k == 2
    && Ticked(s, s') && BeginsJoin(s.Pool(), s'.Pool(), t, s.nodes[p].group)
    && s' == s.(timed := s'.timed, nodes := s.nodes[p := s.nodes[p].(pc := Joining)], labels := s.labels[t := s.labels[t] + [[]]])
  }

  ghost predicate Merges(s: Sort, s': Sort, t: nat, p: Path) {
    && Acts(s, t, p) && IsOpen(s.nodes, p) && s.nodes[p].pc == Joined
    && InplaceMerges(s.data, s'.data, RangeOf(|s.data|, p))
    && s' == s.(nodes := s.nodes[p := Sorted], data := s'.data)
  }

  /** The call is a function of the pool and returns. Nothing in it throws. */
  ghost predicate Returns(s: Sort, s': Sort, t: nat, p: Path) {
    && Acts(s, t, p) && IsSorted(s.nodes, p) && s.Stack(t) != []
    && Ticked(s, s') && Finishes(s.Pool(), s'.Pool(), t)
    && s' == s.(timed := s'.timed, labels := s.labels[t := s.labels[t][..|s.labels[t]| - 1]])
  }

  // ---------------------------------------------------------------- the steps of the pool

  /** The call that waits in the join that is frame `k` of thread `t`. */
  function Caller(s: Sort, t: nat, k: nat): Path
    requires t < |s.labels| && k <= |s.labels[t]|
  {
    if k == 0 then [] else s.labels[t][k - 1]
  }

  function BehindJoin(nodes: Nodes, p: Path): Nodes {
    if IsOpen(nodes, p) then nodes[p := nodes[p].(pc := Joined)] else nodes
  }

  /** One round of the loop of a pool thread or of `join`: it takes a function, returns, or sleeps. */
  ghost predicate Rounds(s: Sort, s': Sort, t: nat) {
    && t < |s.labels| && t < |s'.Pool().threads| && |s.labels[t]| > 0
    && Ticked(s, s') && Loops(s.Pool(), s'.Pool(), t)
    && var last := |s.labels[t]| - 1;
       var s0 := s.(timed := s'.timed);
       if !GoesOn(s.Pool().threads[t].Top(), s.Pool().workCount, s.Pool().useCount) then
         s' == s0.(labels := s.labels[t := s.labels[t][..last]],
                   nodes := if s.Pool().threads[t].Top().Join? then BehindJoin(s.nodes, Caller(s, t, last)) else s.nodes)
       else if s.Pool().queue != [] then
         s.todo != [] && s' == s0.(todo := s.todo[1..], labels := s.labels[t := s.labels[t] + [s.todo[0]]])
       else s' == s0
  }

  ghost predicate Otherwise(s: Sort, s': Sort) {
    && Ticked(s, s') && s' == s.(timed := s'.timed)
    && (Stops(s.Pool(), s'.Pool()) || exists t :: WakesSpuriously(s.Pool(), s'.Pool(), t))
  }

  /** The call on thread `t` gets on. */
  ghost predicate CallStep(s: Sort, s': Sort, t: nat, p: Path) {
    || SortsLeaf(s, s', t, p) || Splits(s, s', t, p) || ForksHalf(s, s', t, p)
    || Joins(s, s', t, p) || Merges(s, s', t, p) || Returns(s, s', t, p)
  }

  ghost predicate Step(s: Sort, s': Sort) {
    || (exists t, p :: CallStep(s, s', t, p))
    || (exists t :: Rounds(s, s', t))
    || Otherwise(s, s')
  }

  /** Nothing that a call, a loop of the pool or the program can do is missing. */
  lemma EverythingIsAStep(s: Sort, s': Sort, t: nat, p: Path)
    requires
      || SortsLeaf(s, s', t, p) || Splits(s, s', t, p) || ForksHalf(s, s', t, p)
      || Joins(s, s', t, p) || Merges(s, s', t, p) || Returns(s, s', t, p) || Rounds(s, s', t)
      || (Ticked(s, s') && s' == s.(timed := s'.timed)
          && (Stops(s.Pool(), s'.Pool()) || WakesSpuriously(s.Pool(), s'.Pool(), t)))
    ensures Step(s, s')
  {
    hide SortsLeaf, Splits, ForksHalf, Joins, Merges, Returns, Rounds, Ticked, Stops, WakesSpuriously;
    assert CallStep(s, s', t, p) || Rounds(s, s', t) || Otherwise(s, s');
  }

  // ---------------------------------------------------------------- jobs

  function Flat(labels: seq<seq<Path>>): multiset<Path> {
    if labels == [] then multiset{} else multiset(labels[0]) + Flat(labels[1..])
  }

  function Jobs(s: Sort): multiset<Path> {
    multiset(s.todo) + Flat(s.labels)
  }

  lemma {:induction false} FlatUpdate(labels: seq<seq<Path>>, t: nat, l: seq<Path>)
    requires t < |labels|
    ensures Flat(labels[t := l]) + multiset(labels[t]) == Flat(labels) + multiset(l)
  {
    FlatCons(labels);
    FlatCons(labels[t := l]);
    hide Flat;
    if t == 0 {
      assert labels[0 := l][1..] == labels[1..];
      Exchange(multiset(l), Flat(labels[1..]), multiset(labels[0]));
    } else {
      FlatUpdate(labels[1..], t - 1, l);
      assert labels[t := l][1..] == labels[1..][t - 1 := l];
      AddFirst(multiset(labels[0]), Flat(labels[1..][t - 1 := l]), multiset(labels[t]), Flat(labels[1..]), multiset(l));
    }
  }

  lemma FlatCons(labels: seq<seq<Path>>)
    requires labels != []
    ensures Flat(labels) == multiset(labels[0]) + Flat(labels[1..])
  {
  }

  lemma Exchange<X>(a: multiset<X>, rest: multiset<X>, b: multiset<X>)
    ensures (a + rest) + b == (b + rest) + a
  {
  }

  lemma AddFirst<X>(first: multiset<X>, a: multiset<X>, b: multiset<X>, c: multiset<X>, d: multiset<X>)
    requires a + b == c + d
    ensures (first + a) + b == (first + c) + d
  {
    assert (first + a) + b == first + (a + b);
    assert (first + c) + d == first + (c + d);
  }

  lemma PushFlat(labels: seq<seq<Path>>, t: nat, q: Path)
    requires t < |labels|
    ensures Flat(labels[t := labels[t] + [q]]) == Flat(labels) + multiset{q}
  {
    FlatUpdate(labels, t, labels[t] + [q]);
    hide Flat;
    Cancel(Flat(labels[t := labels[t] + [q]]), multiset(labels[t]), Flat(labels), multiset{q});
  }

  lemma PopFlat(labels: seq<seq<Path>>, t: nat)
    requires t < |labels| && labels[t] != []
    ensures var last := |labels[t]| - 1;
            Flat(labels) == Flat(labels[t := labels[t][..last]]) + multiset{labels[t][last]}
  {
    var last := |labels[t]| - 1;
    var l, q := labels[t][..last], labels[t][last];
    hide Flat;
    PushFlat(labels[t := l], t, q);
    PutBack(labels, t, l, q);
  }

  lemma PutBack(labels: seq<seq<Path>>, t: nat, l: seq<Path>, q: Path)
    requires t < |labels| && labels[t] != [] && l == labels[t][..|labels[t]| - 1] && q == labels[t][|labels[t]| - 1]
    ensures labels[t := l][t] == l && labels[t := l][t := l + [q]] == labels
  {
    assert labels[t] == l + [q];
  }

  lemma Cancel<X>(a: multiset<X>, b: multiset<X>, c: multiset<X>, d: multiset<X>)
    requires a + b == c + (b + d)
    ensures a == c + d
  {
    forall x
      ensures a[x] == (c + d)[x]
    {
      assert (a + b)[x] == (c + (b + d))[x];
    }
  }

  lemma {:induction false} FlatHas(labels: seq<seq<Path>>, t: nat, k: nat)
    requires t < |labels| && k < |labels[t]|
    ensures Flat(labels)[labels[t][k]] >= 1
  {
    if t == 0 {
      assert labels[0][k] in labels[0];
    } else {
      FlatHas(labels[1..], t - 1, k);
    }
  }

  lemma {:induction false} SeqTwice(l: seq<Path>, k: nat, k': nat)
    requires k < k' < |l| && l[k] == l[k']
    ensures multiset(l)[l[k]] >= 2
  {
    assert l == l[..k'] + l[k'..];
    assert l[..k'][k] in l[..k'] && l[k'..][0] in l[k'..];
  }

  /** A label at two places counts twice. */
  lemma {:induction false} FlatTwice(labels: seq<seq<Path>>, t: nat, k: nat, t': nat, k': nat)
    requires t < |labels| && k < |labels[t]| && t' < |labels| && k' < |labels[t']|
    requires labels[t][k] == labels[t'][k'] && (t < t' || (t == t' && k < k'))
    ensures Flat(labels)[labels[t][k]] >= 2
  {
    if t > 0 {
      FlatTwice(labels[1..], t - 1, k, t' - 1, k');
    } else if t' > 0 {
      assert labels[0][k] in labels[0];
      FlatHas(labels[1..], t' - 1, k');
    } else {
      SeqTwice(labels[0], k, k');
    }
  }

  lemma {:induction false} FlatFind(labels: seq<seq<Path>>, q: Path) returns (t: nat, k: nat)
    requires q in Flat(labels)
    ensures t < |labels| && k < |labels[t]| && labels[t][k] == q
  {
    if q in labels[0] {
      t := 0;
      k :| 0 <= k < |labels[0]| && labels[0][k] == q;
    } else {
      t, k := FlatFind(labels[1..], q);
      t := t + 1;
    }
  }

  // ---------------------------------------------------------------- the invariant

  /** A function of group `g` is a half of the call that created `g`. */
  predicate GroupIs(nodes: Nodes, q: Path, g: nat) {
    q != [] && IsOpen(nodes, Parent(q)) && nodes[Parent(q)].group == g
  }

  /** The group of a call belongs to it, as the history says, and it is in the join if and only if the frame above it is
      one; `above` are the frames above it. */
  ghost predicate CallFits(nodes: Nodes, owner: seq<nat>, p: Path, began: nat, above: seq<Frame>) {
    IsOpen(nodes, p) ==>
      && nodes[p].group < |owner| && owner[nodes[p].group] == began
      && (nodes[p].pc == Joining ==> above != [] && above[0] == Join(nodes[p].group))
      && (above != [] && above[0].Join? ==> nodes[p] == Open(above[0].group, Joining))
  }

  /** Frame `k` of a stack with its label. */
  ghost predicate FrameFits(nodes: Nodes, owner: seq<nat>, stack: seq<Frame>, labels: seq<Path>, births: seq<nat>, k: nat)
    requires |labels| == |births| == |stack| && k < |stack|
  {
    match stack[k]
    case Loop => k == 0 && labels[k] == []
    case Join(g) => labels[k] == [] && (k > 0 ==> stack[k - 1].Run? && IsOpen(nodes, labels[k - 1]))
    case Run(g, _) => GroupIs(nodes, labels[k], g) && CallFits(nodes, owner, labels[k], births[k], stack[k + 1..])
  }

  /** On thread 0 the outermost call is below all frames, on the others a loop is. */
  ghost predicate StackFits(nodes: Nodes, owner: seq<nat>, stack: seq<Frame>, labels: seq<Path>, births: seq<nat>, t: nat) {
    && |labels| == |births| == |stack|
    && (forall k :: 0 <= k < |stack| ==> FrameFits(nodes, owner, stack, labels, births, k))
    && (if t == 0 then
          && CallFits(nodes, owner, [], 0, stack)
          && (stack != [] ==> !stack[0].Loop? && (stack[0].Join? ==> IsOpen(nodes, [])))
        else stack != [] ==> stack[0].Loop?)
  }

  ghost predicate QueueFits(nodes: Nodes, todo: seq<Path>, queue: seq<nat>) {
    && |todo| == |queue|
    && forall k :: 0 <= k < |todo| ==> GroupIs(nodes, todo[k], queue[k]) && todo[k] !in nodes
  }

  ghost predicate Inv(s: Sort, input: seq<real>) {
    && TimedInv(s.timed)
    && |s.labels| == |s.Pool().threads| == |s.timed.births| > 0
    && (forall t :: 0 <= t < |s.labels| ==>
          StackFits(s.nodes, s.timed.owner, s.Stack(t), s.labels[t], s.timed.births[t], t))
    && QueueFits(s.nodes, s.todo, s.Pool().queue)
    && TreeOk(s.nodes, Jobs(s))
    && |s.data| == |input| && DataOk(s.nodes, s.data, input, [], RangeOf(|s.data|, []))
  }

  // ---------------------------------------------------------------- stacks

  /** Call `p` is above all frames of a stack. */
  predicate OnTop(stack: seq<Frame>, labels: seq<Path>, t: nat, p: Path) {
    if stack == [] then t == 0 && p == []
    else |labels| == |stack| && stack[|stack| - 1].Run? && p == labels[|stack| - 1]
  }

  /** Call `p` is nowhere else. */
  ghost predicate OnlyOnTop(stack: seq<Frame>, labels: seq<Path>, t: nat, p: Path) {
    if p == [] then t == 0 ==> stack == []
    else forall k :: 0 <= k < |labels| && labels[k] == p ==> k == |labels| - 1 && OnTop(stack, labels, t, p)
  }

  /** No half of call `p` minds the change to `x`. */
  ghost predicate HalvesFit(nodes: Nodes, p: Path, x: Node, labels: seq<Path>) {
    forall k :: 0 <= k < |labels| && labels[k] != [] && Parent(labels[k]) == p ==>
      IsOpen(nodes, p) && x.Open? && x.group == nodes[p].group
  }

  lemma TouchedFrame(nodes: Nodes, p: Path, x: Node, owner: seq<nat>, owner': seq<nat>, stack: seq<Frame>, labels: seq<Path>,
                     births: seq<nat>, t: nat, k: nat)
    requires StackFits(nodes, owner, stack, labels, births, t) && owner <= owner' && k < |stack|
    requires OnlyOnTop(stack, labels, t, p) && HalvesFit(nodes, p, x, labels)
    requires OnTop(stack, labels, t, p) ==> CallFits(nodes[p := x], owner', p, Began(births), [])
    ensures FrameFits(nodes[p := x], owner', stack, labels, births, k)
  {
    hide Parent;
    assert FrameFits(nodes, owner, stack, labels, births, k);
    if stack[k].Join? && k > 0 {
      assert FrameFits(nodes, owner, stack, labels, births, k - 1);
    }
  }

  /** The call on top changes its node. */
  lemma TouchedStack(nodes: Nodes, p: Path, x: Node, owner: seq<nat>, owner': seq<nat>, stack: seq<Frame>, labels: seq<Path>,
                     births: seq<nat>, t: nat)
    requires StackFits(nodes, owner, stack, labels, births, t) && owner <= owner'
    requires OnlyOnTop(stack, labels, t, p) && HalvesFit(nodes, p, x, labels)
    requires OnTop(stack, labels, t, p) ==> CallFits(nodes[p := x], owner', p, Began(births), [])
    ensures StackFits(nodes[p := x], owner', stack, labels, births, t)
  {
    hide Parent, FrameFits;
    var nodes' := nodes[p := x];
    forall k | 0 <= k < |stack|
      ensures FrameFits(nodes', owner', stack, labels, births, k)
    {
      TouchedFrame(nodes, p, x, owner, owner', stack, labels, births, t, k);
    }
  }

  /** A function is called. */
  lemma PushedRun(nodes: Nodes, owner: seq<nat>, stack: seq<Frame>, labels: seq<Path>, births: seq<nat>, t: nat,
                  g: nat, inlined: bool, q: Path, now: nat)
    requires StackFits(nodes, owner, stack, labels, births, t) && GroupIs(nodes, q, g) && q !in nodes
    requires t != 0 ==> stack != []
    ensures StackFits(nodes, owner, stack + [Run(g, inlined)], labels + [q], births + [now], t)
  {
    hide Parent;
    var longer := stack + [Run(g, inlined)];
    forall k | 0 <= k < |longer|
      ensures FrameFits(nodes, owner, longer, labels + [q], births + [now], k)
    {
      if k < |stack| {
        assert FrameFits(nodes, owner, stack, labels, births, k);
        Above(stack, k, Run(g, inlined));
      }
    }
  }

  lemma Above(stack: seq<Frame>, k: nat, f: Frame)
    requires k < |stack|
    ensures (stack + [f])[k + 1..] != [] && (stack + [f])[k + 1..][0] == if k + 1 < |stack| then stack[k + 1..][0] else f
  {
  }

  /** The call on top begins to join its group. */
  lemma PushedJoin(nodes: Nodes, owner: seq<nat>, stack: seq<Frame>, labels: seq<Path>, births: seq<nat>, t: nat,
                   p: Path, now: nat)
    requires StackFits(nodes, owner, stack, labels, births, t)
    requires OnTop(stack, labels, t, p) && OnlyOnTop(stack, labels, t, p) && IsOpen(nodes, p)
    ensures StackFits(nodes[p := nodes[p].(pc := Joining)], owner, stack + [Join(nodes[p].group)], labels + [[]],
                      births + [now], t)
  {
    hide Parent;
    var f, nodes' := Join(nodes[p].group), nodes[p := nodes[p].(pc := Joining)];
    forall k | 0 <= k < |stack + [f]|
      ensures FrameFits(nodes', owner, stack + [f], labels + [[]], births + [now], k)
    {
      if k < |stack| {
        assert FrameFits(nodes, owner, stack, labels, births, k);
        Above(stack, k, f);
      }
    }
  }

  /** A function or a loop returns. */
  lemma Popped(nodes: Nodes, owner: seq<nat>, stack: seq<Frame>, labels: seq<Path>, births: seq<nat>, t: nat)
    requires StackFits(nodes, owner, stack, labels, births, t) && stack != [] && !stack[|stack| - 1].Join?
    ensures var n := |stack| - 1; StackFits(nodes, owner, stack[..n], labels[..n], births[..n], t)
  {
    hide Parent;
    var n := |stack| - 1;
    forall k | 0 <= k < n
      ensures FrameFits(nodes, owner, stack[..n], labels[..n], births[..n], k)
    {
      assert FrameFits(nodes, owner, stack, labels, births, k);
      Below(stack, k);
    }
  }

  lemma Below(stack: seq<Frame>, k: nat)
    requires k + 1 < |stack|
    ensures stack[k + 1..] != [] && stack[k + 1..][0] == stack[k + 1]
    ensures k + 2 < |stack| ==> stack[..|stack| - 1][k + 1..] != [] && stack[..|stack| - 1][k + 1..][0] == stack[k + 1]
    ensures k + 2 == |stack| ==> stack[..|stack| - 1][k + 1..] == []
  {
  }

  /** A join returns to the call that made it, which is nowhere else. */
  lemma PoppedJoin(nodes: Nodes, owner: seq<nat>, stack: seq<Frame>, labels: seq<Path>, births: seq<nat>, t: nat, c: Path)
    requires StackFits(nodes, owner, stack, labels, births, t) && stack != [] && stack[|stack| - 1].Join?
    requires c == if |stack| == 1 then [] else labels[|stack| - 2]
    requires c != [] ==> forall k :: 0 <= k < |labels| && labels[k] == c ==> k == |labels| - 2
    ensures IsOpen(nodes, c)
    ensures var n := |stack| - 1; StackFits(nodes[c := nodes[c].(pc := Joined)], owner, stack[..n], labels[..n], births[..n], t)
  {
    hide Parent;
    var n := |stack| - 1;
    assert FrameFits(nodes, owner, stack, labels, births, n);
    assert n > 0 ==> FrameFits(nodes, owner, stack, labels, births, n - 1);
    var nodes' := nodes[c := nodes[c].(pc := Joined)];
    forall k | 0 <= k < n
      ensures FrameFits(nodes', owner, stack[..n], labels[..n], births[..n], k)
    {
      assert FrameFits(nodes, owner, stack, labels, births, k);
      Below(stack, k);
      assert k > 0 ==> FrameFits(nodes, owner, stack, labels, births, k - 1);
    }
  }

  // ---------------------------------------------------------------- one call at a time

  lemma ActiveCall(s: Sort, input: seq<real>, t: nat, p: Path)
    requires Inv(s, input) && Acts(s, t, p)
    ensures Active(Jobs(s), p) && (p == [] <==> s.Stack(t) == [])
    ensures OnTop(s.Stack(t), s.labels[t], t, p)
  {
    hide Jobs, TimedInv, TreeOk, DataOk, QueueFits;
    var stack := s.Stack(t);
    assert StackFits(s.nodes, s.timed.owner, stack, s.labels[t], s.timed.births[t], t);
    if stack != [] {
      assert FrameFits(s.nodes, s.timed.owner, stack, s.labels[t], s.timed.births[t], |stack| - 1);
      LabelIsJob(s, t, |stack| - 1);
    }
  }

  lemma LabelIsJob(s: Sort, t: nat, k: nat)
    requires t < |s.labels| && k < |s.labels[t]|
    ensures s.labels[t][k] in Jobs(s)
  {
    FlatHas(s.labels, t, k);
  }

  /** A call is executed in one place, and not queued as well. */
  lemma JobAtOnePlace(s: Sort, input: seq<real>, t: nat, k: nat, t': nat, k': nat)
    requires Inv(s, input) && t < |s.labels| && k < |s.labels[t]| && s.labels[t][k] != []
    ensures s.labels[t][k] !in s.todo
    ensures t' < |s.labels| && k' < |s.labels[t']| && s.labels[t'][k'] == s.labels[t][k] ==> t' == t && k' == k
  {
    var q := s.labels[t][k];
    LabelIsJob(s, t, k);
    assert JobOk(s.nodes, Jobs(s), q);
    hide TimedInv, StackFits, DataOk, QueueFits, TreeOk, JobOk, Flat;
    FlatHas(s.labels, t, k);
    assert q in s.todo ==> q in multiset(s.todo);
    if t' < |s.labels| && k' < |s.labels[t']| && s.labels[t'][k'] == q && (t' != t || k' != k) {
      if t < t' || (t == t' && k < k') {
        FlatTwice(s.labels, t, k, t', k');
      } else {
        FlatTwice(s.labels, t', k', t, k);
      }
    }
  }

  lemma OnlyThere(s: Sort, input: seq<real>, t: nat, p: Path, t': nat)
    requires Inv(s, input) && Acts(s, t, p) && t' < |s.labels|
    ensures OnlyOnTop(s.Stack(t'), s.labels[t'], t', p)
    ensures p != [] ==> p !in s.todo
    ensures OnTop(s.Stack(t'), s.labels[t'], t', p) ==> t' == t
  {
    hide Inv, Jobs, Active;
    ActiveCall(s, input, t, p);
    TopLabel(s, input, t');
    if p != [] {
      JobAtOnePlace(s, input, t, |s.labels[t]| - 1, t, |s.labels[t]| - 1);
      forall k | 0 <= k < |s.labels[t']| && s.labels[t'][k] == p
        ensures t' == t && k == |s.labels[t']| - 1
      {
        JobAtOnePlace(s, input, t, |s.labels[t]| - 1, t', k);
      }
    }
  }

  lemma TopLabel(s: Sort, input: seq<real>, t: nat)
    requires Inv(s, input) && t < |s.labels|
    ensures var stack := s.Stack(t);
            |s.labels[t]| == |stack| && (stack != [] && stack[|stack| - 1].Run? ==> s.labels[t][|stack| - 1] != [])
  {
    hide TimedInv, TreeOk, DataOk, QueueFits, Jobs;
    var stack := s.Stack(t);
    assert StackFits(s.nodes, s.timed.owner, stack, s.labels[t], s.timed.births[t], t);
    assert stack != [] ==> FrameFits(s.nodes, s.timed.owner, stack, s.labels[t], s.timed.births[t], |stack| - 1);
  }

  /** The changes a call makes to its node. */
  predicate Advances(nodes: Nodes, p: Path, x: Node) {
    || p !in nodes
    || (IsOpen(nodes, p) && x.Open? && x.group == nodes[p].group)
    || (IsOpen(nodes, p) && nodes[p].pc == Joined)
  }

  lemma HalvesDoNotMind(s: Sort, input: seq<real>, p: Path, x: Node, q: Path)
    requires Inv(s, input) && Advances(s.nodes, p, x) && q in Jobs(s) && q != [] && Parent(q) == p
    ensures IsOpen(s.nodes, p) && x.Open? && x.group == s.nodes[p].group
  {
    assert JobOk(s.nodes, Jobs(s), q);
    hide Inv, Jobs, Parent;
  }

  /** The stack of any thread fits to the new node. */
  lemma TouchedThread(s: Sort, input: seq<real>, t: nat, p: Path, x: Node, owner: seq<nat>, t': nat)
    requires Inv(s, input) && Acts(s, t, p) && Advances(s.nodes, p, x) && s.timed.owner <= owner && t' < |s.labels|
    requires t' == t ==> CallFits(s.nodes[p := x], owner, p, Began(s.timed.births[t]), [])
    ensures StackFits(s.nodes[p := x], owner, s.Stack(t'), s.labels[t'], s.timed.births[t'], t')
  {
    hide StackFits, TimedInv, TreeOk, DataOk, QueueFits, Jobs, CallFits, OnTop, OnlyOnTop, Parent, Advances;
    OnlyThere(s, input, t, p, t');
    forall k | 0 <= k < |s.labels[t']| && s.labels[t'][k] != [] && Parent(s.labels[t'][k]) == p
      ensures IsOpen(s.nodes, p) && x.Open? && x.group == s.nodes[p].group
    {
      LabelIsJob(s, t', k);
      HalvesDoNotMind(s, input, p, x, s.labels[t'][k]);
    }
    TouchedStack(s.nodes, p, x, s.timed.owner, owner, s.Stack(t'), s.labels[t'], s.timed.births[t'], t');
  }

  lemma TouchedStacks(s: Sort, input: seq<real>, t: nat, p: Path, x: Node, owner: seq<nat>)
    requires Inv(s, input) && Acts(s, t, p) && Advances(s.nodes, p, x) && s.timed.owner <= owner
    requires CallFits(s.nodes[p := x], owner, p, Began(s.timed.births[t]), [])
    ensures forall t' :: 0 <= t' < |s.labels| ==>
              StackFits(s.nodes[p := x], owner, s.Stack(t'), s.labels[t'], s.timed.births[t'], t')
  {
    hide StackFits, TimedInv, TreeOk, DataOk, QueueFits, Jobs, CallFits, Parent, Advances;
    var nodes' := s.nodes[p := x];
    forall t' | 0 <= t' < |s.labels|
      ensures StackFits(nodes', owner, s.Stack(t'), s.labels[t'], s.timed.births[t'], t')
    {
      TouchedThread(s, input, t, p, x, owner, t');
    }
  }

  lemma LabelsOfInv(s: Sort, input: seq<real>)
    requires Inv(s, input)
    ensures |s.labels| == |s.Pool().threads| == |s.timed.births| > 0
    ensures forall t :: 0 <= t < |s.labels| ==> |s.labels[t]| == |s.timed.births[t]| == |s.Stack(t)|
  {
    hide TimedInv, TreeOk, DataOk, FrameFits, CallFits, QueueFits;
  }

  lemma QueueOfInv(s: Sort, input: seq<real>)
    requires Inv(s, input)
    ensures QueueFits(s.nodes, s.todo, s.Pool().queue)
  {
    hide TimedInv, TreeOk, DataOk, StackFits, QueueFits;
  }

  lemma TouchedTodo(nodes: Nodes, p: Path, x: Node, todo: seq<Path>, queue: seq<nat>)
    requires QueueFits(nodes, todo, queue) && HalvesFit(nodes, p, x, todo) && (p != [] ==> p !in todo)
    ensures QueueFits(nodes[p := x], todo, queue)
  {
    hide Parent;
  }

  lemma TouchedQueue(s: Sort, input: seq<real>, t: nat, p: Path, x: Node)
    requires Inv(s, input) && Acts(s, t, p) && Advances(s.nodes, p, x)
    ensures QueueFits(s.nodes[p := x], s.todo, s.Pool().queue)
  {
    hide Inv, Jobs, OnTop, OnlyOnTop, Advances, Parent, QueueFits;
    LabelsOfInv(s, input);
    OnlyThere(s, input, t, p, t);
    QueueOfInv(s, input);
    forall k | 0 <= k < |s.todo| && s.todo[k] != [] && Parent(s.todo[k]) == p
      ensures IsOpen(s.nodes, p) && x.Open? && x.group == s.nodes[p].group
    {
      TodoIsJob(s, k);
      HalvesDoNotMind(s, input, p, x, s.todo[k]);
    }
    TouchedTodo(s.nodes, p, x, s.todo, s.Pool().queue);
  }

  lemma TodoIsJob(s: Sort, k: nat)
    requires k < |s.todo|
    ensures s.todo[k] in Jobs(s)
  {
    assert s.todo[k] in multiset(s.todo);
  }

  // ---------------------------------------------------------------- the invariant is kept

  /** What the invariant says of the stacks; `TreeOk` and `DataOk` see nothing of the pool. */
  ghost predicate StacksFit(s: Sort) {
    && |s.labels| == |s.Pool().threads| == |s.timed.births| > 0
    && forall t :: 0 <= t < |s.labels| ==>
         StackFits(s.nodes, s.timed.owner, s.Stack(t), s.labels[t], s.timed.births[t], t)
  }

  lemma InvParts(s: Sort, input: seq<real>)
    requires Inv(s, input)
    ensures TimedInv(s.timed) && StacksFit(s) && TreeOk(s.nodes, Jobs(s))
    ensures |s.data| == |input| && DataOk(s.nodes, s.data, input, [], RangeOf(|s.data|, []))
  {
    hide TimedInv, StackFits, TreeOk, DataOk, QueueFits, Jobs, RangeOf;
  }

  lemma InvFromParts(s: Sort, input: seq<real>)
    requires TimedInv(s.timed) && StacksFit(s) && TreeOk(s.nodes, Jobs(s)) && QueueFits(s.nodes, s.todo, s.Pool().queue)
    requires |s.data| == |input| && DataOk(s.nodes, s.data, input, [], RangeOf(|s.data|, []))
    ensures Inv(s, input)
  {
    hide TimedInv, StackFits, TreeOk, DataOk, QueueFits, Jobs, RangeOf;
  }

  lemma SameJobs(s: Sort, s': Sort)
    requires s'.todo == s.todo && s'.labels == s.labels
    ensures Jobs(s') == Jobs(s)
  {
  }

  lemma SameStacks(s: Sort, s': Sort)
    requires StacksFit(s) && s'.timed == s.timed && s'.labels == s.labels
    requires forall t :: 0 <= t < |s.labels| ==>
               StackFits(s'.nodes, s.timed.owner, s.Stack(t), s.labels[t], s.timed.births[t], t)
    ensures StacksFit(s')
  {
    hide StackFits;
  }

  lemma SortsLeafKeepsInv(s: Sort, s': Sort, input: seq<real>, t: nat, p: Path)
    requires Inv(s, input) && SortsLeaf(s, s', t, p)
    ensures Inv(s', input)
  {
    hide Inv, StacksFit, TreeOk, DataOk, TimedInv, Jobs, QueueFits, StackFits, RangeOf, Acts, Sorts, OnTop;
    InvParts(s, input);
    LabelsOfInv(s, input);
    ActiveCall(s, input, t, p);
    TouchedStacks(s, input, t, p, Sorted, s.timed.owner);
    TouchedQueue(s, input, t, p, Sorted);
    OpensKeepsTree(s.nodes, Jobs(s), p, Sorted);
    CallData(s.nodes, Jobs(s), s.data, input, p);
    SortedLeafData(s.nodes, s.data, s'.data, input, p, RangeOf(|s.data|, p));
    SortsSameOutside(s.data, s'.data, RangeOf(|s.data|, p));
    ChangedData(s.nodes, Jobs(s), Sorted, s.data, s'.data, input, p);
    SameJobs(s, s');
    SameStacks(s, s');
    InvFromParts(s', input);
  }

  lemma SortsSameOutside(data: seq<real>, data': seq<real>, r: Range)
    requires r.Within(|data|) && (Sorts(data, data', r) || InplaceMerges(data, data', r))
    ensures SameOutside(data, data', r) && |data'| == |data|
  {
    hide Part, Ascending;
  }

  /** Behind its join a call finds both halves sorted and returned. */
  lemma JoinedHalvesSorted(s: Sort, input: seq<real>, p: Path)
    requires Inv(s, input) && IsOpen(s.nodes, p) && s.nodes[p].pc == Joined
    ensures IsSorted(s.nodes, Kid(p, false)) && IsSorted(s.nodes, Kid(p, true))
  {
    hide Inv, Jobs, Kid, StacksFit, TimedInv, DataOk, RangeOf;
    InvParts(s, input);
    assert NodeOk(s.nodes, Jobs(s), p);
  }

  lemma MergesKeepsInv(s: Sort, s': Sort, input: seq<real>, t: nat, p: Path)
    requires Inv(s, input) && Merges(s, s', t, p)
    ensures Inv(s', input)
    ensures var r := RangeOf(|s.data|, p); Ascending(Part(s.data, r.Half(false))) && Ascending(Part(s.data, r.Half(true)))
  {
    hide Inv, StacksFit, TreeOk, DataOk, TimedInv, Jobs, QueueFits, StackFits, RangeOf, Acts, OnTop;
    hide InplaceMerges, Kid, Part, Ascending;
    InvParts(s, input);
    LabelsOfInv(s, input);
    ActiveCall(s, input, t, p);
    JoinedHalvesSorted(s, input, p);
    TouchedStacks(s, input, t, p, Sorted, s.timed.owner);
    TouchedQueue(s, input, t, p, Sorted);
    ClosesKeepsTree(s.nodes, Jobs(s), p);
    CallData(s.nodes, Jobs(s), s.data, input, p);
    MergedHalves(s.nodes, s.data, s'.data, input, p, RangeOf(|s.data|, p));
    SortsSameOutside(s.data, s'.data, RangeOf(|s.data|, p));
    ChangedData(s.nodes, Jobs(s), Sorted, s.data, s'.data, input, p);
    SameJobs(s, s');
    SameStacks(s, s');
    InvFromParts(s', input);
  }

  /** Frames that stay keep their births. */
  lemma BirthsStay(a: Timed, b: Timed, t: nat)
    requires Ticks(a, b) && t < |a.births| == |a.pool.threads| && |a.births[t]| == |a.pool.threads[t].stack|
    ensures |b.births| == |b.pool.threads| == |a.births|
    ensures var n := |b.pool.threads[t].stack|;
            b.births[t] == if n <= |a.births[t]| then a.births[t][..n] else a.births[t] + [b.clock]
    ensures b.pool.threads[t].stack == a.pool.threads[t].stack ==> b.births[t] == a.births[t]
  {
  }

  lemma GroupsCounted(s: Sort, input: seq<real>)
    requires Inv(s, input)
    ensures |s.timed.owner| == |s.Pool().workCount|
  {
    hide StackFits, TreeOk, DataOk, QueueFits, Jobs, RangeOf, Accounts, StackOk;
  }

  lemma SplitsKeepsInv(s: Sort, s': Sort, input: seq<real>, t: nat, p: Path)
    requires Inv(s, input) && Splits(s, s', t, p)
    ensures Inv(s', input)
  {
    hide Inv, TreeOk, DataOk, TimedInv, Jobs, QueueFits, StackFits, RangeOf, Acts, OnTop, Kid, Ticks, Fitted;
    InvParts(s, input);
    LabelsOfInv(s, input);
    GroupsCounted(s, input);
    ActiveCall(s, input, t, p);
    TimedStepKeepsInv(s.timed, s'.timed);
    var x := Open(|s.Pool().workCount|, Forking(0));
    TouchedStacks(s, input, t, p, x, s'.timed.owner);
    TouchedQueue(s, input, t, p, x);
    OpensKeepsTree(s.nodes, Jobs(s), p, x);
    SplitKeepsData(s, input, p, x);
    SameJobs(s, s');
    BirthsStay(s.timed, s'.timed, t);
    forall k | 0 <= k < |s'.labels|
      ensures StackFits(s'.nodes, s'.timed.owner, s'.Stack(k), s'.labels[k], s'.timed.births[k], k)
    {
      BirthsStay(s.timed, s'.timed, k);
    }
    InvFromParts(s', input);
  }

  lemma SplitKeepsData(s: Sort, input: seq<real>, p: Path, x: Node)
    requires Inv(s, input) && Active(Jobs(s), p) && p !in s.nodes && x.Open? && RangeOf(|s.data|, p).Size() > GRAIN
    ensures |s.data| == |input| && DataOk(s.nodes[p := x], s.data, input, [], RangeOf(|s.data|, []))
  {
    hide Inv, StacksFit, TreeOk, DataOk, TimedInv, Jobs, QueueFits, RangeOf, Kid;
    InvParts(s, input);
    HalfUntouched(s.nodes, Jobs(s), p, Kid(p, false));
    HalfUntouched(s.nodes, Jobs(s), p, Kid(p, true));
    CallData(s.nodes, Jobs(s), s.data, input, p);
    SplitData(s.nodes, s.data, input, p, RangeOf(|s.data|, p), x);
    ChangedData(s.nodes, Jobs(s), x, s.data, s.data, input, p);
  }

  lemma MoveKeepsData(s: Sort, input: seq<real>, p: Path, x: Node)
    requires Inv(s, input) && IsOpen(s.nodes, p) && x.Open?
    ensures |s.data| == |input| && DataOk(s.nodes[p := x], s.data, input, [], RangeOf(|s.data|, []))
  {
    hide Inv, StacksFit, TreeOk, DataOk, TimedInv, Jobs, QueueFits, RangeOf, Kid, Active;
    InvParts(s, input);
    OpenIsActive(s.nodes, Jobs(s), p);
    CallData(s.nodes, Jobs(s), s.data, input, p);
    MovesOnData(s.nodes, s.data, input, p, RangeOf(|s.data|, p), x);
    ChangedData(s.nodes, Jobs(s), x, s.data, s.data, input, p);
  }

  lemma TopCallFits(s: Sort, input: seq<real>, t: nat, p: Path)
    requires Inv(s, input) && Acts(s, t, p)
    ensures |s.timed.births| == |s.labels| && CallFits(s.nodes, s.timed.owner, p, Began(s.timed.births[t]), [])
  {
    hide Jobs, TimedInv, TreeOk, DataOk, QueueFits;
    var stack := s.Stack(t);
    assert StackFits(s.nodes, s.timed.owner, stack, s.labels[t], s.timed.births[t], t);
    if stack != [] {
      assert FrameFits(s.nodes, s.timed.owner, stack, s.labels[t], s.timed.births[t], |stack| - 1);
      assert stack[|stack|..] == [];
    }
  }

  lemma ForksHalfKeepsStacks(s: Sort, s': Sort, input: seq<real>, t: nat, p: Path)
    requires Inv(s, input) && ForksHalf(s, s', t, p)
    ensures StacksFit(s')
  {
    hide Inv, TreeOk, DataOk, TimedInv, Jobs, QueueFits, StackFits, Acts, OnTop, Kid, Parent, Ticks, Fitted;
    LabelsOfInv(s, input);
    TopCallFits(s, input, t, p);
    ActiveCall(s, input, t, p);
    var g, k := s.nodes[p].group, s.nodes[p].pc.k;
    var x, q := Open(g, Forking(k + 1)), Kid(p, k == 1);
    TouchedStacks(s, input, t, p, x, s.timed.owner);
    ForkedHalfIsNew(s, input, p);
    BirthsStay(s.timed, s'.timed, t);
    forall n | 0 <= n < |s'.labels|
      ensures StackFits(s'.nodes, s'.timed.owner, s'.Stack(n), s'.labels[n], s'.timed.births[n], n)
    {
      BirthsStay(s.timed, s'.timed, n);
      if Inline(s.Pool()) && n == t {
        LoopBelow(s, input, t);
        PushedRun(s'.nodes, s.timed.owner, s.Stack(t), s.labels[t], s.timed.births[t], t, g, true, q, s'.timed.clock);
      }
    }
  }

  lemma LoopBelow(s: Sort, input: seq<real>, t: nat)
    requires Inv(s, input) && t < |s.labels| && (exists p :: Acts(s, t, p))
    ensures t != 0 ==> s.Stack(t) != []
  {
  }

  lemma ForkedHalfIsNew(s: Sort, input: seq<real>, p: Path)
    requires Inv(s, input) && IsForking(s, p) && s.nodes[p].pc.k < 2
    ensures Kid(p, s.nodes[p].pc.k == 1) !in s.nodes
    ensures TreeOk(s.nodes[p := Open(s.nodes[p].group, Forking(s.nodes[p].pc.k + 1))],
                   Jobs(s) + multiset{Kid(p, s.nodes[p].pc.k == 1)})
  {
    hide Inv, StacksFit, TreeOk, DataOk, TimedInv, Jobs, RangeOf, Kid;
    InvParts(s, input);
    ForksKeepsTree(s.nodes, Jobs(s), p, s.nodes[p].pc.k);
  }

  lemma ForkedJobs(s: Sort, s': Sort, input: seq<real>, t: nat, p: Path)
    requires Inv(s, input) && ForksHalf(s, s', t, p)
    ensures Jobs(s') == Jobs(s) + multiset{Kid(p, s.nodes[p].pc.k == 1)}
  {
    hide Inv, Kid, Flat, Ticked, Forks;
    if Inline(s.Pool()) {
      PushFlat(s.labels, t, Kid(p, s.nodes[p].pc.k == 1));
    }
  }

  lemma ForksHalfKeepsInv(s: Sort, s': Sort, input: seq<real>, t: nat, p: Path)
    requires Inv(s, input) && ForksHalf(s, s', t, p)
    ensures Inv(s', input)
  {
    hide Inv, TreeOk, DataOk, TimedInv, Jobs, QueueFits, StacksFit, RangeOf, Acts, Kid, Ticks, Advances;
    InvParts(s, input);
    ForksHalfKeepsStacks(s, s', input, t, p);
    ForkedJobs(s, s', input, t, p);
    ForkedHalfIsNew(s, input, p);
    ForkedTodo(s, s', input, t, p);
    MoveKeepsData(s, input, p, Open(s.nodes[p].group, Forking(s.nodes[p].pc.k + 1)));
    ForksIsTimedStep(s, s', t, p);
    TimedStepKeepsInv(s.timed, s'.timed);
    hide Forks;
    InvFromParts(s', input);
  }

  lemma ForksIsTimedStep(s: Sort, s': Sort, t: nat, p: Path)
    requires ForksHalf(s, s', t, p)
    ensures TimedStep(s.timed, s'.timed)
  {
    hide Ticks, Forks, Kid, Acts;
  }

  lemma ForkedTodo(s: Sort, s': Sort, input: seq<real>, t: nat, p: Path)
    requires Inv(s, input) && ForksHalf(s, s', t, p)
    ensures QueueFits(s'.nodes, s'.todo, s'.Pool().queue)
  {
    hide Inv, Kid, Parent, Jobs, Ticks, Acts, TreeOk;
    var x := Open(s.nodes[p].group, Forking(s.nodes[p].pc.k + 1));
    TouchedQueue(s, input, t, p, x);
    ForkedHalfIsNew(s, input, p);
  }

  lemma JoinsKeepsStacks(s: Sort, s': Sort, input: seq<real>, t: nat, p: Path)
    requires Inv(s, input) && Joins(s, s', t, p)
    ensures StacksFit(s')
  {
    hide Inv, TreeOk, DataOk, TimedInv, Jobs, QueueFits, StackFits, Acts, OnTop, OnlyOnTop;
    hide Parent, Ticks, Fitted, Advances, CallFits;
    LabelsOfInv(s, input);
    StackOfInv(s, input, t);
    ActiveCall(s, input, t, p);
    OnlyThere(s, input, t, p, t);
    var x := s.nodes[p].(pc := Joining);
    AdvancesOpen(s.nodes, p, Joining);
    BirthsStay(s.timed, s'.timed, t);
    forall n | 0 <= n < |s'.labels|
      ensures StackFits(s'.nodes, s'.timed.owner, s'.Stack(n), s'.labels[n], s'.timed.births[n], n)
    {
      BirthsStay(s.timed, s'.timed, n);
      if n == t {
        PushedJoin(s.nodes, s.timed.owner, s.Stack(t), s.labels[t], s.timed.births[t], t, p, s'.timed.clock);
      } else {
        TouchedThread(s, input, t, p, x, s.timed.owner, n);
      }
    }
  }

  lemma AdvancesOpen(nodes: Nodes, p: Path, pc: Pc)
    requires IsOpen(nodes, p)
    ensures Advances(nodes, p, nodes[p].(pc := pc))
  {
  }

  lemma StackOfInv(s: Sort, input: seq<real>, t: nat)
    requires Inv(s, input) && t < |s.labels|
    ensures |s.labels| == |s.Pool().threads| == |s.timed.births|
    ensures StackFits(s.nodes, s.timed.owner, s.Stack(t), s.labels[t], s.timed.births[t], t)
  {
    hide TimedInv, TreeOk, DataOk, QueueFits, Jobs, StackFits;
  }

  lemma PushedNothing(s: Sort, s': Sort, t: nat)
    requires t < |s.labels| && s'.todo == s.todo && s'.labels == s.labels[t := s.labels[t] + [[]]]
    ensures forall q :: q != [] ==> Jobs(s')[q] == Jobs(s)[q]
  {
    PushFlat(s.labels, t, []);
    hide Flat;
  }

  /** The discipline of module `ForkJoinProgress` is kept: a call joins the group that it created. */
  lemma JoinsIsTimedStep(s: Sort, s': Sort, input: seq<real>, t: nat, p: Path)
    requires Inv(s, input) && Joins(s, s', t, p)
    ensures TimedStep(s.timed, s'.timed)
  {
    hide Inv, Ticks, BeginsJoin;
    TopCallFits(s, input, t, p);
    assert JoinsYounger(s.timed, s'.timed, t, s.nodes[p].group);
  }

  lemma JoinsKeepsInv(s: Sort, s': Sort, input: seq<real>, t: nat, p: Path)
    requires Inv(s, input) && Joins(s, s', t, p)
    ensures Inv(s', input)
  {
    hide Inv, TreeOk, DataOk, TimedInv, Jobs, QueueFits, StacksFit, RangeOf, Kid, Ticks, Advances;
    InvParts(s, input);
    JoinsKeepsStacks(s, s', input, t, p);
    AdvancesOpen(s.nodes, p, Joining);
    TouchedQueue(s, input, t, p, s.nodes[p].(pc := Joining));
    MovesOnKeepsTree(s.nodes, Jobs(s), p, Joining);
    PushedNothing(s, s', t);
    RootIsNoJob(s'.nodes, Jobs(s), Jobs(s'));
    MoveKeepsData(s, input, p, s.nodes[p].(pc := Joining));
    JoinsIsTimedStep(s, s', input, t, p);
    TimedStepKeepsInv(s.timed, s'.timed);
    InvFromParts(s', input);
  }

  // ---------------------------------------------------------------- returning

  lemma PoppedThread(s: Sort, s': Sort, input: seq<real>, t: nat)
    requires Inv(s, input) && t < |s.labels| && s.labels[t] != [] && Ticked(s, s')
    requires var last := |s.labels[t]| - 1;
             && s'.nodes == s.nodes && s'.labels == s.labels[t := s.labels[t][..last]]
             && |s.Stack(t)| == |s.labels[t]| && !s.Stack(t)[last].Join?
             && forall n :: 0 <= n < |s.labels| ==> s'.Stack(n) == if n == t then s.Stack(t)[..last] else s.Stack(n)
    ensures StacksFit(s')
  {
    hide Inv, StackFits, Ticks, Fitted;
    LabelsOfInv(s, input);
    BirthsStay(s.timed, s'.timed, t);
    forall n | 0 <= n < |s'.labels|
      ensures StackFits(s'.nodes, s'.timed.owner, s'.Stack(n), s'.labels[n], s'.timed.births[n], n)
    {
      BirthsStay(s.timed, s'.timed, n);
      StackOfInv(s, input, n);
      if n == t {
        Popped(s.nodes, s.timed.owner, s.Stack(t), s.labels[t], s.timed.births[t], t);
      }
    }
  }

  lemma PoppedJobs(s: Sort, s': Sort, t: nat)
    requires t < |s.labels| && s.labels[t] != [] && s'.todo == s.todo
    requires s'.labels == s.labels[t := s.labels[t][..|s.labels[t]| - 1]]
    ensures var q := s.labels[t][|s.labels[t]| - 1]; Jobs(s) == Jobs(s') + multiset{q} && Jobs(s') == Jobs(s) - multiset{q}
  {
    PopFlat(s.labels, t);
    hide Flat;
  }

  lemma FinishesStacks(s: Sort, s': Sort, t: nat, p: Path)
    requires Returns(s, s', t, p) && |s.labels| == |s.Pool().threads| == |s.timed.births|
    ensures forall n :: 0 <= n < |s.labels| ==> s'.Stack(n) == if n == t then s.Stack(t)[..|s.Stack(t)| - 1] else s.Stack(n)
    ensures s'.Pool().queue == s.Pool().queue && TimedStep(s.timed, s'.timed)
  {
    hide Fitted;
  }

  lemma ReturnsKeepsInv(s: Sort, s': Sort, input: seq<real>, t: nat, p: Path)
    requires Inv(s, input) && Returns(s, s', t, p)
    ensures Inv(s', input)
  {
    hide Inv, TreeOk, DataOk, TimedInv, Jobs, QueueFits, StacksFit, RangeOf, Ticks, Finishes, OnTop;
    InvParts(s, input);
    LabelsOfInv(s, input);
    QueueOfInv(s, input);
    ActiveCall(s, input, t, p);
    FinishesStacks(s, s', t, p);
    PoppedThread(s, s', input, t);
    PoppedJobs(s, s', t);
    ReturnsKeepsTree(s.nodes, Jobs(s), p);
    TimedStepKeepsInv(s.timed, s'.timed);
    InvFromParts(s', input);
  }

  // ---------------------------------------------------------------- the rounds of the pool

  lemma {:induction false} RunsAt(stack: seq<Frame>, k: nat)
    requires k < |stack| && stack[k].Run?
    ensures RunsIn(stack, stack[k].group) > 0
    decreases |stack|
  {
    if k < |stack| - 1 {
      assert stack[..|stack| - 1][k] == stack[k];
      RunsAt(stack[..|stack| - 1], k);
    }
  }

  /** A half that is a job counts as work of the group. */
  lemma NoWorkNoJobs(s: Sort, input: seq<real>, c: Path, b: bool)
    requires Inv(s, input) && IsOpen(s.nodes, c)
    requires Queued(s.Pool().queue, s.nodes[c].group) == 0 && Running(s.Pool().threads, s.nodes[c].group) == 0
    ensures Kid(c, b) !in Jobs(s)
  {
    hide Inv, Kid, Queued, Running, Parent, Flat, RunsIn;
    var q := Kid(c, b);
    LabelsOfInv(s, input);
    QueueOfInv(s, input);
    if q in s.todo {
      var k :| 0 <= k < |s.todo| && s.todo[k] == q;
      QueuedPositive(s.Pool().queue, k);
    }
    if q in Flat(s.labels) {
      var t, k := FlatFind(s.labels, q);
      LabelledRun(s, input, t, k);
      RunsAt(s.Stack(t), k);
      RunsAtLeast(s.Pool().threads, t, s.nodes[c].group);
    }
  }

  lemma LabelledRun(s: Sort, input: seq<real>, t: nat, k: nat)
    requires Inv(s, input) && t < |s.labels| && k < |s.labels[t]| && s.labels[t][k] != []
    ensures t < |s.Pool().threads| && k < |s.Stack(t)| && s.Stack(t)[k].Run?
    ensures GroupIs(s.nodes, s.labels[t][k], s.Stack(t)[k].group)
  {
    hide TimedInv, TreeOk, DataOk, QueueFits, Jobs, CallFits, Parent;
    assert StackFits(s.nodes, s.timed.owner, s.Stack(t), s.labels[t], s.timed.births[t], t);
    assert FrameFits(s.nodes, s.timed.owner, s.Stack(t), s.labels[t], s.timed.births[t], k);
  }

  /** The call that waits in the join on top of a thread is in that join, and nowhere else. */
  lemma CallerWaits(s: Sort, input: seq<real>, t: nat)
    requires Inv(s, input) && t < |s.labels| && s.labels[t] != []
    requires |s.Stack(t)| == |s.labels[t]| && s.Stack(t)[|s.Stack(t)| - 1].Join?
    ensures var c := Caller(s, t, |s.labels[t]| - 1);
            && IsOpen(s.nodes, c) && s.nodes[c] == Open(s.Stack(t)[|s.Stack(t)| - 1].group, Joining)
            && (c == [] <==> |s.labels[t]| == 1) && (c == [] ==> t == 0)
    ensures s.labels[t][|s.labels[t]| - 1] == []
  {
    hide TimedInv, TreeOk, DataOk, QueueFits, Jobs, Parent;
    var stack, last := s.Stack(t), |s.labels[t]| - 1;
    assert StackFits(s.nodes, s.timed.owner, stack, s.labels[t], s.timed.births[t], t);
    assert FrameFits(s.nodes, s.timed.owner, stack, s.labels[t], s.timed.births[t], last);
    if last > 0 {
      assert FrameFits(s.nodes, s.timed.owner, stack, s.labels[t], s.timed.births[t], last - 1);
      assert stack[last - 1 + 1..][0] == stack[last];
    }
  }

  /** The stack of another thread does not see a join return. */
  lemma OtherThread(s: Sort, input: seq<real>, t: nat, c: Path, n: nat)
    requires Inv(s, input) && t < |s.labels| && |s.labels[t]| > 0 && n < |s.labels| && n != t
    requires c == Caller(s, t, |s.labels[t]| - 1) && IsOpen(s.nodes, c) && (c == [] ==> t == 0)
    ensures StackFits(s.nodes[c := s.nodes[c].(pc := Joined)], s.timed.owner, s.Stack(n), s.labels[n], s.timed.births[n], n)
  {
    hide Inv, StackFits, Jobs, Parent, CallFits;
    LabelsOfInv(s, input);
    StackOfInv(s, input, n);
    TopLabel(s, input, n);
    if c != [] {
      forall k | 0 <= k < |s.labels[n]|
        ensures s.labels[n][k] != c
      {
        JobAtOnePlace(s, input, t, |s.labels[t]| - 2, n, k);
      }
    }
    TouchedStack(s.nodes, c, s.nodes[c].(pc := Joined), s.timed.owner, s.timed.owner, s.Stack(n), s.labels[n],
                 s.timed.births[n], n);
  }

  /** What a round does to the pool, case by case. */
  predicate Leaves(s: Sort, t: nat)
    requires t < |s.Pool().threads| && s.Stack(t) != []
  {
    !GoesOn(s.Pool().threads[t].Top(), s.Pool().workCount, s.Pool().useCount)
  }

  lemma RoundsStacks(s: Sort, s': Sort, t: nat)
    requires Rounds(s, s', t) && |s.labels| == |s.Pool().threads| == |s.timed.births|
    ensures s.Stack(t) != [] && !s.Stack(t)[|s.Stack(t)| - 1].Run? && TimedStep(s.timed, s'.timed)
    ensures |s'.Pool().threads| == |s.Pool().threads|
    ensures forall n :: 0 <= n < |s.labels| && n != t ==> s'.Stack(n) == s.Stack(n)
    ensures Leaves(s, t) ==> s'.Stack(t) == s.Stack(t)[..|s.Stack(t)| - 1] && s'.Pool().queue == s.Pool().queue
    ensures !Leaves(s, t) && s.Pool().queue != [] ==>
              s'.Stack(t) == s.Stack(t) + [Run(s.Pool().queue[0], false)] && s'.Pool().queue == s.Pool().queue[1..]
    ensures !Leaves(s, t) && s.Pool().queue == [] ==> s'.Stack(t) == s.Stack(t) && s'.Pool().queue == s.Pool().queue
  {
    hide Ticks, GoesOn;
  }

  /** A join returns only when no half of the call is a job any more. */
  lemma LeavesMeansDone(s: Sort, input: seq<real>, t: nat, b: bool)
    requires Inv(s, input) && t < |s.labels| && s.labels[t] != [] && t < |s.Pool().threads| && |s.Stack(t)| == |s.labels[t]|
    requires s.Stack(t)[|s.Stack(t)| - 1].Join? && Leaves(s, t)
    ensures Kid(Caller(s, t, |s.labels[t]| - 1), b) !in Jobs(s)
  {
    hide Inv, Jobs, Kid, Caller, Queued, Running, Busy, RunsIn;
    CallerWaits(s, input, t);
    AccountsOfInv(s, input);
    var stack := s.Stack(t);
    assert GroupsKnown(stack, |s.Pool().workCount|);
    assert FrameKnown(stack[|stack| - 1], |s.Pool().workCount|);
    NoWorkNoJobs(s, input, Caller(s, t, |s.labels[t]| - 1), b);
  }

  lemma AccountsOfInv(s: Sort, input: seq<real>)
    requires Inv(s, input)
    ensures Accounts(s.Pool())
  {
    hide StackFits, TreeOk, DataOk, QueueFits, Jobs, Accounts, Shape, NoLostWakeup;
  }

  lemma JoinReturnsStacks(s: Sort, s': Sort, input: seq<real>, t: nat)
    requires Inv(s, input) && Rounds(s, s', t) && t < |s.Pool().threads| && s.Stack(t) != [] && Leaves(s, t)
    requires |s.Stack(t)| == |s.labels[t]| && s.Stack(t)[|s.Stack(t)| - 1].Join?
    ensures StacksFit(s')
  {
    hide Inv, StackFits, Ticks, Fitted, Loops, Leaves, Jobs;
    LabelsOfInv(s, input);
    RoundsStacks(s, s', t);
    CallerWaits(s, input, t);
    BirthsStay(s.timed, s'.timed, t);
    var last := |s.labels[t]| - 1;
    var c := Caller(s, t, last);
    assert s'.nodes == s.nodes[c := s.nodes[c].(pc := Joined)] by { LeavesJoin(s, s', t); }
    assert s'.labels == s.labels[t := s.labels[t][..last]] by { LeavesJoin(s, s', t); }
    forall n | 0 <= n < |s'.labels|
      ensures StackFits(s'.nodes, s'.timed.owner, s'.Stack(n), s'.labels[n], s'.timed.births[n], n)
    {
      BirthsStay(s.timed, s'.timed, n);
      if n == t {
        CallerOnce(s, input, t);
        StackOfInv(s, input, t);
        PoppedJoin(s.nodes, s.timed.owner, s.Stack(t), s.labels[t], s.timed.births[t], t, c);
      } else {
        OtherThread(s, input, t, c, n);
      }
    }
  }

  lemma LeavesJoin(s: Sort, s': Sort, t: nat)
    requires Rounds(s, s', t) && t < |s.Pool().threads| && s.Stack(t) != [] && Leaves(s, t)
    ensures var last := |s.labels[t]| - 1;
            && s'.labels == s.labels[t := s.labels[t][..last]] && s'.todo == s.todo && s'.data == s.data
            && s'.nodes == if s.Stack(t)[|s.Stack(t)| - 1].Join? then BehindJoin(s.nodes, Caller(s, t, last)) else s.nodes
  {
    hide Ticks, GoesOn, Loops, Caller;
  }

  lemma CallerOnce(s: Sort, input: seq<real>, t: nat)
    requires Inv(s, input) && t < |s.labels| && |s.labels[t]| > 0
    ensures var c := Caller(s, t, |s.labels[t]| - 1);
            c != [] ==> c !in s.todo && forall k :: 0 <= k < |s.labels[t]| && s.labels[t][k] == c ==> k == |s.labels[t]| - 2
  {
    hide Inv;
    var c := Caller(s, t, |s.labels[t]| - 1);
    if c != [] {
      JobAtOnePlace(s, input, t, |s.labels[t]| - 2, t, |s.labels[t]| - 2);
      forall k | 0 <= k < |s.labels[t]| && s.labels[t][k] == c
        ensures k == |s.labels[t]| - 2
      {
        JobAtOnePlace(s, input, t, |s.labels[t]| - 2, t, k);
      }
    }
  }

  lemma JoinReturnsKeepsInv(s: Sort, s': Sort, input: seq<real>, t: nat)
    requires Inv(s, input) && Rounds(s, s', t) && t < |s.Pool().threads| && s.Stack(t) != [] && Leaves(s, t)
    requires |s.Stack(t)| == |s.labels[t]| && s.Stack(t)[|s.Stack(t)| - 1].Join?
    ensures Inv(s', input)
  {
    hide Inv, TreeOk, DataOk, TimedInv, Jobs, QueueFits, StacksFit, RangeOf, Kid, Ticks, Caller, Leaves, Rounds, HalvesFit;
    InvParts(s, input);
    LabelsOfInv(s, input);
    QueueOfInv(s, input);
    CallerWaits(s, input, t);
    CallerOnce(s, input, t);
    LeavesJoin(s, s', t);
    var c := Caller(s, t, |s.labels[t]| - 1);
    LeavesMeansDone(s, input, t, false);
    LeavesMeansDone(s, input, t, true);
    MovesOnKeepsTree(s.nodes, Jobs(s), c, Joined);
    PoppedJobs(s, s', t);
    RootIsNoJob(s'.nodes, Jobs(s), Jobs(s'));
    MoveKeepsData(s, input, c, s.nodes[c].(pc := Joined));
    JoinReturnsStacks(s, s', input, t);
    RoundsStacks(s, s', t);
    TimedStepKeepsInv(s.timed, s'.timed);
    SameGroupFits(s.nodes, c, Joined, s.todo);
    TouchedTodo(s.nodes, c, s.nodes[c].(pc := Joined), s.todo, s.Pool().queue);
    InvFromParts(s', input);
  }

  lemma SameGroupFits(nodes: Nodes, c: Path, pc: Pc, labels: seq<Path>)
    requires IsOpen(nodes, c)
    ensures HalvesFit(nodes, c, nodes[c].(pc := pc), labels)
  {
  }

  lemma LoopReturnsKeepsInv(s: Sort, s': Sort, input: seq<real>, t: nat)
    requires Inv(s, input) && Rounds(s, s', t) && t < |s.Pool().threads| && s.Stack(t) != [] && Leaves(s, t)
    requires |s.Stack(t)| == |s.labels[t]| && s.Stack(t)[|s.Stack(t)| - 1].Loop?
    ensures Inv(s', input)
  {
    hide Inv, TreeOk, DataOk, TimedInv, Jobs, QueueFits, StacksFit, RangeOf, Ticks, Caller, Leaves, StackFits;
    InvParts(s, input);
    LabelsOfInv(s, input);
    QueueOfInv(s, input);
    LoopLabel(s, input, t);
    RoundsStacks(s, s', t);
    LeavesJoin(s, s', t);
    hide Loops;
    PoppedJobs(s, s', t);
    RootIsNoJob(s.nodes, Jobs(s), Jobs(s'));
    PoppedThread(s, s', input, t);
    TimedStepKeepsInv(s.timed, s'.timed);
    InvFromParts(s', input);
  }

  lemma LoopLabel(s: Sort, input: seq<real>, t: nat)
    requires Inv(s, input) && t < |s.labels| && s.labels[t] != [] && t < |s.Pool().threads|
    requires |s.Stack(t)| == |s.labels[t]| && s.Stack(t)[|s.Stack(t)| - 1].Loop?
    ensures s.labels[t][|s.labels[t]| - 1] == []
  {
    hide TimedInv, TreeOk, DataOk, QueueFits, Jobs, Parent;
    assert StackFits(s.nodes, s.timed.owner, s.Stack(t), s.labels[t], s.timed.births[t], t);
    assert FrameFits(s.nodes, s.timed.owner, s.Stack(t), s.labels[t], s.timed.births[t], |s.Stack(t)| - 1);
  }

  lemma TakesStacks(s: Sort, s': Sort, input: seq<real>, t: nat)
    requires Inv(s, input) && Rounds(s, s', t) && t < |s.Pool().threads| && s.Stack(t) != []
    requires !Leaves(s, t) && s.Pool().queue != []
    ensures StacksFit(s')
  {
    hide Inv, StackFits, Ticks, Fitted, Loops, Leaves, Jobs, Parent;
    LabelsOfInv(s, input);
    QueueOfInv(s, input);
    RoundsStacks(s, s', t);
    TakesLabels(s, s', t);
    BirthsStay(s.timed, s'.timed, t);
    hide Rounds;
    forall n | 0 <= n < |s'.labels|
      ensures StackFits(s'.nodes, s'.timed.owner, s'.Stack(n), s'.labels[n], s'.timed.births[n], n)
    {
      BirthsStay(s.timed, s'.timed, n);
      StackOfInv(s, input, n);
      if n == t {
        PushedRun(s.nodes, s.timed.owner, s.Stack(t), s.labels[t], s.timed.births[t], t,
                  s.Pool().queue[0], false, s.todo[0], s'.timed.clock);
      }
    }
  }

  lemma TakesLabels(s: Sort, s': Sort, t: nat)
    requires Rounds(s, s', t) && t < |s.Pool().threads| && s.Stack(t) != [] && !Leaves(s, t) && s.Pool().queue != []
    ensures s.todo != [] && s'.timed.owner == s.timed.owner
    ensures s' == s.(timed := s'.timed, todo := s.todo[1..], labels := s.labels[t := s.labels[t] + [s.todo[0]]])
  {
    hide Ticks, GoesOn, Loops, Caller;
  }

  lemma TakesJobs(s: Sort, s': Sort, t: nat)
    requires t < |s.labels| && s.todo != [] && s'.todo == s.todo[1..] && s'.labels == s.labels[t := s.labels[t] + [s.todo[0]]]
    ensures Jobs(s') == Jobs(s)
  {
    PushFlat(s.labels, t, s.todo[0]);
    assert s.todo == [s.todo[0]] + s.todo[1..];
    hide Flat;
  }

  lemma TakesKeepsInv(s: Sort, s': Sort, input: seq<real>, t: nat)
    requires Inv(s, input) && Rounds(s, s', t) && t < |s.Pool().threads| && s.Stack(t) != []
    requires !Leaves(s, t) && s.Pool().queue != []
    ensures Inv(s', input)
  {
    hide Inv, TreeOk, DataOk, TimedInv, Jobs, StacksFit, RangeOf, Ticks, Leaves, Rounds, Parent;
    InvParts(s, input);
    LabelsOfInv(s, input);
    QueueOfInv(s, input);
    TakesStacks(s, s', input, t);
    TakesLabels(s, s', t);
    RoundsStacks(s, s', t);
    assert t < |s.labels|;
    TakesJobs(s, s', t);
    TimedStepKeepsInv(s.timed, s'.timed);
    InvFromParts(s', input);
  }

  /** A step in which no frame, no label and no call changes. */
  lemma QuietKeepsInv(s: Sort, s': Sort, input: seq<real>)
    requires Inv(s, input) && Ticked(s, s') && s' == s.(timed := s'.timed) && TimedStep(s.timed, s'.timed)
    requires s'.Pool().queue == s.Pool().queue && |s'.Pool().threads| == |s.Pool().threads|
    requires forall n :: 0 <= n < |s.Pool().threads| ==> s'.Stack(n) == s.Stack(n)
    ensures Inv(s', input)
  {
    hide Inv, TreeOk, DataOk, TimedInv, Jobs, QueueFits, StackFits, RangeOf, Ticks, TimedStep, Fitted;
    InvParts(s, input);
    LabelsOfInv(s, input);
    QueueOfInv(s, input);
    SameJobs(s, s');
    BirthsStay(s.timed, s'.timed, 0);
    forall n | 0 <= n < |s'.labels|
      ensures StackFits(s'.nodes, s'.timed.owner, s'.Stack(n), s'.labels[n], s'.timed.births[n], n)
    {
      BirthsStay(s.timed, s'.timed, n);
      StackOfInv(s, input, n);
    }
    TimedStepKeepsInv(s.timed, s'.timed);
    InvFromParts(s', input);
  }

  lemma SleepsIsQuiet(s: Sort, s': Sort, t: nat)
    requires Rounds(s, s', t) && t < |s.Pool().threads| && s.Stack(t) != [] && !Leaves(s, t) && s.Pool().queue == []
    ensures Ticked(s, s') && s' == s.(timed := s'.timed)
  {
    hide Ticks, GoesOn, Loops, Caller;
  }

  lemma RoundsKeepsInv(s: Sort, s': Sort, input: seq<real>, t: nat)
    requires Inv(s, input) && Rounds(s, s', t)
    ensures Inv(s', input)
  {
    hide Inv, Leaves, Ticked;
    LabelsOfInv(s, input);
    assert t < |s.labels| by { hide Ticked, Loops, GoesOn; }
    RoundsStacks(s, s', t);
    hide Rounds;
    if Leaves(s, t) {
      if s.Stack(t)[|s.Stack(t)| - 1].Join? {
        JoinReturnsKeepsInv(s, s', input, t);
      } else {
        LoopReturnsKeepsInv(s, s', input, t);
      }
    } else if s.Pool().queue != [] {
      TakesKeepsInv(s, s', input, t);
    } else {
      SleepsIsQuiet(s, s', t);
      QuietKeepsInv(s, s', input);
    }
  }

  lemma OtherwiseKeepsInv(s: Sort, s': Sort, input: seq<real>)
    requires Inv(s, input) && Otherwise(s, s')
    ensures Inv(s', input)
  {
    hide Inv, Ticks;
    OtherwiseIsTimedStep(s, s');
    QuietKeepsInv(s, s', input);
  }

  lemma OtherwiseIsTimedStep(s: Sort, s': Sort)
    requires Otherwise(s, s')
    ensures TimedStep(s.timed, s'.timed)
  {
    hide Ticks, Stops, WakesSpuriously;
  }

  lemma CallStepKeepsInv(s: Sort, s': Sort, input: seq<real>, t: nat, p: Path)
    requires Inv(s, input) && CallStep(s, s', t, p)
    ensures Inv(s', input)
  {
    hide Inv, SortsLeaf, Splits, ForksHalf, Joins, Merges, Returns;
    if SortsLeaf(s, s', t, p) {
      SortsLeafKeepsInv(s, s', input, t, p);
    } else if Splits(s, s', t, p) {
      SplitsKeepsInv(s, s', input, t, p);
    } else if ForksHalf(s, s', t, p) {
      ForksHalfKeepsInv(s, s', input, t, p);
    } else if Joins(s, s', t, p) {
      JoinsKeepsInv(s, s', input, t, p);
    } else if Merges(s, s', t, p) {
      MergesKeepsInv(s, s', input, t, p);
    } else {
      ReturnsKeepsInv(s, s', input, t, p);
    }
  }

  lemma StepKeepsInv(s: Sort, s': Sort, input: seq<real>)
    requires Inv(s, input) && Step(s, s')
    ensures Inv(s', input)
  {
    hide Inv, CallStep, Rounds, Otherwise;
    if t, p :| CallStep(s, s', t, p) {
      CallStepKeepsInv(s, s', input, t, p);
    } else if t :| Rounds(s, s', t) {
      RoundsKeepsInv(s, s', input, t);
    } else {
      OtherwiseKeepsInv(s, s', input);
    }
  }

  lemma {:induction false} NoLabels(labels: seq<seq<Path>>)
    requires forall t :: 0 <= t < |labels| ==> labels[t] == [] || labels[t] == [[]]
    ensures forall q :: q != [] ==> q !in Flat(labels)
  {
    if labels != [] {
      NoLabels(labels[1..]);
    }
  }

  lemma StartsInv(s: Sort)
    requires Starts(s)
    ensures Inv(s, s.data)
  {
    hide TimedInv, DataOk, Flat;
    InitTimed(s.timed);
    NoLabels(s.labels);
    forall q | q in Jobs(s)
      ensures JobOk(s.nodes, Jobs(s), q)
    {
    }
    assert DataOk(s.nodes, s.data, s.data, [], RangeOf(|s.data|, [])) by { NothingDone(s.data); }
  }

  lemma NothingDone(data: seq<real>)
    ensures DataOk(map[], data, data, [], RangeOf(|data|, []))
  {
  }

  // ---------------------------------------------------------------- every run

  ghost predicate IsRun(run: seq<Sort>) {
    && run != [] && Starts(run[0])
    && forall i :: 0 < i < |run| ==> Step(run[i - 1], run[i])
  }

  lemma {:induction false} EveryStateIsSound(run: seq<Sort>, i: nat)
    requires IsRun(run) && i < |run|
    ensures Inv(run[i], run[0].data)
  {
    hide Starts, Step, Inv;
    if i == 0 {
      StartsInv(run[0]);
    } else {
      EveryStateIsSound(run, i - 1);
      StepKeepsInv(run[i - 1], run[i], run[0].data);
    }
  }

  /** However the threads are interleaved, when the outermost call has returned the data is sorted, and it is the data there
      was in the beginning. */
  lemma SortsUnderEveryInterleaving(run: seq<Sort>, i: nat)
    requires IsRun(run) && i < |run| && IsSorted(run[i].nodes, [])
    ensures multiset(run[i].data) == multiset(run[0].data)
    ensures forall k, l :: 0 <= k < l < |run[i].data| ==> run[i].data[k] <= run[i].data[l]
  {
    EveryStateIsSound(run, i);
    InvParts(run[i], run[0].data);
    var data, input := run[i].data, run[0].data;
    hide IsRun, Inv, TreeOk, TimedInv, StacksFit, Jobs;
    assert Part(data, RangeOf(|data|, [])) == data && Part(input, RangeOf(|data|, [])) == input;
  }

  lemma MergesFindAscending(run: seq<Sort>, i: nat, t: nat, p: Path)
    requires IsRun(run) && 0 < i < |run| && Merges(run[i - 1], run[i], t, p)
    ensures var data := run[i - 1].data;
            var r := RangeOf(|data|, p);
            Ascending(Part(data, r.Half(false))) && Ascending(Part(data, r.Half(true)))
  {
    hide IsRun, Inv, Merges, Ascending, RangeOf, Part;
    EveryStateIsSound(run, i - 1);
    MergesKeepsInv(run[i - 1], run[i], run[0].data, t, p);
  }

  /** Every `std::inplace_merge` is called on two sorted halves, as it must be. */
  lemma MergesFindSortedHalves(run: seq<Sort>, i: nat, t: nat, p: Path)
    requires IsRun(run) && 0 < i < |run| && Merges(run[i - 1], run[i], t, p)
    ensures var data := run[i - 1].data;
            var r := RangeOf(|data|, p);
            var mid := r.lo + (r.hi - r.lo) / 2;
            && (forall k, l :: r.lo <= k < l < mid ==> data[k] <= data[l])
            && forall k, l :: mid <= k < l < r.hi ==> data[k] <= data[l]
  {
    hide IsRun, Merges, Ascending, RangeOf, Part;
    var data := run[i - 1].data;
    var r := RangeOf(|data|, p);
    MergesFindAscending(run, i, t, p);
    HalvesExactly(r.lo, r.hi);
    AscendingPart(data, r.Half(false));
    AscendingPart(data, r.Half(true));
  }

  lemma AscendingPart(data: seq<real>, r: Range)
    requires r.Within(|data|) && Ascending(Part(data, r))
    ensures forall k, l :: r.lo <= k < l < r.hi ==> data[k] <= data[l]
  {
    var part := Part(data, r);
    assert forall k :: r.lo <= k < r.hi ==> data[k] == part[k - r.lo];
  }

  /** A call sorts its range at once if it has at most 32768 elements, and splits it otherwise. */
  lemma SplitsExactly(s: Sort, s': Sort, t: nat, p: Path)
    requires SortsLeaf(s, s', t, p) || Splits(s, s', t, p)
    ensures var r := RangeOf(|s.data|, p);
            && (r.hi - r.lo > 32768 <==> Splits(s, s', t, p))
            && (r.hi - r.lo <= 32768 ==> forall k, l :: r.lo <= k < l < r.hi ==> s'.data[k] <= s'.data[l])
  {
    var r := RangeOf(|s.data|, p);
    hide RangeOf, Acts, Ticks, Creates;
    if SortsLeaf(s, s', t, p) {
      AscendingPart(s'.data, r);
    }
  }
}
