/** Boost_Searcher/data/input/boost_asio/example/cpp11/executors/fork_join.cpp: the calls of `fork_join_sort`, a tree in which each call
    sorts a range and forks a call for each half of it, and what the data looks like while the calls are under way. */
module CallTree {

  /** Ranges of at most this many elements are sorted at once. */
  const GRAIN: nat := 32768

  /** A call, by the halves that lead to it from the outermost call; `true` is the second half. */
  type Path = seq<bool>

  type HalvesForked = k: nat | k <= 2

  /** Where a call stands that has created its group: about to fork the first half (0), the second half (1) or to join
      (2), in the join, or behind it. */
  datatype Pc = Forking(k: HalvesForked) | Joining | Joined

  datatype Node = Open(group: nat, pc: Pc) | Sorted

  /** Calls that have done nothing yet are absent. */
  type Nodes = map<Path, Node>

  function Parent(q: Path): Path
    requires q != []
  {
    q[..|q| - 1]
  }

  function Last(q: Path): bool
    requires q != []
  {
    q[|q| - 1]
  }

  /** The call that sorts half `b` of what call `p` sorts. */
  function Kid(p: Path, b: bool): (q: Path)
    ensures q != [] && q != p && Parent(q) == p && Last(q) == b
  {
    p + [b]
  }

  lemma KidOfParent(q: Path)
    requires q != []
    ensures q == Kid(Parent(q), Last(q))
  {
  }

  predicate IsOpen(nodes: Nodes, p: Path) {
    p in nodes && nodes[p].Open?
  }

  predicate IsSorted(nodes: Nodes, p: Path) {
    p in nodes && nodes[p] == Sorted
  }

  /** Half `b` has been forked. */
  predicate Forked(pc: Pc, b: bool) {
    pc.Forking? ==> pc.k >= if b then 2 else 1
  }

  // ---------------------------------------------------------------- calls and jobs

  /** `jobs` are the forked calls that have not returned. Each is one once, and its parent is waiting for it. */
  ghost predicate JobOk(nodes: Nodes, jobs: multiset<Path>, q: Path) {
    q != [] ==>
      && jobs[q] == 1
      && IsOpen(nodes, Parent(q)) && Forked(nodes[Parent(q)].pc, Last(q)) && nodes[Parent(q)].pc != Joined
  }

  /** Half `b` of an open call: not begun, not returned, or sorted; sorted and returned behind the join. */
  ghost predicate HalfOk(nodes: Nodes, jobs: multiset<Path>, pc: Pc, p: Path, b: bool) {
    var q := Kid(p, b);
    if !Forked(pc, b) then q !in jobs && q !in nodes
    else if pc == Joined then q !in jobs && IsSorted(nodes, q)
    else q in jobs || IsSorted(nodes, q)
  }

  ghost predicate NodeOk(nodes: Nodes, jobs: multiset<Path>, p: Path)
    requires p in nodes
  {
    && (p != [] ==> Parent(p) in nodes)
    && (nodes[p].Open? ==>
          && (p != [] ==> p in jobs)
          && HalfOk(nodes, jobs, nodes[p].pc, p, false)
          && HalfOk(nodes, jobs, nodes[p].pc, p, true))
  }

  ghost predicate TreeOk(nodes: Nodes, jobs: multiset<Path>) {
    && (forall q :: q in jobs ==> JobOk(nodes, jobs, q))
    && (forall p :: p in nodes ==> NodeOk(nodes, jobs, p))
  }

  /** A call that is being executed. */
  predicate Active(jobs: multiset<Path>, p: Path) {
    p == [] || p in jobs
  }

  /** Call `p` changes its node and adds at most jobs of its own. */
  ghost predicate Touches(nodes: Nodes, jobs: multiset<Path>, jobs': multiset<Path>, p: Path) {
    && Active(jobs, p) && !IsSorted(nodes, p)
    && (forall q :: q in jobs ==> jobs'[q] == jobs[q])
    && (forall q :: q in jobs' && q !in jobs ==> q != [] && Parent(q) == p)
  }

  lemma OtherHalf(nodes: Nodes, jobs: multiset<Path>, jobs': multiset<Path>, p: Path, x: Node, pc: Pc, r: Path, b: bool)
    requires Touches(nodes, jobs, jobs', p) && r != p && HalfOk(nodes, jobs, pc, r, b)
    ensures HalfOk(nodes[p := x], jobs', pc, r, b)
  {
    hide Kid, Parent, Last, Forked;
  }

  /** The other calls do not mind. */
  lemma OtherNode(nodes: Nodes, jobs: multiset<Path>, jobs': multiset<Path>, p: Path, x: Node, r: Path)
    requires Touches(nodes, jobs, jobs', p) && r != p && r in nodes && NodeOk(nodes, jobs, r)
    ensures NodeOk(nodes[p := x], jobs', r)
  {
    hide Kid, Parent, Last, HalfOk;
    if nodes[r].Open? {
      OtherHalf(nodes, jobs, jobs', p, x, nodes[r].pc, r, false);
      OtherHalf(nodes, jobs, jobs', p, x, nodes[r].pc, r, true);
    }
  }

  /** It remains to look at the node itself and at the jobs it waits for. */
  lemma TouchKeepsTree(nodes: Nodes, jobs: multiset<Path>, jobs': multiset<Path>, p: Path, x: Node)
    requires TreeOk(nodes, jobs) && Touches(nodes, jobs, jobs', p)
    requires NodeOk(nodes[p := x], jobs', p)
    requires forall q :: q in jobs' && q != [] && Parent(q) == p ==> JobOk(nodes[p := x], jobs', q)
    ensures TreeOk(nodes[p := x], jobs')
  {
    hide Kid, Parent, Last, NodeOk;
    forall q | q in jobs'
      ensures JobOk(nodes[p := x], jobs', q)
    {
      if q != [] && Parent(q) != p {
        assert JobOk(nodes, jobs, q);
      }
    }
    var nodes' := nodes[p := x];
    forall r | r in nodes'
      ensures NodeOk(nodes', jobs', r)
    {
      if r != p {
        OtherNode(nodes, jobs, jobs', p, x, r);
      }
    }
  }

  /** An active call has a parent that knows of it. */
  lemma ParentKnown(nodes: Nodes, jobs: multiset<Path>, p: Path)
    requires TreeOk(nodes, jobs) && Active(jobs, p)
    ensures p != [] ==> Parent(p) in nodes && Parent(p) != p
  {
    assert p != [] ==> JobOk(nodes, jobs, p);
    hide Last;
  }

  lemma HalfUntouched(nodes: Nodes, jobs: multiset<Path>, p: Path, q: Path)
    requires TreeOk(nodes, jobs) && p !in nodes && q != [] && Parent(q) == p
    ensures q !in nodes && q !in jobs
  {
    hide Kid, Parent, Last, HalfOk;
    assert q in jobs ==> JobOk(nodes, jobs, q);
    assert q in nodes ==> NodeOk(nodes, jobs, q);
  }

  lemma OpensKeepsTree(nodes: Nodes, jobs: multiset<Path>, p: Path, x: Node)
    requires TreeOk(nodes, jobs) && Active(jobs, p) && p !in nodes
    requires x == Sorted || (x.Open? && x.pc == Forking(0))
    ensures TreeOk(nodes[p := x], jobs)
  {
    ParentKnown(nodes, jobs, p);
    hide Kid, Parent, Last, TreeOk, JobOk;
    forall q | q != [] && Parent(q) == p
      ensures q !in nodes && q !in jobs
    {
      HalfUntouched(nodes, jobs, p, q);
    }
    TouchKeepsTree(nodes, jobs, jobs, p, x);
  }

  lemma OpenIsActive(nodes: Nodes, jobs: multiset<Path>, p: Path)
    requires TreeOk(nodes, jobs) && IsOpen(nodes, p)
    ensures Active(jobs, p) && NodeOk(nodes, jobs, p)
  {
    assert NodeOk(nodes, jobs, p);
  }

  lemma ForksKeepsTree(nodes: Nodes, jobs: multiset<Path>, p: Path, k: nat)
    requires k < 2 && TreeOk(nodes, jobs) && IsOpen(nodes, p) && nodes[p].pc == Forking(k)
    ensures TreeOk(nodes[p := nodes[p].(pc := Forking(k + 1))], jobs + multiset{Kid(p, k == 1)})
    ensures Kid(p, k == 1) !in jobs && Kid(p, k == 1) !in nodes
  {
    var x, q := nodes[p].(pc := Forking(k + 1)), Kid(p, k == 1);
    var jobs' := jobs + multiset{q};
    OpenIsActive(nodes, jobs, p);
    ParentKnown(nodes, jobs, p);
    hide Kid, Parent, Last;
    assert q !in jobs && q !in nodes;
    assert forall r :: r in jobs ==> JobOk(nodes, jobs, r);
    hide TreeOk, JobOk;
    forall r | r in jobs' && r != [] && Parent(r) == p
      ensures JobOk(nodes[p := x], jobs', r)
    {
      ForkedJob(nodes, jobs, p, k, r);
    }
    ForkedHalf(nodes, jobs, p, k, false);
    ForkedHalf(nodes, jobs, p, k, true);
    hide HalfOk;
    TouchKeepsTree(nodes, jobs, jobs', p, x);
  }

  lemma ForkedJob(nodes: Nodes, jobs: multiset<Path>, p: Path, k: nat, r: Path)
    requires k < 2 && IsOpen(nodes, p) && nodes[p].pc == Forking(k) && r != [] && Parent(r) == p
    requires Kid(p, k == 1) !in jobs && (r == Kid(p, k == 1) || (r in jobs && JobOk(nodes, jobs, r)))
    ensures JobOk(nodes[p := nodes[p].(pc := Forking(k + 1))], jobs + multiset{Kid(p, k == 1)}, r)
  {
    hide Kid, Parent, Last;
  }

  lemma ForkedHalf(nodes: Nodes, jobs: multiset<Path>, p: Path, k: nat, b: bool)
    requires k < 2 && IsOpen(nodes, p) && nodes[p].pc == Forking(k) && HalfOk(nodes, jobs, Forking(k), p, b)
    ensures HalfOk(nodes[p := nodes[p].(pc := Forking(k + 1))], jobs + multiset{Kid(p, k == 1)}, Forking(k + 1), p, b)
  {
    hide Kid, Parent;
  }

  lemma MovesOnKeepsTree(nodes: Nodes, jobs: multiset<Path>, p: Path, pc: Pc)
    requires TreeOk(nodes, jobs) && IsOpen(nodes, p)
    requires (nodes[p].pc == Forking(2) && pc == Joining) || (nodes[p].pc == Joining && pc == Joined)
    requires pc == Joined ==> Kid(p, false) !in jobs && Kid(p, true) !in jobs
    ensures TreeOk(nodes[p := nodes[p].(pc := pc)], jobs)
  {
    var x := nodes[p].(pc := pc);
    OpenIsActive(nodes, jobs, p);
    ParentKnown(nodes, jobs, p);
    assert forall r :: r in jobs ==> JobOk(nodes, jobs, r);
    hide Kid, Parent, Last, TreeOk, JobOk;
    forall q | q in jobs && q != [] && Parent(q) == p
      ensures JobOk(nodes[p := x], jobs, q)
    {
      JobMovesOn(nodes, jobs, p, pc, q);
    }
    HalfMovesOn(nodes, jobs, p, pc, false);
    HalfMovesOn(nodes, jobs, p, pc, true);
    hide HalfOk;
    TouchKeepsTree(nodes, jobs, jobs, p, x);
  }

  lemma JobMovesOn(nodes: Nodes, jobs: multiset<Path>, p: Path, pc: Pc, q: Path)
    requires IsOpen(nodes, p) && q in jobs && q != [] && Parent(q) == p && JobOk(nodes, jobs, q)
    requires pc == Joining || (pc == Joined && Kid(p, false) !in jobs && Kid(p, true) !in jobs)
    ensures JobOk(nodes[p := nodes[p].(pc := pc)], jobs, q)
  {
    KidOfParent(q);
    hide Kid, Parent, Last;
  }

  lemma HalfMovesOn(nodes: Nodes, jobs: multiset<Path>, p: Path, pc: Pc, b: bool)
    requires IsOpen(nodes, p) && HalfOk(nodes, jobs, nodes[p].pc, p, b)
    requires (nodes[p].pc == Forking(2) && pc == Joining) || (nodes[p].pc == Joining && pc == Joined)
    requires pc == Joined ==> Kid(p, b) !in jobs
    ensures HalfOk(nodes[p := nodes[p].(pc := pc)], jobs, pc, p, b)
  {
    hide Kid, Parent, Last;
  }

  lemma ClosesKeepsTree(nodes: Nodes, jobs: multiset<Path>, p: Path)
    requires TreeOk(nodes, jobs) && IsOpen(nodes, p) && nodes[p].pc == Joined
    ensures TreeOk(nodes[p := Sorted], jobs)
  {
    OpenIsActive(nodes, jobs, p);
    ParentKnown(nodes, jobs, p);
    hide Kid, Parent, Last, HalfOk;
    assert forall q :: q in jobs ==> JobOk(nodes, jobs, q);
    hide TreeOk;
    TouchKeepsTree(nodes, jobs, jobs, p, Sorted);
  }

  lemma ReturnsKeepsTree(nodes: Nodes, jobs: multiset<Path>, p: Path)
    requires TreeOk(nodes, jobs) && p in jobs && IsSorted(nodes, p)
    ensures TreeOk(nodes, jobs - multiset{p})
  {
    var jobs' := jobs - multiset{p};
    assert JobOk(nodes, jobs, p);
    forall q | q in jobs'
      ensures JobOk(nodes, jobs', q)
    {
      assert JobOk(nodes, jobs, q);
    }
    forall r | r in nodes
      ensures NodeOk(nodes, jobs', r)
    {
      assert NodeOk(nodes, jobs, r);
    }
  }

  /** The outermost call is no job; whether it is counted does not matter. */
  lemma RootIsNoJob(nodes: Nodes, jobs: multiset<Path>, jobs': multiset<Path>)
    requires TreeOk(nodes, jobs) && forall q :: q != [] ==> jobs'[q] == jobs[q]
    ensures TreeOk(nodes, jobs')
  {
    forall q | q in jobs'
      ensures JobOk(nodes, jobs', q)
    {
      assert q != [] ==> JobOk(nodes, jobs, q);
    }
    forall r | r in nodes
      ensures NodeOk(nodes, jobs', r)
    {
      assert NodeOk(nodes, jobs, r);
    }
  }

  /** The calls around an active call are open. */
  lemma {:induction false} AncestorsOpen(nodes: Nodes, jobs: multiset<Path>, q: Path, n: nat)
    requires TreeOk(nodes, jobs) && Active(jobs, q) && n < |q|
    ensures IsOpen(nodes, q[..n]) && nodes[q[..n]].pc != Joined
    decreases |q|
  {
    assert JobOk(nodes, jobs, q);
    if n < |q| - 1 {
      assert NodeOk(nodes, jobs, Parent(q));
      AncestorsOpen(nodes, jobs, Parent(q), n);
      assert Parent(q)[..n] == q[..n];
    }
  }

  // ---------------------------------------------------------------- ranges

  datatype Range = Range(lo: nat, hi: nat) {
    predicate Within(n: nat) {
      lo <= hi <= n
    }

    function Size(): int {
      hi - lo
    }

    function Mid(): nat
      requires lo <= hi
    {
      lo + (hi - lo) / 2
    }

    function Half(b: bool): (r: Range)
      requires lo <= hi
      ensures r.lo <= r.hi && lo <= r.lo && r.hi <= hi
      ensures Size() >= 2 ==> r.Size() < Size()
    {
      if b then Range(Mid(), hi) else Range(lo, Mid())
    }
  }

  /** The range of a call, if the outermost call sorts `n` elements. */
  function RangeOf(n: nat, p: Path): (r: Range)
    ensures r.Within(n)
  {
    if p == [] then Range(0, n) else RangeOf(n, Parent(p)).Half(Last(p))
  }

  lemma HalfRange(n: nat, p: Path, b: bool)
    ensures RangeOf(n, Kid(p, b)) == RangeOf(n, p).Half(b)
  {
  }

  /** A call on the elements from `lo` up to `hi` gives the first half, rounded down, to one call and the rest to another. */
  lemma HalvesExactly(lo: nat, hi: nat)
    requires lo <= hi
    ensures Range(lo, hi).Half(false) == Range(lo, lo + (hi - lo) / 2)
    ensures Range(lo, hi).Half(true) == Range(lo + (hi - lo) / 2, hi)
    ensures hi - lo == Range(lo, hi).Half(false).Size() + Range(lo, hi).Half(true).Size()
  {
  }

  lemma {:induction false} RangeInside(n: nat, p: Path, q: Path)
    requires p <= q
    ensures RangeOf(n, p).lo <= RangeOf(n, q).lo && RangeOf(n, q).hi <= RangeOf(n, p).hi
    decreases |q|
  {
    if |p| < |q| {
      RangeInside(n, p, Parent(q));
    } else {
      assert p == q;
    }
  }

  // ---------------------------------------------------------------- the data

  ghost predicate Ascending(s: seq<real>) {
    forall i, j :: 0 <= i < j < |s| ==> s[i] <= s[j]
  }

  function Part(data: seq<real>, r: Range): seq<real>
    requires r.Within(|data|)
  {
    data[r.lo..r.hi]
  }

  /** Outside range `r` nothing changes. */
  ghost predicate SameOutside(data: seq<real>, data': seq<real>, r: Range) {
    |data'| == |data| && forall i :: 0 <= i < |data| && !(r.lo <= i < r.hi) ==> data'[i] == data[i]
  }

  /** The data of a call's range: as it was, sorted, or that of its halves. */
  ghost predicate DataOk(nodes: Nodes, data: seq<real>, input: seq<real>, p: Path, r: Range)
    requires |data| == |input| && r.Within(|data|)
    decreases r.hi - r.lo
  {
    if p !in nodes then Part(data, r) == Part(input, r)
    else if nodes[p] == Sorted then Ascending(Part(data, r)) && multiset(Part(data, r)) == multiset(Part(input, r))
    else
      && r.Size() > GRAIN
      && DataOk(nodes, data, input, Kid(p, false), r.Half(false))
      && DataOk(nodes, data, input, Kid(p, true), r.Half(true))
  }

  /** A change somewhere else leaves a call's range as it is. */
  lemma {:induction false} ElsewhereKeepsData(nodes: Nodes, nodes': Nodes, data: seq<real>, data': seq<real>, input: seq<real>,
                                              p: Path, r: Range)
    requires |data| == |input| == |data'| && r.Within(|data|) && DataOk(nodes, data, input, p, r)
    requires forall i :: r.lo <= i < r.hi ==> data'[i] == data[i]
    requires forall q :: p <= q ==> SameNode(nodes, nodes', q)
    ensures DataOk(nodes', data', input, p, r)
    decreases r.hi - r.lo
  {
    assert SameNode(nodes, nodes', p);
    assert Part(data', r) == Part(data, r);
    if IsOpen(nodes, p) {
      ElsewhereKeepsData(nodes, nodes', data, data', input, Kid(p, false), r.Half(false));
      ElsewhereKeepsData(nodes, nodes', data, data', input, Kid(p, true), r.Half(true));
    }
  }

  ghost predicate SameNode(nodes: Nodes, nodes': Nodes, q: Path) {
    (q in nodes <==> q in nodes') && (q in nodes ==> nodes[q] == nodes'[q])
  }

  /** What call `q` does to its own range is all that happens to the ranges around it. */
  lemma {:induction false} CallKeepsData(nodes: Nodes, x: Node, data: seq<real>, data': seq<real>, input: seq<real>, p: Path, q: Path)
    requires |data| == |input| && p <= q
    requires DataOk(nodes, data, input, p, RangeOf(|data|, p))
    requires forall n :: |p| <= n < |q| ==> IsOpen(nodes, q[..n])
    requires SameOutside(data, data', RangeOf(|data|, q))
    requires DataOk(nodes[q := x], data', input, q, RangeOf(|data|, q))
    ensures DataOk(nodes[q := x], data', input, p, RangeOf(|data|, p))
    decreases |q| - |p|
  {
    if |p| == |q| {
      assert p == q;
    } else {
      var n := |data|;
      var b := Towards(p, q);
      hide Kid, RangeOf;
      HalfRange(n, p, b);
      assert IsOpen(nodes, q[..|p|]) && q[..|p|] != q;
      CallKeepsData(nodes, x, data, data', input, Kid(p, b), q);
      SiblingKeepsData(nodes, x, data, data', input, p, b, q);
      hide DataOk;
      DataOfHalves(nodes[q := x], data', input, p, RangeOf(n, p), b);
    }
  }

  /** The other half of call `p` sees nothing of it. */
  lemma SiblingKeepsData(nodes: Nodes, x: Node, data: seq<real>, data': seq<real>, input: seq<real>, p: Path, b: bool, q: Path)
    requires |data| == |input| && |p| < |q| && Kid(p, b) <= q && IsOpen(nodes, p)
    requires DataOk(nodes, data, input, p, RangeOf(|data|, p))
    requires SameOutside(data, data', RangeOf(|data|, q))
    ensures DataOk(nodes[q := x], data', input, Kid(p, !b), RangeOf(|data|, p).Half(!b))
  {
    var n := |data|;
    HalfRange(n, p, b);
    RangeInside(n, Kid(p, b), q);
    var nodes' := nodes[q := x];
    OtherBranch(nodes, nodes', p, b, q);
    hide Kid, RangeOf;
    ElsewhereKeepsData(nodes, nodes', data, data', input, Kid(p, !b), RangeOf(n, p).Half(!b));
  }

  lemma OtherBranch(nodes: Nodes, nodes': Nodes, p: Path, b: bool, q: Path)
    requires Kid(p, b) <= q && forall r :: r != q ==> SameNode(nodes, nodes', r)
    ensures forall r :: Kid(p, !b) <= r ==> SameNode(nodes, nodes', r)
  {
  }

  /** The half of call `p` that holds a call further down. */
  lemma Towards(p: Path, q: Path) returns (b: bool)
    requires p <= q && |p| < |q|
    ensures q[..|p|] == p && Kid(p, b) <= q && |Kid(p, b)| == |p| + 1
  {
    b := q[|p|];
  }

  lemma DataOfHalves(nodes: Nodes, data: seq<real>, input: seq<real>, p: Path, r: Range, b: bool)
    requires |data| == |input| && r.Within(|data|) && IsOpen(nodes, p) && r.Size() > GRAIN
    requires DataOk(nodes, data, input, Kid(p, b), r.Half(b)) && DataOk(nodes, data, input, Kid(p, !b), r.Half(!b))
    ensures DataOk(nodes, data, input, p, r)
  {
  }

  /** An active call finds its own range in order. */
  lemma {:induction false} DataOfCall(nodes: Nodes, data: seq<real>, input: seq<real>, p: Path, q: Path)
    requires |data| == |input| && p <= q
    requires DataOk(nodes, data, input, p, RangeOf(|data|, p))
    requires forall n :: |p| <= n < |q| ==> IsOpen(nodes, q[..n])
    ensures DataOk(nodes, data, input, q, RangeOf(|data|, q))
    decreases |q| - |p|
  {
    if |p| == |q| {
      assert p == q;
    } else {
      var b := Towards(p, q);
      hide Kid, RangeOf;
      HalfRange(|data|, p, b);
      DataOfCall(nodes, data, input, Kid(p, b), q);
    }
  }

  /** Two sorted halves are a permutation of the range, and stay one when they are merged. */
  lemma MergedData(data: seq<real>, data': seq<real>, input: seq<real>, r: Range)
    requires |data| == |input| == |data'| && r.Within(|data|)
    requires multiset(Part(data, r.Half(false))) == multiset(Part(input, r.Half(false)))
    requires multiset(Part(data, r.Half(true))) == multiset(Part(input, r.Half(true)))
    requires multiset(Part(data', r)) == multiset(Part(data, r))
    ensures multiset(Part(data', r)) == multiset(Part(input, r))
  {
    HalvesMakePart(data, r);
    HalvesMakePart(input, r);
    hide Part;
  }

  lemma HalvesMakePart(data: seq<real>, r: Range)
    requires r.Within(|data|)
    ensures Part(data, r) == Part(data, r.Half(false)) + Part(data, r.Half(true))
  {
  }

  // ---------------------------------------------------------------- the library's algorithms

  /** `std::sort` on a range. */
  ghost predicate Sorts(data: seq<real>, data': seq<real>, r: Range)
    requires r.Within(|data|)
  {
    && SameOutside(data, data', r)
    && multiset(Part(data', r)) == multiset(Part(data, r))
    && Ascending(Part(data', r))
  }

  /** `std::inplace_merge` on the halves of a range: what it makes of halves that are not sorted, besides a
      permutation of them, is open. */
  ghost predicate InplaceMerges(data: seq<real>, data': seq<real>, r: Range)
    requires r.Within(|data|)
  {
    && SameOutside(data, data', r)
    && multiset(Part(data', r)) == multiset(Part(data, r))
    && (Ascending(Part(data, r.Half(false))) && Ascending(Part(data, r.Half(true))) ==> Ascending(Part(data', r)))
  }

  // ---------------------------------------------------------------- what a call does to the data

  lemma {:induction false} AllAncestorsOpen(nodes: Nodes, jobs: multiset<Path>, p: Path)
    requires TreeOk(nodes, jobs) && Active(jobs, p)
    ensures forall n :: 0 <= n < |p| ==> IsOpen(nodes, p[..n])
  {
    hide TreeOk;
    forall n | 0 <= n < |p|
      ensures IsOpen(nodes, p[..n])
    {
      AncestorsOpen(nodes, jobs, p, n);
    }
  }

  /** The data of an active call, and of all calls once it has changed. */
  lemma CallData(nodes: Nodes, jobs: multiset<Path>, data: seq<real>, input: seq<real>, p: Path)
    requires TreeOk(nodes, jobs) && Active(jobs, p)
    requires |data| == |input| && DataOk(nodes, data, input, [], RangeOf(|data|, []))
    ensures DataOk(nodes, data, input, p, RangeOf(|data|, p))
  {
    AllAncestorsOpen(nodes, jobs, p);
    hide TreeOk, DataOk, RangeOf;
    DataOfCall(nodes, data, input, [], p);
  }

  lemma ChangedData(nodes: Nodes, jobs: multiset<Path>, x: Node, data: seq<real>, data': seq<real>, input: seq<real>, p: Path)
    requires TreeOk(nodes, jobs) && Active(jobs, p)
    requires |data| == |input| && DataOk(nodes, data, input, [], RangeOf(|data|, []))
    requires SameOutside(data, data', RangeOf(|data|, p)) && DataOk(nodes[p := x], data', input, p, RangeOf(|data|, p))
    ensures DataOk(nodes[p := x], data', input, [], RangeOf(|data|, []))
  {
    AllAncestorsOpen(nodes, jobs, p);
    hide TreeOk, DataOk, RangeOf;
    CallKeepsData(nodes, x, data, data', input, [], p);
  }

  lemma SortedLeafData(nodes: Nodes, data: seq<real>, data': seq<real>, input: seq<real>, p: Path, r: Range)
    requires |data| == |input| && r.Within(|data|) && DataOk(nodes, data, input, p, r) && p !in nodes && Sorts(data, data', r)
    ensures DataOk(nodes[p := Sorted], data', input, p, r)
  {
    hide Part, Ascending;
  }

  lemma SplitData(nodes: Nodes, data: seq<real>, input: seq<real>, p: Path, r: Range, x: Node)
    requires |data| == |input| && r.Within(|data|) && DataOk(nodes, data, input, p, r) && p !in nodes
    requires x.Open? && r.Size() > GRAIN && Kid(p, false) !in nodes && Kid(p, true) !in nodes
    ensures DataOk(nodes[p := x], data, input, p, r)
  {
    hide Kid;
    HalvesEqual(data, input, r, false);
    HalvesEqual(data, input, r, true);
  }

  lemma HalvesEqual(data: seq<real>, input: seq<real>, r: Range, b: bool)
    requires |data| == |input| && r.Within(|data|) && Part(data, r) == Part(input, r)
    ensures Part(data, r.Half(b)) == Part(input, r.Half(b))
  {
    var h := r.Half(b);
    forall i | h.lo <= i < h.hi
      ensures data[i] == input[i]
    {
      assert Part(data, r)[i - r.lo] == Part(input, r)[i - r.lo];
    }
  }

  lemma MovesOnData(nodes: Nodes, data: seq<real>, input: seq<real>, p: Path, r: Range, x: Node)
    requires |data| == |input| && r.Within(|data|) && DataOk(nodes, data, input, p, r) && IsOpen(nodes, p) && x.Open?
    ensures DataOk(nodes[p := x], data, input, p, r)
  {
    KidsKeepData(nodes, data, input, p, r, x, false);
    KidsKeepData(nodes, data, input, p, r, x, true);
    hide Kid;
  }

  lemma KidsKeepData(nodes: Nodes, data: seq<real>, input: seq<real>, p: Path, r: Range, x: Node, b: bool)
    requires |data| == |input| && r.Within(|data|) && DataOk(nodes, data, input, p, r) && IsOpen(nodes, p)
    ensures DataOk(nodes[p := x], data, input, Kid(p, b), r.Half(b))
  {
    var nodes' := nodes[p := x];
    KidsBelow(nodes, nodes', p, b);
    hide Kid;
    ElsewhereKeepsData(nodes, nodes', data, data, input, Kid(p, b), r.Half(b));
  }

  lemma KidsBelow(nodes: Nodes, nodes': Nodes, p: Path, b: bool)
    requires forall r :: r != p ==> SameNode(nodes, nodes', r)
    ensures forall r :: Kid(p, b) <= r ==> SameNode(nodes, nodes', r)
  {
  }

  lemma MergedHalves(nodes: Nodes, data: seq<real>, data': seq<real>, input: seq<real>, p: Path, r: Range)
    requires |data| == |input| && r.Within(|data|) && DataOk(nodes, data, input, p, r) && IsOpen(nodes, p)
    requires IsSorted(nodes, Kid(p, false)) && IsSorted(nodes, Kid(p, true)) && InplaceMerges(data, data', r)
    ensures Ascending(Part(data, r.Half(false))) && Ascending(Part(data, r.Half(true)))
    ensures DataOk(nodes[p := Sorted], data', input, p, r)
  {
    hide Part, Ascending, Kid;
    MergedData(data, data', input, r);
  }
}
