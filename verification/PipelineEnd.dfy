/** Boost_Searcher/data/input/boost_asio/example/cpp11/executors/pipeline.cpp: how long a run of the pipeline can take. A rank of the
    states falls with every step by which a thread gets on, so that only spurious wakeups can prolong a run. */
module PipelineEnd {
  import opened Pipeline

  // ---------------------------------------------------------------- sums

  function Sum(ns: seq<nat>): nat {
    if ns == [] then 0 else ns[0] + Sum(ns[1..])
  }

  lemma {:induction false} SumUpdate(ns: seq<nat>, i: nat, n: nat)
    requires i < |ns|
    ensures Sum(ns[i := n]) + ns[i] == Sum(ns) + n
  {
    if i == 0 {
      assert ns[0 := n][1..] == ns[1..];
    } else {
      SumUpdate(ns[1..], i - 1, n);
      assert ns[i := n][1..] == ns[1..][i - 1 := n];
    }
  }

  lemma {:induction false} SumOfEqual(ns: seq<nat>, n: nat)
    requires forall i :: 0 <= i < |ns| ==> ns[i] == n
    ensures Sum(ns) == |ns| * n
  {
    if ns != [] {
      SumOfEqual(ns[1..], n);
    }
  }

  // ---------------------------------------------------------------- the work ahead

  /** The steps caused by an item waiting in queue `k`: popping it, pushing on what the stage makes of it with all that
      follows from that, and going back to popping. Nobody pops from the last queue. */
  function ItemWork<T>(fs: Stages<T>, k: nat, x: T): nat
    requires k <= |fs|
    decreases |fs| - k, 0
  {
    if k == |fs| then 0 else 1 + OutWork(fs, k + 1, fs[k](x)) + 1
  }

  /** The steps caused by items that are still to be pushed to queue `k`. */
  function OutWork<T>(fs: Stages<T>, k: nat, out: seq<T>): nat
    requires k <= |fs|
    decreases |fs| - k, |out| + 1
  {
    if out == [] then 0 else 1 + ItemWork(fs, k, out[0]) + OutWork(fs, k, out[1..])
  }

  function QueueWork<T>(fs: Stages<T>, k: nat, items: seq<T>): nat
    requires k <= |fs|
  {
    if items == [] then 0 else ItemWork(fs, k, items[0]) + QueueWork(fs, k, items[1..])
  }

  function StageWork<T>(fs: Stages<T>, k: nat, p: Phase<T>): nat
    requires k < |fs|
  {
    match p
    case Popping => 2
    case Asleep => 2
    case Emitting(out) => OutWork(fs, k + 1, out) + 3
    case Returned => 1
    case Done => 0
  }

  function ReaderWork<T>(fs: Stages<T>, s: State<T>): nat
    requires s.queues != []
  {
    var n := |s.queues[0].pushed|;
    if s.queues[0].stopped || n > |s.input| then 0 else OutWork(fs, 0, s.input[n..]) + 1
  }

  predicate Fits<T>(fs: Stages<T>, s: State<T>) {
    |s.stages| == |fs| && |s.queues| == |fs| + 1
  }

  function QueueWorks<T>(fs: Stages<T>, s: State<T>): (r: seq<nat>)
    requires Fits(fs, s)
    ensures |r| == |s.queues|
    ensures forall k :: 0 <= k < |r| ==> r[k] == QueueWork(fs, k, s.queues[k].items)
  {
    seq(|s.queues|, k requires 0 <= k < |s.queues| => QueueWork(fs, k, s.queues[k].items))
  }

  function StageWorks<T>(fs: Stages<T>, s: State<T>): (r: seq<nat>)
    requires Fits(fs, s)
    ensures |r| == |s.stages|
    ensures forall k :: 0 <= k < |r| ==> r[k] == StageWork(fs, k, s.stages[k])
  {
    seq(|s.stages|, k requires 0 <= k < |s.stages| => StageWork(fs, k, s.stages[k]))
  }

  /** Which stages may still go to sleep before their next item. */
  function Poppers<T>(s: State<T>): (r: seq<nat>)
    ensures |r| == |s.stages|
    ensures forall k :: 0 <= k < |r| ==> r[k] == if s.stages[k].Popping? then 1 else 0
  {
    seq(|s.stages|, k requires 0 <= k < |s.stages| => if s.stages[k].Popping? then 1 else 0)
  }

  function Work<T>(fs: Stages<T>, s: State<T>): nat
    requires Fits(fs, s)
  {
    ReaderWork(fs, s) + Sum(QueueWorks(fs, s)) + Sum(StageWorks(fs, s))
  }

  function Rank<T>(fs: Stages<T>, s: State<T>): nat
    requires Fits(fs, s)
  {
    2 * Work(fs, s) + Sum(Poppers(s))
  }

  // ---------------------------------------------------------------- every step lowers the rank

  lemma {:induction false} QueueWorkSnoc<T>(fs: Stages<T>, k: nat, items: seq<T>, x: T)
    requires k <= |fs|
    ensures QueueWork(fs, k, items + [x]) == QueueWork(fs, k, items) + ItemWork(fs, k, x)
    decreases |items|
  {
    hide ItemWork;
    if items == [] {
      assert [] + [x] == [x] && [x][1..] == [];
    } else {
      QueueWorkSnoc(fs, k, items[1..], x);
      assert (items + [x])[1..] == items[1..] + [x];
    }
  }

  /** One stage moves on and nothing else changes. */
  lemma StageMoves<T>(fs: Stages<T>, s: State<T>, k: nat, p: Phase<T>)
    requires Fits(fs, s) && k < |fs|
    ensures var s' := s.(stages := s.stages[k := p]);
            && Work(fs, s') + StageWork(fs, k, s.stages[k]) == Work(fs, s) + StageWork(fs, k, p)
            && Sum(Poppers(s')) + (if s.stages[k].Popping? then 1 else 0) == Sum(Poppers(s)) + (if p.Popping? then 1 else 0)
  {
    hide Sum, StageWork, QueueWork, OutWork;
    var s' := s.(stages := s.stages[k := p]);
    SumUpdate(StageWorks(fs, s), k, StageWork(fs, k, p));
    assert StageWorks(fs, s') == StageWorks(fs, s)[k := StageWork(fs, k, p)];
    SumUpdate(Poppers(s), k, if p.Popping? then 1 else 0);
    assert Poppers(s') == Poppers(s)[k := if p.Popping? then 1 else 0];
    assert QueueWorks(fs, s') == QueueWorks(fs, s);
  }

  /** Waking a stage leaves the work and adds one stage that may go to sleep again. */
  lemma NotifiedMoves<T>(fs: Stages<T>, s: State<T>, k: nat)
    requires Fits(fs, s)
    ensures var s' := s.(stages := Notified(s.stages, k));
            Fits(fs, s') && Work(fs, s') == Work(fs, s) && Sum(Poppers(s')) <= Sum(Poppers(s)) + 1
  {
    hide Sum, Work, Poppers;
    if k < |s.stages| && s.stages[k] == Asleep {
      StageMoves(fs, s, k, Popping);
    } else {
      assert s.(stages := s.stages) == s;
    }
  }

  /** A queue behind the first one changes and nothing else does. */
  lemma QueueMoves<T>(fs: Stages<T>, s: State<T>, k: nat, q: Queue<T>)
    requires Fits(fs, s) && k < |s.queues| && (k > 0 || (q.pushed == s.queues[0].pushed && q.stopped == s.queues[0].stopped))
    ensures var s' := s.(queues := s.queues[k := q]);
            && Work(fs, s') + QueueWork(fs, k, s.queues[k].items) == Work(fs, s) + QueueWork(fs, k, q.items)
            && Poppers(s') == Poppers(s)
  {
    hide Sum, StageWork, QueueWork, OutWork;
    var s' := s.(queues := s.queues[k := q]);
    SumUpdate(QueueWorks(fs, s), k, QueueWork(fs, k, q.items));
    assert QueueWorks(fs, s') == QueueWorks(fs, s)[k := QueueWork(fs, k, q.items)];
    assert StageWorks(fs, s') == StageWorks(fs, s);
  }

  /** The reader pushes a line or stops the queue; here the waiting stage has not been notified yet. */
  lemma ReaderMoves<T>(fs: Stages<T>, s: State<T>, q: Queue<T>)
    requires Fits(fs, s) && !s.queues[0].stopped && |s.queues[0].pushed| <= |s.input|
    requires var old_ := s.queues[0];
             var n := |old_.pushed|;
             if n < |s.input| then q == old_.(items := old_.items + [s.input[n]], pushed := old_.pushed + [s.input[n]])
             else q == old_.(stopped := true)
    ensures var s' := s.(queues := s.queues[0 := q]);
            Work(fs, s') + 1 == Work(fs, s) && Poppers(s') == Poppers(s)
  {
    hide Sum, StageWork, QueueWork, ItemWork;
    var s' := s.(queues := s.queues[0 := q]);
    var n := |s.queues[0].pushed|;
    SumUpdate(QueueWorks(fs, s), 0, QueueWork(fs, 0, q.items));
    assert QueueWorks(fs, s') == QueueWorks(fs, s)[0 := QueueWork(fs, 0, q.items)];
    assert StageWorks(fs, s') == StageWorks(fs, s);
    if n < |s.input| {
      QueueWorkSnoc(fs, 0, s.queues[0].items, s.input[n]);
      assert s.input[n..][1..] == s.input[n + 1..];
    } else {
      assert s.input[n..] == [];
    }
  }

  lemma ReadsRank<T>(fs: Stages<T>, s: State<T>, s': State<T>)
    requires Inv(fs, s) && Reads(s, s')
    ensures Fits(fs, s) && Fits(fs, s') && Rank(fs, s') < Rank(fs, s)
  {
    hide Work, Poppers, Through, StageOk, QueueOk, Notified;
    var q := s.queues[0];
    var n := |q.pushed|;
    var mid := s.(queues := s.queues[0 := if n < |s.input| then q.(items := q.items + [s.input[n]], pushed := q.pushed + [s.input[n]])
                                          else q.(stopped := true)]);
    ReaderMoves(fs, s, mid.queues[0]);
    NotifiedMoves(fs, mid, 0);
    assert s' == mid.(stages := Notified(mid.stages, 0));
  }

  lemma PopsRank<T>(fs: Stages<T>, s: State<T>, s': State<T>, k: nat)
    requires Fits(fs, s) && Pops(fs, s, s', k)
    ensures Fits(fs, s') && Rank(fs, s') < Rank(fs, s)
  {
    hide Work, Poppers;
    var q := s.queues[k];
    if q.items != [] {
      var mid := s.(queues := s.queues[k := q.(items := q.items[1..], taken := q.taken + [q.items[0]])]);
      QueueMoves(fs, s, k, mid.queues[k]);
      StageMoves(fs, mid, k, s'.stages[k]);
    } else {
      StageMoves(fs, s, k, s'.stages[k]);
    }
  }

  lemma EmitsRank<T>(fs: Stages<T>, s: State<T>, s': State<T>, k: nat)
    requires Fits(fs, s) && Emits(s, s', k)
    ensures Fits(fs, s') && Rank(fs, s') < Rank(fs, s)
  {
    hide Work, Poppers, Notified, ItemWork;
    var out := s.stages[k].out;
    if out == [] {
      StageMoves(fs, s, k, Popping);
    } else {
      var mid := s.(stages := s.stages[k := Emitting(out[1..])]);
      StageMoves(fs, s, k, Emitting(out[1..]));
      PushedRank(fs, mid, k + 1, out[0]);
    }
  }

  lemma PushedRank<T>(fs: Stages<T>, s: State<T>, k: nat, x: T)
    requires Fits(fs, s) && 0 < k < |s.queues|
    ensures var s' := Pushed(s, k, x);
            && Fits(fs, s') && Work(fs, s') == Work(fs, s) + ItemWork(fs, k, x)
            && Sum(Poppers(s')) <= Sum(Poppers(s)) + 1
  {
    hide Work, Poppers, Notified, ItemWork;
    var q := s.queues[k];
    var mid := s.(queues := s.queues[k := q.(items := q.items + [x], pushed := q.pushed + [x])]);
    QueueMoves(fs, s, k, mid.queues[k]);
    QueueWorkSnoc(fs, k, q.items, x);
    NotifiedMoves(fs, mid, k);
    assert Pushed(s, k, x) == mid.(stages := Notified(mid.stages, k));
  }

  lemma EndsRank<T>(fs: Stages<T>, s: State<T>, s': State<T>, k: nat)
    requires Fits(fs, s) && Ends(s, s', k)
    ensures Fits(fs, s') && Rank(fs, s') < Rank(fs, s)
  {
    hide Work, Poppers, Notified;
    var mid := s.(stages := s.stages[k := Done]);
    StageMoves(fs, s, k, Done);
    var stopped := mid.(queues := mid.queues[k + 1 := mid.queues[k + 1].(stopped := true)]);
    QueueMoves(fs, mid, k + 1, stopped.queues[k + 1]);
    NotifiedMoves(fs, stopped, k + 1);
    assert s' == stopped.(stages := Notified(stopped.stages, k + 1));
  }

  lemma InvFits<T>(fs: Stages<T>, s: State<T>)
    requires Inv(fs, s)
    ensures Fits(fs, s)
  {
  }

  /** Every step by which a thread gets on lowers the rank. */
  lemma ProgressLowersRank<T>(fs: Stages<T>, s: State<T>, s': State<T>)
    requires Inv(fs, s) && Progress(fs, s, s')
    ensures Fits(fs, s) && Fits(fs, s') && Rank(fs, s') < Rank(fs, s)
  {
    InvFits(fs, s);
    hide Inv, Fits, Rank, Reads, Pops, Emits, Ends;
    if Reads(s, s') {
      ReadsRank(fs, s, s');
    } else if k :| Pops(fs, s, s', k) {
      PopsRank(fs, s, s', k);
    } else if k :| Emits(s, s', k) {
      EmitsRank(fs, s, s', k);
    } else {
      var k :| Ends(s, s', k);
      EndsRank(fs, s, s', k);
    }
  }

  lemma WakeRaisesRankByOne<T>(fs: Stages<T>, s: State<T>, s': State<T>, k: nat)
    requires Fits(fs, s) && WakesSpuriously(s, s', k)
    ensures Fits(fs, s') && Rank(fs, s') == Rank(fs, s) + 1
  {
    hide Work, Poppers;
    StageMoves(fs, s, k, Popping);
  }

  lemma StepRank<T>(fs: Stages<T>, s: State<T>, s': State<T>)
    requires Inv(fs, s) && Step(fs, s, s')
    ensures Fits(fs, s) && Fits(fs, s')
    ensures Rank(fs, s') + 1 <= Rank(fs, s) + 2 * if Progress(fs, s, s') then 0 else 1
  {
    InvFits(fs, s);
    hide Inv, Fits, Rank, Progress, WakesSpuriously;
    if Progress(fs, s, s') {
      ProgressLowersRank(fs, s, s');
    } else {
      var k :| WakesSpuriously(s, s', k);
      WakeRaisesRankByOne(fs, s, s', k);
    }
  }

  // ---------------------------------------------------------------- every run ends

  /** How many of the first `n` steps are nothing but spurious wakeups. */
  ghost function Spurious<T>(fs: Stages<T>, run: seq<State<T>>, n: nat): nat
    requires n < |run|
  {
    if n == 0 then 0 else Spurious(fs, run, n - 1) + if Progress(fs, run[n - 1], run[n]) then 0 else 1
  }

  /** However the threads are interleaved, a run has at most as many steps as the rank of its first state says, and two
      more for every spurious wakeup. */
  lemma {:induction false} RunIsBounded<T>(fs: Stages<T>, run: seq<State<T>>, n: nat)
    requires IsRun(fs, run) && n < |run|
    ensures Fits(fs, run[0]) && Fits(fs, run[n])
    ensures Rank(fs, run[n]) + n <= Rank(fs, run[0]) + 2 * Spurious(fs, run, n)
  {
    hide Inv, Init, Rank, Progress, Step, Fits;
    EveryStateIsSafe(fs, run, n);
    InvFits(fs, run[n]);
    if n > 0 {
      RunIsBounded(fs, run, n - 1);
      EveryStateIsSafe(fs, run, n - 1);
      StepRank(fs, run[n - 1], run[n]);
    }
  }

  /** A run that cannot get on has finished: the future is ready and the output is the sequential output. */
  lemma EndsReady<T(!new)>(fs: Stages<T>, run: seq<State<T>>, n: nat)
    requires IsRun(fs, run) && n < |run| && !CanProgress(fs, run[n])
    ensures |run[n].queues| == |fs| + 1
    ensures run[n].queues[|fs|].stopped && run[n].queues[|fs|].pushed == Stream(fs, run[0].input, |fs|)
  {
    hide IsRun, CanProgress;
    OutputIsDeterministic(fs, run, n);
    if !run[n].queues[|fs|].stopped {
      NeverStuck(fs, run, n);
    }
  }

  // ---------------------------------------------------------------- the program

  lemma LineWork(line: string)
    ensures ItemWork(Program(), 0, line) <= 9
  {
    var fs := Program();
    assert ItemWork(fs, 3, Upper(line)) == 0;
    OneMore(fs, 3, Upper(line));
    assert ItemWork(fs, 2, Upper(line)) == 3;
    OneMore(fs, 2, Upper(line));
    assert ItemWork(fs, 1, line) == 6;
    OneMore(fs, 1, line);
  }

  lemma OneMore<T>(fs: Stages<T>, k: nat, x: T)
    requires k <= |fs|
    ensures OutWork(fs, k, [x]) == 1 + ItemWork(fs, k, x)
  {
    assert [x][1..] == [];
  }

  lemma {:induction false} LinesWork(lines: seq<string>)
    ensures OutWork(Program(), 0, lines) <= 10 * |lines|
  {
    hide ItemWork;
    if lines != [] {
      LineWork(lines[0]);
      LinesWork(lines[1..]);
    }
  }

  /** The program takes a number of steps linear in the number of lines. */
  lemma ProgramIsBounded(run: seq<State<string>>, n: nat)
    requires IsRun(Program(), run) && n < |run|
    ensures n <= 20 * |run[0].input| + 17 + 2 * Spurious(Program(), run, n)
  {
    hide Rank;
    RunIsBounded(Program(), run, n);
    hide Spurious;
    FirstRank(run[0]);
  }

  lemma FirstRank(s: State<string>)
    requires Init(Program(), s)
    ensures Fits(Program(), s) && Rank(Program(), s) <= 20 * |s.input| + 17
  {
    var fs := Program();
    LinesWork(s.input);
    assert s.input[0..] == s.input;
    SumOfEqual(QueueWorks(fs, s), 0);
    SumOfEqual(StageWorks(fs, s), 2);
    SumOfEqual(Poppers(s), 1);
    hide Sum, Program, OutWork;
  }
}
