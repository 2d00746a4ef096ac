/** Boost_Searcher/data/input/boost_asio/example/cpp11/executors/pipeline.cpp: stages on threads of their own, joined by queues that
    are stopped when their producer is done, as a system of steps.

    There may be any number of stages. Stage `k` pops from queue `k` and pushes to queue `k + 1`; each step is one
    critical section of one queue's mutex. What the last stage pushes is what it prints, and stopping the last
    queue is making the future ready. */
module Pipeline {

  /** `pushed` and `taken` record all that ever went into and came out of the queue. */
  datatype Queue<T> = Queue(items: seq<T>, stopped: bool, pushed: seq<T>, taken: seq<T>)

  /** A stage pops, waits in `pop`, pushes what it made of the last item, returns and stops its output, or is done. */
  datatype Phase<T> = Popping | Asleep | Emitting(out: seq<T>) | Returned | Done

  datatype State<T> = State(input: seq<T>, queues: seq<Queue<T>>, stages: seq<Phase<T>>)

  /** What each stage makes of one item: what `filter`, `upper` or `writer` pushes or prints for it. */
  type Stages<!T> = seq<T -> seq<T>>

  ghost predicate Init<T>(fs: Stages<T>, s: State<T>) {
    && |s.stages| == |fs| && |s.queues| == |fs| + 1
    && (forall k :: 0 <= k < |s.stages| ==> s.stages[k] == Popping)
    && (forall k :: 0 <= k < |s.queues| ==> s.queues[k] == Queue([], false, [], []))
  }

  // ---------------------------------------------------------------- steps

  /** `notify_one` on queue `k`: its only consumer is stage `k`. */
  function Notified<T>(stages: seq<Phase<T>>, k: nat): seq<Phase<T>> {
    if k < |stages| && stages[k] == Asleep then stages[k := Popping] else stages
  }

  function Pushed<T>(s: State<T>, k: nat, x: T): State<T>
    requires k < |s.queues|
  {
    var q := s.queues[k];
    s.(queues := s.queues[k := q.(items := q.items + [x], pushed := q.pushed + [x])], stages := Notified(s.stages, k))
  }

  function Stopped<T>(s: State<T>, k: nat): State<T>
    requires k < |s.queues|
  {
    s.(queues := s.queues[k := s.queues[k].(stopped := true)], stages := Notified(s.stages, k))
  }

  /** The reader pushes the next line, or stops the first queue behind the last one. */
  ghost predicate Reads<T>(s: State<T>, s': State<T>) {
    && s.queues != [] && !s.queues[0].stopped
    && var n := |s.queues[0].pushed|;
       s' == if n < |s.input| then Pushed(s, 0, s.input[n]) else Stopped(s, 0)
  }

  /** `queue_back::pop`: takes an item, fails if the queue is stopped and empty, or waits. */
  ghost predicate Pops<T>(fs: Stages<T>, s: State<T>, s': State<T>, k: nat) {
    && k < |s.stages| && k < |fs| && k < |s.queues| && s.stages[k] == Popping
    && var q := s.queues[k];
       s' ==
       if q.items != [] then
         s.(queues := s.queues[k := q.(items := q.items[1..], taken := q.taken + [q.items[0]])],
            stages := s.stages[k := Emitting(fs[k](q.items[0]))])
       else if q.stopped then s.(stages := s.stages[k := Returned])
       else s.(stages := s.stages[k := Asleep])
  }

  /** Pushes one item, or goes back to popping when there is nothing left to push. */
  ghost predicate Emits<T>(s: State<T>, s': State<T>, k: nat) {
    && k < |s.stages| && k + 1 < |s.queues| && s.stages[k].Emitting?
    && var out := s.stages[k].out;
       s' == if out == [] then s.(stages := s.stages[k := Popping])
             else Pushed(s.(stages := s.stages[k := Emitting(out[1..])]), k + 1, out[0])
  }

  /** The stage's function has returned; its output is stopped. */
  ghost predicate Ends<T>(s: State<T>, s': State<T>, k: nat) {
    && k < |s.stages| && k + 1 < |s.queues| && s.stages[k] == Returned
    && s' == Stopped(s.(stages := s.stages[k := Done]), k + 1)
  }

  ghost predicate WakesSpuriously<T>(s: State<T>, s': State<T>, k: nat) {
    k < |s.stages| && s.stages[k] == Asleep && s' == s.(stages := s.stages[k := Popping])
  }

  /** A step by which some thread gets on. */
  ghost predicate Progress<T>(fs: Stages<T>, s: State<T>, s': State<T>) {
    || Reads(s, s')
    || (exists k :: Pops(fs, s, s', k))
    || (exists k :: Emits(s, s', k))
    || (exists k :: Ends(s, s', k))
  }

  ghost predicate Step<T>(fs: Stages<T>, s: State<T>, s': State<T>) {
    Progress(fs, s, s') || exists k :: WakesSpuriously(s, s', k)
  }

  // ---------------------------------------------------------------- the sequential meaning

  /** All that a stage makes of a sequence of items. */
  function Through<T>(f: T -> seq<T>, items: seq<T>): seq<T> {
    if items == [] then [] else Through(f, items[..|items| - 1]) + f(items[|items| - 1])
  }

  /** What flows into queue `k`, if every stage before it runs to its end before the next begins. */
  function Stream<T>(fs: Stages<T>, input: seq<T>, k: nat): seq<T>
    requires k <= |fs|
  {
    if k == 0 then input else Through(fs[k - 1], Stream(fs, input, k - 1))
  }

  // ---------------------------------------------------------------- the invariant

  /** What stage `k` has still to push for the item in hand. */
  function Pending<T>(p: Phase<T>): seq<T> {
    if p.Emitting? then p.out else []
  }

  ghost predicate QueueOk<T>(s: State<T>, k: nat)
    requires k < |s.queues|
  {
    s.queues[k].pushed == s.queues[k].taken + s.queues[k].items
  }

  ghost predicate StageOk<T>(fs: Stages<T>, s: State<T>, k: nat)
    requires k < |s.stages| && k < |fs| && k + 1 < |s.queues|
  {
    var q, next, p := s.queues[k], s.queues[k + 1], s.stages[k];
    && Through(fs[k], q.taken) == next.pushed + Pending(p)
    && (p == Done <==> next.stopped)
    && (p == Done || p == Returned ==> q.stopped && q.items == [])
    && (p == Asleep ==> q.items == [] && !q.stopped)
  }

  ghost predicate ReaderOk<T>(s: State<T>)
    requires s.queues != []
  {
    var q := s.queues[0];
    q.pushed <= s.input && (q.stopped ==> q.pushed == s.input)
  }

  ghost predicate Inv<T>(fs: Stages<T>, s: State<T>) {
    && |s.stages| == |fs| && |s.queues| == |fs| + 1
    && ReaderOk(s)
    && (forall k :: 0 <= k < |s.queues| ==> QueueOk(s, k))
    && (forall k :: 0 <= k < |fs| ==> StageOk(fs, s, k))
  }

  lemma InitInv<T>(fs: Stages<T>, s: State<T>)
    requires Init(fs, s)
    ensures Inv(fs, s)
  {
  }

  lemma ThroughSnoc<T>(f: T -> seq<T>, items: seq<T>, x: T)
    ensures Through(f, items + [x]) == Through(f, items) + f(x)
  {
    assert (items + [x])[..|items|] == items;
  }

  lemma ReadsKeepsInv<T>(fs: Stages<T>, s: State<T>, s': State<T>)
    requires Inv(fs, s) && Reads(s, s')
    ensures Inv(fs, s')
  {
    hide Through;
    forall k | 0 <= k < |fs|
      ensures StageOk(fs, s', k)
    {
      assert StageOk(fs, s, k);
    }
    forall k | 0 <= k < |s'.queues|
      ensures QueueOk(s', k)
    {
      assert QueueOk(s, k);
    }
  }

  lemma PopsKeepsInv<T>(fs: Stages<T>, s: State<T>, s': State<T>, i: nat)
    requires Inv(fs, s) && Pops(fs, s, s', i)
    ensures Inv(fs, s')
  {
    hide Through;
    assert StageOk(fs, s, i) && QueueOk(s, i);
    if s.queues[i].items != [] {
      ThroughSnoc(fs[i], s.queues[i].taken, s.queues[i].items[0]);
    }
    forall k | 0 <= k < |fs|
      ensures StageOk(fs, s', k)
    {
      assert StageOk(fs, s, k);
    }
    forall k | 0 <= k < |s'.queues|
      ensures QueueOk(s', k)
    {
      assert QueueOk(s, k);
    }
  }

  lemma EmitsKeepsInv<T>(fs: Stages<T>, s: State<T>, s': State<T>, i: nat)
    requires Inv(fs, s) && Emits(s, s', i)
    ensures Inv(fs, s')
  {
    hide Through;
    assert StageOk(fs, s, i);
    if s.stages[i].out != [] {
      PushedIs(s.(stages := s.stages[i := Emitting(s.stages[i].out[1..])]), i + 1, s.stages[i].out[0]);
    }
    hide Pushed, Notified;
    forall k | 0 <= k < |fs|
      ensures StageOk(fs, s', k)
    {
      assert StageOk(fs, s, k);
      if k == i {
        assert s'.queues[k] == s.queues[k];
      } else if k == i + 1 {
        assert s'.queues[k + 1] == s.queues[k + 1];
      } else {
        assert s'.queues[k] == s.queues[k] && s'.queues[k + 1] == s.queues[k + 1] && s'.stages[k] == s.stages[k];
      }
    }
    forall k | 0 <= k < |s'.queues|
      ensures QueueOk(s', k)
    {
      assert QueueOk(s, k);
    }
  }

  /** Pushing changes the queue and wakes its consumer. */
  lemma PushedIs<T>(s: State<T>, k: nat, x: T)
    requires k < |s.queues|
    ensures var s' := Pushed(s, k, x);
            var q := s.queues[k];
            && s'.input == s.input && s'.queues == s.queues[k := q.(items := q.items + [x], pushed := q.pushed + [x])]
            && |s'.stages| == |s.stages|
            && forall j :: 0 <= j < |s.stages| ==>
                 s'.stages[j] == if j == k && s.stages[j] == Asleep then Popping else s.stages[j]
  {
  }

  lemma EndsKeepsInv<T>(fs: Stages<T>, s: State<T>, s': State<T>, i: nat)
    requires Inv(fs, s) && (Ends(s, s', i) || WakesSpuriously(s, s', i))
    ensures Inv(fs, s')
  {
    hide Through;
    assert StageOk(fs, s, i);
    forall k | 0 <= k < |fs|
      ensures StageOk(fs, s', k)
    {
      assert StageOk(fs, s, k);
    }
    forall k | 0 <= k < |s'.queues|
      ensures QueueOk(s', k)
    {
      assert QueueOk(s, k);
    }
  }

  lemma StepKeepsInv<T>(fs: Stages<T>, s: State<T>, s': State<T>)
    requires Inv(fs, s) && Step(fs, s, s')
    ensures Inv(fs, s')
  {
    hide Inv, Reads, Pops, Emits, Ends, WakesSpuriously;
    if Reads(s, s') {
      ReadsKeepsInv(fs, s, s');
    } else if k :| Pops(fs, s, s', k) {
      PopsKeepsInv(fs, s, s', k);
    } else if k :| Emits(s, s', k) {
      EmitsKeepsInv(fs, s, s', k);
    } else if k :| Ends(s, s', k) {
      EndsKeepsInv(fs, s, s', k);
    } else {
      var k :| WakesSpuriously(s, s', k);
      EndsKeepsInv(fs, s, s', k);
    }
  }

  // ---------------------------------------------------------------- every run

  ghost predicate IsRun<T>(fs: Stages<T>, run: seq<State<T>>) {
    && run != [] && Init(fs, run[0])
    && forall i :: 0 < i < |run| ==> Step(fs, run[i - 1], run[i])
  }

  lemma {:induction false} EveryStateIsSafe<T>(fs: Stages<T>, run: seq<State<T>>, i: nat)
    requires IsRun(fs, run) && i < |run|
    ensures Inv(fs, run[i]) && run[i].input == run[0].input
  {
    hide Init, Inv;
    if i == 0 {
      InitInv(fs, run[0]);
    } else {
      EveryStateIsSafe(fs, run, i - 1);
      StepKeepsInv(fs, run[i - 1], run[i]);
    }
  }

  lemma {:induction false} ThroughPrefix<T>(f: T -> seq<T>, a: seq<T>, b: seq<T>)
    requires a <= b
    ensures Through(f, a) <= Through(f, b)
    decreases |b|
  {
    if |a| < |b| {
      ThroughPrefix(f, a, b[..|b| - 1]);
    } else {
      assert a == b;
    }
  }

  /** At every moment what has gone into a queue is the beginning of its sequential stream, and all of it once
      the queue is stopped. */
  lemma {:induction false} QueueFollowsStream<T>(fs: Stages<T>, s: State<T>, k: nat)
    requires Inv(fs, s) && k <= |fs|
    ensures s.queues[k].pushed <= Stream(fs, s.input, k)
    ensures s.queues[k].stopped ==> s.queues[k].pushed == Stream(fs, s.input, k)
  {
    if k > 0 {
      hide Through;
      QueueFollowsStream(fs, s, k - 1);
      assert StageOk(fs, s, k - 1) && QueueOk(s, k - 1);
      var q := s.queues[k - 1];
      ThroughPrefix(fs[k - 1], q.taken, Stream(fs, s.input, k - 1));
      assert q.items == [] ==> q.taken + q.items == q.taken;
    }
  }

  /** Every interleaving is sequential in effect: what the last stage has printed is always the beginning of the
      sequential output, and all of it when the future is ready. */
  lemma OutputIsDeterministic<T>(fs: Stages<T>, run: seq<State<T>>, i: nat)
    requires IsRun(fs, run) && i < |run|
    ensures |run[i].queues| == |fs| + 1
    ensures var sink := run[i].queues[|fs|];
            && sink.pushed <= Stream(fs, run[0].input, |fs|)
            && (sink.stopped ==> sink.pushed == Stream(fs, run[0].input, |fs|))
  {
    EveryStateIsSafe(fs, run, i);
    QueueFollowsStream(fs, run[i], |fs|);
  }

  /** `pop` fails only on a queue that is stopped and empty, and then the stage has seen all its input. */
  lemma PopFailsOnlyAtTheEnd<T>(fs: Stages<T>, run: seq<State<T>>, i: nat, k: nat)
    requires IsRun(fs, run) && i < |run| && k < |fs|
    requires |run[i].stages| == |fs| && (run[i].stages[k] == Returned || run[i].stages[k] == Done)
    ensures |run[i].queues| == |fs| + 1
    ensures run[i].queues[k].stopped && run[i].queues[k].items == []
    ensures run[i].queues[k].taken == Stream(fs, run[0].input, k)
  {
    EveryStateIsSafe(fs, run, i);
    QueueFollowsStream(fs, run[i], k);
    assert StageOk(fs, run[i], k) && QueueOk(run[i], k);
    var q := run[i].queues[k];
    assert q.taken + [] == q.taken;
  }

  // ---------------------------------------------------------------- no deadlock

  ghost predicate CanProgress<T(!new)>(fs: Stages<T>, s: State<T>) {
    exists s' :: Progress(fs, s, s')
  }

  /** The first stage that is not done. */
  function FirstBusy<T>(stages: seq<Phase<T>>, k: nat): (r: nat)
    requires k <= |stages|
    ensures k <= r <= |stages|
    ensures forall i :: k <= i < r ==> stages[i].Done?
    ensures r < |stages| ==> !stages[r].Done?
    decreases |stages| - k
  {
    if k == |stages| || !stages[k].Done? then k else FirstBusy(stages, k + 1)
  }

  /** Until the future is ready some thread can get on: no notification is lost and nothing deadlocks. */
  lemma NeverStuck<T(!new)>(fs: Stages<T>, run: seq<State<T>>, i: nat)
    requires IsRun(fs, run) && i < |run|
    requires |run[i].queues| == |fs| + 1 && !run[i].queues[|fs|].stopped
    ensures CanProgress(fs, run[i])
  {
    EveryStateIsSafe(fs, run, i);
    hide IsRun, Through;
    var s := run[i];
    if !s.queues[0].stopped {
      var n := |s.queues[0].pushed|;
      var s' := if n < |s.input| then Pushed(s, 0, s.input[n]) else Stopped(s, 0);
      assert Reads(s, s');
      assert Progress(fs, s, s');
    } else {
      var k := FirstBusy(s.stages, 0);
      if k > 0 {
        assert StageOk(fs, s, k - 1);
      }
      if k < |fs| {
        StageProgresses(fs, s, k);
      }
    }
  }

  lemma StageProgresses<T(!new)>(fs: Stages<T>, s: State<T>, k: nat)
    requires Inv(fs, s) && k < |fs| && s.queues[k].stopped && !s.stages[k].Done?
    ensures CanProgress(fs, s)
  {
    hide Through;
    assert StageOk(fs, s, k);
    var q := s.queues[k];
    match s.stages[k]
    case Popping =>
      var s' := if q.items != [] then
        s.(queues := s.queues[k := q.(items := q.items[1..], taken := q.taken + [q.items[0]])],
           stages := s.stages[k := Emitting(fs[k](q.items[0]))])
      else s.(stages := s.stages[k := Returned]);
      assert Pops(fs, s, s', k);
      assert Progress(fs, s, s');
    case Emitting(out) =>
      var s' := if out == [] then s.(stages := s.stages[k := Popping])
        else Pushed(s.(stages := s.stages[k := Emitting(out[1..])]), k + 1, out[0]);
      assert Emits(s, s', k);
      assert Progress(fs, s, s');
    case Returned =>
      var s' := Stopped(s.(stages := s.stages[k := Done]), k + 1);
      assert Ends(s, s', k);
      assert Progress(fs, s, s');
  }

  // ---------------------------------------------------------------- the program

  /** `std::toupper` in the C locale. */
  function ToUpper(c: char): (r: char)
    ensures 'a' <= c <= 'z' ==> r as int == c as int - 32
    ensures c < 'a' || 'z' < c ==> r == c
  {
    if 'a' <= c <= 'z' then c - 'a' + 'A' else c
  }

  function Upper(line: string): (r: string)
    ensures |r| == |line|
    ensures forall i :: 0 <= i < |r| ==> r[i] == ToUpper(line[i])
  {
    seq(|line|, i requires 0 <= i < |line| => ToUpper(line[i]))
  }

  function FilterStage(line: string): seq<string> {
    if |line| > 5 then [line] else []
  }

  function UpperStage(line: string): seq<string> {
    [Upper(line)]
  }

  /** The number printed in front of a line is its position in the output. */
  function WriterStage(line: string): seq<string> {
    [line]
  }

  function Program(): (fs: Stages<string>)
    ensures |fs| == 3
  {
    [FilterStage, UpperStage, WriterStage]
  }

  /** The input lines longer than five characters, in upper case and in order. */
  function LongLinesInUpperCase(lines: seq<string>): seq<string> {
    if lines == [] then []
    else
      var last := lines[|lines| - 1];
      LongLinesInUpperCase(lines[..|lines| - 1]) + (if |last| > 5 then [Upper(last)] else [])
  }

  /** The lines longer than five characters in front of line `i`. */
  ghost function LongBefore(lines: seq<string>, i: nat): set<int>
    requires i <= |lines|
  {
    set j | 0 <= j < i && |lines[j]| > 5
  }

  lemma LongBeforePrefix(lines: seq<string>, i: nat)
    requires i < |lines|
    ensures LongBefore(lines[..|lines| - 1], i) == LongBefore(lines, i)
  {
  }

  lemma LongBeforeNext(lines: seq<string>, i: nat)
    requires i < |lines|
    ensures |LongBefore(lines, i + 1)| == |LongBefore(lines, i)| + if |lines[i]| > 5 then 1 else 0
  {
    assert LongBefore(lines, i + 1) == LongBefore(lines, i) + if |lines[i]| > 5 then {i} else {};
  }

  /** As many lines come out as are longer than five characters. */
  lemma {:induction false} LongLinesCounted(lines: seq<string>)
    ensures |LongLinesInUpperCase(lines)| == |LongBefore(lines, |lines|)|
  {
    hide LongBefore;
    if lines == [] {
      NoneBefore(lines);
    } else {
      var n := |lines| - 1;
      LongLinesCounted(lines[..n]);
      LongBeforePrefix(lines, n);
      LongBeforeNext(lines, n);
    }
  }

  lemma NoneBefore(lines: seq<string>)
    ensures LongBefore(lines, 0) == {}
  {
  }

  /** A line longer than five characters comes out behind all those in front of it, with its small letters made capitals. */
  lemma {:induction false} LongLineComesOut(lines: seq<string>, i: nat)
    requires i < |lines| && |lines[i]| > 5
    ensures |LongBefore(lines, i)| < |LongLinesInUpperCase(lines)|
    ensures var out, line := LongLinesInUpperCase(lines)[|LongBefore(lines, i)|], lines[i];
            && |out| == |line|
            && forall k :: 0 <= k < |line| ==> out[k] as int == line[k] as int - if 97 <= line[k] as int <= 122 then 32 else 0
  {
    hide LongBefore;
    var n := |lines| - 1;
    LongBeforePrefix(lines, i);
    if i < n {
      LongLineComesOut(lines[..n], i);
    } else {
      LongLinesCounted(lines[..n]);
    }
  }

  lemma {:induction false} ProgramMeaning(lines: seq<string>)
    ensures Through(WriterStage, Through(UpperStage, Through(FilterStage, lines))) == LongLinesInUpperCase(lines)
  {
    if lines != [] {
      var n := |lines| - 1;
      ProgramMeaning(lines[..n]);
      var kept := Through(FilterStage, lines[..n]);
      if |lines[n]| > 5 {
        ThroughSnoc(UpperStage, kept, lines[n]);
        ThroughSnoc(WriterStage, Through(UpperStage, kept), Upper(lines[n]));
      } else {
        assert kept + [] == kept;
      }
    }
  }

  /** When `main` has waited for the future, the writer has printed exactly the long lines in upper case. */
  lemma ProgramOutput(run: seq<State<string>>, i: nat)
    requires IsRun(Program(), run) && i < |run|
    ensures |run[i].queues| == 4
    ensures run[i].queues[3].stopped ==> run[i].queues[3].pushed == LongLinesInUpperCase(run[0].input)
  {
    hide IsRun, Through, LongLinesInUpperCase;
    var fs := Program();
    OutputIsDeterministic(fs, run, i);
    ProgramMeaning(run[0].input);
    assert Stream(fs, run[0].input, 1) == Through(FilterStage, run[0].input);
    assert Stream(fs, run[0].input, 2) == Through(UpperStage, Stream(fs, run[0].input, 1));
    assert Stream(fs, run[0].input, 3) == Through(WriterStage, Stream(fs, run[0].input, 2));
  }
}
