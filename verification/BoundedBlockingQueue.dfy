/** Boost_Searcher/limonp/include/limonp/BoundedBlockingQueue.hpp: the blocking queue as a system of steps, one for each
    stretch of code a thread runs while it holds the mutex.

    A step starts where a thread acquires the mutex, on entry or after a wait, and ends where it releases
    it, on return or by waiting. `Notify` wakes at least one waiting thread if there is one, as
    `pthread_cond_signal` promises, and a waiting thread may also wake for no reason. */
module BoundedBlockingQueue {

  /** Where a thread stands: outside, asleep in one of the two waits, or woken and about to reacquire the mutex. */
  datatype Phase<T> =
    | Outside
    | PushAsleep(x: T)
    | PushWoken(x: T)
    | PopAsleep
    | PopWoken

  /** `pushed` and `popped` record all elements that ever went in and came out. */
  datatype Queue<T> = Queue(capacity: nat, items: seq<T>, threads: seq<Phase<T>>, pushed: seq<T>, popped: seq<T>)

  ghost predicate Init<T>(s: Queue<T>) {
    && s.capacity > 0
    && s.items == s.pushed == s.popped == []
    && forall t :: 0 <= t < |s.threads| ==> s.threads[t] == Outside
  }

  // ---------------------------------------------------------------- steps

  /** `notEmpty_.Notify()`: of the threads asleep in `Pop`, some wake: at least one, if any sleeps. */
  ghost predicate NotifyNotEmpty<T>(a: seq<Phase<T>>, b: seq<Phase<T>>) {
    && |a| == |b|
    && (forall t :: 0 <= t < |a| ==> b[t] == a[t] || (a[t].PopAsleep? && b[t].PopWoken?))
    && ((exists t :: 0 <= t < |a| && a[t].PopAsleep?) ==> exists t :: 0 <= t < |a| && a[t].PopAsleep? && b[t].PopWoken?)
  }

  ghost predicate NotifyNotFull<T>(a: seq<Phase<T>>, b: seq<Phase<T>>) {
    && |a| == |b|
    && (forall t :: 0 <= t < |a| ==> b[t] == a[t] || (a[t].PushAsleep? && b[t] == PushWoken(a[t].x)))
    && ((exists t :: 0 <= t < |a| && a[t].PushAsleep?) ==> exists t :: 0 <= t < |a| && a[t].PushAsleep? && b[t].PushWoken?)
  }

  /** Thread `t`, entering `Push(x)` or woken inside it, finds the queue full and waits. */
  ghost predicate PushWaits<T>(s: Queue<T>, s': Queue<T>, t: nat, x: T) {
    && t < |s.threads| && (s.threads[t] == Outside || s.threads[t] == PushWoken(x))
    && |s.items| == s.capacity
    && s' == s.(threads := s.threads[t := PushAsleep(x)])
  }

  /** Thread `t` pushes, notifies and returns. */
  ghost predicate PushDone<T>(s: Queue<T>, s': Queue<T>, t: nat, x: T) {
    && t < |s.threads| && (s.threads[t] == Outside || s.threads[t] == PushWoken(x))
    && |s.items| != s.capacity
    && s' == s.(items := s.items + [x], pushed := s.pushed + [x], threads := s'.threads)
    && NotifyNotEmpty(s.threads[t := Outside], s'.threads)
  }

  ghost predicate PopWaits<T>(s: Queue<T>, s': Queue<T>, t: nat) {
    && t < |s.threads| && (s.threads[t] == Outside || s.threads[t] == PopWoken)
    && s.items == []
    && s' == s.(threads := s.threads[t := PopAsleep])
  }

  /** Thread `t` takes the oldest element, notifies and returns it. */
  ghost predicate PopDone<T>(s: Queue<T>, s': Queue<T>, t: nat, x: T) {
    && t < |s.threads| && (s.threads[t] == Outside || s.threads[t] == PopWoken)
    && s.items != [] && x == s.items[0]
    && s' == s.(items := s.items[1..], popped := s.popped + [x], threads := s'.threads)
    && NotifyNotFull(s.threads[t := Outside], s'.threads)
  }

  /** Thread `t` wakes without having been notified. */
  ghost predicate Spurious<T>(s: Queue<T>, s': Queue<T>, t: nat) {
    && t < |s.threads|
    && match s.threads[t]
       case PushAsleep(x) => s' == s.(threads := s.threads[t := PushWoken(x)])
       case PopAsleep => s' == s.(threads := s.threads[t := PopWoken])
       case _ => false
  }

  datatype Label<T> =
    | LPushWaits(x: T) | LPushDone(x: T) | LPopWaits | LPopDone(x: T) | LSpurious

  ghost predicate Step<T>(s: Queue<T>, s': Queue<T>, t: nat, l: Label<T>) {
    match l
    case LPushWaits(x) => PushWaits(s, s', t, x)
    case LPushDone(x) => PushDone(s, s', t, x)
    case LPopWaits => PopWaits(s, s', t)
    case LPopDone(x) => PopDone(s, s', t, x)
    case LSpurious => Spurious(s, s', t)
  }

  // ---------------------------------------------------------------- counting threads

  function WokenPops<T>(threads: seq<Phase<T>>): nat {
    if threads == [] then 0 else (if threads[0].PopWoken? then 1 else 0) + WokenPops(threads[1..])
  }

  function WokenPushes<T>(threads: seq<Phase<T>>): nat {
    if threads == [] then 0 else (if threads[0].PushWoken? then 1 else 0) + WokenPushes(threads[1..])
  }

  ghost predicate PopSleeps<T>(threads: seq<Phase<T>>) {
    exists t :: 0 <= t < |threads| && threads[t].PopAsleep?
  }

  ghost predicate PushSleeps<T>(threads: seq<Phase<T>>) {
    exists t :: 0 <= t < |threads| && threads[t].PushAsleep?
  }

  lemma {:induction false} WokenUpdate<T>(a: seq<Phase<T>>, t: nat, p: Phase<T>)
    requires t < |a|
    ensures WokenPops(a[t := p]) == WokenPops(a) + (if p.PopWoken? then 1 else 0) - (if a[t].PopWoken? then 1 else 0)
    ensures WokenPushes(a[t := p]) == WokenPushes(a) + (if p.PushWoken? then 1 else 0) - (if a[t].PushWoken? then 1 else 0)
  {
    if t == 0 {
      assert a[t := p][1..] == a[1..];
    } else {
      WokenUpdate(a[1..], t - 1, p);
      assert a[t := p][1..] == a[1..][t - 1 := p];
    }
  }

  /** A notification never lowers a count of woken threads, and raises its own if it woke someone. */
  lemma {:induction false} WokenGrows<T>(a: seq<Phase<T>>, b: seq<Phase<T>>)
    requires |a| == |b|
    requires forall t :: 0 <= t < |a| ==> b[t] == a[t] || (a[t].PopAsleep? && b[t].PopWoken?) || (a[t].PushAsleep? && b[t].PushWoken?)
    ensures WokenPops(a) <= WokenPops(b) && WokenPushes(a) <= WokenPushes(b)
    ensures (exists t :: 0 <= t < |a| && a[t].PopAsleep? && b[t].PopWoken?) ==> WokenPops(a) < WokenPops(b)
    ensures (exists t :: 0 <= t < |a| && a[t].PushAsleep? && b[t].PushWoken?) ==> WokenPushes(a) < WokenPushes(b)
  {
    if a != [] {
      WokenGrows(a[1..], b[1..]);
      if t :| 0 <= t < |a| && a[t].PopAsleep? && b[t].PopWoken? && t > 0 {
        assert a[1..][t - 1].PopAsleep? && b[1..][t - 1].PopWoken?;
      }
      if t :| 0 <= t < |a| && a[t].PushAsleep? && b[t].PushWoken? && t > 0 {
        assert a[1..][t - 1].PushAsleep? && b[1..][t - 1].PushWoken?;
      }
    }
  }

  // ---------------------------------------------------------------- the invariant

  /** No wakeup is lost: while a consumer sleeps there is no more in the queue than woken consumers will take,
      and while a producer sleeps there is no more room than woken producers will fill. */
  ghost predicate NoLostWakeup<T>(s: Queue<T>) {
    && (PopSleeps(s.threads) ==> |s.items| <= WokenPops(s.threads))
    && (PushSleeps(s.threads) ==> s.capacity - |s.items| <= WokenPushes(s.threads))
  }

  ghost predicate Inv<T>(s: Queue<T>) {
    && s.capacity > 0 && |s.items| <= s.capacity
    && s.pushed == s.popped + s.items
    && NoLostWakeup(s)
  }

  lemma {:induction false} PushKeepsInv<T>(s: Queue<T>, s': Queue<T>, t: nat, x: T)
    requires Inv(s) && (PushWaits(s, s', t, x) || PushDone(s, s', t, x))
    ensures Inv(s')
  {
    if PushWaits(s, s', t, x) {
      WokenUpdate(s.threads, t, PushAsleep(x));
      assert PopSleeps(s'.threads) ==> PopSleeps(s.threads);
    } else {
      var mid := s.threads[t := Outside];
      WokenUpdate(s.threads, t, Outside);
      WokenGrows(mid, s'.threads);
      assert s'.pushed == s'.popped + s'.items;
      if PopSleeps(s'.threads) {
        var k :| 0 <= k < |mid| && s'.threads[k].PopAsleep?;
        assert mid[k].PopAsleep? && s.threads[k].PopAsleep?;
      }
      if PushSleeps(s'.threads) {
        var k :| 0 <= k < |mid| && s'.threads[k].PushAsleep?;
        assert s.threads[k].PushAsleep?;
      }
    }
  }

  lemma {:induction false} PopWaitsKeepsInv<T>(s: Queue<T>, s': Queue<T>, t: nat)
    requires Inv(s) && PopWaits(s, s', t)
    ensures Inv(s')
  {
    WokenUpdate(s.threads, t, PopAsleep);
    assert PushSleeps(s'.threads) ==> PushSleeps(s.threads);
  }

  lemma {:induction false} PopDoneKeepsInv<T>(s: Queue<T>, s': Queue<T>, t: nat, x: T)
    requires Inv(s) && PopDone(s, s', t, x)
    ensures Inv(s')
  {
    var mid := s.threads[t := Outside];
    WokenUpdate(s.threads, t, Outside);
    WokenGrows(mid, s'.threads);
    assert s'.pushed == s'.popped + s'.items;
    if PopSleeps(s'.threads) {
      var k :| 0 <= k < |mid| && s'.threads[k].PopAsleep?;
      assert s.threads[k].PopAsleep?;
    }
    if PushSleeps(s'.threads) {
      var k :| 0 <= k < |mid| && s'.threads[k].PushAsleep?;
      assert mid[k].PushAsleep? && s.threads[k].PushAsleep?;
    }
  }

  lemma {:induction false} SpuriousKeepsInv<T>(s: Queue<T>, s': Queue<T>, t: nat)
    requires Inv(s) && Spurious(s, s', t)
    ensures Inv(s')
  {
    WokenUpdate(s.threads, t, s'.threads[t]);
    if PopSleeps(s'.threads) {
      var k :| 0 <= k < |s'.threads| && s'.threads[k].PopAsleep?;
      assert s.threads[k].PopAsleep?;
    }
    if PushSleeps(s'.threads) {
      var k :| 0 <= k < |s'.threads| && s'.threads[k].PushAsleep?;
      assert s.threads[k].PushAsleep?;
    }
  }

  lemma StepKeepsInv<T>(s: Queue<T>, s': Queue<T>, t: nat, l: Label<T>)
    requires Inv(s) && Step(s, s', t, l)
    ensures Inv(s')
  {
    match l
    case LPushWaits(x) => PushKeepsInv(s, s', t, x);
    case LPushDone(x) => PushKeepsInv(s, s', t, x);
    case LPopWaits => PopWaitsKeepsInv(s, s', t);
    case LPopDone(x) => PopDoneKeepsInv(s, s', t, x);
    case LSpurious => SpuriousKeepsInv(s, s', t);
  }

  // ---------------------------------------------------------------- every run

  ghost predicate Linked<T(!new)>(s: Queue<T>, s': Queue<T>) {
    exists t, l :: Step(s, s', t, l)
  }

  /** A run: states linked by steps of some thread, under any interleaving. */
  ghost predicate IsRun<T(!new)>(run: seq<Queue<T>>) {
    && run != [] && Init(run[0])
    && forall i :: 0 < i < |run| ==> Linked(run[i - 1], run[i])
  }

  lemma {:induction false} EveryStateIsSafe<T(!new)>(run: seq<Queue<T>>, i: nat)
    requires IsRun(run) && i < |run|
    ensures Inv(run[i])
  {
    if i > 0 {
      EveryStateIsSafe(run, i - 1);
      var t, l :| Step(run[i - 1], run[i], t, l);
      StepKeepsInv(run[i - 1], run[i], t, l);
    }
  }

  /** Elements come out in the order in which they went in, and none is lost or made up. */
  lemma FirstInFirstOut<T(!new)>(run: seq<Queue<T>>, i: nat)
    requires IsRun(run) && i < |run|
    ensures run[i].popped <= run[i].pushed
    ensures run[i].items == run[i].pushed[|run[i].popped|..]
    ensures |run[i].items| <= run[i].capacity
  {
    EveryStateIsSafe(run, i);
  }

  lemma {:induction false} NobodyWoken<T>(threads: seq<Phase<T>>)
    requires forall t :: 0 <= t < |threads| ==> !threads[t].PopWoken? && !threads[t].PushWoken?
    ensures WokenPops(threads) == 0 && WokenPushes(threads) == 0
  {
    if threads != [] {
      NobodyWoken(threads[1..]);
    }
  }

  /** If nobody is about to run, a consumer sleeps only because the queue is empty and a producer only because
      it is full: so never both. */
  lemma NeverAllAsleep<T(!new)>(run: seq<Queue<T>>, i: nat)
    requires IsRun(run) && i < |run|
    requires forall t :: 0 <= t < |run[i].threads| ==> !run[i].threads[t].PopWoken? && !run[i].threads[t].PushWoken?
    ensures forall t :: 0 <= t < |run[i].threads| && run[i].threads[t].PopAsleep? ==> run[i].items == []
    ensures forall t :: 0 <= t < |run[i].threads| && run[i].threads[t].PushAsleep? ==> |run[i].items| == run[i].capacity > 0
  {
    EveryStateIsSafe(run, i);
    NobodyWoken(run[i].threads);
  }
}
