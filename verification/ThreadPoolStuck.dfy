/** Boost_Searcher/limonp/include/limonp/ThreadPool.hpp: when the pool can come to a standstill. The queue holds only as many elements as
    there are workers, so closures that call `Add` can fill it and wait for room that no worker will make. */
module ThreadPoolStuck {
  import opened Wrappers
  import opened ThreadPool
  import Q = BoundedBlockingQueue

  /** Every thread, all the workers among them, waits for room in the queue before `Stop`. */
  ghost predicate AllWaitForRoom(p: Pool) {
    p.owner == Serving && forall t :: 0 <= t < |p.queue.threads| ==> p.queue.threads[t].PushAsleep?
  }

  lemma AwakeAdderProgresses(p: Pool, t: nat, task: nat)
    requires p.owner == Serving && t < |p.queue.threads| && (t < |p.workers| ==> p.workers[t].Running?)
    requires p.queue.threads[t] == Q.Outside || p.queue.threads[t] == Q.PushWoken(Some(task))
    ensures CanProgress(p)
  {
    hide Q.NotifyNotEmpty;
    var q := p.queue;
    var q';
    if |q.items| == q.capacity {
      q' := q.(threads := q.threads[t := Q.PushAsleep(Some(task))]);
      assert Q.PushWaits(q, q', t, Some(task));
    } else {
      q' := q.(items := q.items + [Some(task)], pushed := q.pushed + [Some(task)],
               threads := AllConsumersAwake(q.threads[t := Q.Outside]));
      assert Q.PushDone(q, q', t, Some(task));
    }
    assert Adds(p, p.(queue := q'), t, task);
    assert Progress(p, p.(queue := q'));
  }

  lemma StoppedProgresses(p: Pool)
    requires Inv(p) && p.owner == Stopped
    ensures CanProgress(p)
  {
    ClearedIsQuiet(p);
    assert StopBegins(p, p.(owner := Pushing(0)));
    assert Progress(p, p.(owner := Pushing(0)));
  }

  /** The next step of a thread that is not asleep, if the pool still serves. */
  lemma AwakeThreadProgresses(p: Pool, t: nat)
    requires Inv(p) && p.owner == Serving && t < |p.queue.threads|
    requires !p.queue.threads[t].PushAsleep? && !p.queue.threads[t].PopAsleep? && (t < |p.workers| ==> p.workers[t] != Done)
    ensures CanProgress(p)
  {
    hide CanProgress, Q.Inv, NullsLast, Nulls, Tasks, Dones, InHand;
    if t < |p.workers| {
      assert WorkerPhase(p, t);
      if p.workers[t] == Ready {
        AwakeWorkerProgresses(p, t);
      } else if p.queue.threads[t] == Q.Outside {
        RunningWorkerProgresses(p, t);
      } else {
        AwakeAdderProgresses(p, t, p.queue.threads[t].x.value);
      }
    } else {
      assert ClientPhase(p, t);
      AwakeAdderProgresses(p, t, if p.queue.threads[t] == Q.Outside then 0 else p.queue.threads[t].x.value);
    }
  }

  /** With nobody awake before `Stop`, the sleeping owner means a full queue, and so no worker sleeps in `Pop`. */
  lemma AllAsleepMeansAllWait(p: Pool)
    requires Inv(p) && p.owner == Serving
    requires forall t :: 0 <= t < |p.queue.threads| ==> p.queue.threads[t].PushAsleep? || p.queue.threads[t].PopAsleep?
    ensures AllWaitForRoom(p)
  {
    hide NullsLast, Nulls, Tasks, Dones, InHand;
    Q.NobodyWoken(p.queue.threads);
    assert ClientPhase(p, |p.workers|);
    assert Q.PushSleeps(p.queue.threads);
    assert !Q.PopSleeps(p.queue.threads);
  }

  lemma NobodyDone(p: Pool)
    requires Inv(p) && p.owner == Serving
    ensures forall i :: 0 <= i < |p.workers| ==> p.workers[i] != Done
  {
    Conserved(p);
    DonesZero(p.workers);
  }

  lemma {:induction false} DonesZero(ws: seq<Worker>)
    requires Dones(ws) == 0
    ensures forall i :: 0 <= i < |ws| ==> ws[i] != Done
  {
    if ws != [] {
      DonesZero(ws[1..]);
    }
  }

  lemma WaitingMeansStuck(p: Pool)
    requires Inv(p) && AllWaitForRoom(p)
    ensures !CanProgress(p)
  {
    forall p'
      ensures !Progress(p, p')
    {
      NoStepFromWaiting(p, p');
    }
  }

  lemma NoStepFromWaiting(p: Pool, p': Pool)
    requires Inv(p) && AllWaitForRoom(p)
    ensures !Progress(p, p')
  {
    hide Q.Inv, NullsLast, Nulls, Tasks, Dones, InHand;
    assert p.queue.threads[0].PushAsleep?;
  }

  lemma NotWaitingMeansProgress(p: Pool)
    requires Inv(p) && !AllWaitForRoom(p)
    ensures CanProgress(p)
  {
    hide CanProgress, Q.Inv, NullsLast, Nulls, Tasks, Dones, InHand, AllWaitForRoom;
    if p.owner == Stopped {
      StoppedProgresses(p);
    } else if p.owner != Serving {
      StopProgresses(p);
    } else {
      NobodyDone(p);
      if t :| 0 <= t < |p.queue.threads| && !p.queue.threads[t].PushAsleep? && !p.queue.threads[t].PopAsleep? {
        AwakeThreadProgresses(p, t);
      } else {
        AllAsleepMeansAllWait(p);
      }
    }
  }

  /** The pool stands still exactly when every thread waits for room in the queue: the closures the workers run
      are all inside `Add`. */
  lemma StuckExactly(run: seq<Pool>, i: nat)
    requires IsRun(run) && i < |run|
    ensures CanProgress(run[i]) <==> !AllWaitForRoom(run[i])
    ensures AllWaitForRoom(run[i]) ==>
              && |run[i].queue.items| == |run[i].workers| < |run[i].queue.threads|
              && forall w :: 0 <= w < |run[i].workers| ==> run[i].workers[w].Running?
  {
    EveryStateIsSafe(run, i);
    hide IsRun, Inv;
    if AllWaitForRoom(run[i]) {
      WaitingMeansStuck(run[i]);
      WaitersRun(run[i]);
    } else {
      NotWaitingMeansProgress(run[i]);
    }
  }

  lemma WaitersRun(p: Pool)
    requires Inv(p) && AllWaitForRoom(p)
    ensures |p.queue.items| == |p.workers| < |p.queue.threads|
    ensures forall w :: 0 <= w < |p.workers| ==> p.workers[w].Running?
  {
    hide NullsLast, Nulls, Tasks, Dones, InHand;
    Q.NobodyWoken(p.queue.threads);
    assert Q.PushSleeps(p.queue.threads) by {
      assert p.queue.threads[0].PushAsleep?;
    }
    forall w | 0 <= w < |p.workers|
      ensures p.workers[w].Running?
    {
      assert WorkerPhase(p, w);
    }
  }

  /** A pool whose closures never wait in `Add` never stands still. */
  lemma NeverStuckOtherwise(run: seq<Pool>, i: nat, w: nat)
    requires IsRun(run) && i < |run|
    requires w < |run[i].workers| && w < |run[i].queue.threads| && !run[i].queue.threads[w].PushAsleep?
    ensures CanProgress(run[i])
  {
    StuckExactly(run, i);
  }

  // ---------------------------------------------------------------- a standstill

  /** One worker and its owner; the queue holds one closure. */
  function Standing(items: seq<Job>, pushed: seq<Job>, popped: seq<Job>, w: Worker, worker: Q.Phase<Job>, owner: Q.Phase<Job>): Pool {
    Pool(Q.Queue(1, items, [worker, owner], pushed, popped), [w], Serving, 1, [], [0])
  }

  /** The worker runs closure 0 while the owner fills the queue; closure 0 adds a closure and waits for room, and
      so does the owner. */
  function StandstillRun(): seq<Pool> {
    var a, b := Some(0), Some(1);
    [Standing([], [], [], Ready, Q.Outside, Q.Outside),
     Standing([a], [a], [], Ready, Q.Outside, Q.Outside),
     Standing([], [a], [a], Running(0), Q.Outside, Q.Outside),
     Standing([b], [a, b], [a], Running(0), Q.Outside, Q.Outside),
     Standing([b], [a, b], [a], Running(0), Q.PushAsleep(Some(2)), Q.Outside),
     Standing([b], [a, b], [a], Running(0), Q.PushAsleep(Some(2)), Q.PushAsleep(Some(3)))]
  }

  /** Closures that add closures can bring the pool to a standstill. */
  lemma AddingClosureCanDeadlock()
    ensures IsRun(StandstillRun())
    ensures AllWaitForRoom(StandstillRun()[5]) && !CanProgress(StandstillRun()[5])
  {
    var run := StandstillRun();
    assert Adds(run[0], run[1], 1, 0);
    assert WorkerTakes(run[1], run[2], 0, Some(0));
    assert WorkerPops(run[1], run[2], 0);
    assert Adds(run[2], run[3], 1, 1);
    assert Adds(run[3], run[4], 0, 2);
    assert Adds(run[4], run[5], 1, 3);
    assert IsRun(run);
    StuckExactly(run, 5);
  }
}
