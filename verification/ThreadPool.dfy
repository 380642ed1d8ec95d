/**
 * The worker pool as a state machine: every step is one atomic action of a client or a worker,
 * and a run is any interleaving of them. Testing the wait condition and going to sleep is one
 * step, because the mutex is held in between; an enqueue and its notification, or the stop and
 * its notification, are two.
 */
module ThreadPool {
  import opened IndexRanges

  /** A worker is awake and about to test the condition, sleeps on the condition variable, has
      popped a task, runs it (`step` of its writes are done), has completed it but not yet left
      the active count, or has returned. */
  datatype Worker =
    | Waiting
    | Asleep
    | Taken(task: nat)
    | Running(task: nat, step: nat)
    | Finished(task: nat)
    | Exited

  /** Tasks are numbered in the order they are enqueued. `owed` counts clients that have pushed
      a task but not yet called notify_one; `broadcast` says that notify_all is still to come. */
  datatype Pool = Pool(
    queue: seq<nat>,
    workers: seq<Worker>,
    done: seq<nat>,
    enqueued: nat,
    active: nat,
    stop: bool,
    owed: nat,
    broadcast: bool)

  datatype Action =
    | Enqueue
    | NotifyOne(w: nat)
    | Stop
    | NotifyAll
    | Sleep(w: nat)
    | Spurious(w: nat)
    | Take(w: nat)
    | Begin(w: nat)
    | Work(w: nat)
    | Complete(w: nat)
    | Leave(w: nat)
    | Exit(w: nat)

  /** Steps a task makes: one per sector of a cluster. */
  const TASK_STEPS: nat := 8

  function Start(numThreads: nat): Pool {
    Pool([], seq(numThreads, i => Waiting), [], 0, 0, false, 0, false)
  }

  predicate SomeAsleep(ws: seq<Worker>) {
    exists w :: 0 <= w < |ws| && ws[w].Asleep?
  }

  predicate Enabled(p: Pool, a: Action) {
    match a
    case Enqueue => !p.stop
    case NotifyOne(w) => p.owed > 0 && ((w < |p.workers| && p.workers[w].Asleep?) || !SomeAsleep(p.workers))
    case Stop => true
    case NotifyAll => p.broadcast
    case Sleep(w) => w < |p.workers| && p.workers[w].Waiting? && !p.stop && |p.queue| == 0
    case Spurious(w) => w < |p.workers| && p.workers[w].Asleep?
    case Take(w) => w < |p.workers| && p.workers[w].Waiting? && |p.queue| > 0
    case Begin(w) => w < |p.workers| && p.workers[w].Taken?
    case Work(w) => w < |p.workers| && p.workers[w].Running? && p.workers[w].step < TASK_STEPS
    case Complete(w) => w < |p.workers| && p.workers[w].Running? && p.workers[w].step == TASK_STEPS
    case Leave(w) => w < |p.workers| && p.workers[w].Finished?
    case Exit(w) => w < |p.workers| && p.workers[w].Waiting? && p.stop && |p.queue| == 0
  }

  function Woken(w: Worker): Worker {
    if w.Asleep? then Waiting else w
  }

  function WakeAll(ws: seq<Worker>): (r: seq<Worker>)
    ensures |r| == |ws| && forall w :: 0 <= w < |r| ==> r[w] == Woken(ws[w])
  {
    seq(|ws|, w requires 0 <= w < |ws| => Woken(ws[w]))
  }

  function Apply(p: Pool, a: Action): Pool
    requires Enabled(p, a)
  {
    match a
    case Enqueue => p.(queue := p.queue + [p.enqueued], enqueued := p.enqueued + 1, owed := p.owed + 1)
    case NotifyOne(w) =>
      p.(owed := p.owed - 1, workers := if SomeAsleep(p.workers) then p.workers[w := Waiting] else p.workers)
    case Stop => p.(stop := true, broadcast := true)
    case NotifyAll => p.(broadcast := false, workers := WakeAll(p.workers))
    case Sleep(w) => p.(workers := p.workers[w := Asleep])
    case Spurious(w) => p.(workers := p.workers[w := Waiting])
    case Take(w) => p.(queue := p.queue[1..], workers := p.workers[w := Taken(p.queue[0])])
    case Begin(w) => p.(workers := p.workers[w := Running(p.workers[w].task, 0)], active := p.active + 1)
    case Work(w) => p.(workers := p.workers[w := Running(p.workers[w].task, p.workers[w].step + 1)])
    case Complete(w) =>
      p.(workers := p.workers[w := Finished(p.workers[w].task)], done := p.done + [p.workers[w].task])
    case Leave(w) => p.(workers := p.workers[w := Waiting], active := if p.active > 0 then p.active - 1 else 0)
    case Exit(w) => p.(workers := p.workers[w := Exited])
  }

  /* ---------- Conservation ---------- */

  /** 1 if the worker has popped task `t` and not completed it. */
  function Has(w: Worker, t: nat): nat {
    if (w.Taken? || w.Running?) && w.task == t then 1 else 0
  }

  function InHand(ws: seq<Worker>, t: nat): nat {
    if |ws| == 0 then 0 else InHand(ws[..|ws| - 1], t) + Has(ws[|ws| - 1], t)
  }

  function IsActive(w: Worker): nat {
    if w.Running? || w.Finished? then 1 else 0
  }

  function ActiveCount(ws: seq<Worker>): nat {
    if |ws| == 0 then 0 else ActiveCount(ws[..|ws| - 1]) + IsActive(ws[|ws| - 1])
  }

  function IsReady(w: Worker): nat {
    if w.Waiting? then 1 else 0
  }

  /** Workers that are awake and about to test the condition. */
  function Ready(ws: seq<Worker>): nat {
    if |ws| == 0 then 0 else Ready(ws[..|ws| - 1]) + IsReady(ws[|ws| - 1])
  }

  function Occurrences(s: seq<nat>, t: nat): nat {
    if |s| == 0 then 0 else Occurrences(s[..|s| - 1], t) + if s[|s| - 1] == t then 1 else 0
  }

  /** The number of tasks that have left the queue. */
  function Popped(p: Pool): int {
    p.enqueued - |p.queue|
  }

  /** Task `t` is in hand or done once if it was popped, and not at all otherwise. */
  predicate Once(p: Pool, t: nat) {
    InHand(p.workers, t) + Occurrences(p.done, t) == if t < Popped(p) then 1 else 0
  }

  predicate InOrder(p: Pool) {
    0 <= Popped(p) && p.queue == Range(Popped(p), p.enqueued)
  }

  /** No wake-up is lost: while any worker sleeps, each queued task has a notification still to
      come or an awake worker about to test the condition, and a stop has its notify_all to come. */
  predicate Covered(p: Pool) {
    SomeAsleep(p.workers) ==> |p.queue| <= p.owed + Ready(p.workers) && (p.stop ==> p.broadcast)
  }

  /** Every enqueued task is in exactly one place; tasks leave the queue in order; the active
      count is right; no worker has left early; and no wake-up is lost. */
  ghost predicate PoolInv(p: Pool) {
    && InOrder(p)
    && (forall t: nat :: Once(p, t))
    && p.active == ActiveCount(p.workers)
    && (forall w :: 0 <= w < |p.workers| && p.workers[w].Exited? ==> p.stop && |p.queue| == 0)
    && (|p.workers| == 0 ==> |p.done| == 0)
    && (forall w :: 0 <= w < |p.workers| ==> WithinTask(p.workers[w]))
    && Covered(p)
  }

  predicate WithinTask(w: Worker) {
    w.Running? ==> w.step <= TASK_STEPS
  }

  predicate AtRest(w: Worker) {
    w.Waiting? || w.Asleep? || w.Exited?
  }

  lemma StartInv(numThreads: nat)
    ensures PoolInv(Start(numThreads))
  {
    forall t: nat ensures Once(Start(numThreads), t) {
      AllAtRest(Start(numThreads).workers, t);
    }
    AllAtRest(Start(numThreads).workers, 0);
  }

  lemma StepInv(p: Pool, a: Action)
    requires PoolInv(p) && Enabled(p, a)
    ensures PoolInv(Apply(p, a))
  {
    hide PoolInv, InHand, ActiveCount;
    match a
    case Enqueue => EnqueueInv(p);
    case NotifyOne(w) => NotifyOneInv(p, w);
    case Stop => StopInv(p);
    case NotifyAll => NotifyAllInv(p);
    case Sleep(w) => WorkerInv(p, w, Asleep, p.done, p.active);
    case Spurious(w) => WorkerInv(p, w, Waiting, p.done, p.active);
    case Take(w) => TakeInv(p, w);
    case Begin(w) => WorkerInv(p, w, Running(p.workers[w].task, 0), p.done, p.active + 1);
    case Work(w) => WorkerInv(p, w, Running(p.workers[w].task, p.workers[w].step + 1), p.done, p.active);
    case Complete(w) =>
      var done := p.done + [p.workers[w].task];
      assert done[..|done| - 1] == p.done;
      WorkerInv(p, w, Finished(p.workers[w].task), done, p.active);
    case Leave(w) =>
      ActiveFloor(p, w);
      WorkerInv(p, w, Waiting, p.done, p.active - 1);
    case Exit(w) => WorkerInv(p, w, Exited, p.done, p.active);
  }

  /** A run: each action is enabled when it happens. */
  predicate CanRun(p: Pool, actions: seq<Action>)
    decreases |actions|
  {
    |actions| > 0 ==> Enabled(p, actions[0]) && CanRun(Apply(p, actions[0]), actions[1..])
  }

  function RunPool(p: Pool, actions: seq<Action>): Pool
    requires CanRun(p, actions)
    decreases |actions|
  {
    if |actions| == 0 then p else RunPool(Apply(p, actions[0]), actions[1..])
  }

  /** Under every interleaving each enqueued task is queued, in hand or done, exactly once, and no
      wake-up is lost. */
  lemma {:induction false} RunInv(p: Pool, actions: seq<Action>)
    requires PoolInv(p) && CanRun(p, actions)
    ensures PoolInv(RunPool(p, actions))
    decreases |actions|
  {
    hide PoolInv, Enabled, Apply;
    if |actions| > 0 {
      StepInv(p, actions[0]);
      RunInv(Apply(p, actions[0]), actions[1..]);
    }
  }

  /** Every enqueued task has run, once. */
  ghost predicate AllRun(p: Pool) {
    forall t: nat :: Occurrences(p.done, t) == if t < p.enqueued then 1 else 0
  }

  /** When the destructor has joined every worker, each enqueued task has run exactly once: if
      and only if the pool had a worker at all, or nothing was enqueued. */
  lemma JoinedAllDone(p: Pool)
    requires PoolInv(p) && forall w :: 0 <= w < |p.workers| ==> p.workers[w].Exited?
    ensures AllRun(p) <==> |p.workers| > 0 || p.enqueued == 0
  {
    if |p.workers| > 0 {
      assert p.workers[0].Exited?;
      RestAllRun(p);
    } else {
      forall t: nat ensures Occurrences(p.done, t) == 0 { }
      var first: nat := 0;
      assert p.enqueued > 0 ==> Occurrences(p.done, first) != if first < p.enqueued then 1 else 0;
    }
  }

  /* ---------- Progress ---------- */

  function Weight(w: Worker): nat {
    match w
    case Waiting => 1
    case Asleep => 1
    case Taken(_) => 4 + TASK_STEPS
    case Running(_, step) => if step <= TASK_STEPS then 3 + TASK_STEPS - step else 0
    case Finished(_) => 2
    case Exited => 0
  }

  function TotalWeight(ws: seq<Worker>): nat {
    if |ws| == 0 then 0 else TotalWeight(ws[..|ws| - 1]) + Weight(ws[|ws| - 1])
  }

  function Remaining(p: Pool): nat {
    13 * |p.queue| + TotalWeight(p.workers) + p.owed + if p.broadcast then 1 else 0
  }

  /** Steps that get something done: a notification, or a worker's step other than falling asleep
      or waking up for no reason. */
  predicate Productive(a: Action) {
    !a.Enqueue? && !a.Stop? && !a.Sleep? && !a.Spurious?
  }

  /** Every productive step brings the pool closer to rest; sleeping and waking leave it as far. */
  lemma ProductiveDecreases(p: Pool, a: Action)
    requires Enabled(p, a) && !a.Enqueue? && !a.Stop?
    ensures Remaining(Apply(p, a)) + (if Productive(a) then 1 else 0) <= Remaining(p)
  {
    if a.NotifyAll? {
      WakeCounts(p.workers, 0);
    } else if a.NotifyOne? {
      if SomeAsleep(p.workers) { SetWeight(p.workers, a.w, Waiting); }
    } else {
      WorkerWeight(p, a);
    }
  }

  /** Nothing is queued or in progress and, after a stop, every worker has returned. */
  predicate Settled(p: Pool) {
    && |p.queue| == 0
    && (forall w :: 0 <= w < |p.workers| ==> AtRest(p.workers[w]))
    && (p.stop ==> forall w :: 0 <= w < |p.workers| ==> p.workers[w].Exited?)
  }

  predicate CanProgress(p: Pool, a: Action) {
    Productive(a) && Enabled(p, a)
  }

  /** While a pool with workers is not settled some productive step can be taken, whoever sleeps. */
  lemma NoDeadlock(p: Pool)
    requires PoolInv(p) && |p.workers| > 0 && !Settled(p)
    ensures exists a :: CanProgress(p, a)
  {
    if w: nat :| w < |p.workers| && !AtRest(p.workers[w]) {
      match p.workers[w]
      case Taken(_) => assert CanProgress(p, Begin(w));
      case Running(_, step) =>
        assert WithinTask(p.workers[w]);
        assert CanProgress(p, if step < TASK_STEPS then Work(w) else Complete(w));
      case Finished(_) => assert CanProgress(p, Leave(w));
    } else if w: nat :| w < |p.workers| && p.workers[w].Waiting? && (p.stop || |p.queue| > 0) {
      assert CanProgress(p, if |p.queue| > 0 then Take(w) else Exit(w));
    } else if |p.queue| > 0 {
      AllAtRest(p.workers, 0);
      assert AtRest(p.workers[0]) && p.workers[0].Asleep?;
      assert CanProgress(p, NotifyOne(0));
    } else {
      var w: nat :| w < |p.workers| && !p.workers[w].Exited?;
      assert AtRest(p.workers[w]) && p.workers[w].Asleep?;
      assert CanProgress(p, NotifyAll);
    }
  }

  /** No client enqueues or stops the pool. */
  predicate Undisturbed(actions: seq<Action>) {
    forall i :: 0 <= i < |actions| ==> !actions[i].Enqueue? && !actions[i].Stop?
  }

  function ProductiveCount(actions: seq<Action>): nat {
    if |actions| == 0 then 0 else (if Productive(actions[0]) then 1 else 0) + ProductiveCount(actions[1..])
  }

  /** A pool with no productive step left has run every task once and, if stopped, every worker
      has returned. */
  lemma QuietAllRun(p: Pool)
    requires PoolInv(p) && |p.workers| > 0
    requires forall a :: !CanProgress(p, a)
    ensures AllRun(p)
    ensures p.stop ==> forall w :: 0 <= w < |p.workers| ==> p.workers[w].Exited?
  {
    hide PoolInv, Enabled, AllRun;
    if !Settled(p) { NoDeadlock(p); }
    RestAllRun(p);
  }

  /** Once the clients are done, under any schedule the pool makes at most Remaining(p) productive
      steps, and when none is left every enqueued task has run exactly once and, after a stop, the
      join can return. */
  lemma PoolCompletes(p: Pool, actions: seq<Action>)
    requires PoolInv(p) && |p.workers| > 0
    requires CanRun(p, actions) && Undisturbed(actions)
    ensures ProductiveCount(actions) <= Remaining(p)
    ensures var p' := RunPool(p, actions);
            (forall a :: !CanProgress(p', a)) ==>
              AllRun(p') && p'.enqueued == p.enqueued
              && (p.stop ==> forall w :: 0 <= w < |p'.workers| ==> p'.workers[w].Exited?)
  {
    hide PoolInv, Occurrences, Enabled, AllRun, Productive;
    UndisturbedRun(p, actions);
    RunInv(p, actions);
    var p' := RunPool(p, actions);
    if forall a :: !CanProgress(p', a) {
      QuietAllRun(p');
    }
  }

  /* ---------- Step by step ---------- */

  lemma {:induction false} SetInHand(ws: seq<Worker>, w: nat, v: Worker, t: nat)
    requires w < |ws|
    ensures InHand(ws[w := v], t) == InHand(ws, t) - Has(ws[w], t) + Has(v, t)
    ensures Has(ws[w], t) <= InHand(ws, t)
    decreases |ws|
  {
    var n := |ws| - 1;
    if w < n {
      SetInHand(ws[..n], w, v, t);
      assert ws[w := v][..n] == ws[..n][w := v];
    } else {
      assert ws[w := v][..n] == ws[..n];
    }
  }

  lemma {:induction false} SetCounts(ws: seq<Worker>, w: nat, v: Worker)
    requires w < |ws|
    ensures ActiveCount(ws[w := v]) == ActiveCount(ws) - IsActive(ws[w]) + IsActive(v)
    ensures Ready(ws[w := v]) == Ready(ws) - IsReady(ws[w]) + IsReady(v)
    ensures IsActive(ws[w]) <= ActiveCount(ws) && IsReady(ws[w]) <= Ready(ws)
    decreases |ws|
  {
    var n := |ws| - 1;
    if w < n {
      SetCounts(ws[..n], w, v);
      assert ws[w := v][..n] == ws[..n][w := v];
    } else {
      assert ws[w := v][..n] == ws[..n];
    }
  }

  lemma {:induction false} WakeCounts(ws: seq<Worker>, t: nat)
    ensures InHand(WakeAll(ws), t) == InHand(ws, t) && ActiveCount(WakeAll(ws)) == ActiveCount(ws)
    ensures TotalWeight(WakeAll(ws)) == TotalWeight(ws)
    decreases |ws|
  {
    if |ws| > 0 {
      WakeCounts(ws[..|ws| - 1], t);
      assert WakeAll(ws)[..|ws| - 1] == WakeAll(ws[..|ws| - 1]);
    }
  }

  lemma {:induction false} AllAtRest(ws: seq<Worker>, t: nat)
    requires forall w :: 0 <= w < |ws| ==> AtRest(ws[w])
    ensures InHand(ws, t) == 0 && ActiveCount(ws) == 0
    ensures (forall w :: 0 <= w < |ws| ==> !ws[w].Waiting?) ==> Ready(ws) == 0
    decreases |ws|
  {
    if |ws| > 0 {
      AllAtRest(ws[..|ws| - 1], t);
    }
  }

  lemma AsleepElsewhere(ws: seq<Worker>, w: nat, v: Worker)
    requires w < |ws|
    ensures SomeAsleep(ws[w := v]) && !v.Asleep? ==> SomeAsleep(ws)
  {
    var ws' := ws[w := v];
    if SomeAsleep(ws') && !v.Asleep? {
      var k :| 0 <= k < |ws'| && ws'[k].Asleep?;
      assert ws[k].Asleep?;
    }
  }

  lemma EnqueueInv(p: Pool)
    requires PoolInv(p) && !p.stop
    ensures PoolInv(Apply(p, Enqueue))
  {
    var p' := Apply(p, Enqueue);
    assert Range(Popped(p), p.enqueued + 1) == Range(Popped(p), p.enqueued) + [p.enqueued];
    forall t: nat ensures Once(p', t) { assert Once(p, t); }
  }

  lemma TakeInv(p: Pool, w: nat)
    requires PoolInv(p) && Enabled(p, Take(w))
    ensures PoolInv(Apply(p, Take(w)))
  {
    var p' := Apply(p, Take(w));
    assert p.queue[0] == Popped(p);
    assert p'.queue == Range(Popped(p'), p'.enqueued);
    SetCounts(p.workers, w, p'.workers[w]);
    AsleepElsewhere(p.workers, w, p'.workers[w]);
    forall t: nat ensures Once(p', t) {
      assert Once(p, t);
      SetInHand(p.workers, w, p'.workers[w], t);
    }
  }

  /** A worker's own step moves a task at most from its hand to `done`. It stops being ready, or
      falls asleep, only on an empty queue. */
  lemma WorkerInv(p: Pool, w: nat, v: Worker, done: seq<nat>, active: nat)
    requires PoolInv(p) && w < |p.workers| && !p.workers[w].Exited?
    requires (v.Exited? ==> p.stop && |p.queue| == 0) && WithinTask(v)
    requires v.Asleep? ==> !p.stop
    requires (IsReady(v) >= IsReady(p.workers[w]) && !v.Asleep?) || |p.queue| == 0
    requires forall t: nat :: Has(v, t) + Occurrences(done, t) == Has(p.workers[w], t) + Occurrences(p.done, t)
    requires active == p.active - IsActive(p.workers[w]) + IsActive(v)
    ensures PoolInv(p.(workers := p.workers[w := v], done := done, active := active))
  {
    SetCounts(p.workers, w, v);
    AsleepElsewhere(p.workers, w, v);
    var p' := p.(workers := p.workers[w := v], done := done, active := active);
    forall t: nat ensures Once(p', t) {
      assert Once(p, t);
      SetInHand(p.workers, w, v, t);
    }
  }

  lemma NotifyOneInv(p: Pool, w: nat)
    requires PoolInv(p) && Enabled(p, NotifyOne(w))
    ensures PoolInv(Apply(p, NotifyOne(w)))
  {
    var p' := Apply(p, NotifyOne(w));
    if SomeAsleep(p.workers) {
      SetCounts(p.workers, w, Waiting);
    }
    forall t: nat ensures Once(p', t) {
      assert Once(p, t);
      if SomeAsleep(p.workers) { SetInHand(p.workers, w, Waiting, t); }
    }
  }

  lemma NotifyAllInv(p: Pool)
    requires PoolInv(p) && p.broadcast
    ensures PoolInv(Apply(p, NotifyAll))
  {
    var p' := Apply(p, NotifyAll);
    WakeCounts(p.workers, 0);
    forall t: nat ensures Once(p', t) {
      assert Once(p, t);
      WakeCounts(p.workers, t);
    }
  }

  lemma StopInv(p: Pool)
    requires PoolInv(p)
    ensures PoolInv(p.(stop := true, broadcast := true))
  {
    forall t: nat ensures Once(p.(stop := true, broadcast := true), t) { assert Once(p, t); }
  }

  /** The active count never goes below zero. */
  lemma ActiveFloor(p: Pool, w: nat)
    requires PoolInv(p) && w < |p.workers|
    ensures IsActive(p.workers[w]) <= p.active
  {
    SetCounts(p.workers, w, p.workers[w]);
  }

  lemma {:induction false} SetWeight(ws: seq<Worker>, w: nat, v: Worker)
    requires w < |ws|
    ensures TotalWeight(ws[w := v]) == TotalWeight(ws) - Weight(ws[w]) + Weight(v)
    decreases |ws|
  {
    var n := |ws| - 1;
    if w < n {
      SetWeight(ws[..n], w, v);
      assert ws[w := v][..n] == ws[..n][w := v];
    } else {
      assert ws[w := v][..n] == ws[..n];
    }
  }

  lemma WorkerWeight(p: Pool, a: Action)
    requires Enabled(p, a) && !a.Enqueue? && !a.Stop? && !a.NotifyOne? && !a.NotifyAll?
    ensures Remaining(Apply(p, a)) + (if Productive(a) then 1 else 0) <= Remaining(p)
  {
    SetWeight(p.workers, a.w, Apply(p, a).workers[a.w]);
  }

  lemma RestAllRun(p: Pool)
    requires PoolInv(p) && |p.queue| == 0 && forall w :: 0 <= w < |p.workers| ==> AtRest(p.workers[w])
    ensures AllRun(p)
  {
    forall t: nat ensures Occurrences(p.done, t) == if t < p.enqueued then 1 else 0 {
      assert Once(p, t);
      AllAtRest(p.workers, t);
    }
  }

  lemma {:induction false} UndisturbedRun(p: Pool, actions: seq<Action>)
    requires CanRun(p, actions) && Undisturbed(actions)
    ensures var p' := RunPool(p, actions);
            && ProductiveCount(actions) + Remaining(p') <= Remaining(p)
            && p'.stop == p.stop && p'.enqueued == p.enqueued && |p'.workers| == |p.workers|
    decreases |actions|
  {
    hide Remaining, Productive;
    if |actions| > 0 {
      assert !actions[0].Enqueue? && !actions[0].Stop?;
      ProductiveDecreases(p, actions[0]);
      assert forall i :: 0 <= i < |actions| - 1 ==> actions[1..][i] == actions[i + 1];
      UndisturbedRun(Apply(p, actions[0]), actions[1..]);
    }
  }
}
