/**
 The thread pool as a step system: every critical section is one atomic step of one thread.

 A worker is Ready when it is about to take the lock (at the top of its loop or coming back from
 `pthread_cond_wait`), Blocked inside `pthread_cond_wait`, Running outside the lock, or Exited.
 `accepted`, `dispatched`, `finished` and `lastExit` record the history and steer nothing.
 */
module ThreadPool {

  datatype Task = Task(routine: nat, argument: nat)

  datatype Worker = Ready | Blocked | Running(task: Task) | Exited

  datatype Pool = Pool(
    queue: seq<Task>, head: nat, tail: nat, count: nat, shutdown: bool, workers: seq<Worker>,
    accepted: seq<Task>, dispatched: seq<Task>, finished: multiset<Task>, lastExit: nat)

  datatype Action =
    | Add(task: Task, wake: nat)  // `wake`: the waiter the signal reaches, if there is one
    | Enter(w: nat)               // a worker's critical section, up to blocking, leaving or exiting
    | Finish(w: nat)              // a worker's task returns
    | Wake(w: nat)                // a spurious wake-up, or one meant for another waiter
    | Shutdown                    // the critical section of `threadpool_destroy`

  ghost predicate SomeBlocked(ws: seq<Worker>) {
    exists i :: 0 <= i < |ws| && ws[i] == Blocked
  }

  ghost predicate AllExited(ws: seq<Worker>) {
    forall i :: 0 <= i < |ws| ==> ws[i] == Exited
  }

  predicate WorkerIs(ws: seq<Worker>, w: nat, x: Worker) {
    w < |ws| && ws[w] == x
  }

  // Position `x` of a ring of `n` slots, at most one turn ahead: `x % n`.
  function Slot(x: nat, n: nat): (r: nat)
    requires x < 2 * n
    ensures r < n
  {
    if x < n then x else x - n
  }

  // The tasks the ring keeps, first to run first.
  function Ring(queue: seq<Task>, head: nat, count: nat): (r: seq<Task>)
    requires head < |queue| && count <= |queue|
    ensures |r| == count
  {
    seq(count, i requires 0 <= i < count => queue[Slot(head + i, |queue|)])
  }

  function Pending(p: Pool): seq<Task>
    requires InBounds(p) && p.count <= |p.queue|
  {
    Ring(p.queue, p.head, p.count)
  }

  // Both ends of the ring are slots of it; part of the invariant below.
  predicate InBounds(p: Pool) {
    p.head < |p.queue| && p.tail < |p.queue|
  }

  // ---------- the steps ----------

  ghost predicate Enabled(p: Pool, a: Action) {
    match a
    case Add(_, wake) => p.count < |p.queue| && SomeBlocked(p.workers) ==> WorkerIs(p.workers, wake, Blocked)
    case Enter(w) => WorkerIs(p.workers, w, Ready)
    case Finish(w) => w < |p.workers| && p.workers[w].Running?
    case Wake(w) => WorkerIs(p.workers, w, Blocked)
    case Shutdown => true
  }

  // `threadpool_add`: refused when full, and never looking at `shutdown`.
  function AfterAdd(p: Pool, task: Task, wake: nat): Pool
    requires p.queue != [] && p.tail < |p.queue|
  {
    if p.count == |p.queue| then p
    else
      p.(queue := p.queue[p.tail := task],
         tail := (p.tail + 1) % |p.queue|,
         count := p.count + 1,
         workers := if WorkerIs(p.workers, wake, Blocked) then p.workers[wake := Ready] else p.workers,
         accepted := p.accepted + [task])
  }

  // `threadpool_thread` between taking the lock and giving it up.
  function AfterEnter(p: Pool, w: nat): Pool
    requires p.head < |p.queue| && w < |p.workers|
  {
    if p.count == 0 && !p.shutdown then p.(workers := p.workers[w := Blocked])
    else if p.count == 0 then p.(workers := p.workers[w := Exited], lastExit := |p.accepted|)
    else
      var task := p.queue[p.head];
      p.(head := (p.head + 1) % |p.queue|,
         count := p.count - 1,
         workers := p.workers[w := Running(task)],
         dispatched := p.dispatched + [task])
  }

  function Released(ws: seq<Worker>): (r: seq<Worker>)
    ensures |r| == |ws|
  {
    seq(|ws|, i requires 0 <= i < |ws| => if ws[i] == Blocked then Ready else ws[i])
  }

  ghost function Apply(p: Pool, a: Action): Pool
    requires InBounds(p) && Enabled(p, a)
  {
    match a
    case Add(task, wake) => AfterAdd(p, task, wake)
    case Enter(w) => AfterEnter(p, w)
    case Finish(w) =>
      p.(workers := p.workers[w := Ready], finished := p.finished + multiset{p.workers[w].task})
    case Wake(w) => p.(workers := p.workers[w := Ready])
    case Shutdown => p.(shutdown := true, workers := Released(p.workers))
  }

  // ---------- the invariant ----------

  function Unblocked(ws: seq<Worker>): nat {
    if ws == [] then 0 else Unblocked(ws[..|ws| - 1]) + if ws[|ws| - 1] == Blocked then 0 else 1
  }

  // How many workers run `t`.
  function InFlight(ws: seq<Worker>, t: Task): nat {
    if ws == [] then 0 else InFlight(ws[..|ws| - 1], t) + Runs(ws[|ws| - 1], t)
  }

  function Runs(x: Worker, t: Task): nat {
    if x == Running(t) then 1 else 0
  }

  function Min(a: int, b: int): int {
    if a < b then a else b
  }

  ghost predicate Shape(p: Pool) {
    && InBounds(p) && p.count <= |p.queue|
    && Slot(p.head + p.count, |p.queue|) == p.tail
  }

  ghost predicate Inv(p: Pool) {
    && Shape(p)
    && p.accepted == p.dispatched + Pending(p)
    && (forall t :: multiset(p.dispatched)[t] == p.finished[t] + InFlight(p.workers, t))
    && (p.shutdown ==> !SomeBlocked(p.workers))
    && (!p.shutdown ==> Unblocked(p.workers) >= Min(p.count, |p.workers|))
    && (!p.shutdown ==> forall i :: 0 <= i < |p.workers| ==> p.workers[i] != Exited)
    && (AllExited(p.workers) && p.workers != [] ==>
          p.lastExit <= |p.accepted| && p.dispatched == p.accepted[..p.lastExit])
  }

  // `threadpool_create`: the queue's slots hold anything.
  ghost predicate Initial(p: Pool) {
    && p.queue != [] && p.head == 0 && p.tail == 0 && p.count == 0 && !p.shutdown
    && (forall i :: 0 <= i < |p.workers| ==> p.workers[i] == Ready)
    && p.accepted == [] && p.dispatched == [] && p.finished == multiset{} && p.lastExit == 0
  }

  lemma {:induction false} UnblockedUpdate(ws: seq<Worker>, i: nat, x: Worker)
    requires i < |ws|
    ensures Unblocked(ws[i := x])
         == Unblocked(ws) - (if ws[i] == Blocked then 0 else 1) + (if x == Blocked then 0 else 1)
  {
    var n := |ws| - 1;
    if i < n {
      UnblockedUpdate(ws[..n], i, x);
      assert ws[i := x][..n] == ws[..n][i := x];
    } else {
      assert ws[i := x][..n] == ws[..n];
    }
  }

  lemma {:induction false} InFlightUpdate(ws: seq<Worker>, i: nat, x: Worker)
    requires i < |ws|
    ensures forall t :: InFlight(ws[i := x], t) == InFlight(ws, t) - Runs(ws[i], t) + Runs(x, t)
  {
    hide Runs;
    var n := |ws| - 1;
    if i < n {
      InFlightUpdate(ws[..n], i, x);
      assert ws[i := x][..n] == ws[..n][i := x];
    } else {
      assert ws[i := x][..n] == ws[..n];
    }
  }

  lemma {:induction false} NoneBlockedCount(ws: seq<Worker>)
    ensures !SomeBlocked(ws) ==> Unblocked(ws) == |ws|
    ensures Unblocked(ws) <= |ws|
  {
    if ws != [] {
      var n := |ws| - 1;
      NoneBlockedCount(ws[..n]);
      if !SomeBlocked(ws) {
        forall i | 0 <= i < n ensures ws[..n][i] != Blocked { assert ws[i] != Blocked; }
      }
    }
  }

  lemma {:induction false} ReleasedInFlight(ws: seq<Worker>)
    ensures forall t :: InFlight(Released(ws), t) == InFlight(ws, t)
  {
    if ws != [] {
      var n := |ws| - 1;
      ReleasedInFlight(ws[..n]);
      assert Released(ws)[..n] == Released(ws[..n]);
    }
  }

  lemma InitialInFlight(ws: seq<Worker>)
    requires forall i :: 0 <= i < |ws| ==> ws[i] == Ready
    ensures forall t :: InFlight(ws, t) == 0
  {
    if ws != [] {
      InitialInFlight(ws[..|ws| - 1]);
    }
  }

  // ---------- the ring ----------

  lemma SlotIsMod(x: nat, n: nat)
    requires x < 2 * n
    ensures Slot(x, n) == x % n
  {
    if x >= n {
      var q := x / n;
      assert x == n * q + x % n;
      if q >= 2 { MulMono(2, q, n); }
      if q <= 0 { MulMono(q, 0, n); }
    }
  }

  lemma MulMono(a: int, b: int, n: nat)
    requires a <= b
    ensures n * a <= n * b
  {
    assert n * b - n * a == n * (b - a);
  }

  lemma RingPush(queue: seq<Task>, head: nat, tail: nat, count: nat, task: Task)
    requires head < |queue| && count < |queue| && Slot(head + count, |queue|) == tail
    ensures Ring(queue[tail := task], head, count + 1) == Ring(queue, head, count) + [task]
  {
    var a, b := Ring(queue[tail := task], head, count + 1), Ring(queue, head, count) + [task];
    forall i | 0 <= i < count + 1 ensures a[i] == b[i] {
      assert i < count ==> Slot(head + i, |queue|) != tail;
    }
  }

  lemma RingPop(queue: seq<Task>, head: nat, count: nat)
    requires head < |queue| && 0 < count <= |queue|
    ensures Ring(queue, head, count) == [queue[head]] + Ring(queue, Slot(head + 1, |queue|), count - 1)
  {
    var rest := Ring(queue, Slot(head + 1, |queue|), count - 1);
    var a, b := Ring(queue, head, count), [queue[head]] + rest;
    forall i | 0 <= i < count ensures a[i] == b[i] {
      assert a[0] == queue[Slot(head + 0, |queue|)];
      if i > 0 {
        assert b[i] == rest[i - 1];
        assert rest[i - 1] == queue[Slot(Slot(head + 1, |queue|) + (i - 1), |queue|)];
        assert a[i] == queue[Slot(head + i, |queue|)];
      }
    }
  }

  // ---------- every step keeps the invariant ----------

  lemma AddKeepsInv(p: Pool, task: Task, wake: nat)
    requires Inv(p) && Enabled(p, Add(task, wake))
    ensures Inv(AfterAdd(p, task, wake))
  {
    hide Ring, Unblocked, InFlight, AllExited, Slot;
    if p.count < |p.queue| {
      AddKeepsRing(p, task, wake);
      var p' := AfterAdd(p, task, wake);
      assert p.dispatched + (Pending(p) + [task]) == p.accepted + [task];
      NoneBlockedCount(p.workers);
      NoneBlockedCount(p'.workers);
      if WorkerIs(p.workers, wake, Blocked) {
        UnblockedUpdate(p.workers, wake, Ready);
        InFlightUpdate(p.workers, wake, Ready);
        SomeoneIsIn(p'.workers, wake);
      } else {
        AddWithoutWaiters(p, task, wake);
      }
      assert p.lastExit <= |p.accepted| ==> p'.accepted[..p.lastExit] == p.accepted[..p.lastExit];
    }
  }

  lemma AddKeepsRing(p: Pool, task: Task, wake: nat)
    requires Shape(p) && p.count < |p.queue|
    ensures Shape(AfterAdd(p, task, wake))
    ensures Pending(AfterAdd(p, task, wake)) == Pending(p) + [task]
  {
    hide Ring;
    RingPush(p.queue, p.head, p.tail, p.count, task);
    SlotIsMod(p.tail + 1, |p.queue|);
  }

  lemma AddWithoutWaiters(p: Pool, task: Task, wake: nat)
    requires p.queue != [] && p.tail < |p.queue| && p.count < |p.queue|
    requires Enabled(p, Add(task, wake)) && !WorkerIs(p.workers, wake, Blocked)
    ensures !SomeBlocked(p.workers) && AfterAdd(p, task, wake).workers == p.workers
  {
  }

  lemma EnterKeepsInv(p: Pool, w: nat)
    requires Inv(p) && Enabled(p, Enter(w))
    ensures Inv(AfterEnter(p, w))
  {
    hide Inv;
    if p.count > 0 { TakeKeepsInv(p, w); } else { IdleKeepsInv(p, w); }
  }

  lemma TakeKeepsInv(p: Pool, w: nat)
    requires Inv(p) && Enabled(p, Enter(w)) && p.count > 0
    ensures Inv(AfterEnter(p, w))
  {
    hide Ring, Unblocked, InFlight, AllExited, Slot;
    var p', task := AfterEnter(p, w), p.queue[p.head];
    SomeoneIsIn(p'.workers, w);
    UnblockedUpdate(p.workers, w, p'.workers[w]);
    InFlightUpdate(p.workers, w, p'.workers[w]);
    TakeKeepsRing(p, w);
    MovedTask(p.dispatched, task, Pending(p'));
  }

  lemma TakeKeepsRing(p: Pool, w: nat)
    requires Shape(p) && w < |p.workers| && p.count > 0
    ensures Shape(AfterEnter(p, w))
    ensures Pending(p) == [p.queue[p.head]] + Pending(AfterEnter(p, w))
  {
    hide Ring;
    RingPop(p.queue, p.head, p.count);
    SlotIsMod(p.head + 1, |p.queue|);
  }

  lemma MovedTask(dispatched: seq<Task>, task: Task, rest: seq<Task>)
    ensures dispatched + ([task] + rest) == dispatched + [task] + rest
    ensures multiset(dispatched + [task]) == multiset(dispatched) + multiset{task}
  {
  }

  lemma IdleKeepsInv(p: Pool, w: nat)
    requires Inv(p) && Enabled(p, Enter(w)) && p.count == 0
    ensures Inv(AfterEnter(p, w))
  {
    hide Ring, Unblocked, InFlight;
    var p' := AfterEnter(p, w);
    UnblockedUpdate(p.workers, w, p'.workers[w]);
    InFlightUpdate(p.workers, w, p'.workers[w]);
    RingEmpty(p.queue, p.head);
    assert p.dispatched + [] == p.dispatched;
    assert p.accepted[..|p.accepted|] == p.accepted;
    if !p.shutdown { assert p'.workers[w] != Exited; }
  }

  lemma RingEmpty(queue: seq<Task>, head: nat)
    requires head < |queue|
    ensures Ring(queue, head, 0) == []
  {
  }

  lemma ShutdownKeepsInv(p: Pool)
    requires Inv(p)
    ensures Inv(Apply(p, Shutdown))
  {
    hide Ring, Unblocked, InFlight;
    ReleasedInFlight(p.workers);
    if AllExited(Released(p.workers)) {
      forall i | 0 <= i < |p.workers| ensures p.workers[i] == Exited { assert Released(p.workers)[i] == Exited; }
    }
  }

  lemma StepKeepsInv(p: Pool, a: Action)
    requires Inv(p) && Enabled(p, a)
    ensures Inv(Apply(p, a))
  {
    hide Ring, Unblocked, InFlight;
    match a
    case Add(task, wake) => AddKeepsInv(p, task, wake);
    case Enter(w) => EnterKeepsInv(p, w);
    case Shutdown => ShutdownKeepsInv(p);
    case Finish(w) => FinishKeepsInv(p, w);
    case Wake(w) => WakeKeepsInv(p, w);
  }

  lemma FinishKeepsInv(p: Pool, w: nat)
    requires Inv(p) && Enabled(p, Finish(w))
    ensures Inv(Apply(p, Finish(w)))
  {
    hide Ring, Unblocked, InFlight, Slot, AllExited;
    SomeoneIsIn(Apply(p, Finish(w)).workers, w);
    UnblockedUpdate(p.workers, w, Ready);
    InFlightUpdate(p.workers, w, Ready);
  }

  lemma WakeKeepsInv(p: Pool, w: nat)
    requires Inv(p) && Enabled(p, Wake(w))
    ensures Inv(Apply(p, Wake(w)))
  {
    hide Ring, Unblocked, InFlight, Slot, AllExited;
    SomeoneIsIn(Apply(p, Wake(w)).workers, w);
    UnblockedUpdate(p.workers, w, Ready);
    InFlightUpdate(p.workers, w, Ready);
  }

  lemma SomeoneIsIn(ws: seq<Worker>, w: nat)
    requires w < |ws| && ws[w] != Exited
    ensures !AllExited(ws)
  {
  }

  lemma InitialInv(p: Pool)
    requires Initial(p)
    ensures Inv(p)
  {
    InitialInFlight(p.workers);
    NoneBlockedCount(p.workers);
    RingEmpty(p.queue, 0);
  }

  // ---------- whole runs ----------

  ghost predicate Possible(p: Pool, run: seq<Action>)
    decreases |run|
  {
    run == [] || (InBounds(p) && Enabled(p, run[0]) && Possible(Apply(p, run[0]), run[1..]))
  }

  ghost function After(p: Pool, run: seq<Action>): Pool
    requires Possible(p, run)
    decreases |run|
  {
    if run == [] then p else After(Apply(p, run[0]), run[1..])
  }

  lemma {:induction false} RunKeepsInv(p: Pool, run: seq<Action>)
    requires Inv(p) && Possible(p, run)
    ensures Inv(After(p, run)) && |After(p, run).workers| == |p.workers|
    decreases |run|
  {
    hide Inv;
    if run != [] {
      StepKeepsInv(p, run[0]);
      RunKeepsInv(Apply(p, run[0]), run[1..]);
    }
  }

  /** In every reachable state the accepted tasks are the dispatched ones followed by the ring, in
      order; each dispatched task is finished or in exactly one worker's hands. */
  lemma FifoExactlyOnce(p: Pool, run: seq<Action>)
    requires Initial(p) && Possible(p, run)
    ensures var q := After(p, run);
      && Shape(q) && q.accepted == q.dispatched + Pending(q)
      && forall t ::
           multiset(q.accepted)[t] == q.finished[t] + InFlight(q.workers, t) + multiset(Pending(q))[t]
  {
    hide Ring, InFlight;
    InitialInv(p);
    RunKeepsInv(p, run);
    var q := After(p, run);
    assert multiset(q.dispatched + Pending(q)) == multiset(q.dispatched) + multiset(Pending(q));
  }

  /** No lost wake-up: before shutdown, as many workers are awake as there are pending tasks, up to
      the number of workers; afterwards nobody sleeps. */
  lemma NoLostWakeup(p: Pool, run: seq<Action>)
    requires Initial(p) && Possible(p, run)
    ensures var q := After(p, run);
      && (!q.shutdown ==> Unblocked(q.workers) >= Min(q.count, |q.workers|))
      && (q.shutdown ==> !SomeBlocked(q.workers))
      && (q.count > 0 && q.workers != [] && !AllExited(q.workers) ==>
            exists a :: IsWorkerStep(a) && Enabled(q, a))
  {
    InitialInv(p);
    RunKeepsInv(p, run);
    var q := After(p, run);
    if q.count > 0 && q.workers != [] && !AllExited(q.workers) {
      var w := AwakeWorker(q);
      if Enabled(q, Enter(w)) { assert IsWorkerStep(Enter(w)); } else { assert IsWorkerStep(Finish(w)); }
    }
  }

  lemma AwakeWorker(q: Pool) returns (w: nat)
    requires Inv(q) && !AllExited(q.workers) && (q.shutdown || (q.count > 0 && q.workers != []))
    ensures Enabled(q, Enter(w)) || Enabled(q, Finish(w))
  {
    if q.shutdown {
      w :| w < |q.workers| && q.workers[w] != Exited;
      assert q.workers[w] != Blocked;
    } else {
      w := FindUnblocked(q.workers);
      assert q.workers[w] != Exited;
    }
  }

  lemma FindUnblocked(ws: seq<Worker>) returns (w: nat)
    requires Unblocked(ws) > 0
    ensures w < |ws| && ws[w] != Blocked
  {
    var n := |ws| - 1;
    if ws[n] == Blocked { w := FindUnblocked(ws[..n]); } else { w := n; }
  }

  // ---------- shutting down ----------

  // How many steps the workers can still take after shutdown.
  function Weight(ws: seq<Worker>): nat {
    if ws == [] then 0 else Weight(ws[..|ws| - 1]) + WeightOf(ws[|ws| - 1])
  }

  function WeightOf(x: Worker): nat {
    match x
    case Exited => 0
    case Running(_) => 2
    case _ => 1
  }

  function StepsLeft(p: Pool): nat {
    3 * p.count + Weight(p.workers)
  }

  lemma {:induction false} WeightUpdate(ws: seq<Worker>, i: nat, x: Worker)
    requires i < |ws|
    ensures Weight(ws[i := x]) == Weight(ws) - WeightOf(ws[i]) + WeightOf(x)
  {
    var n := |ws| - 1;
    if i < n {
      WeightUpdate(ws[..n], i, x);
      assert ws[i := x][..n] == ws[..n][i := x];
    } else {
      assert ws[i := x][..n] == ws[..n];
    }
  }

  predicate IsWorkerStep(a: Action) {
    a.Enter? || a.Finish?
  }

  lemma WorkerStepDecreases(p: Pool, a: Action)
    requires Inv(p) && p.shutdown && Enabled(p, a) && IsWorkerStep(a)
    ensures StepsLeft(Apply(p, a)) < StepsLeft(p) && Apply(p, a).shutdown && Apply(p, a).accepted == p.accepted
  {
    hide Weight, Ring, InFlight, Unblocked;
    WeightUpdate(p.workers, a.w, Apply(p, a).workers[a.w]);
  }

  // Nobody has exited before the last task was accepted.
  ghost predicate NothingAfterExit(p: Pool) {
    (exists i :: 0 <= i < |p.workers| && p.workers[i] == Exited) ==> p.lastExit == |p.accepted|
  }

  lemma WorkerStepKeepsNothingAfterExit(p: Pool, a: Action)
    requires Inv(p) && Enabled(p, a) && IsWorkerStep(a) && NothingAfterExit(p)
    ensures NothingAfterExit(Apply(p, a))
  {
    var p' := Apply(p, a);
    if exists i :: 0 <= i < |p'.workers| && p'.workers[i] == Exited {
      var i :| 0 <= i < |p'.workers| && p'.workers[i] == Exited;
      if i != a.w { assert p.workers[i] == Exited; }
    }
  }

  /** After shutdown the workers always can go on until all have exited, they take at most
      `StepsLeft` steps whatever the schedule, and then every accepted task has been dispatched,
      if none was accepted after a worker's exit. */
  lemma {:induction false} DrainsInEverySchedule(p: Pool, run: seq<Action>)
    requires Inv(p) && p.shutdown && p.workers != [] && NothingAfterExit(p)
    requires Possible(p, run) && forall i :: 0 <= i < |run| ==> IsWorkerStep(run[i])
    ensures |run| <= StepsLeft(p)
    ensures var q := After(p, run);
      if AllExited(q.workers) then q.count == 0 && q.dispatched == p.accepted == q.accepted
      else exists a :: IsWorkerStep(a) && Enabled(q, a)
    decreases |run|
  {
    hide Ring, InFlight, Unblocked, Weight;
    if run == [] {
      if AllExited(p.workers) {
        assert p.workers[0] == Exited;
        assert p.accepted[..|p.accepted|] == p.accepted;
        assert |Pending(p)| == 0;
      } else {
        var w := AwakeWorker(p);
        if Enabled(p, Enter(w)) { assert IsWorkerStep(Enter(w)); } else { assert IsWorkerStep(Finish(w)); }
      }
    } else {
      assert IsWorkerStep(run[0]);
      StepKeepsInv(p, run[0]);
      WorkerStepDecreases(p, run[0]);
      WorkerStepKeepsNothingAfterExit(p, run[0]);
      WorkersStay(p, run[0]);
      DrainsInEverySchedule(Apply(p, run[0]), run[1..]);
    }
  }

  // No task is handed in once the pool has been told to shut down.
  ghost predicate NoAddAfterShutdown(run: seq<Action>) {
    forall i, j :: 0 <= i < j < |run| && run[i] == Shutdown ==> !run[j].Add?
  }

  lemma StepKeepsNothingAfterExit(p: Pool, a: Action)
    requires Inv(p) && Enabled(p, a) && NothingAfterExit(p) && (a.Add? ==> !p.shutdown)
    ensures NothingAfterExit(Apply(p, a)) && (p.shutdown || a == Shutdown ==> Apply(p, a).shutdown)
  {
    if IsWorkerStep(a) {
      WorkerStepKeepsNothingAfterExit(p, a);
    } else {
      hide Ring, InFlight, Unblocked;
      var p' := Apply(p, a);
      forall i | 0 <= i < |p'.workers| && p'.workers[i] == Exited ensures p.workers[i] == Exited {
      }
    }
  }

  lemma {:induction false} RunKeepsNothingAfterExit(p: Pool, run: seq<Action>)
    requires Inv(p) && NothingAfterExit(p) && Possible(p, run) && NoAddAfterShutdown(run)
    requires p.shutdown ==> forall i :: 0 <= i < |run| ==> !run[i].Add?
    ensures NothingAfterExit(After(p, run))
    ensures p.shutdown || Shutdown in run ==> After(p, run).shutdown
    decreases |run|
  {
    hide Inv, NothingAfterExit;
    if run != [] {
      var a, rest := run[0], run[1..];
      assert a.Add? ==> !p.shutdown;
      StepKeepsNothingAfterExit(p, a);
      StepKeepsInv(p, a);
      assert forall i, j :: 0 <= i < j < |rest| && rest[i] == Shutdown ==> run[i + 1] == Shutdown && run[j + 1] == rest[j];
      ShutdownStays(p, a);
      if Apply(p, a).shutdown {
        forall i | 0 <= i < |rest| ensures !rest[i].Add? {
          assert rest[i] == run[i + 1];
        }
      }
      RunKeepsNothingAfterExit(Apply(p, a), rest);
    }
  }

  lemma ShutdownStays(p: Pool, a: Action)
    requires Inv(p) && Enabled(p, a)
    ensures Apply(p, a).shutdown <==> p.shutdown || a == Shutdown
  {
    hide Ring, InFlight, Unblocked;
  }

  /** From the created pool: after any run in which no task is handed in after the shutdown, the
      workers come to an end in every schedule, and when all have exited every accepted task has
      been dispatched. */
  lemma ShutdownDrains(p: Pool, run: seq<Action>, rest: seq<Action>)
    requires Initial(p) && p.workers != [] && Possible(p, run) && Shutdown in run && NoAddAfterShutdown(run)
    requires Possible(After(p, run), rest) && forall i :: 0 <= i < |rest| ==> IsWorkerStep(rest[i])
    ensures |rest| <= StepsLeft(After(p, run))
    ensures var q := After(After(p, run), rest);
      if AllExited(q.workers) then q.count == 0 && q.dispatched == q.accepted
      else exists a :: IsWorkerStep(a) && Enabled(q, a)
  {
    InitialInv(p);
    assert NothingAfterExit(p);
    hide Inv, Initial, NothingAfterExit, StepsLeft, Enabled;
    RunKeepsNothingAfterExit(p, run);
    RunKeepsInv(p, run);
    DrainsInEverySchedule(After(p, run), rest);
  }

  lemma WorkersStay(p: Pool, a: Action)
    requires Inv(p) && Enabled(p, a)
    ensures |Apply(p, a).workers| == |p.workers|
  {
  }

  /** Once all workers have exited, the tasks that never run are exactly those accepted after the
      last exit: `threadpool_add` takes them without looking at `shutdown`. */
  lemma StrandedTasks(p: Pool, run: seq<Action>)
    requires Initial(p) && p.workers != [] && Possible(p, run)
    ensures var q := After(p, run);
      AllExited(q.workers) ==>
        && Shape(q) && q.lastExit <= |q.accepted| && Pending(q) == q.accepted[q.lastExit..]
        && (Pending(q) == [] <==> q.lastExit == |q.accepted|)
  {
    hide Ring, InFlight, Unblocked;
    InitialInv(p);
    RunKeepsInv(p, run);
    var q := After(p, run);
    if AllExited(q.workers) {
      assert q.accepted[|q.dispatched|..] == Pending(q);
    }
  }

  /** One worker, shut down and gone: the next task is accepted and stays in the ring. */
  lemma TaskAcceptedTooLate(p: Pool, task: Task)
    requires Initial(p) && |p.queue| == 1 && p.workers == [Ready]
    ensures var run := [Shutdown, Enter(0), Add(task, 0)];
      && Possible(p, run)
      && AllExited(After(p, run).workers) && After(p, run).accepted == [task] && After(p, run).dispatched == []
  {
    hide Inv;
    InitialInv(p);
    var p1 := Apply(p, Shutdown);
    assert p1.workers == [Ready];
    var p2 := Apply(p1, Enter(0));
    assert p2.workers == [Exited] && !SomeBlocked(p2.workers);
    var p3 := Apply(p2, Add(task, 0));
    assert p3.accepted == [task];
    StepThen(p2, Add(task, 0), []);
    StepThen(p1, Enter(0), [Add(task, 0)]);
    StepThen(p, Shutdown, [Enter(0), Add(task, 0)]);
    assert [Add(task, 0)] + [] == [Add(task, 0)];
    assert [Enter(0)] + [Add(task, 0)] == [Enter(0), Add(task, 0)];
    assert [Shutdown] + [Enter(0), Add(task, 0)] == [Shutdown, Enter(0), Add(task, 0)];
  }

  lemma StepThen(p: Pool, a: Action, rest: seq<Action>)
    requires InBounds(p) && Enabled(p, a) && Possible(Apply(p, a), rest)
    ensures Possible(p, [a] + rest) && After(p, [a] + rest) == After(Apply(p, a), rest)
  {
    assert ([a] + rest)[1..] == rest;
  }
}
