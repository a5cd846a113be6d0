/**
 `threadpool_t` and its critical sections as written: a ring buffer updated in place.  Each
 section is proved to be the step of `ThreadPool` it stands for.
 */
module ThreadPoolObject {
  import opened ThreadPool

  // What a worker does once its critical section is over.
  datatype Decision = Wait | Leave | Run(task: Task)

  class PoolObject {
    var taskQueue: array<Task>
    var head: nat
    var tail: nat
    var count: nat
    var shutdown: bool
    ghost var workers: seq<Worker>
    ghost var accepted: seq<Task>
    ghost var dispatched: seq<Task>
    ghost var finished: multiset<Task>
    ghost var lastExit: nat

    ghost function View(): Pool
      reads this, taskQueue
    {
      Pool(taskQueue[..], head, tail, count, shutdown, workers, accepted, dispatched, finished, lastExit)
    }

    // `threadpool_create`; the queue's slots are left as allocated.
    constructor (threadCount: nat, queueSize: nat)
      requires queueSize > 0
      ensures Inv(View()) && Initial(View())
      ensures |workers| == threadCount && taskQueue.Length == queueSize && fresh(taskQueue)
    {
      taskQueue := new Task[queueSize];
      head, tail, count, shutdown := 0, 0, 0, false;
      workers := seq(threadCount, _ => Ready);
      accepted, dispatched, finished, lastExit := [], [], multiset{}, 0;
      new;
      InitialInv(View());
    }

    // `threadpool_add`; `wake` is the waiter the signal happens to reach.
    method Add(task: Task, ghost wake: nat) returns (err: int)
      requires Inv(View()) && Enabled(View(), Action.Add(task, wake))
      modifies this, taskQueue
      ensures taskQueue == old(taskQueue)
      ensures View() == Apply(old(View()), Action.Add(task, wake)) && Inv(View())
      ensures err == if old(count) == taskQueue.Length then -1 else 0
    {
      StepKeepsInv(View(), Action.Add(task, wake));
      hide Inv;
      if count == taskQueue.Length {
        return -1;
      }
      PutTask(task, wake);
      return 0;
    }

    // The task goes into the ring and the signal to a waiter.
    method PutTask(task: Task, ghost wake: nat)
      requires InBounds(View()) && count < taskQueue.Length
      modifies this, taskQueue
      ensures taskQueue == old(taskQueue)
      ensures View() == AfterAdd(old(View()), task, wake)
    {
      var next := (tail + 1) % taskQueue.Length;
      taskQueue[tail] := task;
      tail := next;
      count := count + 1;
      accepted := accepted + [task];
      if WorkerIs(workers, wake, Blocked) {
        workers := workers[wake := Ready];
      }
    }

    // The head of the ring goes to worker `w`.
    method TakeTask(ghost w: nat) returns (task: Task)
      requires InBounds(View()) && count > 0 && w < |workers|
      modifies this
      ensures taskQueue == old(taskQueue)
      ensures View() == AfterEnter(old(View()), w) && workers[w] == Running(task)
    {
      task := taskQueue[head];
      head := (head + 1) % taskQueue.Length;
      count := count - 1;
      workers, dispatched := workers[w := Running(task)], dispatched + [task];
    }

    // One pass of `threadpool_thread` through the lock.
    method WorkerSection(ghost w: nat) returns (d: Decision)
      requires Inv(View()) && Enabled(View(), Enter(w))
      modifies this
      ensures taskQueue == old(taskQueue)
      ensures View() == Apply(old(View()), Enter(w)) && Inv(View())
      ensures d == match workers[w] case Running(task) => Run(task) case Exited => Leave case _ => Wait
    {
      StepKeepsInv(View(), Enter(w));
      hide Inv;
      if count == 0 && !shutdown {
        workers := workers[w := Blocked];
        return Wait;
      }
      if shutdown && count == 0 {
        workers, lastExit := workers[w := Exited], |accepted|;
        return Leave;
      }
      var task := TakeTask(w);
      return Run(task);
    }

    // The locked part of `threadpool_destroy`.
    method BeginShutdown()
      requires Inv(View())
      modifies this
      ensures taskQueue == old(taskQueue)
      ensures View() == Apply(old(View()), Shutdown) && Inv(View())
    {
      StepKeepsInv(View(), Shutdown);
      shutdown := true;
      workers := Released(workers);
    }
  }
}
