/** The scheduler object itself: its counters, queues and threads updated in place. */
module SchedulerObject {
  import opened Scheduler

  class TriPriorityScheduler {
    var running: bool
    var nextTaskId: nat
    var activeTasks: int
    var queues: map<Priority, seq<Task>>
    var spawners: seq<Spawner>
    var workers: seq<Worker>
    ghost var place: map<nat, Place>
    ghost var runs: map<nat, nat>
    ghost var left: map<Priority, nat>

    /** The object as a state of the interleaving machine. */
    ghost function Abs(): State
      reads this
    {
      State(running, nextTaskId, activeTasks, queues, spawners, workers, place, runs, left)
    }

    constructor (threads: nat, numThreads: nat)
      ensures Abs() == Init(threads, if numThreads == 0 then 4 else numThreads) && Inv(Abs())
    {
      running, nextTaskId, activeTasks, queues := true, 1, 0, map[];
      spawners := seq(threads, _ => Ready);
      workers := seq(if numThreads == 0 then 4 else numThreads, _ => CheckRunning);
      place, runs, left := map[], map[], map[];
      InitInv(threads, if numThreads == 0 then 4 else numThreads);
    }

    /** `spawn` draws the next id. */
    method DrawId(i: nat, priority: Priority)
      requires i < |spawners| && spawners[i].Ready? && Inv(Abs())
      modifies this`spawners, this`nextTaskId
      ensures Abs() == Next(old(Abs()), Spawn(i, priority)) && Inv(Abs())
    {
      StepKeeps(Abs(), Spawn(i, priority));
      spawners := spawners[i := Numbered(Task(nextTaskId, priority))];
      nextTaskId := nextTaskId + 1;
    }

    /** `spawn` counts its work item; from here on it is accepted. */
    method CountTask(i: nat)
      requires i < |spawners| && spawners[i].Numbered? && Inv(Abs())
      modifies this`spawners, this`activeTasks, this`place
      ensures Abs() == Next(old(Abs()), Count(i)) && Inv(Abs())
    {
      StepKeeps(Abs(), Count(i));
      activeTasks := activeTasks + 1;
      place := place[spawners[i].task.id := AtSpawner(i)];
      spawners := spawners[i := Waiting(spawners[i].task)];
    }

    /** One attempt to push into the queue of its priority. */
    method PushTask(i: nat, success: bool) returns (pushed: bool)
      requires i < |spawners| && spawners[i].Waiting? && Inv(Abs())
      modifies this`spawners, this`queues, this`place
      ensures Abs() == Next(old(Abs()), TryPush(i, success)) && Inv(Abs())
      ensures pushed <==> old(success && |Queue(Abs(), spawners[i].task.priority)| < CAPACITY)
      ensures !pushed ==> spawners[i] == old(spawners[i])
    {
      StepKeeps(Abs(), TryPush(i, success));
      ghost var next := Next(Abs(), TryPush(i, success));
      var t := spawners[i].task;
      var q := if t.priority in queues then queues[t.priority] else [];
      if !success || |q| >= CAPACITY {
        return false;
      }
      place := next.place;
      queues := queues[t.priority := q + [t]];
      spawners := spawners[i := Ready];
      return true;
    }

    /** A worker's attempt to pop from one queue. */
    method PopTask(w: nat, p: Priority, success: bool, otherwise: Worker)
      requires w < |workers|
      modifies this`workers, this`queues, this`place, this`left
      ensures Abs() == Popped(old(Abs()), w, p, success, otherwise)
    {
      if success && p in queues && queues[p] != [] {
        TakeHead(w, p, otherwise);
      } else {
        workers := workers[w := otherwise];
      }
    }

    method TakeHead(w: nat, p: Priority, ghost otherwise: Worker)
      requires w < |workers| && p in queues && queues[p] != []
      modifies this`workers, this`queues, this`place, this`left
      ensures Abs() == Popped(old(Abs()), w, p, true, otherwise)
    {
      ghost var next := Popped(Abs(), w, p, true, otherwise);
      var q := queues[p];
      place, left := next.place, next.left;
      queues := queues[p := q[1..]];
      workers := workers[w := Execute(q[0])];
      assert queues == next.queues && workers == next.workers;
    }

    /** A popped task's body runs. */
    method RunTask(w: nat)
      requires w < |workers| && workers[w].Execute?
      modifies this`workers, this`runs
      ensures Abs() == Worked(old(Abs()), w, true)
    {
      runs := Worked(Abs(), w, true).runs;
      workers := workers[w := Report(workers[w].task)];
    }

    /** A finished task is counted out. */
    method ReportTask(w: nat)
      requires w < |workers| && workers[w].Report?
      modifies this`workers, this`activeTasks, this`place
      ensures Abs() == Worked(old(Abs()), w, true)
    {
      place := Worked(Abs(), w, true).place;
      activeTasks := activeTasks - 1;
      workers := workers[w := CheckRunning];
    }

    /** One step of a worker's loop; worker 0 is the dedicated high core. */
    method WorkerStep(w: nat, success: bool)
      requires w < |workers| && Inv(Abs())
      modifies this`workers, this`queues, this`activeTasks, this`place, this`runs, this`left
      ensures Abs() == Worked(old(Abs()), w, success) && Inv(Abs())
    {
      WorkKeeps(Abs(), w, success);
      var isHighCore := w == 0;
      match workers[w]
      case CheckRunning => workers := workers[w := if running then PopHigh else CheckActive];
      case CheckActive => workers := workers[w := if activeTasks > 0 then PopHigh else Exited];
      case PopHigh => PopTask(w, HIGH, success, PopNormal);
      case PopNormal => PopTask(w, NORMAL, success, if isHighCore then CheckRunning else PopLow);
      case PopLow => PopTask(w, LOW, success, CheckRunning);
      case Execute(_) => RunTask(w);
      case Report(_) => ReportTask(w);
      case Exited =>
    }

    /** `stop` up to its joins. */
    method RequestStop()
      requires Inv(Abs())
      modifies this`running
      ensures Abs() == Next(old(Abs()), Stop) && Inv(Abs())
    {
      StepKeeps(Abs(), Stop);
      running := false;
    }

    /** One look of `wait_all` at the counter: it may return exactly when every accepted task is finished. */
    method Finished() returns (done: bool)
      requires Inv(Abs())
      ensures done <==> AllDone(Abs())
    {
      ZeroMeansDone(Abs());
      done := !(activeTasks > 0);
    }
  }
}
