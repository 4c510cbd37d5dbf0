/**
 In which order a worker asks its queues, over every run on the real queues; when it gives a
 round up, when it leaves, and what a round does that nobody disturbs.
 */
module WorkerOrder {
  import S = Scheduler
  import Q = Mpmc
  import opened QueuedScheduler

  /** The values of the source's enumeration. */
  function Rank(p: Priority): int {
    match p case HIGH => 1 case NORMAL => 0 case LOW => -1
  }

  /** The state after the first `k` steps. */
  ghost function At(s: State, actions: seq<Action>, k: nat): State
    requires Inv(s) && k <= |actions|
  {
    RunFrom(s, actions[..k])
  }

  /** Step `k` is worker `w`'s look at the running flag or at the counter. */
  ghost predicate Looks(s: State, actions: seq<Action>, k: nat, w: nat)
    requires Inv(s) && k < |actions|
  {
    && actions[k].WorkStep? && actions[k].w == w && w < |At(s, actions, k).workers|
    && (At(s, actions, k).workers[w].CheckRunning? || At(s, actions, k).workers[w].CheckActive?)
  }

  /** The thread is about to load the sequence of a ticket that is the next to be popped and that
      nobody has published. */
  ghost predicate SeesUnpublished(q: Queue, k: nat) {
    && k < |q.threads| && q.threads[k].PopSeq? && q.threads[k].pos == q.deq
    && (q.deq == q.enq || q.deq in q.pushers)
  }

  /** At step `k`, worker `w` is told by the queue of priority `p` that it is empty: nothing that
      it could take was published at that instant. */
  ghost predicate ToldEmpty(s: State, actions: seq<Action>, k: nat, w: nat, p: Priority)
    requires Inv(s) && k < |actions|
  {
    && actions[k].WorkStep? && actions[k].w == w && w < |At(s, actions, k).workers|
    && At(s, actions, k).workers[w] == Popping(p)
    && SeesUnpublished(At(s, actions, k).Of(p), At(s, actions, k).Id(w))
  }

  /** It was told so since its last look. */
  ghost predicate Heard(s: State, actions: seq<Action>, n: nat, w: nat, p: Priority)
    requires Inv(s) && n <= |actions|
  {
    exists k: nat :: HeardAt(s, actions, n, w, p, k)
  }

  ghost predicate HeardAt(s: State, actions: seq<Action>, n: nat, w: nat, p: Priority, k: nat)
    requires Inv(s) && n <= |actions|
  {
    && k < n && ToldEmpty(s, actions, k, w, p)
    && forall j: nat {:trigger Looks(s, actions, j, w)} :: k < j < n ==> !Looks(s, actions, j, w)
  }

  lemma {:induction false} RunOneMore(s: State, actions: seq<Action>, x: Action)
    requires Inv(s)
    ensures RunFrom(s, actions + [x]) == Next(RunFrom(s, actions), x)
    decreases |actions|
  {
    if actions == [] {
      assert ([] + [x])[1..] == [];
    } else {
      StepKeeps(s, actions[0]);
      assert (actions + [x])[0] == actions[0] && (actions + [x])[1..] == actions[1..] + [x];
      RunOneMore(Next(s, actions[0]), actions[1..], x);
    }
  }

  lemma AtNext(s: State, actions: seq<Action>, n: nat)
    requires Inv(s) && n < |actions|
    ensures At(s, actions, n + 1) == Next(At(s, actions, n), actions[n])
  {
    assert actions[..n + 1] == actions[..n] + [actions[n]];
    RunOneMore(s, actions[..n], actions[n]);
  }

  // ------------------------------------------------------------ one step

  /** A worker's step inside `pop`: it stays there, has its task, or is told that the queue is empty. */
  lemma PoppingStep(s: State, w: nat, spurious: bool)
    requires Inv(s) && w < |s.workers| && s.workers[w].Popping?
    ensures var p, r := s.workers[w].priority, Popped(s, w, spurious);
      && |r.workers| == |s.workers| && (forall v: nat :: v < |s.workers| && v != w ==> r.workers[v] == s.workers[v])
      && (SeesUnpublished(s.Of(p), s.Id(w)) ==> r.workers[w] == AfterEmpty(w, p))
      && (!SeesUnpublished(s.Of(p), s.Id(w)) ==> r.workers[w] == s.workers[w] || r.workers[w].Execute?)
  {
    var p := s.workers[w].priority;
    var q, k := s.Of(p), s.Id(w);
    assert QueueOk(s, p) && WorkerOk(s, p, w);
    WithKeepsWorkers(s, p);
    if q.threads[k].PopSeq? {
      Q.EmptyReportedIff(q, k);
      Q.OtherThreads(q, k, Q.Advance, k);
    }
  }

  lemma OthersKeepWorker(s: State, x: Action, w: nat)
    requires Inv(s) && w < |s.workers| && !(x.WorkStep? && x.w == w)
    ensures w < |Next(s, x).workers| && Next(s, x).workers[w] == s.workers[w]
  {
    match x
    case WorkStep(v, spurious) =>
      if v < |s.workers| && s.workers[v].Popping? {
        PoppingStep(s, v, spurious);
      }
    case PushStep(i, spurious) =>
      if i < |s.spawners| && s.spawners[i].Pushing? {
        WithKeepsWorkers(s, s.spawners[i].task.priority);
      }
    case _ =>
  }

  lemma SameNumber(s: State, x: Action)
    requires Inv(s)
    ensures |Next(s, x).workers| == |s.workers|
  {
    match x
    case WorkStep(v, spurious) =>
      if v < |s.workers| && s.workers[v].Popping? {
        PoppingStep(s, v, spurious);
      }
    case PushStep(i, spurious) =>
      if i < |s.spawners| && s.spawners[i].Pushing? {
        WithKeepsWorkers(s, s.spawners[i].task.priority);
      }
    case _ =>
  }

  // ------------------------------------------------------------ whole runs

  lemma HeardStays(s: State, actions: seq<Action>, n: nat, w: nat, p: Priority)
    requires Inv(s) && n < |actions| && Heard(s, actions, n, w, p) && !Looks(s, actions, n, w)
    ensures Heard(s, actions, n + 1, w, p)
  {
    var k: nat :| HeardAt(s, actions, n, w, p, k);
    assert HeardAt(s, actions, n + 1, w, p, k);
  }

  /** Whoever is inside `pop` on a queue was told "empty" by all queues of higher priority. */
  ghost predicate InOrder(s: State, actions: seq<Action>, n: nat, w: nat)
    requires Inv(s) && n <= |actions|
  {
    w < |At(s, actions, n).workers| && At(s, actions, n).workers[w].Popping? ==>
      forall o: Priority {:trigger Heard(s, actions, n, w, o)} ::
        Rank(o) > Rank(At(s, actions, n).workers[w].priority) ==> Heard(s, actions, n, w, o)
  }

  lemma StepInOrder(s: State, actions: seq<Action>, n: nat, w: nat)
    requires Inv(s) && n < |actions| && InOrder(s, actions, n, w)
    ensures InOrder(s, actions, n + 1, w)
  {
    var u, x := At(s, actions, n), actions[n];
    AtNext(s, actions, n);
    SameNumber(u, x);
    if w < |u.workers| {
      if x.WorkStep? && x.w == w {
        if u.workers[w].Popping? {
          PoppingInOrder(s, actions, n, w);
        }
      } else {
        OthersKeepWorker(u, x, w);
        if u.workers[w].Popping? {
          forall o: Priority | Rank(o) > Rank(u.workers[w].priority) ensures Heard(s, actions, n + 1, w, o) {
            HeardStays(s, actions, n, w, o);
          }
        }
      }
    }
  }

  lemma PoppingInOrder(s: State, actions: seq<Action>, n: nat, w: nat)
    requires Inv(s) && n < |actions| && InOrder(s, actions, n, w)
    requires actions[n].WorkStep? && actions[n].w == w && w < |At(s, actions, n).workers|
    requires At(s, actions, n).workers[w].Popping?
    ensures InOrder(s, actions, n + 1, w)
    ensures w < |At(s, actions, n + 1).workers|
    ensures At(s, actions, n + 1).workers[w] == CheckRunning ==>
      forall o: Priority {:trigger Heard(s, actions, n + 1, w, o)} :: (w == 0 && o == S.LOW) || Heard(s, actions, n + 1, w, o)
  {
    var u := At(s, actions, n);
    var p := u.workers[w].priority;
    AtNext(s, actions, n);
    PoppingStep(u, w, actions[n].spurious);
    forall o: Priority | Rank(o) > Rank(p) ensures Heard(s, actions, n + 1, w, o) {
      HeardStays(s, actions, n, w, o);
    }
    if SeesUnpublished(u.Of(p), u.Id(w)) {
      assert HeardAt(s, actions, n + 1, w, p, n);
      assert Heard(s, actions, n + 1, w, p);
      forall o: Priority {:trigger Heard(s, actions, n + 1, w, o)} | At(s, actions, n + 1).workers[w] == CheckRunning && !(w == 0 && o == S.LOW)
        ensures Heard(s, actions, n + 1, w, o)
      {
        assert o == p || Rank(o) > Rank(p);
      }
    }
  }

  lemma {:induction false} AllInOrder(s: State, actions: seq<Action>, n: nat, w: nat)
    requires Inv(s) && n <= |actions| && (w < |s.workers| ==> !s.workers[w].Popping?)
    ensures InOrder(s, actions, n, w)
    decreases n
  {
    if n == 0 {
      assert actions[..0] == [];
    } else {
      AllInOrder(s, actions, n - 1, w);
      StepInOrder(s, actions, n - 1, w);
    }
  }

  /** In every run on the real queues: a worker inside `pop` on a queue, and so one that claims a
      task there, was told "empty" by every queue of higher priority since it last looked at
      the running flag or the counter; at that instant nothing there was published. */
  lemma AsksInOrder(cells: seq<Task>, spawners: nat, workers: nat, actions: seq<Action>, w: nat, p: Priority, o: Priority)
    requires |cells| == S.CAPACITY
    requires var r := RunFrom(Start(cells, spawners, workers), actions); w < |r.workers| && r.workers[w] == Popping(p)
    requires Rank(o) > Rank(p)
    ensures Heard(Start(cells, spawners, workers), actions, |actions|, w, o)
  {
    var s := Start(cells, spawners, workers);
    assert actions[..|actions|] == actions;
    AllInOrder(s, actions, |actions|, w);
  }

  /** A worker gives a round up only when every queue has told it so, the LOW queue too unless it
      is the dedicated high core. */
  lemma RoundEndsWhenAllEmpty(cells: seq<Task>, spawners: nat, workers: nat, actions: seq<Action>, w: nat, spurious: bool,
                              o: Priority)
    requires |cells| == S.CAPACITY && (w == 0 ==> o != S.LOW)
    requires var r := RunFrom(Start(cells, spawners, workers), actions);
      w < |r.workers| && r.workers[w].Popping? && Next(r, WorkStep(w, spurious)).workers[w] == CheckRunning
    ensures Heard(Start(cells, spawners, workers), actions + [WorkStep(w, spurious)], |actions| + 1, w, o)
  {
    var s, more := Start(cells, spawners, workers), actions + [WorkStep(w, spurious)];
    assert more[..|actions|] == actions && more[..|actions| + 1] == more;
    RunOneMore(s, actions, WorkStep(w, spurious));
    AllInOrder(s, more, |actions|, w);
    PoppingInOrder(s, more, |actions|, w);
  }

  // ------------------------------------------- leaving the loop, and queues by priority

  /** Whoever has seen the flag down, or has left, did so after `stop`; and a queue has only ever
      been given tasks of its own priority. */
  ghost predicate Orderly(s: State) {
    && (forall w: nat {:trigger s.workers[w]} :: w < |s.workers| && (s.workers[w].CheckActive? || s.workers[w].Exited?) ==> !s.running)
    && forall p: Priority :: OwnPriority(s.Of(p), p)
  }

  ghost predicate OwnPriority(q: Queue, p: Priority) {
    forall k {:trigger q.pushed[k]} :: 0 <= k < |q.pushed| ==> q.pushed[k].priority == p
  }

  lemma PushOrderly(s: State, i: nat, spurious: bool)
    requires Inv(s) && Orderly(s) && i < |s.spawners| && s.spawners[i].Pushing?
    ensures Orderly(Pushed(s, i, spurious))
  {
    var t := s.spawners[i].task;
    var q, r := s.Of(t.priority), Pushed(s, i, spurious);
    assert QueueOk(s, t.priority) && SpawnerOk(s, t.priority, i);
    PushFactsHold(q, i, t, spurious);
    PushedIs(s, i, spurious);
    forall p: Priority ensures OwnPriority(r.Of(p), p) {
      assert OwnPriority(s.Of(p), p);
    }
  }

  lemma PopOrderly(s: State, w: nat, spurious: bool)
    requires Inv(s) && Orderly(s) && w < |s.workers| && s.workers[w].Popping?
    ensures Orderly(Popped(s, w, spurious))
  {
    var p := s.workers[w].priority;
    var q, k, r := s.Of(p), s.Id(w), Popped(s, w, spurious);
    assert QueueOk(s, p) && WorkerOk(s, p, w);
    PopFactsHold(q, k, spurious);
    PoppedIs(s, w, spurious);
    forall o: Priority ensures OwnPriority(r.Of(o), o) {
      assert OwnPriority(s.Of(o), o);
    }
  }

  lemma StepOrderly(s: State, x: Action)
    requires Inv(s) && Orderly(s)
    ensures Orderly(Next(s, x))
  {
    match x
    case PushStep(i, spurious) =>
      if i < |s.spawners| && s.spawners[i].Pushing? {
        PushOrderly(s, i, spurious);
      }
    case WorkStep(w, spurious) =>
      if w < |s.workers| && s.workers[w].Popping? {
        PopOrderly(s, w, spurious);
      } else {
        QueuesKept(s, Next(s, x));
      }
    case _ => QueuesKept(s, Next(s, x));
  }

  lemma QueuesKept(s: State, r: State)
    requires (forall p: Priority :: OwnPriority(s.Of(p), p)) && SameQueues(s, r)
    ensures forall p: Priority :: OwnPriority(r.Of(p), p)
  {
    forall p: Priority ensures OwnPriority(r.Of(p), p) {
      assert r.Of(p) == s.Of(p) && OwnPriority(s.Of(p), p);
    }
  }

  lemma {:induction false} AlwaysOrderly(s: State, actions: seq<Action>)
    requires Inv(s) && Orderly(s)
    ensures Orderly(RunFrom(s, actions))
    decreases |actions|
  {
    if actions != [] {
      StepKeeps(s, actions[0]);
      StepOrderly(s, actions[0]);
      AlwaysOrderly(Next(s, actions[0]), actions[1..]);
    }
  }

  /** A worker has left, in any run, only after `stop`. */
  lemma LeavesOnlyAfterStop(cells: seq<Task>, spawners: nat, workers: nat, actions: seq<Action>, w: nat)
    requires |cells| == S.CAPACITY
    requires var r := RunFrom(Start(cells, spawners, workers), actions); w < |r.workers| && r.workers[w].Exited?
    ensures !RunFrom(Start(cells, spawners, workers), actions).running
  {
    AlwaysOrderly(Start(cells, spawners, workers), actions);
  }

  /** In any run, every task that was ever in a queue has that queue's priority. */
  lemma QueuesByPriority(cells: seq<Task>, spawners: nat, workers: nat, actions: seq<Action>, p: Priority, k: nat)
    requires |cells| == S.CAPACITY
    requires k < |RunFrom(Start(cells, spawners, workers), actions).Of(p).pushed|
    ensures RunFrom(Start(cells, spawners, workers), actions).Of(p).pushed[k].priority == p
  {
    AlwaysOrderly(Start(cells, spawners, workers), actions);
    assert OwnPriority(RunFrom(Start(cells, spawners, workers), actions).Of(p), p);
  }
}
