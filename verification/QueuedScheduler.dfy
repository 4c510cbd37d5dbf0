/**
 The scheduler on top of its real queues: every `push` and `pop` is the sequence of atomic
 steps of the multi-producer multi-consumer queue, interleaved with all other threads.
 Every run of it is a run of the scheduler over three first-in first-out queues.
 */
module QueuedScheduler {
  import S = Scheduler
  import Q = Mpmc

  type Task = S.Task
  type Priority = S.Priority
  type Queue = Q.State<Task>

  datatype Spawner = Ready | Numbered(task: Task) | Pushing(task: Task)

  datatype Worker =
    | CheckRunning
    | CheckActive
    | Popping(priority: Priority)
    | Execute(task: Task)
    | Report(task: Task)
    | Exited

  datatype State = State(
    running: bool,
    nextId: nat,
    active: int,
    high: Queue,
    normal: Queue,
    low: Queue,
    spawners: seq<Spawner>,
    workers: seq<Worker>,
    runs: map<nat, nat>)
  {
    function Of(p: Priority): Queue {
      match p case HIGH => high case NORMAL => normal case LOW => low
    }

    function With(p: Priority, q: Queue): (r: State)
      ensures r.Of(p) == q && forall o: Priority :: o != p ==> r.Of(o) == Of(o)
    {
      match p case HIGH => this.(high := q) case NORMAL => this.(normal := q) case LOW => this.(low := q)
    }

    /** The thread number of a worker in every queue; spawners come first. */
    function Id(w: nat): nat {
      |spawners| + w
    }
  }

  datatype Action =
    | Spawn(i: nat, priority: Priority)
    | Count(i: nat)
    | PushStep(i: nat, spurious: bool)
    | WorkStep(w: nat, spurious: bool)
    | Stop

  function Init(cells: seq<Task>, spawners: nat, workers: nat): State
    requires |cells| == S.CAPACITY
  {
    var q := Q.Init(S.CAPACITY, cells, spawners + workers);
    State(true, 1, 0, q, q, q, seq(spawners, _ => Ready), seq(workers, _ => CheckRunning), map[])
  }

  predicate Sized(s: State) {
    forall p: Priority ::
      s.Of(p).Shaped() && s.Of(p).cap == S.CAPACITY && |s.Of(p).threads| == |s.spawners| + |s.workers|
  }

  /** What a thread inside `push` or `pop` does next; a claim may fail spuriously. */
  function Inside(l: Q.Local<Task>, spurious: bool): Q.Action<Task> {
    if spurious && (l.PushCas? || l.PopCas?) then Q.SpuriousFailure else Q.Advance
  }

  /** One step of the retry loop: a refused push is called again with what it handed back. */
  function PushAction(l: Q.Local<Task>, t: Task, spurious: bool): Q.Action<Task> {
    if l.Refused? then Q.StartPush(l.v) else if l.Idle? then Q.StartPush(t) else Inside(l, spurious)
  }

  function Pushed(s: State, i: nat, spurious: bool): State
    requires Sized(s) && i < |s.spawners| && s.spawners[i].Pushing?
  {
    var t := s.spawners[i].task;
    var q := s.Of(t.priority);
    var l := q.threads[i];
    var r := s.With(t.priority, Q.Apply(q, i, PushAction(l, t, spurious)));
    if l.PushPublish? then r.(spawners := s.spawners[i := Ready]) else r
  }

  function PopAction(l: Q.Local<Task>, spurious: bool): Q.Action<Task> {
    if Q.Outside(l) then Q.StartPop else Inside(l, spurious)
  }

  /** Where a worker goes when a queue is empty; worker 0 is the dedicated high core. */
  function AfterEmpty(w: nat, p: Priority): Worker {
    match p
    case HIGH => Popping(S.NORMAL)
    case NORMAL => if w == 0 then CheckRunning else Popping(S.LOW)
    case LOW => CheckRunning
  }

  function Popped(s: State, w: nat, spurious: bool): State
    requires Sized(s) && w < |s.workers| && s.workers[w].Popping?
  {
    var p := s.workers[w].priority;
    var q := s.Of(p);
    var l := q.threads[s.Id(w)];
    var q' := Q.Apply(q, s.Id(w), PopAction(l, spurious));
    var r := s.With(p, q');
    if l.PopRelease? then r.(workers := s.workers[w := Execute(l.v)])
    else if l.PopSeq? && s.Id(w) < |q'.threads| && q'.threads[s.Id(w)].Idle? then
      r.(workers := s.workers[w := AfterEmpty(w, p)])
    else r
  }

  function Worked(s: State, w: nat, spurious: bool): State
    requires Sized(s) && w < |s.workers|
  {
    match s.workers[w]
    case CheckRunning => s.(workers := s.workers[w := if s.running then Popping(S.HIGH) else CheckActive])
    case CheckActive => s.(workers := s.workers[w := if s.active > 0 then Popping(S.HIGH) else Exited])
    case Popping(_) => Popped(s, w, spurious)
    case Execute(t) =>
      s.(workers := s.workers[w := Report(t)], runs := s.runs[t.id := (if t.id in s.runs then s.runs[t.id] else 0) + 1])
    case Report(_) => s.(workers := s.workers[w := CheckRunning], active := s.active - 1)
    case Exited => s
  }

  function Next(s: State, a: Action): State
    requires Sized(s)
  {
    match a
    case Spawn(i, p) =>
      if i < |s.spawners| && s.spawners[i].Ready? then
        s.(spawners := s.spawners[i := Numbered(S.Task(s.nextId, p))], nextId := s.nextId + 1)
      else s
    case Count(i) =>
      if i < |s.spawners| && s.spawners[i].Numbered? then
        s.(spawners := s.spawners[i := Pushing(s.spawners[i].task)], active := s.active + 1)
      else s
    case PushStep(i, spurious) => if i < |s.spawners| && s.spawners[i].Pushing? then Pushed(s, i, spurious) else s
    case WorkStep(w, spurious) => if w < |s.workers| then Worked(s, w, spurious) else s
    case Stop => s.(running := false)
  }

  // --------------------------------------------------------------- invariant

  /** Inside `push` with task `t`, or about to call it (again). */
  predicate PushState(l: Q.Local<Task>, t: Task) {
    l.Idle? || l.PushPublish? ||
    ((l.Refused? || l.PushLoad? || l.PushSeq? || l.PushCas? || l.PushWrite?) && l.v == t)
  }

  predicate PopState(l: Q.Local<Task>) {
    l.Idle? || l.PopLoad? || l.PopSeq? || l.PopCas? || l.PopRead? || l.PopRelease?
  }

  /** A spawner is inside the queue of its task's priority at most. */
  ghost predicate SpawnerOk(s: State, p: Priority, i: nat)
    requires Sized(s) && i < |s.spawners|
  {
    var l := s.Of(p).threads[i];
    if s.spawners[i].Pushing? && s.spawners[i].task.priority == p then PushState(l, s.spawners[i].task) else l.Idle?
  }

  ghost predicate WorkerOk(s: State, p: Priority, w: nat)
    requires Sized(s) && w < |s.workers|
  {
    var l := s.Of(p).threads[s.Id(w)];
    if s.workers[w] == Popping(p) then PopState(l) else l.Idle?
  }

  ghost predicate QueueOk(s: State, p: Priority)
    requires Sized(s)
  {
    && Q.Inv(s.Of(p))
    && (forall i: nat {:trigger SpawnerOk(s, p, i)} :: i < |s.spawners| ==> SpawnerOk(s, p, i))
    && (forall w: nat {:trigger WorkerOk(s, p, w)} :: w < |s.workers| ==> WorkerOk(s, p, w))
  }

  ghost predicate Inv(s: State) {
    Sized(s) && forall p: Priority {:trigger QueueOk(s, p)} :: QueueOk(s, p)
  }

  // ------------------------------------------------------------- abstraction

  /** A spawner whose ticket is claimed has handed its task over. */
  ghost function AbsSpawner(s: State, i: nat): S.Spawner
    requires Sized(s) && i < |s.spawners|
  {
    match s.spawners[i]
    case Ready => S.Ready
    case Numbered(t) => S.Numbered(t)
    case Pushing(t) =>
      var l := s.Of(t.priority).threads[i];
      if l.PushWrite? || l.PushPublish? then S.Ready else S.Waiting(t)
  }

  function PopPlace(p: Priority): S.Worker {
    match p case HIGH => S.PopHigh case NORMAL => S.PopNormal case LOW => S.PopLow
  }

  predicate Took(q: Queue, k: nat) {
    && k < |q.threads| && (q.threads[k].PopRead? || q.threads[k].PopRelease?)
    && q.threads[k].pos < |q.pushed|
  }

  /** A worker whose ticket is claimed has what was pushed under that ticket. */
  ghost function AbsWorker(s: State, w: nat): S.Worker
    requires w < |s.workers|
  {
    match s.workers[w]
    case CheckRunning => S.CheckRunning
    case CheckActive => S.CheckActive
    case Popping(p) =>
      if Took(s.Of(p), s.Id(w)) then S.Execute(s.Of(p).pushed[s.Of(p).threads[s.Id(w)].pos]) else PopPlace(p)
    case Execute(t) => S.Execute(t)
    case Report(t) => S.Report(t)
    case Exited => S.Exited
  }

  /** The queue of priority `p` holds what the abstract one holds, and only accepted tasks ever entered it. */
  ghost predicate SameQueue(s: State, a: S.State, p: Priority)
    requires Sized(s)
  {
    && QueueOk(s, p) && S.Queue(a, p) == Q.Contents(s.Of(p))
    && forall k :: 0 <= k < |s.Of(p).pushed| ==> s.Of(p).pushed[k].id in a.place
  }

  ghost predicate SameSpawner(s: State, a: S.State, i: nat)
    requires Sized(s) && i < |s.spawners| == |a.spawners|
  {
    a.spawners[i] == AbsSpawner(s, i)
  }

  ghost predicate SameWorker(s: State, a: S.State, w: nat)
    requires w < |s.workers| == |a.workers|
  {
    a.workers[w] == AbsWorker(s, w)
  }

  /** `a` is the state of the scheduler over first-in first-out queues that `s` stands for. */
  ghost predicate Represents(s: State, a: S.State) {
    && Inv(s) && S.Inv(a)
    && a.running == s.running && a.nextId == s.nextId && a.active == s.active && a.runs == s.runs
    && |a.spawners| == |s.spawners| && |a.workers| == |s.workers|
    && (forall p: Priority {:trigger SameQueue(s, a, p)} :: SameQueue(s, a, p))
    && (forall i: nat {:trigger SameSpawner(s, a, i)} :: i < |s.spawners| ==> SameSpawner(s, a, i))
    && (forall w: nat {:trigger SameWorker(s, a, w)} :: w < |s.workers| ==> SameWorker(s, a, w))
  }

  // ---------------------------------------------------------- steps of `push`

  lemma PushLocal(q: Queue, i: nat, t: Task, spurious: bool)
    requires Q.Inv(q) && i < |q.threads| && PushState(q.threads[i], t)
    ensures var l, r := q.threads[i], Q.Apply(q, i, PushAction(q.threads[i], t, spurious));
      && |r.threads| == |q.threads| && PushState(r.threads[i], t)
      && (l.PushPublish? ==> r.threads[i].Idle?)
  {
    Q.OtherThreads(q, i, PushAction(q.threads[i], t, spurious), i);
    match q.threads[i]
    case PushSeq(_, _) =>
    case PushCas(_, _) =>
    case _ =>
  }

  /** A step of one thread in a queue: the others stay where they are. */
  ghost predicate OneThread(q: Queue, r: Queue, k: nat) {
    && |r.threads| == |q.threads|
    && forall j: nat :: j < |q.threads| && j != k ==> r.threads[j] == q.threads[j]
  }

  lemma StepIsLocal(q: Queue, k: nat, act: Q.Action<Task>)
    requires Q.Inv(q)
    ensures var r := Q.Apply(q, k, act); Q.Inv(r) && r.Shaped() && r.cap == q.cap && OneThread(q, r, k)
  {
    Q.RefinesFifo(q, k, act);
    forall j: nat ensures |Q.Apply(q, k, act).threads| == |q.threads|
      && (j < |q.threads| && j != k ==> Q.Apply(q, k, act).threads[j] == q.threads[j])
    {
      Q.OtherThreads(q, k, act, j);
    }
  }

  lemma PushKeepsSized(s: State, i: nat, spurious: bool)
    requires Inv(s) && i < |s.spawners| && s.spawners[i].Pushing?
    ensures Sized(Pushed(s, i, spurious))
  {
    var t := s.spawners[i].task;
    var r := Pushed(s, i, spurious);
    assert QueueOk(s, t.priority);
    StepIsLocal(s.Of(t.priority), i, PushAction(s.Of(t.priority).threads[i], t, spurious));
    forall p: Priority ensures r.Of(p).Shaped() && r.Of(p).cap == S.CAPACITY
      && |r.Of(p).threads| == |r.spawners| + |r.workers|
    {
      assert p != t.priority ==> r.Of(p) == s.Of(p);
    }
  }

  lemma PushKeepsQueue(s: State, i: nat, spurious: bool, p: Priority)
    requires Inv(s) && i < |s.spawners| && s.spawners[i].Pushing? && s.spawners[i].task.priority == p
    requires Sized(Pushed(s, i, spurious))
    ensures QueueOk(Pushed(s, i, spurious), p)
  {
    var t := s.spawners[i].task;
    var q, r := s.Of(p), Pushed(s, i, spurious);
    assert QueueOk(s, p) && SpawnerOk(s, p, i);
    StepIsLocal(q, i, PushAction(q.threads[i], t, spurious));
    PushLocal(q, i, t, spurious);
    QueueStepKeeps(s, r, p, i);
  }

  /** Queue `p` after a step of thread `k`, when only `k` may have moved on in its program. */
  lemma QueueStepKeeps(s: State, r: State, p: Priority, k: nat)
    requires Inv(s) && Sized(r) && QueueOk(s, p) && Q.Inv(r.Of(p)) && OneThread(s.Of(p), r.Of(p), k)
    requires |r.spawners| == |s.spawners| && |r.workers| == |s.workers|
    requires forall i: nat :: i < |s.spawners| && i != k ==> r.spawners[i] == s.spawners[i]
    requires forall w: nat :: w < |s.workers| && s.Id(w) != k ==> r.workers[w] == s.workers[w]
    requires k < |s.spawners| ==> SpawnerOk(r, p, k)
    requires |s.spawners| <= k < |s.spawners| + |s.workers| ==> WorkerOk(r, p, k - |s.spawners|)
    ensures QueueOk(r, p)
  {
    forall j: nat | j < |r.spawners| ensures SpawnerOk(r, p, j) {
      assert SpawnerOk(s, p, j);
    }
    forall w: nat | w < |r.workers| ensures WorkerOk(r, p, w) {
      assert WorkerOk(s, p, w);
    }
  }

  /** A queue that is not touched stays as it is while thread `k` moves on in its program. */
  lemma UntouchedKeeps(s: State, r: State, p: Priority)
    requires Inv(s) && Sized(r) && QueueOk(s, p) && r.Of(p) == s.Of(p)
    requires |r.spawners| == |s.spawners| && |r.workers| == |s.workers|
    requires forall i: nat :: i < |s.spawners| && r.spawners[i] != s.spawners[i] ==>
      r.Of(p).threads[i].Idle?
    requires forall w: nat :: w < |s.workers| && r.workers[w] != s.workers[w] ==>
      r.Of(p).threads[s.Id(w)].Idle?
    ensures QueueOk(r, p)
  {
    forall j: nat | j < |r.spawners| ensures SpawnerOk(r, p, j) {
      assert SpawnerOk(s, p, j);
    }
    forall w: nat | w < |r.workers| ensures WorkerOk(r, p, w) {
      assert WorkerOk(s, p, w);
    }
  }

  lemma PushKeeps(s: State, i: nat, spurious: bool)
    requires Inv(s) && i < |s.spawners| && s.spawners[i].Pushing?
    ensures Inv(Pushed(s, i, spurious))
  {
    var r := Pushed(s, i, spurious);
    PushKeepsSized(s, i, spurious);
    forall p: Priority ensures QueueOk(r, p) {
      assert QueueOk(s, p);
      if p == s.spawners[i].task.priority {
        PushKeepsQueue(s, i, spurious, p);
      } else {
        assert SpawnerOk(s, p, i);
        UntouchedKeeps(s, r, p);
      }
    }
  }

  // ------------------------------------------------- what a step of `push` does

  /** What one step of `push` does to the queue: with the claim its item is appended and there
      was room, without it the claimed values stay. */
  ghost predicate PushFacts(q: Queue, r: Queue, i: nat, t: Task, claim: bool) {
    && Q.Inv(q) && Q.Inv(r) && r.cap == q.cap && i < |q.threads| && OneThread(q, r, i)
    && (if claim then
          && q.threads[i] == Q.PushCas(q.enq, t) && r.threads[i] == Q.PushWrite(q.enq, t)
          && Q.Contents(r) == Q.Contents(q) + [t] && r.pushed == q.pushed + [t] && |Q.Contents(q)| < q.cap
        else
          && Q.Contents(r) == Q.Contents(q) && r.pushed == q.pushed
          && (q.threads[i].PushWrite? ==> r.threads[i].PushPublish?)
          && (!q.threads[i].PushWrite? ==> !r.threads[i].PushWrite? && !r.threads[i].PushPublish?))
  }

  lemma PushFactsHold(q: Queue, i: nat, t: Task, spurious: bool)
    requires Q.Inv(q) && i < |q.threads| && PushState(q.threads[i], t)
    ensures var act := PushAction(q.threads[i], t, spurious);
      PushFacts(q, Q.Apply(q, i, act), i, t, Q.ClaimsPush(q, i, act))
  {
    var act := PushAction(q.threads[i], t, spurious);
    StepIsLocal(q, i, act);
    Q.RefinesFifo(q, i, act);
    if !Q.ClaimsPush(q, i, act) {
      Q.OthersKeepPositions(q, i, act);
      PushPhase(q, i, t, spurious);
    }
  }

  /** Without a claim a thread stays before it or after it. */
  lemma PushPhase(q: Queue, i: nat, t: Task, spurious: bool)
    requires Q.Inv(q) && i < |q.threads| && PushState(q.threads[i], t)
    requires !Q.ClaimsPush(q, i, PushAction(q.threads[i], t, spurious))
    ensures var l, r := q.threads[i], Q.Apply(q, i, PushAction(q.threads[i], t, spurious));
      && i < |r.threads|
      && (l.PushWrite? ==> r.threads[i].PushPublish?)
      && (!l.PushWrite? ==> !r.threads[i].PushWrite? && !r.threads[i].PushPublish?)
  {
    match q.threads[i]
    case PushSeq(_, _) =>
    case PushCas(_, _) =>
    case PushWrite(_, _) =>
    case PushPublish(_) =>
    case _ =>
  }

  /** What the abstract push does. */
  ghost predicate AbsPush(a: S.State, b: S.State, i: nat, t: Task) {
    && i < |a.spawners| && a.spawners[i] == S.Waiting(t)
    && b.running == a.running && b.nextId == a.nextId && b.active == a.active && b.runs == a.runs
    && b.spawners == a.spawners[i := S.Ready] && b.workers == a.workers
    && (forall p: Priority {:trigger S.Queue(b, p)} ::
          S.Queue(b, p) == if p == t.priority then S.Queue(a, p) + [t] else S.Queue(a, p))
    && (forall id :: id in a.place ==> id in b.place) && t.id in b.place
  }

  lemma AbsPushHolds(a: S.State, i: nat, t: Task)
    requires S.Inv(a) && i < |a.spawners| && a.spawners[i] == S.Waiting(t) && |S.Queue(a, t.priority)| < S.CAPACITY
    ensures AbsPush(a, S.Next(a, S.TryPush(i, true)), i, t) && S.Inv(S.Next(a, S.TryPush(i, true)))
  {
    S.StepKeeps(a, S.TryPush(i, true));
  }

  /** The state after a step of `push`, its queue given. */
  ghost predicate PushResult(s: State, r: State, i: nat, t: Task, q: Queue) {
    && i < |s.spawners| && s.spawners[i] == Pushing(t) && i < |s.Of(t.priority).threads|
    && r.running == s.running && r.nextId == s.nextId && r.active == s.active && r.runs == s.runs
    && r.workers == s.workers
    && r.spawners == (if s.Of(t.priority).threads[i].PushPublish? then s.spawners[i := Ready] else s.spawners)
    && forall p: Priority {:trigger r.Of(p)} :: r.Of(p) == if p == t.priority then q else s.Of(p)
  }

  lemma PushedIs(s: State, i: nat, spurious: bool)
    requires Sized(s) && i < |s.spawners| && s.spawners[i].Pushing?
    ensures var t := s.spawners[i].task;
      var q := Q.Apply(s.Of(t.priority), i, PushAction(s.Of(t.priority).threads[i], t, spurious));
      PushResult(s, Pushed(s, i, spurious), i, t, q)
  {
  }

  /** The abstract state before and after: a push with the claim, nothing without it. */
  ghost predicate AbsResult(a: S.State, b: S.State, i: nat, t: Task, claim: bool) {
    if claim then AbsPush(a, b, i, t) else b == a
  }

  lemma PushSameQueue(s: State, r: State, a: S.State, b: S.State, i: nat, t: Task, claim: bool, p: Priority)
    requires Sized(s) && Sized(r) && PushResult(s, r, i, t, r.Of(t.priority)) && QueueOk(r, p) && SameQueue(s, a, p)
    requires PushFacts(s.Of(t.priority), r.Of(t.priority), i, t, claim) && AbsResult(a, b, i, t, claim)
    ensures SameQueue(r, b, p)
  {
    if p == t.priority {
      assert S.Queue(b, p) == Q.Contents(r.Of(p));
    }
  }

  lemma PushSameSpawner(s: State, r: State, a: S.State, b: S.State, i: nat, t: Task, claim: bool, j: nat)
    requires Sized(s) && Sized(r) && PushResult(s, r, i, t, r.Of(t.priority))
    requires PushFacts(s.Of(t.priority), r.Of(t.priority), i, t, claim) && AbsResult(a, b, i, t, claim)
    requires j < |s.spawners| == |a.spawners| && SameSpawner(s, a, j)
    ensures |r.spawners| == |s.spawners| && |b.spawners| == |a.spawners| && SameSpawner(r, b, j)
  {
    if j != i && s.spawners[j].Pushing? {
      assert r.Of(s.spawners[j].task.priority).threads[j] == s.Of(s.spawners[j].task.priority).threads[j];
    }
  }

  /** What another thread took stays the same entry of the history. */
  lemma TookStays(q: Queue, r: Queue, k: nat, j: nat)
    requires Q.Inv(q) && OneThread(q, r, j) && k != j && q.pushed <= r.pushed && k < |q.threads|
    ensures Took(r, k) <==> Took(q, k)
    ensures Took(q, k) ==> r.pushed[r.threads[k].pos] == q.pushed[q.threads[k].pos]
  {
    if q.threads[k].PopRead? || q.threads[k].PopRelease? {
      Q.ReadsItsTicket(q, k);
    }
  }

  lemma PushSameWorker(s: State, r: State, a: S.State, b: S.State, i: nat, t: Task, claim: bool, w: nat)
    requires Sized(s) && Sized(r) && PushResult(s, r, i, t, r.Of(t.priority))
    requires PushFacts(s.Of(t.priority), r.Of(t.priority), i, t, claim) && AbsResult(a, b, i, t, claim)
    requires w < |s.workers| == |a.workers| && SameWorker(s, a, w)
    ensures |r.workers| == |s.workers| && |b.workers| == |a.workers| && SameWorker(r, b, w)
  {
    if s.workers[w] == Popping(t.priority) {
      TookStays(s.Of(t.priority), r.Of(t.priority), s.Id(w), i);
    }
  }

  /** A step of `push` is one abstract push, at the claim, or nothing. */
  lemma PushRefines(s: State, a: S.State, i: nat, spurious: bool) returns (b: S.State)
    requires Represents(s, a) && i < |s.spawners| && s.spawners[i].Pushing?
    ensures Represents(Pushed(s, i, spurious), b)
    ensures b == a || b == S.Next(a, S.TryPush(i, true))
  {
    var t := s.spawners[i].task;
    var q, r := s.Of(t.priority), Pushed(s, i, spurious);
    var claim := Q.ClaimsPush(q, i, PushAction(q.threads[i], t, spurious));
    assert SameQueue(s, a, t.priority) && SameSpawner(s, a, i) && SpawnerOk(s, t.priority, i);
    PushKeeps(s, i, spurious);
    PushFactsHold(q, i, t, spurious);
    PushedIs(s, i, spurious);
    b := a;
    if claim {
      b := S.Next(a, S.TryPush(i, true));
      AbsPushHolds(a, i, t);
    }
    PushParts(s, r, a, b, i, t, claim);
  }

  lemma PushParts(s: State, r: State, a: S.State, b: S.State, i: nat, t: Task, claim: bool)
    requires Represents(s, a) && Inv(r) && S.Inv(b) && PushResult(s, r, i, t, r.Of(t.priority))
    requires PushFacts(s.Of(t.priority), r.Of(t.priority), i, t, claim) && AbsResult(a, b, i, t, claim)
    ensures Represents(r, b)
  {
    forall p: Priority ensures SameQueue(r, b, p) {
      assert SameQueue(s, a, p) && QueueOk(r, p);
      PushSameQueue(s, r, a, b, i, t, claim, p);
    }
    forall j: nat | j < |s.spawners| ensures |r.spawners| == |b.spawners| == |s.spawners| && SameSpawner(r, b, j) {
      assert SameSpawner(s, a, j);
      PushSameSpawner(s, r, a, b, i, t, claim, j);
    }
    forall w: nat | w < |s.workers| ensures |r.workers| == |b.workers| == |s.workers| && SameWorker(r, b, w) {
      assert SameWorker(s, a, w);
      PushSameWorker(s, r, a, b, i, t, claim, w);
    }
  }

  // ----------------------------------------------------------- steps of `pop`

  /** What one step of `pop` is to the worker. */
  datatype PopStep = Goes | Takes | Delivers(t: Task) | FindsNothing

  function PopStepOf(q: Queue, r: Queue, k: nat, act: Q.Action<Task>): PopStep
    requires k < |q.threads| && k < |r.threads|
  {
    if Q.ClaimsPop(q, k, act) then Takes
    else if q.threads[k].PopRelease? then Delivers(q.threads[k].v)
    else if q.threads[k].PopSeq? && r.threads[k].Idle? then FindsNothing
    else Goes
  }

  /** The claim removes the oldest task, and that very task is delivered; nothing else changes what is claimed. */
  ghost predicate PopFacts(q: Queue, r: Queue, k: nat, e: PopStep) {
    && Q.Inv(q) && Q.Inv(r) && r.cap == q.cap && k < |q.threads| && OneThread(q, r, k) && r.pushed == q.pushed
    && PopState(q.threads[k]) && PopState(r.threads[k])
    && match e
       case Takes =>
         && q.threads[k].PopCas? && r.threads[k] == Q.PopRead(q.deq)
         && Q.Contents(q) != [] && Q.Contents(r) == Q.Contents(q)[1..] && Q.Contents(q)[0] == q.pushed[q.deq]
       case Delivers(t) =>
         && Q.Contents(r) == Q.Contents(q) && q.threads[k].PopRelease? && r.threads[k].Idle?
         && q.threads[k].pos < |q.pushed| && t == q.pushed[q.threads[k].pos]
       case FindsNothing => Q.Contents(r) == Q.Contents(q) && q.threads[k].PopSeq? && r.threads[k].Idle?
       case Goes =>
         && Q.Contents(r) == Q.Contents(q)
         && (q.threads[k].PopRead? ==> r.threads[k].PopRelease? && r.threads[k].pos == q.threads[k].pos)
         && (!q.threads[k].PopRead? ==> !q.threads[k].PopRelease? && !r.threads[k].PopRead? && !r.threads[k].PopRelease?)
  }

  lemma PopLocal(q: Queue, k: nat, spurious: bool)
    requires Q.Inv(q) && k < |q.threads| && PopState(q.threads[k])
    ensures var act := PopAction(q.threads[k], spurious);
      var l, r := q.threads[k], Q.Apply(q, k, act);
      && k < |r.threads| && PopState(r.threads[k])
      && (Q.ClaimsPop(q, k, act) ==> r.threads[k] == Q.PopRead(q.deq))
      && (l.PopRelease? ==> r.threads[k].Idle?)
      && (l.PopRead? ==> r.threads[k].PopRelease? && r.threads[k].pos == l.pos)
      && (!l.PopRead? && !Q.ClaimsPop(q, k, act) ==> !r.threads[k].PopRead? && !r.threads[k].PopRelease?)
  {
    match q.threads[k]
    case PopLoad =>
    case PopSeq(_) =>
    case PopCas(_) =>
    case PopRead(_) =>
    case PopRelease(_, _) =>
    case _ =>
  }

  lemma PopFactsHold(q: Queue, k: nat, spurious: bool)
    requires Q.Inv(q) && k < |q.threads| && PopState(q.threads[k])
    ensures var act := PopAction(q.threads[k], spurious);
      && k < |Q.Apply(q, k, act).threads|
      && PopFacts(q, Q.Apply(q, k, act), k, PopStepOf(q, Q.Apply(q, k, act), k, act))
  {
    var act := PopAction(q.threads[k], spurious);
    StepIsLocal(q, k, act);
    Q.RefinesFifo(q, k, act);
    PopLocal(q, k, spurious);
    PopKeepsPushed(q, k, act);
    if q.threads[k].PopRelease? {
      Q.ReadsItsTicket(q, k);
    }
  }

  lemma PopKeepsPushed(q: Queue, k: nat, act: Q.Action<Task>)
    requires q.Shaped() && k < |q.threads| && PopState(q.threads[k]) && !act.StartPush?
    ensures Q.Apply(q, k, act).pushed == q.pushed
  {
    if !Q.ClaimsPop(q, k, act) {
      Q.OthersKeepPositions(q, k, act);
    }
  }

  /** What the abstract worker does on its queue. */
  ghost predicate AbsPop(a: S.State, b: S.State, w: nat, p: Priority, e: PopStep) {
    && w < |a.workers|
    && b.running == a.running && b.nextId == a.nextId && b.active == a.active && b.runs == a.runs
    && b.spawners == a.spawners && (forall id :: id in a.place ==> id in b.place)
    && match e
       case Takes =>
         && S.Queue(a, p) != [] && b.workers == a.workers[w := S.Execute(S.Queue(a, p)[0])]
         && (forall o: Priority {:trigger S.Queue(b, o)} ::
               S.Queue(b, o) == if o == p then S.Queue(a, p)[1..] else S.Queue(a, o))
       case FindsNothing =>
         && b.workers == a.workers[w := AbsAfterEmpty(w, p)]
         && (forall o: Priority {:trigger S.Queue(b, o)} :: S.Queue(b, o) == S.Queue(a, o))
       case _ => b == a
  }

  function AbsAfterEmpty(w: nat, p: Priority): S.Worker {
    match p
    case HIGH => S.PopNormal
    case NORMAL => if w == 0 then S.CheckRunning else S.PopLow
    case LOW => S.CheckRunning
  }

  lemma AbsTakes(a: S.State, w: nat, p: Priority)
    requires S.Inv(a) && w < |a.workers| && a.workers[w] == PopPlace(p) && S.Queue(a, p) != []
    ensures AbsPop(a, S.Next(a, S.Work(w, true)), w, p, Takes) && S.Inv(S.Next(a, S.Work(w, true)))
  {
    S.StepKeeps(a, S.Work(w, true));
    assert S.QueueOk(a, p) && S.EntryOk(a, p, 0);
  }

  lemma AbsFindsNothing(a: S.State, w: nat, p: Priority)
    requires S.Inv(a) && w < |a.workers| && a.workers[w] == PopPlace(p)
    ensures AbsPop(a, S.Next(a, S.Work(w, false)), w, p, FindsNothing) && S.Inv(S.Next(a, S.Work(w, false)))
  {
    S.StepKeeps(a, S.Work(w, false));
  }

  /** The state after a step of `pop`, its queue and what it is to the worker given. */
  ghost predicate PopResult(s: State, r: State, w: nat, p: Priority, q: Queue, e: PopStep) {
    && w < |s.workers| && s.workers[w] == Popping(p)
    && r.running == s.running && r.nextId == s.nextId && r.active == s.active && r.runs == s.runs
    && r.spawners == s.spawners
    && r.workers == (match e
                     case Delivers(t) => s.workers[w := Execute(t)]
                     case FindsNothing => s.workers[w := AfterEmpty(w, p)]
                     case _ => s.workers)
    && forall o: Priority {:trigger r.Of(o)} :: r.Of(o) == if o == p then q else s.Of(o)
  }

  lemma PoppedIs(s: State, w: nat, spurious: bool)
    requires Sized(s) && w < |s.workers| && s.workers[w].Popping?
    requires var q := s.Of(s.workers[w].priority);
      var act := PopAction(q.threads[s.Id(w)], spurious);
      s.Id(w) < |Q.Apply(q, s.Id(w), act).threads| && (Q.ClaimsPop(q, s.Id(w), act) ==> q.threads[s.Id(w)].PopCas?)
    ensures var p := s.workers[w].priority;
      var q := s.Of(p);
      var act := PopAction(q.threads[s.Id(w)], spurious);
      var q' := Q.Apply(q, s.Id(w), act);
      PopResult(s, Popped(s, w, spurious), w, p, q', PopStepOf(q, q', s.Id(w), act))
  {
  }

  lemma PopKeepsInv(s: State, r: State, w: nat, p: Priority, e: PopStep)
    requires Inv(s) && w < |s.workers| && PopResult(s, r, w, p, r.Of(p), e) && PopFacts(s.Of(p), r.Of(p), s.Id(w), e)
    ensures Inv(r)
  {
    forall o: Priority ensures r.Of(o).Shaped() && r.Of(o).cap == S.CAPACITY
      && |r.Of(o).threads| == |r.spawners| + |r.workers|
    {
      assert o != p ==> r.Of(o) == s.Of(o);
    }
    forall o: Priority ensures QueueOk(r, o) {
      assert QueueOk(s, o);
      assert WorkerOk(s, o, w);
      if o == p {
        QueueStepKeeps(s, r, p, s.Id(w));
      } else {
        UntouchedKeeps(s, r, o);
      }
    }
  }

  /** A worker is inside one queue at most. */
  ghost predicate IdleElsewhere(s: State, w: nat, p: Priority)
    requires Sized(s) && w < |s.workers|
  {
    forall o: Priority {:trigger s.Of(o)} :: o != p ==> s.Of(o).threads[s.Id(w)].Idle?
  }

  lemma PopSameWorker(s: State, r: State, a: S.State, b: S.State, w: nat, p: Priority, e: PopStep, v: nat)
    requires Sized(s) && Sized(r) && PopResult(s, r, w, p, r.Of(p), e) && PopFacts(s.Of(p), r.Of(p), s.Id(w), e)
    requires AbsPop(a, b, w, p, e) && v < |s.workers| == |a.workers| && SameWorker(s, a, v) && SameWorker(s, a, w)
    requires S.Queue(a, p) == Q.Contents(s.Of(p)) && IdleElsewhere(s, w, p)
    ensures |r.workers| == |s.workers| && |b.workers| == |a.workers| && SameWorker(r, b, v)
  {
    if v == w {
      PopOwnWorker(s, r, a, b, w, p, e);
    } else if s.workers[v] == Popping(p) {
      TookStays(s.Of(p), r.Of(p), s.Id(v), s.Id(w));
    }
  }

  lemma PopOwnWorker(s: State, r: State, a: S.State, b: S.State, w: nat, p: Priority, e: PopStep)
    requires Sized(s) && Sized(r) && PopResult(s, r, w, p, r.Of(p), e) && PopFacts(s.Of(p), r.Of(p), s.Id(w), e)
    requires AbsPop(a, b, w, p, e) && w < |s.workers| == |a.workers| && SameWorker(s, a, w)
    requires S.Queue(a, p) == Q.Contents(s.Of(p)) && IdleElsewhere(s, w, p)
    ensures |r.workers| == |s.workers| && |b.workers| == |a.workers| && SameWorker(r, b, w)
  {
    match e
    case Takes =>
    case Delivers(_) =>
    case FindsNothing =>
      if AfterEmpty(w, p).Popping? {
        assert r.Of(AfterEmpty(w, p).priority).threads[s.Id(w)].Idle?;
      }
    case Goes =>
      if s.Of(p).threads[s.Id(w)].PopRead? {
        Q.ReadsItsTicket(s.Of(p), s.Id(w));
      }
  }

  lemma PopSameQueue(s: State, r: State, a: S.State, b: S.State, w: nat, p: Priority, e: PopStep, o: Priority)
    requires Sized(s) && Sized(r) && PopResult(s, r, w, p, r.Of(p), e) && PopFacts(s.Of(p), r.Of(p), s.Id(w), e)
    requires AbsPop(a, b, w, p, e) && SameQueue(s, a, o) && SameQueue(s, a, p) && QueueOk(r, o)
    ensures SameQueue(r, b, o)
  {
    assert S.Queue(b, o) == Q.Contents(r.Of(o));
  }

  lemma PopParts(s: State, r: State, a: S.State, b: S.State, w: nat, p: Priority, e: PopStep)
    requires Represents(s, a) && Inv(r) && S.Inv(b) && PopResult(s, r, w, p, r.Of(p), e)
    requires PopFacts(s.Of(p), r.Of(p), s.Id(w), e) && AbsPop(a, b, w, p, e)
    ensures Represents(r, b)
  {
    assert SameQueue(s, a, p) && SameWorker(s, a, w);
    forall o: Priority | o != p ensures s.Of(o).threads[s.Id(w)].Idle? {
      assert QueueOk(s, o) && WorkerOk(s, o, w);
    }
    forall o: Priority ensures SameQueue(r, b, o) {
      assert SameQueue(s, a, o) && QueueOk(r, o);
      PopSameQueue(s, r, a, b, w, p, e, o);
    }
    forall j: nat | j < |s.spawners| ensures |r.spawners| == |b.spawners| == |s.spawners| && SameSpawner(r, b, j) {
      assert SameSpawner(s, a, j);
      PopSameSpawner(s, r, w, p, e, j);
    }
    forall v: nat | v < |s.workers| ensures |r.workers| == |b.workers| == |s.workers| && SameWorker(r, b, v) {
      assert SameWorker(s, a, v);
      PopSameWorker(s, r, a, b, w, p, e, v);
    }
  }

  lemma PopSameSpawner(s: State, r: State, w: nat, p: Priority, e: PopStep, j: nat)
    requires Sized(s) && Sized(r) && PopResult(s, r, w, p, r.Of(p), e) && PopFacts(s.Of(p), r.Of(p), s.Id(w), e)
    requires j < |s.spawners|
    ensures |r.spawners| == |s.spawners| && AbsSpawner(r, j) == AbsSpawner(s, j)
  {
    if s.spawners[j].Pushing? {
      var o := s.spawners[j].task.priority;
      assert r.Of(o).threads[j] == s.Of(o).threads[j];
    }
  }

  /** A step of `pop` is one abstract look at the queue, at the claim or when it is empty, or nothing. */
  lemma PopRefines(s: State, a: S.State, w: nat, spurious: bool) returns (b: S.State)
    requires Represents(s, a) && w < |s.workers| && s.workers[w].Popping?
    ensures Represents(Popped(s, w, spurious), b)
    ensures b == a || b == S.Next(a, S.Work(w, true)) || b == S.Next(a, S.Work(w, false))
  {
    var p := s.workers[w].priority;
    var q, k := s.Of(p), s.Id(w);
    assert SameQueue(s, a, p) && SameWorker(s, a, w) && WorkerOk(s, p, w);
    PopFactsHold(q, k, spurious);
    PoppedIs(s, w, spurious);
    var act := PopAction(q.threads[k], spurious);
    var e := PopStepOf(q, Q.Apply(q, k, act), k, act);
    b := PopAbs(s, a, w, p, q, Q.Apply(q, k, act), e);
    PopKeepsInv(s, Popped(s, w, spurious), w, p, e);
    PopParts(s, Popped(s, w, spurious), a, b, w, p, e);
  }

  lemma PopAbs(s: State, a: S.State, w: nat, p: Priority, q: Queue, r: Queue, e: PopStep) returns (b: S.State)
    requires Represents(s, a) && w < |s.workers| && s.workers[w] == Popping(p) && q == s.Of(p)
    requires PopFacts(q, r, s.Id(w), e) && SameQueue(s, a, p) && SameWorker(s, a, w)
    ensures AbsPop(a, b, w, p, e) && S.Inv(b)
    ensures b == a || b == S.Next(a, S.Work(w, true)) || b == S.Next(a, S.Work(w, false))
  {
    match e
    case Takes =>
      AbsTakes(a, w, p);
      b := S.Next(a, S.Work(w, true));
    case FindsNothing =>
      AbsFindsNothing(a, w, p);
      b := S.Next(a, S.Work(w, false));
    case _ => b := a;
  }

  // ------------------------------------------------------------ other steps

  /** The abstract step changed no queue and forgot no accepted task, and the counters agree. */
  ghost predicate AbsOther(r: State, a: S.State, b: S.State) {
    && b.running == r.running && b.nextId == r.nextId && b.active == r.active && b.runs == r.runs
    && (forall p: Priority {:trigger S.Queue(b, p)} :: S.Queue(b, p) == S.Queue(a, p))
    && (forall id :: id in a.place ==> id in b.place)
  }

  predicate SameQueues(s: State, r: State) {
    r.high == s.high && r.normal == s.normal && r.low == s.low
  }

  /** Outside the queues the two programs are at corresponding places. */
  predicate Alike(l: Worker, m: S.Worker) {
    match l
    case CheckRunning => m == S.CheckRunning
    case CheckActive => m == S.CheckActive
    case Popping(p) => m == PopPlace(p)
    case Execute(t) => m == S.Execute(t)
    case Report(t) => m == S.Report(t)
    case Exited => m == S.Exited
  }

  predicate AlikeSpawner(l: Spawner, m: S.Spawner) {
    match l
    case Ready => m == S.Ready
    case Numbered(t) => m == S.Numbered(t)
    case Pushing(t) => m == S.Waiting(t)
  }

  lemma OtherKeepsInv(s: State, r: State)
    requires Inv(s) && SameQueues(s, r) && |r.spawners| == |s.spawners| && |r.workers| == |s.workers|
    requires forall i: nat :: i < |s.spawners| && r.spawners[i] != s.spawners[i] ==> !s.spawners[i].Pushing?
    requires forall w: nat :: w < |s.workers| && r.workers[w] != s.workers[w] ==> !s.workers[w].Popping?
    ensures Inv(r)
  {
    forall p: Priority ensures r.Of(p) == s.Of(p) {
    }
    forall p: Priority ensures QueueOk(r, p) {
      assert QueueOk(s, p);
      forall i: nat | i < |s.spawners| && r.spawners[i] != s.spawners[i] ensures r.Of(p).threads[i].Idle? {
        assert SpawnerOk(s, p, i);
      }
      forall w: nat | w < |s.workers| && r.workers[w] != s.workers[w] ensures r.Of(p).threads[s.Id(w)].Idle? {
        assert WorkerOk(s, p, w);
      }
      UntouchedKeeps(s, r, p);
    }
  }

  lemma OtherSameQueue(s: State, r: State, a: S.State, b: S.State, p: Priority)
    requires Sized(s) && Sized(r) && SameQueues(s, r) && SameQueue(s, a, p) && QueueOk(r, p) && AbsOther(r, a, b)
    ensures SameQueue(r, b, p)
  {
    assert r.Of(p) == s.Of(p) && S.Queue(b, p) == S.Queue(a, p);
  }

  /** Spawner `i` moves on outside `push`. */
  lemma SpawnerMoves(s: State, r: State, a: S.State, b: S.State, i: nat, l: Spawner, m: S.Spawner)
    requires Represents(s, a) && S.Inv(b) && SameQueues(s, r) && AbsOther(r, a, b)
    requires i < |s.spawners| && !s.spawners[i].Pushing? && AlikeSpawner(l, m)
    requires r.spawners == s.spawners[i := l] && r.workers == s.workers
    requires b.spawners == a.spawners[i := m] && b.workers == a.workers
    ensures Represents(r, b)
  {
    OtherKeepsInv(s, r);
    forall p: Priority ensures SameQueue(r, b, p) {
      assert SameQueue(s, a, p) && QueueOk(r, p);
      OtherSameQueue(s, r, a, b, p);
    }
    forall j: nat | j < |s.spawners| ensures SameSpawner(r, b, j) {
      assert SameSpawner(s, a, j);
      if j == i && l.Pushing? {
        assert QueueOk(s, l.task.priority) && SpawnerOk(s, l.task.priority, i);
      }
    }
    forall w: nat | w < |s.workers| ensures SameWorker(r, b, w) {
      assert SameWorker(s, a, w);
    }
  }

  /** Worker `w` moves on outside `pop`. */
  lemma WorkerMoves(s: State, r: State, a: S.State, b: S.State, w: nat, l: Worker, m: S.Worker)
    requires Represents(s, a) && S.Inv(b) && SameQueues(s, r) && AbsOther(r, a, b)
    requires w < |s.workers| && !s.workers[w].Popping? && Alike(l, m)
    requires r.workers == s.workers[w := l] && r.spawners == s.spawners
    requires b.workers == a.workers[w := m] && b.spawners == a.spawners
    ensures Represents(r, b)
  {
    OtherKeepsInv(s, r);
    forall p: Priority ensures SameQueue(r, b, p) {
      assert SameQueue(s, a, p) && QueueOk(r, p);
      OtherSameQueue(s, r, a, b, p);
    }
    forall j: nat | j < |s.spawners| ensures SameSpawner(r, b, j) {
      assert SameSpawner(s, a, j);
    }
    forall v: nat | v < |s.workers| ensures SameWorker(r, b, v) {
      assert SameWorker(s, a, v);
      if v == w && l.Popping? {
        assert QueueOk(s, l.priority) && WorkerOk(s, l.priority, w);
      }
    }
  }

  lemma SpawnRefines(s: State, a: S.State, i: nat, p: Priority)
    requires Represents(s, a) && i < |s.spawners| && s.spawners[i].Ready?
    ensures Represents(Next(s, Spawn(i, p)), S.Next(a, S.Spawn(i, p)))
  {
    assert SameSpawner(s, a, i);
    S.StepKeeps(a, S.Spawn(i, p));
    var t := S.Task(s.nextId, p);
    SpawnerMoves(s, Next(s, Spawn(i, p)), a, S.Next(a, S.Spawn(i, p)), i, Numbered(t), S.Numbered(t));
  }

  lemma CountRefines(s: State, a: S.State, i: nat)
    requires Represents(s, a) && i < |s.spawners| && s.spawners[i].Numbered?
    ensures Represents(Next(s, Count(i)), S.Next(a, S.Count(i)))
  {
    assert SameSpawner(s, a, i);
    S.StepKeeps(a, S.Count(i));
    var t := s.spawners[i].task;
    SpawnerMoves(s, Next(s, Count(i)), a, S.Next(a, S.Count(i)), i, Pushing(t), S.Waiting(t));
  }

  /** The effect of a worker's own step on the abstract side. */
  lemma AbsWorks(a: S.State, w: nat)
    requires S.Inv(a) && w < |a.workers|
    requires a.workers[w] != S.PopHigh && a.workers[w] != S.PopNormal && a.workers[w] != S.PopLow
    ensures var b := S.Next(a, S.Work(w, true));
      && S.Inv(b) && b.running == a.running && b.nextId == a.nextId && b.spawners == a.spawners
      && (forall p: Priority {:trigger S.Queue(b, p)} :: S.Queue(b, p) == S.Queue(a, p))
      && (forall id :: id in a.place ==> id in b.place)
  {
    S.StepKeeps(a, S.Work(w, true));
  }

  lemma CheckRefines(s: State, a: S.State, w: nat, spurious: bool)
    requires Represents(s, a) && w < |s.workers| && (s.workers[w].CheckRunning? || s.workers[w].CheckActive?)
    ensures Represents(Worked(s, w, spurious), S.Next(a, S.Work(w, true)))
  {
    assert SameWorker(s, a, w);
    AbsWorks(a, w);
    var r, b := Worked(s, w, spurious), S.Next(a, S.Work(w, true));
    WorkerMoves(s, r, a, b, w, r.workers[w], b.workers[w]);
  }

  lemma ExecuteRefines(s: State, a: S.State, w: nat, spurious: bool)
    requires Represents(s, a) && w < |s.workers| && s.workers[w].Execute?
    ensures Represents(Worked(s, w, spurious), S.Next(a, S.Work(w, true)))
  {
    assert SameWorker(s, a, w);
    AbsWorks(a, w);
    var t := s.workers[w].task;
    WorkerMoves(s, Worked(s, w, spurious), a, S.Next(a, S.Work(w, true)), w, Report(t), S.Report(t));
  }

  lemma ReportRefines(s: State, a: S.State, w: nat, spurious: bool)
    requires Represents(s, a) && w < |s.workers| && s.workers[w].Report?
    ensures Represents(Worked(s, w, spurious), S.Next(a, S.Work(w, true)))
  {
    assert SameWorker(s, a, w);
    AbsWorks(a, w);
    WorkerMoves(s, Worked(s, w, spurious), a, S.Next(a, S.Work(w, true)), w, CheckRunning, S.CheckRunning);
  }

  lemma StopRefines(s: State, a: S.State)
    requires Represents(s, a)
    ensures Represents(s.(running := false), S.Next(a, S.Stop))
  {
    var r, b := s.(running := false), S.Next(a, S.Stop);
    S.StepKeeps(a, S.Stop);
    OtherKeepsInv(s, r);
    forall p: Priority ensures SameQueue(r, b, p) {
      assert SameQueue(s, a, p) && QueueOk(r, p);
      OtherSameQueue(s, r, a, b, p);
    }
    forall j: nat | j < |s.spawners| ensures SameSpawner(r, b, j) {
      assert SameSpawner(s, a, j);
    }
    forall w: nat | w < |s.workers| ensures SameWorker(r, b, w) {
      assert SameWorker(s, a, w);
    }
  }

  // ---------------------------------------------------------------- all runs

  lemma RunOne(a: S.State, x: S.Action)
    ensures S.RunFrom(a, [x]) == S.Next(a, x)
  {
    assert [x][1..] == [];
  }

  lemma WorkRefines(s: State, a: S.State, w: nat, spurious: bool) returns (steps: seq<S.Action>)
    requires Represents(s, a) && w < |s.workers|
    ensures Represents(Worked(s, w, spurious), S.RunFrom(a, steps)) && |steps| <= 1
  {
    RunOne(a, S.Work(w, true));
    RunOne(a, S.Work(w, false));
    steps := [S.Work(w, true)];
    match s.workers[w]
    case Popping(_) =>
      var b := PopRefines(s, a, w, spurious);
      steps := if b == a then [] else if b == S.Next(a, S.Work(w, true)) then [S.Work(w, true)] else [S.Work(w, false)];
    case Execute(_) => ExecuteRefines(s, a, w, spurious);
    case Report(_) => ReportRefines(s, a, w, spurious);
    case Exited => steps := [];
    case _ => CheckRefines(s, a, w, spurious);
  }

  lemma PushingRefines(s: State, a: S.State, i: nat, spurious: bool) returns (steps: seq<S.Action>)
    requires Represents(s, a) && i < |s.spawners| && s.spawners[i].Pushing?
    ensures Represents(Pushed(s, i, spurious), S.RunFrom(a, steps)) && |steps| <= 1
  {
    RunOne(a, S.TryPush(i, true));
    var b := PushRefines(s, a, i, spurious);
    steps := if b == a then [] else [S.TryPush(i, true)];
  }

  /** Every atomic step is at most one step of the scheduler over first-in first-out queues. */
  lemma StepRefines(s: State, a: S.State, x: Action) returns (steps: seq<S.Action>)
    requires Represents(s, a)
    ensures Represents(Next(s, x), S.RunFrom(a, steps)) && |steps| <= 1
  {
    steps := [];
    match x
    case Spawn(i, p) =>
      if i < |s.spawners| && s.spawners[i].Ready? {
        SpawnRefines(s, a, i, p);
        RunOne(a, S.Spawn(i, p));
        steps := [S.Spawn(i, p)];
      }
    case Count(i) =>
      if i < |s.spawners| && s.spawners[i].Numbered? {
        CountRefines(s, a, i);
        RunOne(a, S.Count(i));
        steps := [S.Count(i)];
      }
    case PushStep(i, spurious) =>
      if i < |s.spawners| && s.spawners[i].Pushing? {
        steps := PushingRefines(s, a, i, spurious);
      }
    case WorkStep(w, spurious) =>
      if w < |s.workers| {
        steps := WorkRefines(s, a, w, spurious);
      }
    case Stop =>
      StopRefines(s, a);
      RunOne(a, S.Stop);
      steps := [S.Stop];
  }

  lemma InitRepresents(cells: seq<Task>, spawners: nat, workers: nat)
    requires |cells| == S.CAPACITY
    ensures Represents(Init(cells, spawners, workers), S.Init(spawners, workers))
  {
    var s, a := Init(cells, spawners, workers), S.Init(spawners, workers);
    Q.InitInv(S.CAPACITY, cells, spawners + workers);
    S.InitInv(spawners, workers);
    forall p: Priority ensures QueueOk(s, p) {
      forall i: nat | i < |s.spawners| ensures SpawnerOk(s, p, i) {
      }
      forall w: nat | w < |s.workers| ensures WorkerOk(s, p, w) {
      }
    }
    forall p: Priority ensures SameQueue(s, a, p) {
      assert QueueOk(s, p);
    }
    forall i: nat | i < |s.spawners| ensures SameSpawner(s, a, i) {
    }
    forall w: nat | w < |s.workers| ensures SameWorker(s, a, w) {
    }
  }

  /** A sequence of steps, kept with the proof that the invariant never breaks. */
  ghost function RunFrom(s: State, actions: seq<Action>): (r: State)
    requires Inv(s)
    ensures Inv(r)
    decreases |actions|
  {
    if actions == [] then s
    else
      StepKeeps(s, actions[0]);
      RunFrom(Next(s, actions[0]), actions[1..])
  }

  /** Every atomic step of every thread keeps the three queues and the threads in them in order. */
  lemma StepKeeps(s: State, x: Action)
    requires Inv(s)
    ensures Inv(Next(s, x))
  {
    match x
    case PushStep(i, spurious) =>
      if i < |s.spawners| && s.spawners[i].Pushing? {
        PushKeeps(s, i, spurious);
      }
    case WorkStep(w, spurious) =>
      if w < |s.workers| && s.workers[w].Popping? {
        PopKeeps(s, w, spurious);
      } else {
        OtherKeepsInv(s, Next(s, x));
      }
    case _ => OtherKeepsInv(s, Next(s, x));
  }

  lemma PopKeeps(s: State, w: nat, spurious: bool)
    requires Inv(s) && w < |s.workers| && s.workers[w].Popping?
    ensures Inv(Popped(s, w, spurious))
  {
    var p := s.workers[w].priority;
    var q, k := s.Of(p), s.Id(w);
    assert QueueOk(s, p) && WorkerOk(s, p, w);
    PopFactsHold(q, k, spurious);
    PoppedIs(s, w, spurious);
    var act := PopAction(q.threads[k], spurious);
    PopKeepsInv(s, Popped(s, w, spurious), w, p, PopStepOf(q, Q.Apply(q, k, act), k, act));
  }

  lemma {:induction false} RunAppends(a: S.State, x: seq<S.Action>, y: seq<S.Action>)
    ensures S.RunFrom(a, x + y) == S.RunFrom(S.RunFrom(a, x), y)
    decreases |x|
  {
    if x == [] {
      assert x + y == y;
    } else {
      assert (x + y)[0] == x[0] && (x + y)[1..] == x[1..] + y;
      RunAppends(S.Next(a, x[0]), x[1..], y);
    }
  }

  /** Every run of the scheduler on its real queues is a run of the scheduler over
      first-in first-out queues, with no more steps. */
  lemma {:induction false} RunRefines(s: State, a: S.State, actions: seq<Action>) returns (steps: seq<S.Action>)
    requires Represents(s, a)
    ensures Represents(RunFrom(s, actions), S.RunFrom(a, steps)) && |steps| <= |actions|
    decreases |actions|
  {
    if actions == [] {
      steps := [];
    } else {
      var first := StepRefines(s, a, actions[0]);
      StepKeeps(s, actions[0]);
      var rest := RunRefines(Next(s, actions[0]), S.RunFrom(a, first), actions[1..]);
      RunAppends(a, first, rest);
      steps := first + rest;
    }
  }

  // ------------------------------------------------------------------ results

  /** The scheduler when it has just been built: empty queues, idle threads. */
  ghost function Start(cells: seq<Task>, spawners: nat, workers: nat): (r: State)
    requires |cells| == S.CAPACITY
    ensures Inv(r)
  {
    InitRepresents(cells, spawners, workers);
    Init(cells, spawners, workers)
  }

  /** Main result: in every interleaving of the atomic steps of any number of threads, the
      scheduler on its real queues stands for a state that the scheduler over first-in
      first-out queues reaches too, in no more steps. */
  lemma EveryRunIsFifo(cells: seq<Task>, spawners: nat, workers: nat, actions: seq<Action>)
    requires |cells| == S.CAPACITY
    ensures var r := RunFrom(Start(cells, spawners, workers), actions);
      exists steps: seq<S.Action> :: |steps| <= |actions| && Represents(r, S.RunFrom(S.Init(spawners, workers), steps))
  {
    InitRepresents(cells, spawners, workers);
    var steps := RunRefines(Start(cells, spawners, workers), S.Init(spawners, workers), actions);
  }

  /** No body runs twice. */
  lemma NoTaskRunsTwice(cells: seq<Task>, spawners: nat, workers: nat, actions: seq<Action>)
    requires |cells| == S.CAPACITY
    ensures var r := RunFrom(Start(cells, spawners, workers), actions);
      forall id :: id in r.runs ==> r.runs[id] <= 1
  {
    InitRepresents(cells, spawners, workers);
    var s := Start(cells, spawners, workers);
    var steps := RunRefines(s, S.Init(spawners, workers), actions);
    S.SchedulerConserves(spawners, workers, steps);
    var r, a := RunFrom(s, actions), S.RunFrom(S.Init(spawners, workers), steps);
    forall id | id in r.runs ensures r.runs[id] <= 1 {
      assert S.Runs(a, id) <= 1;
    }
  }

  /** Every task that ever entered queue `p` has run exactly once, and none is in it. */
  ghost predicate AllRan(s: State, p: Priority) {
    && s.Of(p).enq == s.Of(p).deq
    && forall k :: 0 <= k < |s.Of(p).pushed| ==> s.Of(p).pushed[k].id in s.runs && s.runs[s.Of(p).pushed[k].id] == 1
  }

  lemma AllRanAtZero(s: State, a: S.State, p: Priority)
    requires Represents(s, a) && s.active == 0
    ensures AllRan(s, p)
  {
    S.ZeroMeansDone(a);
    assert SameQueue(s, a, p);
    assert S.Queue(a, p) == [];
    forall k | 0 <= k < |s.Of(p).pushed|
      ensures s.Of(p).pushed[k].id in s.runs && s.runs[s.Of(p).pushed[k].id] == 1
    {
      assert S.Runs(a, s.Of(p).pushed[k].id) == 1;
    }
  }

  /** The spawner has counted its task and not got it into a queue yet. */
  predicate Unpushed(s: State, i: nat)
    requires i < |s.spawners|
  {
    s.spawners[i].Pushing? &&
    var q := s.Of(s.spawners[i].task.priority);
    i < |q.threads| ==> !q.threads[i].PushWrite? && !q.threads[i].PushPublish?
  }

  /** The worker runs a task's body, or has run it and not reported it. */
  predicate Unreported(s: State, w: nat)
    requires w < |s.workers|
  {
    s.workers[w].Execute? || s.workers[w].Report?
  }

  /** Every task that any thread ever got into a queue has run exactly once, the queues are empty,
      no counted task is still to be pushed and none is still to be reported. */
  ghost predicate AllFinished(s: State) {
    && (forall p: Priority :: AllRan(s, p))
    && (forall i: nat {:trigger Unpushed(s, i)} :: i < |s.spawners| ==> !Unpushed(s, i))
    && (forall w: nat {:trigger Unreported(s, w)} :: w < |s.workers| ==> !Unreported(s, w))
  }

  lemma IdleAtZero(s: State, a: S.State)
    requires Represents(s, a) && s.active == 0
    ensures forall i: nat {:trigger Unpushed(s, i)} :: i < |s.spawners| ==> !Unpushed(s, i)
    ensures forall w: nat {:trigger Unreported(s, w)} :: w < |s.workers| ==> !Unreported(s, w)
  {
    S.CountZero(a.spawners, a.workers);
    forall i: nat | i < |s.spawners| ensures !Unpushed(s, i) {
      assert SameSpawner(s, a, i);
    }
    forall w: nat | w < |s.workers| ensures !Unreported(s, w) {
      assert SameWorker(s, a, w);
    }
  }

  lemma NobodyWaits(s: State, a: S.State)
    requires Represents(s, a) && forall i: nat {:trigger Unpushed(s, i)} :: i < |s.spawners| ==> !Unpushed(s, i)
    ensures S.WaitingCount(a.spawners) == 0
  {
    S.CountZero(a.spawners, a.workers);
    forall i: nat | i < |a.spawners| ensures !a.spawners[i].Waiting? {
      assert SameSpawner(s, a, i) && !Unpushed(s, i);
    }
  }

  /** A worker between the claim of a ticket and its end holds a task that has not run. */
  lemma NobodyHolds(s: State, a: S.State)
    requires Represents(s, a) && AllFinished(s)
    ensures S.HeldCount(a.workers) == 0
  {
    S.CountZero(a.spawners, a.workers);
    forall w: nat | w < |a.workers| ensures !S.Holding(a.workers[w]) {
      assert SameWorker(s, a, w) && !Unreported(s, w);
      if s.workers[w].Popping? && Took(s.Of(s.workers[w].priority), s.Id(w)) {
        TakenHasNotRun(s, a, w);
      }
    }
  }

  lemma TakenHasNotRun(s: State, a: S.State, w: nat)
    requires Represents(s, a) && w < |s.workers| && s.workers[w].Popping? && Took(s.Of(s.workers[w].priority), s.Id(w))
    ensures !AllRan(s, s.workers[w].priority)
  {
    var q := s.Of(s.workers[w].priority);
    var t := q.pushed[q.threads[s.Id(w)].pos];
    assert SameWorker(s, a, w) && a.workers[w] == S.Execute(t);
    assert S.WorkerOk(a, w);
    assert S.PlaceOk(a, t.id);
    assert S.Runs(a, t.id) == 0;
  }

  lemma EmptyWhenRan(s: State, a: S.State, p: Priority)
    requires Represents(s, a) && AllRan(s, p)
    ensures S.Queue(a, p) == []
  {
    assert SameQueue(s, a, p);
  }

  lemma ZeroIffFinished(s: State, a: S.State)
    requires Represents(s, a)
    ensures s.active >= 0 && (s.active == 0 <==> AllFinished(s))
  {
    S.ZeroMeansDone(a);
    if s.active == 0 {
      forall p: Priority ensures AllRan(s, p) {
        AllRanAtZero(s, a, p);
      }
      IdleAtZero(s, a);
    } else if AllFinished(s) {
      NobodyWaits(s, a);
      NobodyHolds(s, a);
      EmptyWhenRan(s, a, S.HIGH);
      EmptyWhenRan(s, a, S.NORMAL);
      EmptyWhenRan(s, a, S.LOW);
    }
  }

  /** In every run on the real queues `wait_all` can read zero if and only if every task that any
      thread ever got into a queue has run exactly once, all three queues are empty, and no
      counted task is still to be pushed or to be reported. */
  lemma ZeroMeansDone(cells: seq<Task>, spawners: nat, workers: nat, actions: seq<Action>)
    requires |cells| == S.CAPACITY
    ensures var r := RunFrom(Start(cells, spawners, workers), actions);
      r.active >= 0 && (r.active == 0 <==> AllFinished(r))
  {
    InitRepresents(cells, spawners, workers);
    var steps := RunRefines(Start(cells, spawners, workers), S.Init(spawners, workers), actions);
    ZeroIffFinished(RunFrom(Start(cells, spawners, workers), actions), S.RunFrom(S.Init(spawners, workers), steps));
  }

  /** The dedicated high core never looks into the real LOW queue and never holds a LOW task. */
  lemma HighCoreSkipsLow(cells: seq<Task>, spawners: nat, workers: nat, actions: seq<Action>)
    requires |cells| == S.CAPACITY
    ensures var r := RunFrom(Start(cells, spawners, workers), actions);
      |r.workers| > 0 ==>
        && r.workers[0] != Popping(S.LOW)
        && (Unreported(r, 0) ==> r.workers[0].task.priority != S.LOW)
  {
    InitRepresents(cells, spawners, workers);
    var steps := RunRefines(Start(cells, spawners, workers), S.Init(spawners, workers), actions);
    var r, a := RunFrom(Start(cells, spawners, workers), actions), S.RunFrom(S.Init(spawners, workers), steps);
    if |r.workers| > 0 {
      assert SameWorker(r, a, 0) && S.WorkerOk(a, 0);
      LowIsSkipped(Start(cells, spawners, workers), actions);
    }
  }

  predicate SkipsLow(s: State) {
    |s.workers| > 0 ==> s.workers[0] != Popping(S.LOW)
  }

  lemma {:induction false} LowIsSkipped(s: State, actions: seq<Action>)
    requires Inv(s) && SkipsLow(s)
    ensures SkipsLow(RunFrom(s, actions))
    decreases |actions|
  {
    if actions != [] {
      StepKeeps(s, actions[0]);
      StepSkipsLow(s, actions[0]);
      LowIsSkipped(Next(s, actions[0]), actions[1..]);
    }
  }

  lemma StepSkipsLow(s: State, x: Action)
    requires Inv(s) && SkipsLow(s)
    ensures SkipsLow(Next(s, x))
  {
    match x
    case WorkStep(w, spurious) =>
      if w < |s.workers| {
        WorkSkipsLow(s, w, spurious);
      }
    case PushStep(i, spurious) =>
      if i < |s.spawners| && s.spawners[i].Pushing? {
        WithKeepsWorkers(s, s.spawners[i].task.priority);
      }
    case _ =>
  }

  lemma WithKeepsWorkers(s: State, p: Priority)
    ensures forall q: Queue {:trigger s.With(p, q)} :: s.With(p, q).workers == s.workers
  {
  }

  lemma WorkSkipsLow(s: State, w: nat, spurious: bool)
    requires Inv(s) && SkipsLow(s) && w < |s.workers|
    ensures SkipsLow(Worked(s, w, spurious))
  {
    if s.workers[w].Popping? {
      WithKeepsWorkers(s, s.workers[w].priority);
    }
  }

  /** A worker on the real queues leaves its loop only when everything is finished. */
  lemma ExitMeansDone(cells: seq<Task>, spawners: nat, workers: nat, actions: seq<Action>, w: nat, spurious: bool)
    requires |cells| == S.CAPACITY
    requires var r := RunFrom(Start(cells, spawners, workers), actions);
      w < |r.workers| && r.workers[w] != Exited && Next(r, WorkStep(w, spurious)).workers[w] == Exited
    ensures AllFinished(RunFrom(Start(cells, spawners, workers), actions))
  {
    ZeroMeansDone(cells, spawners, workers, actions);
    ExitAtZero(RunFrom(Start(cells, spawners, workers), actions), w, spurious);
  }

  lemma ExitAtZero(s: State, w: nat, spurious: bool)
    requires Sized(s) && w < |s.workers| && s.workers[w] != Exited && Worked(s, w, spurious).workers[w] == Exited
    ensures s.active <= 0
  {
    if s.workers[w].Popping? {
      WithKeepsWorkers(s, s.workers[w].priority);
    }
  }

  /** A refused push leaves its item with the spawner and changes nothing else: not the queue's
      cells, positions or history, no other queue and no other thread. */
  lemma RefusedPushKeepsTask(s: State, i: nat, spurious: bool)
    requires Inv(s) && i < |s.spawners| && s.spawners[i].Pushing?
    requires var p := s.spawners[i].task.priority;
      i < |Pushed(s, i, spurious).Of(p).threads| && Pushed(s, i, spurious).Of(p).threads[i].Refused?
    ensures var t := s.spawners[i].task;
      var q := s.Of(t.priority);
      Pushed(s, i, spurious) == s.With(t.priority, q.(threads := q.threads[i := Q.Refused(t)]))
  {
    var t := s.spawners[i].task;
    var q := s.Of(t.priority);
    var l := q.threads[i];
    assert QueueOk(s, t.priority) && SpawnerOk(s, t.priority, i);
    PushLocal(q, i, t, spurious);
    PushedIs(s, i, spurious);
    if Q.Offers(l, t) {
      Q.OfferIsKept(q, i, PushAction(l, t, spurious), i, t);
    }
  }
}
