/**
 The tri-priority scheduler: any number of threads calling `spawn`, any number of
 workers, interleaved at every atomic counter update, queue operation and load.
 */
module Scheduler {
  datatype Priority = LOW | NORMAL | HIGH

  datatype Task = Task(id: nat, priority: Priority)

  /** Where a thread is inside `spawn`. */
  datatype Spawner =
    | Ready
    | Numbered(task: Task)   // has its id, active_tasks_ not incremented yet
    | Waiting(task: Task)    // counted, retrying the push

  /** Where a worker is inside `worker_loop`. */
  datatype Worker =
    | CheckRunning
    | CheckActive
    | PopHigh
    | PopNormal
    | PopLow
    | Execute(task: Task)    // popped, fn() not run yet
    | Report(task: Task)     // fn() has run, active_tasks_ not decremented yet
    | Exited

  const CAPACITY := 65536

  /** Where an accepted task is. A queued task is known by its position in the
      whole history of its queue. */
  datatype Place = AtSpawner(i: nat) | InQueue(priority: Priority, k: nat) | AtWorker(w: nat) | Done

  /** The shared object, all threads, and the history: where each accepted task is,
      how often each body ran, and how many entries left each queue. */
  datatype State = State(
    running: bool,
    nextId: nat,
    active: int,
    queues: map<Priority, seq<Task>>,
    spawners: seq<Spawner>,
    workers: seq<Worker>,
    place: map<nat, Place>,
    runs: map<nat, nat>,
    left: map<Priority, nat>)

  datatype Action =
    | Spawn(i: nat, priority: Priority)
    | Count(i: nat)
    | TryPush(i: nat, success: bool)
    | Work(w: nat, success: bool)
    | Stop

  function Init(spawners: nat, workers: nat): State {
    State(true, 1, 0, map[], seq(spawners, _ => Ready), seq(workers, _ => CheckRunning),
          map[], map[], map[])
  }

  /** The queue of one priority; there is one object for each of the three. */
  function Queue(s: State, p: Priority): seq<Task> {
    if p in s.queues then s.queues[p] else []
  }

  function SetQueue(s: State, p: Priority, q: seq<Task>): State {
    s.(queues := s.queues[p := q])
  }

  function Left(s: State, p: Priority): nat {
    if p in s.left then s.left[p] else 0
  }

  function Runs(s: State, id: nat): nat {
    if id in s.runs then s.runs[id] else 0
  }

  /** Only the queue of its own priority is touched, and only if there is room. */
  function Enqueued(s: State, i: nat, t: Task): State
    requires i < |s.spawners|
  {
    var q := Queue(s, t.priority);
    if |q| < CAPACITY then
      SetQueue(s, t.priority, q + [t]).(spawners := s.spawners[i := Ready],
                                       place := s.place[t.id := InQueue(t.priority, Left(s, t.priority) + |q|)])
    else s
  }

  function SetWorker(s: State, w: nat, l: Worker): State
    requires w < |s.workers|
  {
    s.(workers := s.workers[w := l])
  }

  /** A pop that succeeds takes the head; one may fail although the queue is not empty. */
  function Popped(s: State, w: nat, p: Priority, success: bool, otherwise: Worker): State
    requires w < |s.workers|
  {
    var q := Queue(s, p);
    if success && q != [] then
      SetQueue(SetWorker(s, w, Execute(q[0])), p, q[1..]).(place := s.place[q[0].id := AtWorker(w)],
                                                          left := s.left[p := Left(s, p) + 1])
    else SetWorker(s, w, otherwise)
  }

  /** The next step of worker `w`; worker 0 is the dedicated high core. */
  function Worked(s: State, w: nat, success: bool): (r: State)
    requires w < |s.workers|
    ensures |r.workers| == |s.workers|
  {
    match s.workers[w]
    case CheckRunning => SetWorker(s, w, if s.running then PopHigh else CheckActive)
    case CheckActive => SetWorker(s, w, if s.active > 0 then PopHigh else Exited)
    case PopHigh => Popped(s, w, HIGH, success, PopNormal)
    case PopNormal => Popped(s, w, NORMAL, success, if w == 0 then CheckRunning else PopLow)
    case PopLow => Popped(s, w, LOW, success, CheckRunning)
    case Execute(t) => SetWorker(s, w, Report(t)).(runs := s.runs[t.id := Runs(s, t.id) + 1])
    case Report(t) => SetWorker(s, w, CheckRunning).(active := s.active - 1, place := s.place[t.id := Done])
    case Exited => s
  }

  function Next(s: State, a: Action): State {
    match a
    case Spawn(i, p) =>
      if i < |s.spawners| && s.spawners[i].Ready? then
        s.(spawners := s.spawners[i := Numbered(Task(s.nextId, p))], nextId := s.nextId + 1)
      else s
    case Count(i) =>
      if i < |s.spawners| && s.spawners[i].Numbered? then
        var t := s.spawners[i].task;
        s.(spawners := s.spawners[i := Waiting(t)], active := s.active + 1, place := s.place[t.id := AtSpawner(i)])
      else s
    case TryPush(i, success) =>
      if i < |s.spawners| && s.spawners[i].Waiting? && success then Enqueued(s, i, s.spawners[i].task) else s
    case Work(w, success) => if w < |s.workers| then Worked(s, w, success) else s
    case Stop => s.(running := false)
  }

  // ---------------------------------------------------------------- counting

  function WaitingCount(ls: seq<Spawner>): nat {
    if ls == [] then 0 else (if ls[0].Waiting? then 1 else 0) + WaitingCount(ls[1..])
  }

  predicate Holding(l: Worker) {
    l.Execute? || l.Report?
  }

  function HeldCount(ls: seq<Worker>): nat {
    if ls == [] then 0 else (if Holding(ls[0]) then 1 else 0) + HeldCount(ls[1..])
  }

  lemma {:induction false} WaitingUpdate(ls: seq<Spawner>, i: nat, l: Spawner)
    requires i < |ls|
    ensures WaitingCount(ls[i := l]) == WaitingCount(ls) - (if ls[i].Waiting? then 1 else 0) + (if l.Waiting? then 1 else 0)
    decreases |ls|
  {
    assert ls[i := l][0] == if i == 0 then l else ls[0];
    if i > 0 {
      assert ls[i := l][1..] == ls[1..][i - 1 := l];
      WaitingUpdate(ls[1..], i - 1, l);
    } else {
      assert ls[0 := l][1..] == ls[1..];
    }
  }

  lemma {:induction false} HeldUpdate(ls: seq<Worker>, i: nat, l: Worker)
    requires i < |ls|
    ensures HeldCount(ls[i := l]) == HeldCount(ls) - (if Holding(ls[i]) then 1 else 0) + (if Holding(l) then 1 else 0)
    decreases |ls|
  {
    assert ls[i := l][0] == if i == 0 then l else ls[0];
    if i > 0 {
      assert ls[i := l][1..] == ls[1..][i - 1 := l];
      HeldUpdate(ls[1..], i - 1, l);
    } else {
      assert ls[0 := l][1..] == ls[1..];
    }
  }

  lemma {:induction false} CountZero(sp: seq<Spawner>, ws: seq<Worker>)
    ensures WaitingCount(sp) == 0 <==> forall i :: 0 <= i < |sp| ==> !sp[i].Waiting?
    ensures HeldCount(ws) == 0 <==> forall i :: 0 <= i < |ws| ==> !Holding(ws[i])
    decreases |sp| + |ws|
  {
    if sp != [] {
      CountZero(sp[1..], ws);
      assert forall i :: 1 <= i < |sp| ==> sp[i] == sp[1..][i - 1];
    } else if ws != [] {
      CountZero(sp, ws[1..]);
      assert forall i :: 1 <= i < |ws| ==> ws[i] == ws[1..][i - 1];
    }
  }

  // --------------------------------------------------------------- invariant

  /** Tasks counted by `spawn` and not reported: waiting to be pushed, queued, or held. */
  function Unfinished(s: State): nat {
    WaitingCount(s.spawners) + |Queue(s, HIGH)| + |Queue(s, NORMAL)| + |Queue(s, LOW)| + HeldCount(s.workers)
  }

  /** A thread between numbering and counting has an id that nobody else knows. */
  ghost predicate NumberedOk(s: State) {
    && (forall id :: id in s.place ==> id < s.nextId)
    && (forall i :: 0 <= i < |s.spawners| && s.spawners[i].Numbered? ==>
          s.spawners[i].task.id < s.nextId && s.spawners[i].task.id !in s.place)
    && (forall i, j :: 0 <= i < j < |s.spawners| && s.spawners[i].Numbered? && s.spawners[j].Numbered? ==>
          s.spawners[i].task.id != s.spawners[j].task.id)
  }

  ghost predicate EntryOk(s: State, p: Priority, k: int)
    requires 0 <= k < |Queue(s, p)|
  {
    var t := Queue(s, p)[k];
    t.priority == p && t.id in s.place && s.place[t.id] == InQueue(p, Left(s, p) + k)
  }

  ghost predicate QueueOk(s: State, p: Priority) {
    && |Queue(s, p)| <= CAPACITY
    && forall k {:trigger EntryOk(s, p, k)} :: 0 <= k < |Queue(s, p)| ==> EntryOk(s, p, k)
  }

  ghost predicate SpawnerOk(s: State, i: nat)
    requires i < |s.spawners|
  {
    s.spawners[i].Waiting? ==> var t := s.spawners[i].task; t.id in s.place && s.place[t.id] == AtSpawner(i)
  }

  ghost predicate WorkerOk(s: State, w: nat)
    requires w < |s.workers|
  {
    && (Holding(s.workers[w]) ==>
          var t := s.workers[w].task;
          && t.id in s.place && s.place[t.id] == AtWorker(w)
          && (w == 0 ==> t.priority != LOW))
    && (w == 0 ==> s.workers[w] != PopLow)
  }

  /** Each spawned job really is where its place says, and its body ran exactly if it is past execution. */
  ghost predicate PlaceOk(s: State, id: nat)
    requires id in s.place
  {
    match s.place[id]
    case AtSpawner(i) => i < |s.spawners| && s.spawners[i].Waiting? && s.spawners[i].task.id == id && Runs(s, id) == 0
    case InQueue(p, k) =>
      Left(s, p) <= k < Left(s, p) + |Queue(s, p)| && Queue(s, p)[k - Left(s, p)].id == id && Runs(s, id) == 0
    case AtWorker(w) =>
      w < |s.workers| && Holding(s.workers[w]) && s.workers[w].task.id == id
      && Runs(s, id) == if s.workers[w].Report? then 1 else 0
    case Done => Runs(s, id) == 1
  }

  ghost predicate Inv(s: State) {
    && NumberedOk(s)
    && (forall p {:trigger QueueOk(s, p)} :: QueueOk(s, p))
    && (forall i {:trigger SpawnerOk(s, i)} :: 0 <= i < |s.spawners| ==> SpawnerOk(s, i))
    && (forall w {:trigger WorkerOk(s, w)} :: 0 <= w < |s.workers| ==> WorkerOk(s, w))
    && (forall id {:trigger PlaceOk(s, id)} :: id in s.place ==> PlaceOk(s, id))
    && (forall id :: id in s.runs ==> id in s.place)
    && s.active == Unfinished(s)
  }

  lemma InitInv(spawners: nat, workers: nat)
    ensures Inv(Init(spawners, workers))
  {
    var s := Init(spawners, workers);
    CountZero(s.spawners, s.workers);
  }

  /** Queues, places and history are as before; only who knows a fresh id has changed. */
  ghost predicate SamePlaces(s: State, r: State) {
    r.queues == s.queues && r.left == s.left && r.place == s.place && r.runs == s.runs && r.workers == s.workers
  }

  lemma SamePlacesQueue(s: State, r: State, p: Priority)
    requires SamePlaces(s, r) && QueueOk(s, p)
    ensures QueueOk(r, p)
  {
    forall k | 0 <= k < |Queue(r, p)| ensures EntryOk(r, p, k) {
      assert EntryOk(s, p, k);
    }
  }

  lemma SpawnKeepsPlaces(s: State, i: nat, priority: Priority, id: nat)
    requires Inv(s) && i < |s.spawners| && s.spawners[i].Ready? && id in s.place
    ensures PlaceOk(Next(s, Spawn(i, priority)), id)
  {
    assert PlaceOk(s, id);
  }

  lemma SpawnKeepsNumbers(s: State, i: nat, priority: Priority)
    requires Inv(s) && i < |s.spawners| && s.spawners[i].Ready?
    ensures var r := Next(s, Spawn(i, priority));
      NumberedOk(r) && r.active == Unfinished(r) && SamePlaces(s, r)
  {
    WaitingUpdate(s.spawners, i, Numbered(Task(s.nextId, priority)));
  }

  lemma SpawnKeeps(s: State, i: nat, priority: Priority)
    requires Inv(s) && i < |s.spawners| && s.spawners[i].Ready?
    ensures Inv(Next(s, Spawn(i, priority)))
  {
    var r := Next(s, Spawn(i, priority));
    SpawnKeepsNumbers(s, i, priority);
    forall j | 0 <= j < |r.spawners| ensures SpawnerOk(r, j) {
      assert SpawnerOk(s, j);
    }
    forall v | 0 <= v < |r.workers| ensures WorkerOk(r, v) {
      assert WorkerOk(s, v);
    }
    forall id | id in r.place ensures PlaceOk(r, id) {
      SpawnKeepsPlaces(s, i, priority, id);
    }
    forall p ensures QueueOk(r, p) {
      assert QueueOk(s, p);
      SamePlacesQueue(s, r, p);
    }
  }

  lemma CountKeeps(s: State, i: nat)
    requires Inv(s) && i < |s.spawners| && s.spawners[i].Numbered?
    ensures Inv(Next(s, Count(i)))
  {
    var r := Next(s, Count(i));
    var t := s.spawners[i].task;
    WaitingUpdate(s.spawners, i, Waiting(t));
    forall j | 0 <= j < |r.spawners| ensures SpawnerOk(r, j) {
      assert SpawnerOk(s, j);
    }
    forall v | 0 <= v < |r.workers| ensures WorkerOk(r, v) {
      assert WorkerOk(s, v);
    }
    forall id | id in r.place ensures PlaceOk(r, id) {
      assert id != t.id ==> PlaceOk(s, id);
    }
    forall p ensures QueueOk(r, p) {
      assert QueueOk(s, p);
      forall k | 0 <= k < |Queue(r, p)| ensures EntryOk(r, p, k) {
        assert EntryOk(s, p, k);
      }
    }
  }

  lemma PushKeeps(s: State, i: nat)
    requires Inv(s) && i < |s.spawners| && s.spawners[i].Waiting?
    ensures Inv(Enqueued(s, i, s.spawners[i].task))
  {
    var t := s.spawners[i].task;
    var r := Enqueued(s, i, t);
    assert SpawnerOk(s, i) && PlaceOk(s, t.id);
    if r != s {
      WaitingUpdate(s.spawners, i, Ready);
      PushKeepsParts(s, i);
      assert t.priority == HIGH || t.priority == NORMAL || t.priority == LOW;
    }
  }

  lemma PushKeepsQueues(s: State, i: nat, p: Priority)
    requires i < |s.spawners| && s.spawners[i].Waiting? && |Queue(s, s.spawners[i].task.priority)| < CAPACITY
    requires SpawnerOk(s, i) && QueueOk(s, p)
    ensures QueueOk(Enqueued(s, i, s.spawners[i].task), p)
  {
    var t := s.spawners[i].task;
    var r := Enqueued(s, i, t);
    forall k | 0 <= k < |Queue(r, p)| ensures EntryOk(r, p, k) {
      if k < |Queue(s, p)| {
        assert EntryOk(s, p, k);
      }
    }
  }

  lemma PushKeepsPlaces(s: State, i: nat, id: nat)
    requires i < |s.spawners| && s.spawners[i].Waiting? && |Queue(s, s.spawners[i].task.priority)| < CAPACITY
    requires id in s.place && s.spawners[i].task.id in s.place
    requires SpawnerOk(s, i) && PlaceOk(s, id) && PlaceOk(s, s.spawners[i].task.id)
    ensures PlaceOk(Enqueued(s, i, s.spawners[i].task), id)
  {
  }

  lemma PushKeepsParts(s: State, i: nat)
    requires Inv(s) && i < |s.spawners| && s.spawners[i].Waiting? && |Queue(s, s.spawners[i].task.priority)| < CAPACITY
    ensures var r := Enqueued(s, i, s.spawners[i].task);
      && (forall p {:trigger QueueOk(r, p)} :: QueueOk(r, p))
      && (forall j {:trigger SpawnerOk(r, j)} :: 0 <= j < |r.spawners| ==> SpawnerOk(r, j))
      && (forall v {:trigger WorkerOk(r, v)} :: 0 <= v < |r.workers| ==> WorkerOk(r, v))
      && (forall id {:trigger PlaceOk(r, id)} :: id in r.place ==> PlaceOk(r, id))
  {
    var r := Enqueued(s, i, s.spawners[i].task);
    assert SpawnerOk(s, i);
    forall j | 0 <= j < |r.spawners| ensures SpawnerOk(r, j) {
      assert SpawnerOk(s, j);
    }
    forall v | 0 <= v < |r.workers| ensures WorkerOk(r, v) {
      assert WorkerOk(s, v);
    }
    forall id | id in r.place ensures PlaceOk(r, id) {
      assert id in s.place && PlaceOk(s, id) && PlaceOk(s, s.spawners[i].task.id);
      PushKeepsPlaces(s, i, id);
    }
    forall p ensures QueueOk(r, p) {
      assert QueueOk(s, p);
      PushKeepsQueues(s, i, p);
    }
  }

  lemma PopKeepsQueues(s: State, w: nat, from: Priority, otherwise: Worker, p: Priority)
    requires w < |s.workers| && !Holding(s.workers[w]) && Queue(s, from) != []
    requires QueueOk(s, from) && EntryOk(s, from, 0) && QueueOk(s, p)
    ensures QueueOk(Popped(s, w, from, true, otherwise), p)
  {
    var r := Popped(s, w, from, true, otherwise);
    forall k | 0 <= k < |Queue(r, p)| ensures EntryOk(r, p, k) {
      assert EntryOk(s, p, if p == from then k + 1 else k);
    }
  }

  lemma PopKeepsPlaces(s: State, w: nat, from: Priority, otherwise: Worker, id: nat)
    requires w < |s.workers| && !Holding(s.workers[w]) && Queue(s, from) != [] && id in s.place
    requires EntryOk(s, from, 0) && PlaceOk(s, id) && PlaceOk(s, Queue(s, from)[0].id)
    ensures PlaceOk(Popped(s, w, from, true, otherwise), id)
  {
  }

  lemma PopKeeps(s: State, w: nat, from: Priority, otherwise: Worker)
    requires Inv(s) && w < |s.workers| && !Holding(s.workers[w]) && Queue(s, from) != [] && (w == 0 ==> from != LOW)
    ensures Inv(Popped(s, w, from, true, otherwise))
  {
    var t := Queue(s, from)[0];
    var r := Popped(s, w, from, true, otherwise);
    assert QueueOk(s, from) && EntryOk(s, from, 0);
    HeldUpdate(s.workers, w, Execute(t));
    forall j | 0 <= j < |r.spawners| ensures SpawnerOk(r, j) {
      assert SpawnerOk(s, j);
    }
    forall v | 0 <= v < |r.workers| ensures WorkerOk(r, v) {
      assert WorkerOk(s, v);
    }
    forall id | id in r.place ensures PlaceOk(r, id) {
      assert id in s.place && PlaceOk(s, id) && PlaceOk(s, t.id);
      PopKeepsPlaces(s, w, from, otherwise, id);
    }
    forall p ensures QueueOk(r, p) {
      assert QueueOk(s, p);
      PopKeepsQueues(s, w, from, otherwise, p);
    }
  }

  /** Executing or reporting a task touches no queue and no other holder. */
  lemma HeldStepKeepsPlaces(s: State, w: nat, id: nat)
    requires w < |s.workers| && Holding(s.workers[w]) && id in s.place && s.workers[w].task.id in s.place
    requires WorkerOk(s, w) && PlaceOk(s, s.workers[w].task.id) && PlaceOk(s, id)
    ensures PlaceOk(Worked(s, w, true), id)
  {
    match s.workers[w]
    case Execute(_) =>
    case Report(_) =>
  }

  lemma HeldStepKeepsQueues(s: State, w: nat, p: Priority)
    requires w < |s.workers| && Holding(s.workers[w]) && WorkerOk(s, w) && QueueOk(s, p)
    ensures QueueOk(Worked(s, w, true), p)
  {
    var r := Worked(s, w, true);
    forall k | 0 <= k < |Queue(r, p)| ensures EntryOk(r, p, k) {
      assert EntryOk(s, p, k);
    }
  }

  lemma HeldStepKeepsCounts(s: State, w: nat)
    requires Inv(s) && w < |s.workers| && Holding(s.workers[w])
    ensures var r := Worked(s, w, true);
      NumberedOk(r) && r.active == Unfinished(r) && (forall id :: id in r.runs ==> id in r.place)
  {
    assert WorkerOk(s, w);
    HeldUpdate(s.workers, w, Worked(s, w, true).workers[w]);
  }

  lemma HeldStepKeeps(s: State, w: nat)
    requires Inv(s) && w < |s.workers| && Holding(s.workers[w])
    ensures Inv(Worked(s, w, true))
  {
    var r := Worked(s, w, true);
    assert WorkerOk(s, w);
    HeldStepKeepsCounts(s, w);
    forall j | 0 <= j < |r.spawners| ensures SpawnerOk(r, j) {
      assert SpawnerOk(s, j);
    }
    forall v | 0 <= v < |r.workers| ensures WorkerOk(r, v) {
      assert WorkerOk(s, v);
    }
    forall id | id in r.place ensures PlaceOk(r, id) {
      assert id in s.place && PlaceOk(s, id) && PlaceOk(s, s.workers[w].task.id);
      HeldStepKeepsPlaces(s, w, id);
    }
    forall p ensures QueueOk(r, p) {
      assert QueueOk(s, p);
      HeldStepKeepsQueues(s, w, p);
    }
  }

  lemma IdleStepKeeps(s: State, w: nat, l: Worker)
    requires Inv(s) && w < |s.workers| && !Holding(s.workers[w]) && !Holding(l) && (w == 0 ==> l != PopLow)
    ensures Inv(SetWorker(s, w, l))
  {
    var r := SetWorker(s, w, l);
    HeldUpdate(s.workers, w, l);
    forall j | 0 <= j < |r.spawners| ensures SpawnerOk(r, j) {
      assert SpawnerOk(s, j);
    }
    forall v | 0 <= v < |r.workers| ensures WorkerOk(r, v) {
      assert WorkerOk(s, v);
    }
    forall id | id in r.place ensures PlaceOk(r, id) {
      assert PlaceOk(s, id);
    }
    forall p ensures QueueOk(r, p) {
      assert QueueOk(s, p);
      forall k | 0 <= k < |Queue(r, p)| ensures EntryOk(r, p, k) {
        assert EntryOk(s, p, k);
      }
    }
  }

  lemma WorkKeeps(s: State, w: nat, success: bool)
    requires Inv(s) && w < |s.workers|
    ensures Inv(Worked(s, w, success))
  {
    var r := Worked(s, w, success);
    assert WorkerOk(s, w);
    match s.workers[w]
    case Execute(_) => HeldStepKeeps(s, w);
    case Report(_) => HeldStepKeeps(s, w);
    case Exited =>
    case PopHigh => if success && Queue(s, HIGH) != [] { PopKeeps(s, w, HIGH, PopNormal); } else { IdleStepKeeps(s, w, PopNormal); }
    case PopNormal =>
      var l := if w == 0 then CheckRunning else PopLow;
      if success && Queue(s, NORMAL) != [] { PopKeeps(s, w, NORMAL, l); } else { IdleStepKeeps(s, w, l); }
    case PopLow => if success && Queue(s, LOW) != [] { PopKeeps(s, w, LOW, CheckRunning); } else { IdleStepKeeps(s, w, CheckRunning); }
    case _ => IdleStepKeeps(s, w, r.workers[w]);
  }

  lemma StopKeeps(s: State)
    requires Inv(s)
    ensures Inv(Next(s, Stop))
  {
    var r := Next(s, Stop);
    forall j | 0 <= j < |r.spawners| ensures SpawnerOk(r, j) {
      assert SpawnerOk(s, j);
    }
    forall v | 0 <= v < |r.workers| ensures WorkerOk(r, v) {
      assert WorkerOk(s, v);
    }
    forall id | id in r.place ensures PlaceOk(r, id) {
      assert PlaceOk(s, id);
    }
    forall p ensures QueueOk(r, p) {
      assert QueueOk(s, p);
      forall k | 0 <= k < |Queue(r, p)| ensures EntryOk(r, p, k) {
        assert EntryOk(s, p, k);
      }
    }
  }

  /** Every step of every thread keeps the invariant. */
  lemma StepKeeps(s: State, a: Action)
    requires Inv(s)
    ensures Inv(Next(s, a))
  {
    match a
    case Spawn(i, p) => if i < |s.spawners| && s.spawners[i].Ready? { SpawnKeeps(s, i, p); }
    case Count(i) => if i < |s.spawners| && s.spawners[i].Numbered? { CountKeeps(s, i); }
    case TryPush(i, success) => if i < |s.spawners| && s.spawners[i].Waiting? && success { PushKeeps(s, i); }
    case Work(w, success) => if w < |s.workers| { WorkKeeps(s, w, success); }
    case Stop => StopKeeps(s);
  }

  function RunFrom(s: State, actions: seq<Action>): State
    decreases |actions|
  {
    if actions == [] then s else RunFrom(Next(s, actions[0]), actions[1..])
  }

  lemma {:induction false} RunKeeps(s: State, actions: seq<Action>)
    requires Inv(s)
    ensures Inv(RunFrom(s, actions))
    decreases |actions|
  {
    if actions != [] {
      StepKeeps(s, actions[0]);
      RunKeeps(Next(s, actions[0]), actions[1..]);
    }
  }

  // ------------------------------------------------------------------ results

  /** In every run the counter is exactly the number of accepted tasks that are
      waiting to be pushed, queued or held by a worker, every accepted task is in
      one of those places or finished, and no body runs twice. */
  lemma SchedulerConserves(spawners: nat, workers: nat, actions: seq<Action>)
    ensures var s := RunFrom(Init(spawners, workers), actions);
      && Inv(s) && s.active == Unfinished(s)
      && (forall id {:trigger PlaceOk(s, id)} :: id in s.place ==> PlaceOk(s, id))
      && (forall id :: Runs(s, id) <= 1)
  {
    InitInv(spawners, workers);
    RunKeeps(Init(spawners, workers), actions);
    var s := RunFrom(Init(spawners, workers), actions);
    forall id: nat ensures Runs(s, id) <= 1 {
      if id in s.runs {
        assert PlaceOk(s, id);
      }
    }
  }

  ghost predicate AllDone(s: State) {
    forall id :: id in s.place ==> s.place[id] == Done && Runs(s, id) == 1
  }

  /** `wait_all` returns when it reads zero, which it can exactly when every
      accepted task has run once and has been reported. */
  lemma ZeroMeansDone(s: State)
    requires Inv(s)
    ensures s.active >= 0
    ensures s.active == 0 <==> AllDone(s)
    ensures s.active == 0 ==> forall p :: Queue(s, p) == []
  {
    CountZero(s.spawners, s.workers);
    forall p ensures |Queue(s, p)| <= Unfinished(s) {
      match p case HIGH => case NORMAL => case LOW =>
    }
    if s.active == 0 {
      forall id | id in s.place ensures s.place[id] == Done && Runs(s, id) == 1 {
        assert PlaceOk(s, id);
      }
    }
    if AllDone(s) {
      forall i | 0 <= i < |s.spawners| ensures !s.spawners[i].Waiting? {
        assert SpawnerOk(s, i);
      }
      forall w | 0 <= w < |s.workers| ensures !Holding(s.workers[w]) {
        assert WorkerOk(s, w);
      }
      EmptyWhenDone(s, HIGH);
      EmptyWhenDone(s, NORMAL);
      EmptyWhenDone(s, LOW);
    }
  }

  lemma EmptyWhenDone(s: State, p: Priority)
    requires Inv(s) && AllDone(s)
    ensures Queue(s, p) == []
  {
    assert QueueOk(s, p);
    assert |Queue(s, p)| == 0 || EntryOk(s, p, 0);
  }

  /** The dedicated high core never executes a LOW task. */
  lemma HighCoreSkipsLow(spawners: nat, workers: nat, actions: seq<Action>)
    ensures var s := RunFrom(Init(spawners, workers), actions);
      |s.workers| > 0 && Holding(s.workers[0]) ==> s.workers[0].task.priority != LOW
  {
    InitInv(spawners, workers);
    RunKeeps(Init(spawners, workers), actions);
    var s := RunFrom(Init(spawners, workers), actions);
    if |s.workers| > 0 {
      assert WorkerOk(s, 0);
    }
  }

  /** A worker leaves its loop only after `stop`, at an instant when nothing accepted is unfinished. */
  lemma ExitMeansDone(s: State, w: nat, success: bool)
    requires Inv(s) && w < |s.workers| && s.workers[w] != Exited && Worked(s, w, success).workers[w] == Exited
    ensures AllDone(s)
  {
    ZeroMeansDone(s);
  }
}
