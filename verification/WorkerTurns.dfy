/**
 One undisturbed round of a worker on the real queues: it runs the oldest published task of
 the first queue that has one, HIGH before NORMAL before LOW, or leaves when it may.
 */
module WorkerTurns {
  import S = Scheduler
  import Q = Mpmc
  import Solo = MpmcSolo
  import opened QueuedScheduler

  /** `n` steps of worker `w` alone. */
  ghost function Turn(s: State, w: nat, n: nat): (r: State)
    requires Inv(s)
    ensures Inv(r)
    decreases n
  {
    if n == 0 then s
    else
      StepKeeps(s, WorkStep(w, false));
      Turn(Next(s, WorkStep(w, false)), w, n - 1)
  }

  lemma TurnNext(s: State, w: nat, r: State, n: nat)
    requires Inv(s) && w < |s.workers| && r == Worked(s, w, false)
    ensures Inv(r) && Turn(s, w, n + 1) == Turn(r, w, n)
  {
    StepKeeps(s, WorkStep(w, false));
  }

  // --------------------------------------------------------- asking one queue

  lemma WithTwice(s: State, p: Priority, q: Queue, r: Queue)
    ensures s.With(p, q).With(p, r) == s.With(p, r)
    ensures s.With(p, q).workers == s.workers && s.With(p, q).spawners == s.spawners
  {
  }

  lemma WithSame(s: State, p: Priority)
    ensures s.With(p, s.Of(p)) == s
  {
  }

  /** Worker `w` inside `pop` on queue `p`, that queue being `q`. */
  ghost predicate Asking(s: State, u: State, w: nat, p: Priority, q: Queue) {
    && Inv(s) && Inv(u) && Q.Inv(q) && w < |s.workers| && s.workers[w] == Popping(p)
    && u == s.With(p, q) && |q.threads| == |s.spawners| + |s.workers|
  }

  /** A step of `pop` that does not end it. */
  lemma AskOn(s: State, u: State, w: nat, p: Priority, q: Queue, r: Queue, n: nat)
    requires Asking(s, u, w, p, q) && r == Q.Apply(q, s.Id(w), PopAction(q.threads[s.Id(w)], false))
    requires !q.threads[s.Id(w)].PopRelease? && (q.threads[s.Id(w)].PopSeq? ==> |r.threads| == |q.threads| && !r.threads[s.Id(w)].Idle?)
    ensures |r.threads| == |q.threads| && Asking(s, s.With(p, r), w, p, r) && Turn(u, w, n + 1) == Turn(s.With(p, r), w, n)
  {
    WithTwice(s, p, q, r);
    StepIsLocal(q, s.Id(w), PopAction(q.threads[s.Id(w)], false));
    TurnNext(u, w, s.With(p, r), n);
  }

  lemma AskEnds(s: State, u: State, w: nat, p: Priority, q: Queue, r: Queue, n: nat, l: Worker)
    requires Asking(s, u, w, p, q) && r == Q.Advanced(q, s.Id(w)) && s.Id(w) < |r.threads| && r.threads[s.Id(w)].Idle?
    requires q.threads[s.Id(w)].PopRelease? || q.threads[s.Id(w)].PopSeq?
    requires l == if q.threads[s.Id(w)].PopRelease? then Execute(q.threads[s.Id(w)].v) else AfterEmpty(w, p)
    ensures var t := s.With(p, r).(workers := s.workers[w := l]); Inv(t) && Turn(u, w, n + 1) == Turn(t, w, n)
  {
    WithTwice(s, p, q, r);
    TurnNext(u, w, s.With(p, r).(workers := s.workers[w := l]), n);
  }

  /** The two first steps: the call and the load of the position. */
  lemma AskBegins(s: State, w: nat, p: Priority, q: Queue, n: nat)
    requires Asking(s, s, w, p, q) && q == s.Of(p) && q.threads[s.Id(w)].Idle?
    ensures var t := Q.SetThread(q, s.Id(w), Q.PopSeq(q.deq));
      Asking(s, s.With(p, t), w, p, t) && Turn(s, w, n + 2) == Turn(s.With(p, t), w, n)
  {
    var k := s.Id(w);
    var q1 := Q.SetThread(q, k, Q.PopLoad);
    AskOn(s, s, w, p, q, q1, n + 1);
    assert Q.Advanced(q1, k) == Q.SetThread(q, k, Q.PopSeq(q.deq));
    AskOn(s, s.With(p, q1), w, p, q1, Q.SetThread(q, k, Q.PopSeq(q.deq)), n);
  }

  /** Worker `w` has not called `pop` on this queue yet. */
  ghost predicate Calls(s: State, w: nat, p: Priority) {
    && Inv(s) && w < |s.workers| && s.workers[w] == Popping(p) && s.Of(p).threads[s.Id(w)].Idle?
  }

  lemma CallsIsAsking(s: State, w: nat, p: Priority)
    requires Calls(s, w, p)
    ensures Asking(s, s, w, p, s.Of(p))
  {
    WithSame(s, p);
    assert QueueOk(s, p);
  }

  /** The queue has nothing published at its front: the worker moves on, and nothing has changed. */
  lemma AskInVain(s: State, w: nat, p: Priority, n: nat)
    requires Calls(s, w, p) && !Solo.HasValue(s.Of(p))
    ensures var t := s.(workers := s.workers[w := AfterEmpty(w, p)]); Inv(t) && Turn(s, w, n + 3) == Turn(t, w, n)
  {
    var k, q := s.Id(w), s.Of(p);
    var q2 := Q.SetThread(q, k, Q.PopSeq(q.deq));
    CallsIsAsking(s, w, p);
    AskBegins(s, w, p, q, n + 1);
    Solo.SequenceForPop(q2, k);
    assert Q.SetThread(q2, k, Q.Idle) == q;
    AskEnds(s, s.With(p, q2), w, p, q2, q, n, AfterEmpty(w, p));
    WithSame(s, p);
  }

  /** The state in which the worker holds the oldest task of that queue. */
  ghost function Holding(s: State, w: nat, p: Priority): State
    requires Calls(s, w, p) && Solo.HasValue(s.Of(p))
  {
    var q := s.Of(p);
    assert QueueOk(s, p);
    s.With(p, Solo.Popped(q, s.Id(w))).(workers := s.workers[w := Execute(q.pushed[q.deq])])
  }

  lemma AskAndTake(s: State, w: nat, p: Priority, n: nat)
    requires Calls(s, w, p) && Solo.HasValue(s.Of(p))
    ensures Inv(Holding(s, w, p)) && Turn(s, w, n + 6) == Turn(Holding(s, w, p), w, n)
  {
    var k, q := s.Id(w), s.Of(p);
    CallsIsAsking(s, w, p);
    AskBegins(s, w, p, q, n + 4);
    AskSees(s, w, p, q, Q.SetThread(q, k, Q.PopSeq(q.deq)), n + 3);
    TakeClaimed(s, w, p, q, Q.SetThread(q, k, Q.PopCas(q.deq)), n);
  }

  lemma AskSees(s: State, w: nat, p: Priority, q: Queue, q2: Queue, n: nat)
    requires Calls(s, w, p) && q == s.Of(p) && Solo.HasValue(q) && q2 == Q.SetThread(q, s.Id(w), Q.PopSeq(q.deq))
    requires Asking(s, s.With(p, q2), w, p, q2)
    ensures var c := Q.SetThread(q, s.Id(w), Q.PopCas(q.deq));
      Asking(s, s.With(p, c), w, p, c) && Turn(s.With(p, q2), w, n + 1) == Turn(s.With(p, c), w, n)
  {
    var k := s.Id(w);
    Solo.SequenceForPop(q2, k);
    Solo.SetTwice(q, q2, k, Q.PopSeq(q.deq), Q.PopCas(q.deq));
    AskOn(s, s.With(p, q2), w, p, q2, Q.SetThread(q, k, Q.PopCas(q.deq)), n);
  }

  lemma TakeClaimed(s: State, w: nat, p: Priority, q: Queue, c: Queue, n: nat)
    requires Calls(s, w, p) && q == s.Of(p) && Solo.HasValue(q) && c == Q.SetThread(q, s.Id(w), Q.PopCas(q.deq))
    requires Asking(s, s.With(p, c), w, p, c)
    ensures Inv(Holding(s, w, p)) && Turn(s.With(p, c), w, n + 3) == Turn(Holding(s, w, p), w, n)
  {
    var q3, q4 := Solo.ClaimedPop(c, s.Id(w));
    PoppedFrom(q, c, s.Id(w));
    AskOn(s, s.With(p, c), w, p, c, q3, n + 2);
    ReadAndReturn(s, w, p, q3, q4, Solo.Popped(q, s.Id(w)), q.pushed[q.deq], n);
  }

  lemma PoppedFrom(q: Queue, c: Queue, k: nat)
    requires q.Shaped() && k < |q.threads| && q.deq < q.enq && c == Q.SetThread(q, k, Q.PopCas(q.deq))
    ensures Solo.Popped(c, k) == Solo.Popped(q, k) && c.pushed == q.pushed && c.deq == q.deq
  {
  }

  lemma ReadAndReturn(s: State, w: nat, p: Priority, q3: Queue, q4: Queue, r: Queue, t: Task, n: nat)
    requires Asking(s, s.With(p, q3), w, p, q3) && q3.threads[s.Id(w)].PopRead?
    requires q4 == Q.Advanced(q3, s.Id(w)) && s.Id(w) < |q4.threads| && q4.threads[s.Id(w)].PopRelease?
    requires q4.threads[s.Id(w)].v == t && r == Q.Advanced(q4, s.Id(w))
    requires s.Id(w) < |r.threads| && r.threads[s.Id(w)].Idle?
    ensures var u := s.With(p, r).(workers := s.workers[w := Execute(t)]);
      Inv(u) && Turn(s.With(p, q3), w, n + 2) == Turn(u, w, n)
  {
    AskOn(s, s.With(p, q3), w, p, q3, q4, n + 1);
    AskEnds(s, s.With(p, q4), w, p, q4, r, n, Execute(t));
  }

  // ------------------------------------------------------------ a whole round

  /** The worker has run the oldest task of queue `p`, counted it out, and is where it was. */
  ghost predicate Served(s: State, r: State, p: Priority)
    requires Inv(s) && Inv(r)
  {
    var q := s.Of(p);
    && QueueOk(s, p) && QueueOk(r, p) && q.deq < |q.pushed| && Q.Contents(q) != [] && Q.Contents(q)[0] == q.pushed[q.deq]
    && Q.Contents(r.Of(p)) == Q.Contents(q)[1..] && (forall o: Priority {:trigger r.Of(o)} :: o != p ==> r.Of(o) == s.Of(o))
    && r.active == s.active - 1
    && r.runs == s.runs[q.pushed[q.deq].id := (if q.pushed[q.deq].id in s.runs then s.runs[q.pushed[q.deq].id] else 0) + 1]
    && r.workers == s.workers && r.spawners == s.spawners && r.running == s.running && r.nextId == s.nextId
  }

  /** Its task run and reported. */
  function Finished(s: State, w: nat, t: Task): State
    requires w < |s.workers|
  {
    s.(workers := s.workers[w := CheckRunning], runs := s.runs[t.id := (if t.id in s.runs then s.runs[t.id] else 0) + 1],
       active := s.active - 1)
  }

  lemma Finishes(s: State, w: nat, t: Task, n: nat)
    requires Inv(s) && w < |s.workers| && s.workers[w] == Execute(t)
    ensures Inv(Finished(s, w, t)) && Turn(s, w, n + 2) == Turn(Finished(s, w, t), w, n)
  {
    var s1 := s.(workers := s.workers[w := Report(t)],
                 runs := s.runs[t.id := (if t.id in s.runs then s.runs[t.id] else 0) + 1]);
    TurnNext(s, w, s1, n + 1);
    assert s1.workers[w := CheckRunning] == s.workers[w := CheckRunning];
    TurnNext(s1, w, Finished(s, w, t), n);
  }

  lemma Serves(s: State, w: nat, p: Priority, n: nat) returns (r: State)
    requires Calls(s, w, p) && Solo.HasValue(s.Of(p))
    ensures var u := s.(workers := s.workers[w := CheckRunning]);
      Inv(u) && Inv(r) && Served(u, r, p) && Turn(s, w, n + 8) == Turn(r, w, n)
  {
    var h, t := Holding(s, w, p), s.Of(p).pushed[s.Of(p).deq];
    HoldsTask(s, w, p);
    AskAndTake(s, w, p, n + 2);
    Finishes(h, w, t, n);
    r := Finished(h, w, t);
    OnlyWorker(s, w, CheckRunning);
    ServedIs(s, s.(workers := s.workers[w := CheckRunning]), h, r, w, p, s.Of(p));
  }

  lemma HoldsTask(s: State, w: nat, p: Priority)
    requires Calls(s, w, p) && Solo.HasValue(s.Of(p))
    ensures var h, q := Holding(s, w, p), s.Of(p);
      q.Shaped() && q.deq < |q.pushed| && w < |h.workers| && h.workers[w] == Execute(q.pushed[q.deq])
  {
    assert QueueOk(s, p);
  }

  lemma ServedIs(s: State, u: State, h: State, r: State, w: nat, p: Priority, q: Queue)
    requires Calls(s, w, p) && Solo.HasValue(q) && q == s.Of(p) && q.Shaped()
    requires u == s.(workers := s.workers[w := CheckRunning]) && Inv(u) && Inv(r)
    requires h == Holding(s, w, p) && w < |h.workers|
    requires r == Finished(h, w, q.pushed[q.deq])
    ensures Served(u, r, p)
  {
    assert s.workers[w := Execute(q.pushed[q.deq])][w := CheckRunning] == s.workers[w := CheckRunning];
    assert QueueOk(u, p) && QueueOk(r, p);
    OthersSame(s, u, r, w, p, q);
    HeadTaken(q, s.Id(w));
  }

  lemma OthersSame(s: State, u: State, r: State, w: nat, p: Priority, q: Queue)
    requires w < |s.workers| && s.Id(w) < |q.threads| && q.Shaped() && q.deq < q.enq
    requires u.high == s.high && u.normal == s.normal && u.low == s.low
    requires var v := s.With(p, Solo.Popped(q, s.Id(w))); r.high == v.high && r.normal == v.normal && r.low == v.low
    ensures r.Of(p) == Solo.Popped(q, s.Id(w)) && u.Of(p) == s.Of(p)
    ensures forall o: Priority {:trigger r.Of(o)} :: o != p ==> r.Of(o) == u.Of(o)
  {
  }

  lemma HeadTaken(q: Queue, k: nat)
    requires q.Shaped() && k < |q.threads| && q.deq < q.enq
    ensures var r := Solo.Popped(q, k); r.Shaped() && r.deq <= r.enq
    ensures q.deq < |q.pushed| && Q.Contents(q) != [] && Q.Contents(q)[0] == q.pushed[q.deq]
    ensures Q.Contents(Solo.Popped(q, k)) == Q.Contents(q)[1..]
  {
  }

  /** A worker that is inside no queue may be anywhere in its loop. */
  lemma OnlyWorker(s: State, w: nat, l: Worker)
    requires Inv(s) && w < |s.workers| && (s.workers[w].Popping? ==> s.Of(s.workers[w].priority).threads[s.Id(w)].Idle?)
    ensures var u := s.(workers := s.workers[w := l]);
      Inv(u) && forall o: Priority {:trigger u.Of(o)} :: u.Of(o) == s.Of(o) && u.Of(o).threads[u.Id(w)].Idle?
  {
    var u := s.(workers := s.workers[w := l]);
    forall o: Priority {:trigger u.Of(o)} ensures u.Of(o) == s.Of(o) && s.Of(o).threads[s.Id(w)].Idle? {
      assert QueueOk(s, o) && WorkerOk(s, o, w);
    }
    assert Sized(u);
    forall o: Priority ensures QueueOk(u, o) {
      assert QueueOk(s, o);
      UntouchedKeeps(s, u, o);
    }
  }

  /** Before the worker has asked anybody, it is inside no queue; so it is before each further call. */
  lemma CallsNext(s: State, w: nat, p: Priority)
    requires Inv(s) && w < |s.workers| && (s.workers[w].Popping? ==> s.Of(s.workers[w].priority).threads[s.Id(w)].Idle?)
    ensures var u := s.(workers := s.workers[w := Popping(p)]); Inv(u) && Calls(u, w, p)
  {
    OnlyWorker(s, w, Popping(p));
    assert s.(workers := s.workers[w := Popping(p)]).Of(p) == s.Of(p);
  }

  /** Where a look at the flag and, after `stop`, at the counter leads. */
  function AfterLook(s: State): Worker {
    if s.running || s.active > 0 then Popping(S.HIGH) else Exited
  }

  lemma LookOnce(s: State, w: nat, n: nat)
    requires Inv(s) && w < |s.workers| && s.workers[w] == CheckRunning && s.running
    ensures var u := s.(workers := s.workers[w := AfterLook(s)]); Inv(u) && Turn(s, w, n + 1) == Turn(u, w, n)
  {
    TurnNext(s, w, s.(workers := s.workers[w := AfterLook(s)]), n);
  }

  lemma LookTwice(s: State, w: nat, n: nat)
    requires Inv(s) && w < |s.workers| && s.workers[w] == CheckRunning && !s.running
    ensures var u := s.(workers := s.workers[w := AfterLook(s)]); Inv(u) && Turn(s, w, n + 2) == Turn(u, w, n)
  {
    var s1 := s.(workers := s.workers[w := CheckActive]);
    TurnNext(s, w, s1, n + 1);
    assert s1.workers[w := AfterLook(s)] == s.workers[w := AfterLook(s)];
    TurnNext(s1, w, s.(workers := s.workers[w := AfterLook(s)]), n);
  }

  lemma Looks(s: State, w: nat, n: nat) returns (k: nat)
    requires Inv(s) && w < |s.workers| && s.workers[w] == CheckRunning
    ensures k >= 1 && var u := s.(workers := s.workers[w := AfterLook(s)]); Inv(u) && Turn(s, w, k + n) == Turn(u, w, n)
  {
    if s.running {
      k := 1;
      LookOnce(s, w, n);
    } else {
      k := 2;
      LookTwice(s, w, n);
    }
  }

  /** What the round comes to: the first queue with a published task, in the order of priorities. */
  ghost predicate RoundIs(s: State, r: State, w: nat)
    requires Inv(s) && Inv(r)
  {
    if Solo.HasValue(s.high) then Served(s, r, S.HIGH) else AfterHigh(s, r, w)
  }

  ghost predicate AfterHigh(s: State, r: State, w: nat)
    requires Inv(s) && Inv(r)
  {
    if Solo.HasValue(s.normal) then Served(s, r, S.NORMAL) else AfterNormal(s, r, w)
  }

  ghost predicate AfterNormal(s: State, r: State, w: nat)
    requires Inv(s) && Inv(r)
  {
    if w != 0 && Solo.HasValue(s.low) then Served(s, r, S.LOW) else r == s
  }

  /** A worker at the top of its loop that nobody disturbs runs and reports the oldest task of
      the first queue that has one published, HIGH before NORMAL before LOW, and LOW never on
      the dedicated high core; it finds none and is back where it was when there is none; and
      it leaves if and only if the scheduler was stopped and no task is unfinished. */
  lemma UndisturbedRound(s: State, w: nat) returns (n: nat)
    requires Inv(s) && w < |s.workers| && s.workers[w] == CheckRunning
    ensures n > 0
    ensures if s.running || s.active > 0 then RoundIs(s, Turn(s, w, n), w)
            else Turn(s, w, n) == s.(workers := s.workers[w := Exited])
  {
    if s.running || s.active > 0 {
      n := Rounds(s, w, 0);
    } else {
      n := Looks(s, w, 0);
      NoTurns(s.(workers := s.workers[w := Exited]), w, 0);
    }
  }

  lemma Rounds(s: State, w: nat, zero: nat) returns (n: nat)
    requires Inv(s) && w < |s.workers| && s.workers[w] == CheckRunning && (s.running || s.active > 0) && zero == 0
    ensures n > 0 && RoundIs(s, Turn(s, w, n), w)
  {
    var u := Begins(s, w, S.HIGH);
    var v := Begins(s, w, S.NORMAL);
    var x := Begins(s, w, S.LOW);
    var m, r := AsksHigh(s, u, v, x, w, zero);
    var k := Looks(s, w, m + zero);
    n := k + m;
    NoTurns(r, w, zero);
  }

  lemma NoTurns(s: State, w: nat, n: nat)
    requires Inv(s) && n == 0
    ensures Turn(s, w, n) == s
  {
  }

  lemma AskedInVain(s: State, u: State, w: nat, p: Priority, l: Worker, n: nat)
    requires Inv(s) && w < |s.workers| && u == s.(workers := s.workers[w := Popping(p)]) && Calls(u, w, p)
    requires !Solo.HasValue(u.Of(p)) && l == AfterEmpty(w, p)
    ensures var v := s.(workers := s.workers[w := l]); Inv(v) && Turn(u, w, n + 3) == Turn(v, w, n)
  {
    AskInVain(u, w, p, n);
    assert u.workers[w := l] == s.workers[w := l];
  }

  lemma SameThere(s: State, w: nat, p: Priority, l: Worker)
    requires w < |s.workers|
    ensures s.(workers := s.workers[w := l]).Of(p) == s.Of(p)
    ensures s.workers[w] == CheckRunning ==> s.(workers := s.workers[w := CheckRunning]) == s
    ensures s.workers[w] == CheckRunning ==> s.workers[w := l][w := CheckRunning] == s.workers
  {
  }

  /** The worker about to call the queue of priority `p`. */
  ghost predicate Begun(s: State, u: State, w: nat, p: Priority) {
    && Inv(s) && w < |s.workers| && s.workers[w] == CheckRunning
    && u == s.(workers := s.workers[w := Popping(p)]) && Calls(u, w, p)
  }

  /** There is nothing in that queue, and `m` steps later nothing has happened. */
  lemma GivesUp(s: State, u: State, w: nat, p: Priority, m: nat)
    requires Begun(s, u, w, p) && !Solo.HasValue(s.Of(p)) && AfterEmpty(w, p) == CheckRunning
    ensures Turn(u, w, 3 + m) == Turn(s, w, m)
  {
    SameThere(s, w, p, Popping(p));
    AskedInVain(s, u, w, p, CheckRunning, m);
    SameThere(s, w, p, CheckRunning);
  }

  /** There is nothing in that queue, and the next one is asked; `r` is what that comes to. */
  lemma GoesOn(s: State, u: State, w: nat, p: Priority, v: State, o: Priority, n: nat, m: nat, r: State)
    requires Begun(s, u, w, p) && Begun(s, v, w, o) && !Solo.HasValue(s.Of(p)) && AfterEmpty(w, p) == Popping(o)
    requires Inv(r) && Turn(v, w, n + m) == Turn(r, w, m)
    ensures Turn(u, w, n + 3 + m) == Turn(r, w, m)
  {
    SameThere(s, w, p, Popping(p));
    AskedInVain(s, u, w, p, Popping(o), n + m);
  }

  lemma AsksLow(s: State, u: State, w: nat, m: nat) returns (n: nat, r: State)
    requires Begun(s, u, w, S.LOW) && w != 0
    ensures Inv(r) && Turn(u, w, n + m) == Turn(r, w, m)
    ensures AfterNormal(s, r, w)
  {
    if Solo.HasValue(s.low) {
      n, r := AsksLast(s, u, w, S.LOW, m);
    } else {
      GivesUp(s, u, w, S.LOW, m);
      n, r := 3, s;
    }
  }

  lemma AsksNormal(s: State, u: State, x: State, w: nat, m: nat) returns (n: nat, r: State)
    requires Begun(s, u, w, S.NORMAL) && Begun(s, x, w, S.LOW)
    ensures Inv(r) && Turn(u, w, n + m) == Turn(r, w, m) && AfterHigh(s, r, w)
  {
    if Solo.HasValue(s.normal) {
      n, r := AsksLast(s, u, w, S.NORMAL, m);
    } else {
      n, r := NormalInVain(s, u, x, w, m);
    }
  }

  lemma NormalInVain(s: State, u: State, x: State, w: nat, m: nat) returns (n: nat, r: State)
    requires Begun(s, u, w, S.NORMAL) && Begun(s, x, w, S.LOW) && !Solo.HasValue(s.Of(S.NORMAL))
    ensures Inv(r) && Turn(u, w, n + m) == Turn(r, w, m) && AfterNormal(s, r, w)
  {
    if w == 0 {
      GivesUp(s, u, w, S.NORMAL, m);
      n, r := 3, s;
    } else {
      n, r := AsksLow(s, x, w, m);
      GoesOn(s, u, w, S.NORMAL, x, S.LOW, n, m, r);
      n := n + 3;
    }
  }

  lemma AsksHigh(s: State, u: State, v: State, x: State, w: nat, m: nat) returns (n: nat, r: State)
    requires Begun(s, u, w, S.HIGH) && Begun(s, v, w, S.NORMAL) && Begun(s, x, w, S.LOW)
    ensures Inv(r) && Turn(u, w, n + m) == Turn(r, w, m) && RoundIs(s, r, w)
  {
    if Solo.HasValue(s.Of(S.HIGH)) {
      n, r := HighServes(s, u, w, m);
    } else {
      n, r := HighInVain(s, u, v, x, w, m);
      InVainIs(s, r, w);
    }
  }

  lemma HighServes(s: State, u: State, w: nat, m: nat) returns (n: nat, r: State)
    requires Begun(s, u, w, S.HIGH) && Solo.HasValue(s.Of(S.HIGH))
    ensures Inv(r) && Turn(u, w, n + m) == Turn(r, w, m) && RoundIs(s, r, w)
  {
    SameThere(s, w, S.HIGH, Popping(S.HIGH));
    n, r := AsksLast(s, u, w, S.HIGH, m);
  }

  lemma InVainIs(s: State, r: State, w: nat)
    requires Inv(s) && Inv(r) && AfterHigh(s, r, w) && !Solo.HasValue(s.Of(S.HIGH))
    ensures RoundIs(s, r, w)
  {
  }

  lemma HighInVain(s: State, u: State, v: State, x: State, w: nat, m: nat) returns (n: nat, r: State)
    requires Begun(s, u, w, S.HIGH) && Begun(s, v, w, S.NORMAL) && Begun(s, x, w, S.LOW) && !Solo.HasValue(s.Of(S.HIGH))
    ensures Inv(r) && Turn(u, w, n + m) == Turn(r, w, m) && AfterHigh(s, r, w)
  {
    n, r := AsksNormal(s, v, x, w, m);
    GoesOn(s, u, w, S.HIGH, v, S.NORMAL, n, m, r);
    n := n + 3;
  }

  lemma Begins(s: State, w: nat, p: Priority) returns (u: State)
    requires Inv(s) && w < |s.workers| && s.workers[w] == CheckRunning
    ensures u == s.(workers := s.workers[w := Popping(p)]) && Begun(s, u, w, p)
  {
    u := s.(workers := s.workers[w := Popping(p)]);
    CallsNext(s, w, p);
  }

  lemma AsksLast(s: State, u: State, w: nat, p: Priority, m: nat) returns (n: nat, r: State)
    requires Inv(s) && w < |s.workers| && s.workers[w] == CheckRunning
    requires u == s.(workers := s.workers[w := Popping(p)]) && Calls(u, w, p) && Solo.HasValue(u.Of(p))
    ensures Inv(r) && Served(s, r, p) && Turn(u, w, n + m) == Turn(r, w, m)
  {
    SameThere(s, w, p, Popping(p));
    r := Serves(u, w, p, m);
    n := 8;
  }

  // ---------------------------------------------------------------- a spawn

  /** `n` attempts of spawner `i` alone. */
  ghost function Attempts(s: State, i: nat, n: nat): (r: State)
    requires Inv(s)
    ensures Inv(r)
    decreases n
  {
    if n == 0 then s
    else
      StepKeeps(s, PushStep(i, false));
      Attempts(Next(s, PushStep(i, false)), i, n - 1)
  }

  lemma AttemptsNext(s: State, i: nat, r: State, n: nat)
    requires Inv(s) && i < |s.spawners| && s.spawners[i].Pushing? && r == Pushed(s, i, false)
    ensures Inv(r) && Attempts(s, i, n + 1) == Attempts(r, i, n)
  {
    StepKeeps(s, PushStep(i, false));
  }

  /** Spawner `i` inside `push` of `t`, the queue of its priority being `q`. */
  ghost predicate Offering(s: State, u: State, i: nat, t: Task, q: Queue) {
    && Inv(s) && Inv(u) && Q.Inv(q) && i < |s.spawners| && s.spawners[i] == Pushing(t)
    && u == s.With(t.priority, q) && |q.threads| == |s.spawners| + |s.workers|
  }

  lemma OfferOn(s: State, u: State, i: nat, t: Task, q: Queue, r: Queue, n: nat)
    requires Offering(s, u, i, t, q) && r == Q.Apply(q, i, PushAction(q.threads[i], t, false)) && !q.threads[i].PushPublish?
    ensures |r.threads| == |q.threads| && Offering(s, s.With(t.priority, r), i, t, r)
    ensures Attempts(u, i, n + 1) == Attempts(s.With(t.priority, r), i, n)
  {
    WithTwice(s, t.priority, q, r);
    StepIsLocal(q, i, PushAction(q.threads[i], t, false));
    AttemptsNext(u, i, s.With(t.priority, r), n);
  }

  lemma OfferEnds(s: State, u: State, i: nat, t: Task, q: Queue, r: Queue, n: nat)
    requires Offering(s, u, i, t, q) && r == Q.Advanced(q, i) && q.threads[i].PushPublish?
    ensures var v := s.With(t.priority, r).(spawners := s.spawners[i := Ready]);
      Inv(v) && Attempts(u, i, n + 1) == Attempts(v, i, n)
  {
    WithTwice(s, t.priority, q, r);
    AttemptsNext(u, i, s.With(t.priority, r).(spawners := s.spawners[i := Ready]), n);
  }

  /** Spawner `i` has not called `push` yet, or was refused and is about to call it again. */
  ghost predicate Offers(s: State, i: nat, t: Task) {
    Inv(s) && i < |s.spawners| && s.spawners[i] == Pushing(t) && Q.Outside(s.Of(t.priority).threads[i])
  }

  lemma OffersIsOffering(s: State, i: nat, t: Task)
    requires Offers(s, i, t)
    ensures Offering(s, s, i, t, s.Of(t.priority)) && PushState(s.Of(t.priority).threads[i], t)
  {
    WithSame(s, t.priority);
    assert QueueOk(s, t.priority) && SpawnerOk(s, t.priority, i);
  }

  lemma OfferBegins(s: State, i: nat, t: Task, q: Queue, n: nat)
    requires Offering(s, s, i, t, q) && q == s.Of(t.priority) && Q.Outside(q.threads[i]) && PushState(q.threads[i], t)
    ensures var u := Q.SetThread(q, i, Q.PushSeq(q.enq, t));
      Offering(s, s.With(t.priority, u), i, t, u) && Attempts(s, i, n + 2) == Attempts(s.With(t.priority, u), i, n)
  {
    var q1 := Q.SetThread(q, i, Q.PushLoad(t));
    OfferOn(s, s, i, t, q, q1, n + 1);
    assert Q.Advanced(q1, i) == Q.SetThread(q, i, Q.PushSeq(q.enq, t));
    OfferOn(s, s.With(t.priority, q1), i, t, q1, Q.SetThread(q, i, Q.PushSeq(q.enq, t)), n);
  }

  lemma OfferLooks(s: State, i: nat, t: Task, q: Queue, q2: Queue, n: nat)
    requires Offers(s, i, t) && q == s.Of(t.priority) && q2 == Q.SetThread(q, i, Q.PushSeq(q.enq, t))
    requires i < |q.threads| && Offering(s, s.With(t.priority, q2), i, t, q2)
    ensures var c := Q.SetThread(q, i, if Solo.HasRoom(q) then Q.PushCas(q.enq, t) else Q.Refused(t));
      Offering(s, s.With(t.priority, c), i, t, c)
      && Attempts(s.With(t.priority, q2), i, n + 1) == Attempts(s.With(t.priority, c), i, n)
  {
    var l := if Solo.HasRoom(q) then Q.PushCas(q.enq, t) else Q.Refused(t);
    Solo.SequenceForPush(q2, i, t);
    Solo.SetTwice(q, q2, i, Q.PushSeq(q.enq, t), l);
    OfferOn(s, s.With(t.priority, q2), i, t, q2, Q.SetThread(q, i, l), n);
  }

  lemma OfferClaims(s: State, i: nat, t: Task, q: Queue, c: Queue, n: nat)
    requires Offers(s, i, t) && q == s.Of(t.priority) && i < |q.threads| && c == Q.SetThread(q, i, Q.PushCas(q.enq, t))
    requires Offering(s, s.With(t.priority, c), i, t, c) && q.Shaped()
    ensures var v := s.With(t.priority, Solo.Appended(q, i, t)).(spawners := s.spawners[i := Ready]);
      Inv(v) && Attempts(s.With(t.priority, c), i, n + 3) == Attempts(v, i, n)
  {
    var q3, q4 := Solo.ClaimedPush(c, i, t);
    AppendedTo(q, c, i, t);
    OfferOn(s, s.With(t.priority, c), i, t, c, q3, n + 2);
    OfferOn(s, s.With(t.priority, q3), i, t, q3, q4, n + 1);
    OfferEnds(s, s.With(t.priority, q4), i, t, q4, Solo.Appended(q, i, t), n);
  }

  lemma AppendedTo(q: Queue, c: Queue, i: nat, t: Task)
    requires q.Shaped() && i < |q.threads| && c == Q.SetThread(q, i, Q.PushCas(q.enq, t))
    ensures Solo.Appended(c, i, t) == Solo.Appended(q, i, t) && c.enq == q.enq
  {
  }

  /** The task is in the queue of its priority, last, and nothing else has changed but that its spawner is ready. */
  ghost predicate Handed(s: State, r: State, i: nat, t: Task)
    requires Inv(s) && Inv(r) && i < |s.spawners|
  {
    && QueueOk(s, t.priority) && QueueOk(r, t.priority)
    && Q.Contents(r.Of(t.priority)) == Q.Contents(s.Of(t.priority)) + [t]
    && (forall o: Priority {:trigger r.Of(o)} :: o != t.priority ==> r.Of(o) == s.Of(o))
    && r.spawners == s.spawners[i := Ready] && r.workers == s.workers && r.runs == s.runs
    && r.running == s.running && r.active == s.active && r.nextId == s.nextId
  }

  /** A push of a task that nobody disturbs hands it over if and only if its queue has room at the position
      it finds; otherwise the spawner has it back and calls again. */
  lemma UndisturbedPush(s: State, i: nat, t: Task) returns (n: nat, r: State)
    requires Offers(s, i, t)
    ensures Inv(r) && Attempts(s, i, n) == r
    ensures Solo.HasRoom(s.Of(t.priority)) ==> Handed(s, r, i, t)
    ensures !Solo.HasRoom(s.Of(t.priority)) ==>
      r == s.With(t.priority, s.Of(t.priority).(threads := s.Of(t.priority).threads[i := Q.Refused(t)]))
  {
    if Solo.HasRoom(s.Of(t.priority)) {
      n, r := PushHands(s, i, t, 0, s.Of(t.priority));
    } else {
      n, r := PushRefused(s, i, t, 0, s.Of(t.priority));
    }
  }

  lemma PushRefused(s: State, i: nat, t: Task, m: nat, q: Queue) returns (n: nat, r: State)
    requires Offers(s, i, t) && q == s.Of(t.priority) && !Solo.HasRoom(q) && m == 0
    ensures Inv(r) && Attempts(s, i, n) == r && i < |q.threads|
    ensures r == s.With(t.priority, q.(threads := q.threads[i := Q.Refused(t)]))
  {
    PushStarts(s, i, t, m, q);
    n, r := m + 3, s.With(t.priority, q.(threads := q.threads[i := Q.Refused(t)]));
    NoAttempts(r, i, m);
  }

  lemma PushStarts(s: State, i: nat, t: Task, n: nat, q: Queue)
    requires Offers(s, i, t) && q == s.Of(t.priority)
    ensures i < |q.threads|
    ensures var c := Q.SetThread(q, i, if Solo.HasRoom(q) then Q.PushCas(q.enq, t) else Q.Refused(t));
      Offering(s, s.With(t.priority, c), i, t, c) && Attempts(s, i, n + 3) == Attempts(s.With(t.priority, c), i, n)
  {
    OffersIsOffering(s, i, t);
    OfferBegins(s, i, t, q, n + 1);
    OfferLooks(s, i, t, q, Q.SetThread(q, i, Q.PushSeq(q.enq, t)), n);
  }

  lemma PushHands(s: State, i: nat, t: Task, m: nat, q: Queue) returns (n: nat, r: State)
    requires Offers(s, i, t) && q == s.Of(t.priority) && Solo.HasRoom(q) && m == 0
    ensures Inv(r) && Attempts(s, i, n) == r && Handed(s, r, i, t)
  {
    n, r := m + 6, s.With(t.priority, Appends(s, i, t, q)).(spawners := s.spawners[i := Ready]);
    PushStarts(s, i, t, m + 3, q);
    OfferClaims(s, i, t, q, Q.SetThread(q, i, Q.PushCas(q.enq, t)), m);
    NoAttempts(r, i, m);
    HandedOver(s, r, i, t, q);
  }

  ghost function Appends(s: State, i: nat, t: Task, q: Queue): Queue
    requires Offers(s, i, t) && q == s.Of(t.priority)
  {
    assert QueueOk(s, t.priority);
    Solo.Appended(q, i, t)
  }

  lemma NoAttempts(s: State, i: nat, m: nat)
    requires Inv(s) && m == 0
    ensures Attempts(s, i, m) == s
  {
  }

  lemma HandedOver(s: State, r: State, i: nat, t: Task, q: Queue)
    requires Offers(s, i, t) && q == s.Of(t.priority) && i < |q.threads| && q.Shaped() && Inv(r)
    requires r == s.With(t.priority, Solo.Appended(q, i, t)).(spawners := s.spawners[i := Ready])
    ensures Handed(s, r, i, t)
  {
    assert QueueOk(s, t.priority) && QueueOk(r, t.priority);
    forall o: Priority ensures r.Of(o) == if o == t.priority then Solo.Appended(q, i, t) else s.Of(o) {
    }
    assert (q.pushed + [t])[q.deq..] == q.pushed[q.deq..] + [t];
  }

  /** A spawn that nobody disturbs draws the next number, counts its task, and is about to push it
      with the priority it was given. */
  lemma SpawnBegins(s: State, i: nat, p: Priority)
    requires Inv(s) && i < |s.spawners| && s.spawners[i].Ready?
    ensures Inv(Next(s, Spawn(i, p)))
    ensures var r := Next(Next(s, Spawn(i, p)), Count(i));
      && Offers(r, i, S.Task(s.nextId, p)) && r.nextId == s.nextId + 1 && r.active == s.active + 1
      && r.workers == s.workers && r.runs == s.runs && SameQueues(s, r)
      && r.spawners == s.spawners[i := Pushing(S.Task(s.nextId, p))]
  {
    StepKeeps(s, Spawn(i, p));
    StepKeeps(Next(s, Spawn(i, p)), Count(i));
    assert QueueOk(s, p) && SpawnerOk(s, p, i);
  }

  /** After `stop` a worker at the top of its loop leaves when nothing is unfinished. */
  lemma StopLetsLeave(s: State, w: nat) returns (n: nat)
    requires Inv(s) && w < |s.workers| && s.workers[w] == CheckRunning && s.active <= 0
    ensures Inv(Next(s, Stop)) && Turn(Next(s, Stop), w, n).workers == s.workers[w := Exited]
  {
    StepKeeps(s, Stop);
    n := UndisturbedRound(Next(s, Stop), w);
  }
}
