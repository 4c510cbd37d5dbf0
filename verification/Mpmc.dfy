/**
 The bounded multi-producer multi-consumer queue with per-cell sequence numbers:
 every interleaving of the atomic loads, compare-exchanges and stores of any
 number of threads.
 */
module Mpmc {
  import opened Modular

  /** Where a thread is inside `push` or `pop`. */
  datatype Local<T> =
    | Idle
    | PushLoad(v: T)                 // about to load enqueue_pos_
    | PushSeq(pos: nat, v: T)        // about to load the cell's sequence
    | PushCas(pos: nat, v: T)        // sequence matched, about to claim the ticket
    | PushWrite(pos: nat, v: T)      // ticket claimed, about to write the data
    | PushPublish(pos: nat)          // data written, about to store the sequence
    | Refused(v: T)                  // returned false; the argument is still the caller's
    | PopLoad
    | PopSeq(pos: nat)
    | PopCas(pos: nat)
    | PopRead(pos: nat)
    | PopRelease(pos: nat, v: T)

  /** Shared memory, the threads, and the history: the value of each claimed push
      ticket, the value delivered for each finished pop, and who holds a ticket. */
  datatype State<T> = State(
    cap: nat,
    enq: nat,
    deq: nat,
    sequence: seq<nat>,
    data: seq<T>,
    threads: seq<Local<T>>,
    pushed: seq<T>,
    popped: map<nat, T>,
    pushers: map<nat, nat>,
    poppers: map<nat, nat>)
  {
    function Cell(pos: nat): (c: nat)
      requires cap >= 1
      ensures c < cap
    {
      pos % cap
    }

    predicate Shaped() {
      cap >= 1 && |sequence| == cap && |data| == cap && |pushed| == enq
    }
  }

  /** Not inside `push` or `pop`. */
  predicate Outside<T>(l: Local<T>) {
    l.Idle? || l.Refused?
  }

  datatype Action<T> = StartPush(v: T) | StartPop | Advance | SpuriousFailure

  function Init<T>(cap: nat, data: seq<T>, n: nat): State<T>
    requires cap >= 1 && |data| == cap
  {
    State(cap, 0, 0, seq(cap, i => i), data, seq(n, _ => Idle), [], map[], map[], map[])
  }

  function SetThread<T>(s: State<T>, i: nat, l: Local<T>): State<T>
    requires i < |s.threads|
  {
    s.(threads := s.threads[i := l])
  }

  /** `compare_exchange_weak` on the enqueue position; a failure reloads it. */
  function CasEnqueue<T>(s: State<T>, i: nat, pos: nat, v: T): State<T>
    requires i < |s.threads|
  {
    if s.enq == pos then
      SetThread(s, i, PushWrite(pos, v)).(enq := pos + 1, pushed := s.pushed + [v], pushers := s.pushers[pos := i])
    else SetThread(s, i, PushSeq(s.enq, v))
  }

  function CasDequeue<T>(s: State<T>, i: nat, pos: nat): State<T>
    requires i < |s.threads|
  {
    if s.deq == pos then SetThread(s, i, PopRead(pos)).(deq := pos + 1, poppers := s.poppers[pos := i])
    else SetThread(s, i, PopSeq(s.deq))
  }

  /** The next atomic step of thread `i`. Returning ends in `Idle`, except that a refused push
      hands its argument back. */
  function Advanced<T>(s: State<T>, i: nat): State<T>
    requires s.Shaped() && i < |s.threads|
  {
    match s.threads[i]
    case Idle => s
    case Refused(_) => s
    case PushLoad(v) => SetThread(s, i, PushSeq(s.enq, v))
    case PushSeq(pos, v) =>
      var sq := s.sequence[s.Cell(pos)];
      SetThread(s, i, if sq == pos then PushCas(pos, v) else if sq < pos then Refused(v) else PushLoad(v))
    case PushCas(pos, v) => CasEnqueue(s, i, pos, v)
    case PushWrite(pos, v) => SetThread(s, i, PushPublish(pos)).(data := s.data[s.Cell(pos) := v])
    case PushPublish(pos) =>
      SetThread(s, i, Idle).(sequence := s.sequence[s.Cell(pos) := pos + 1], pushers := s.pushers - {pos})
    case PopLoad => SetThread(s, i, PopSeq(s.deq))
    case PopSeq(pos) =>
      var sq := s.sequence[s.Cell(pos)];
      SetThread(s, i, if sq == pos + 1 then PopCas(pos) else if sq < pos + 1 then Idle else PopLoad)
    case PopCas(pos) => CasDequeue(s, i, pos)
    case PopRead(pos) => SetThread(s, i, PopRelease(pos, s.data[s.Cell(pos)]))
    case PopRelease(pos, v) =>
      SetThread(s, i, Idle).(sequence := s.sequence[s.Cell(pos) := pos + s.cap],
                             popped := s.popped[pos := v], poppers := s.poppers - {pos})
  }

  function Apply<T>(s: State<T>, i: nat, a: Action<T>): State<T>
    requires s.Shaped()
  {
    if i >= |s.threads| then s
    else
      match a
      case StartPush(v) => if Outside(s.threads[i]) then SetThread(s, i, PushLoad(v)) else s
      case StartPop => if Outside(s.threads[i]) then SetThread(s, i, PopLoad) else s
      case Advance => Advanced(s, i)
      case SpuriousFailure =>
        match s.threads[i]
        case PushCas(_, v) => SetThread(s, i, PushSeq(s.enq, v))
        case PopCas(_) => SetThread(s, i, PopSeq(s.deq))
        case _ => s
  }

  // -------------------------------------------------------------- invariant

  /** A free cell waits for the ticket equal to its sequence number. */
  ghost predicate FreeCell<T>(s: State<T>, c: nat)
    requires s.Shaped() && c < s.cap
  {
    var t := s.sequence[c];
    && t % s.cap == c && s.deq <= t < s.deq + s.cap && s.enq <= t + s.cap
    && (t < s.enq ==> t in s.pushers)
  }

  /** A full cell holds the value of the ticket below its sequence number. */
  ghost predicate FullCell<T>(s: State<T>, c: nat)
    requires s.Shaped() && c < s.cap
  {
    s.sequence[c] >= 1 && var t := s.sequence[c] - 1;
    && t % s.cap == c && t < s.enq <= t + s.cap && s.data[c] == s.pushed[t]
    && t !in s.popped
    && (t < s.deq ==> t in s.poppers)
  }

  ghost predicate CellOk<T>(s: State<T>, c: nat)
    requires s.Shaped() && c < s.cap
  {
    FreeCell(s, c) || FullCell(s, c)
  }

  ghost predicate HoldsPush<T>(l: Local<T>, t: nat) {
    (l.PushWrite? || l.PushPublish?) && l.pos == t
  }

  ghost predicate HoldsPop<T>(l: Local<T>, t: nat) {
    (l.PopRead? || l.PopRelease?) && l.pos == t
  }

  ghost predicate ThreadOk<T>(s: State<T>, i: nat)
    requires s.Shaped() && i < |s.threads|
  {
    match s.threads[i]
    case PushSeq(pos, _) => pos <= s.enq
    case PushCas(pos, _) => pos <= s.enq && pos <= s.sequence[s.Cell(pos)]
    case PushWrite(pos, v) =>
      pos < s.enq && s.sequence[s.Cell(pos)] == pos && s.pushed[pos] == v && pos in s.pushers && s.pushers[pos] == i
    case PushPublish(pos) =>
      pos < s.enq && s.sequence[s.Cell(pos)] == pos && s.data[s.Cell(pos)] == s.pushed[pos]
      && pos in s.pushers && s.pushers[pos] == i
    case PopSeq(pos) => pos <= s.deq
    case PopCas(pos) => pos <= s.deq && pos + 1 <= s.sequence[s.Cell(pos)]
    case PopRead(pos) =>
      pos < s.deq && s.sequence[s.Cell(pos)] == pos + 1 && pos in s.poppers && s.poppers[pos] == i
    case PopRelease(pos, v) =>
      pos < s.deq && s.sequence[s.Cell(pos)] == pos + 1 && v == s.data[s.Cell(pos)]
      && pos in s.poppers && s.poppers[pos] == i
    case _ => true
  }

  ghost predicate HoldersOk<T>(s: State<T>) {
    && (forall t :: t in s.pushers ==> s.pushers[t] < |s.threads| && HoldsPush(s.threads[s.pushers[t]], t))
    && (forall t :: t in s.poppers ==> s.poppers[t] < |s.threads| && HoldsPop(s.threads[s.poppers[t]], t))
  }

  /** Delivered values are the pushed ones; every claimed pop is delivered or still held. */
  ghost predicate HistoryOk<T>(s: State<T>)
    requires s.Shaped()
  {
    && (forall t :: t in s.popped ==> t < s.deq && t < s.enq && s.popped[t] == s.pushed[t])
    && (forall t :: 0 <= t < s.deq ==> (t in s.popped) != (t in s.poppers))
  }

  ghost predicate Inv<T>(s: State<T>) {
    && s.cap >= 2 && s.Shaped()
    && s.deq <= s.enq <= s.deq + s.cap
    && (forall c :: 0 <= c < s.cap ==> CellOk(s, c))
    && (forall i :: 0 <= i < |s.threads| ==> ThreadOk(s, i))
    && HoldersOk(s) && HistoryOk(s)
  }

  lemma InitInv<T>(cap: nat, data: seq<T>, n: nat)
    requires cap >= 2 && |data| == cap
    ensures Inv(Init(cap, data, n))
  {
    var s := Init(cap, data, n);
    forall c | 0 <= c < cap ensures CellOk(s, c) {
      SmallMod(c, cap);
    }
  }

  /** A claimed-for-writing cell is free, so its sequence number is that ticket. */
  lemma EnqueueCell<T>(s: State<T>)
    requires Inv(s) && s.sequence[s.Cell(s.enq)] >= s.enq
    ensures s.sequence[s.Cell(s.enq)] == s.enq && FreeCell(s, s.Cell(s.enq))
  {
    var c := s.Cell(s.enq);
    var sq := s.sequence[c];
    assert CellOk(s, c);
    if FullCell(s, c) {
      NeighboursDiffer(sq - 1, s.cap);
      assert false;
    }
    if sq > s.enq {
      SameCell(s.enq, sq, s.cap);
    }
  }

  lemma DequeueCell<T>(s: State<T>)
    requires Inv(s) && s.sequence[s.Cell(s.deq)] >= s.deq + 1
    ensures s.sequence[s.Cell(s.deq)] == s.deq + 1 && FullCell(s, s.Cell(s.deq))
  {
    var c := s.Cell(s.deq);
    var sq := s.sequence[c];
    assert CellOk(s, c);
    if FreeCell(s, c) {
      SameCell(s.deq, sq, s.cap);
      assert false;
    }
    if sq - 1 > s.deq {
      SameCell(s.deq, sq - 1, s.cap);
    }
  }

  lemma ClaimEnqueueCell<T>(s: State<T>, i: nat, v: T, c: nat)
    requires Inv(s) && i < |s.threads| && s.threads[i] == PushCas(s.enq, v) && c < s.cap
    ensures CellOk(CasEnqueue(s, i, s.enq, v), c)
  {
    assert ThreadOk(s, i) && CellOk(s, c);
    EnqueueCell(s);
    if c != s.Cell(s.enq) {
      NextRound(s.sequence[c], s.cap);
      if s.sequence[c] >= 1 {
        NextRound(s.sequence[c] - 1, s.cap);
      }
    }
  }

  lemma ClaimEnqueueKeeps<T>(s: State<T>, i: nat, v: T)
    requires Inv(s) && i < |s.threads| && s.threads[i] == PushCas(s.enq, v)
    ensures Inv(CasEnqueue(s, i, s.enq, v))
  {
    var r := CasEnqueue(s, i, s.enq, v);
    assert ThreadOk(s, i);
    EnqueueCell(s);
    forall c | 0 <= c < s.cap ensures CellOk(r, c) {
      ClaimEnqueueCell(s, i, v, c);
    }
    forall j | 0 <= j < |r.threads| ensures ThreadOk(r, j) {
      assert ThreadOk(s, j);
    }
  }

  lemma ClaimDequeueKeeps<T>(s: State<T>, i: nat)
    requires Inv(s) && i < |s.threads| && s.threads[i] == PopCas(s.deq)
    ensures Inv(CasDequeue(s, i, s.deq))
  {
    var r := CasDequeue(s, i, s.deq);
    assert ThreadOk(s, i);
    DequeueCell(s);
    forall c | 0 <= c < s.cap ensures CellOk(r, c) {
      assert CellOk(s, c);
    }
    forall j | 0 <= j < |r.threads| ensures ThreadOk(r, j) {
      assert ThreadOk(s, j);
    }
  }

  lemma WriteCell<T>(s: State<T>, i: nat, c: nat)
    requires Inv(s) && i < |s.threads| && s.threads[i].PushWrite? && c < s.cap
    ensures CellOk(Advanced(s, i), c)
  {
    var pos := s.threads[i].pos;
    assert ThreadOk(s, i) && CellOk(s, c);
    if c == s.Cell(pos) && pos >= 1 {
      NeighboursDiffer(pos - 1, s.cap);
    }
  }

  lemma WriteThread<T>(s: State<T>, i: nat, j: nat)
    requires Inv(s) && i < |s.threads| && s.threads[i].PushWrite? && j < |s.threads|
    ensures ThreadOk(Advanced(s, i), j)
  {
    assert ThreadOk(s, i) && ThreadOk(s, j);
    NeighboursDiffer(s.threads[i].pos, s.cap);
    if s.threads[j].PopRelease? {
      NeighboursDiffer(s.threads[j].pos, s.cap);
    }
  }

  /** Writing the data of a held cell disturbs nobody. */
  lemma WriteKeeps<T>(s: State<T>, i: nat)
    requires Inv(s) && i < |s.threads| && s.threads[i].PushWrite?
    ensures Inv(Advanced(s, i))
  {
    var r := Advanced(s, i);
    forall c | 0 <= c < s.cap ensures CellOk(r, c) {
      WriteCell(s, i, c);
    }
    forall j | 0 <= j < |r.threads| ensures ThreadOk(r, j) {
      WriteThread(s, i, j);
    }
  }

  /** The cell of a written ticket is still free until its sequence is published. */
  lemma HeldCellIsFree<T>(s: State<T>, i: nat)
    requires Inv(s) && i < |s.threads| && s.threads[i].PushPublish?
    ensures FreeCell(s, s.Cell(s.threads[i].pos))
  {
    var pos := s.threads[i].pos;
    assert ThreadOk(s, i) && CellOk(s, s.Cell(pos));
    if pos >= 1 {
      NeighboursDiffer(pos - 1, s.cap);
    }
  }

  lemma PublishCell<T>(s: State<T>, i: nat, c: nat)
    requires Inv(s) && i < |s.threads| && s.threads[i].PushPublish? && c < s.cap
    ensures CellOk(Advanced(s, i), c)
  {
    var r, pos := Advanced(s, i), s.threads[i].pos;
    assert ThreadOk(s, i) && CellOk(s, c);
    HeldCellIsFree(s, i);
    if c == s.Cell(pos) {
      assert r.sequence[c] == pos + 1 && pos !in s.popped;
      assert FullCell(r, c);
    } else {
      assert r.sequence[c] == s.sequence[c];
      if FreeCell(s, c) {
        assert s.sequence[c] != pos;
        assert FreeCell(r, c);
      } else {
        assert FullCell(r, c);
      }
    }
  }

  lemma PublishThread<T>(s: State<T>, i: nat, j: nat)
    requires Inv(s) && i < |s.threads| && s.threads[i].PushPublish? && j < |s.threads|
    ensures ThreadOk(Advanced(s, i), j)
  {
    assert ThreadOk(s, i) && ThreadOk(s, j);
    if s.threads[j].PopRead? || s.threads[j].PopRelease? {
      NeighboursDiffer(s.threads[j].pos, s.cap);
    }
  }

  lemma PublishKeeps<T>(s: State<T>, i: nat)
    requires Inv(s) && i < |s.threads| && s.threads[i].PushPublish?
    ensures Inv(Advanced(s, i))
  {
    var r := Advanced(s, i);
    assert ThreadOk(s, i);
    forall c | 0 <= c < s.cap ensures CellOk(r, c) {
      PublishCell(s, i, c);
    }
    forall j | 0 <= j < |r.threads| ensures ThreadOk(r, j) {
      PublishThread(s, i, j);
    }
  }

  /** The cell of a read ticket is still full until its sequence is released. */
  lemma HeldCellIsFull<T>(s: State<T>, i: nat)
    requires Inv(s) && i < |s.threads| && s.threads[i].PopRelease?
    ensures FullCell(s, s.Cell(s.threads[i].pos))
  {
    assert ThreadOk(s, i) && CellOk(s, s.Cell(s.threads[i].pos));
    NeighboursDiffer(s.threads[i].pos, s.cap);
  }

  lemma ReleaseCell<T>(s: State<T>, i: nat, c: nat)
    requires Inv(s) && i < |s.threads| && s.threads[i].PopRelease? && c < s.cap
    ensures CellOk(Advanced(s, i), c)
  {
    var pos := s.threads[i].pos;
    assert ThreadOk(s, i) && CellOk(s, c);
    HeldCellIsFull(s, i);
    NextRound(pos, s.cap);
    if c != s.Cell(pos) && FullCell(s, c) {
      assert s.sequence[c] - 1 != pos;
    }
  }

  /** No other thread holds the cell of a read ticket. */
  lemma ReaderIsAlone<T>(s: State<T>, i: nat, j: nat)
    requires Inv(s) && i < |s.threads| && s.threads[i].PopRelease? && j < |s.threads| && j != i
    ensures Holds(s.threads[j]) ==> s.Cell(s.threads[j].pos) != s.Cell(s.threads[i].pos)
  {
    assert ThreadOk(s, i) && ThreadOk(s, j);
    if Holds(s.threads[j]) {
      NeighboursDiffer(s.threads[i].pos, s.cap);
    }
  }

  /** What a thread needs is still there when only the sequence of another cell grows. */
  lemma GrownSequence<T>(s: State<T>, r: State<T>, j: nat, c: nat)
    requires s.Shaped() && r.Shaped() && j < |s.threads| == |r.threads| && ThreadOk(s, j) && r.threads[j] == s.threads[j]
    requires c < s.cap && r == s.(sequence := r.sequence, threads := r.threads, popped := r.popped, poppers := r.poppers)
    requires forall k :: 0 <= k < s.cap ==> r.sequence[k] >= s.sequence[k] && (k != c ==> r.sequence[k] == s.sequence[k])
    requires Holds(s.threads[j]) ==> s.Cell(s.threads[j].pos) != c
    requires forall t :: t in s.poppers && s.poppers[t] == j ==> t in r.poppers && r.poppers[t] == j
    ensures ThreadOk(r, j)
  {
    if s.threads[j].PushCas? || s.threads[j].PopCas? {
      assert r.sequence[s.Cell(s.threads[j].pos)] >= s.sequence[s.Cell(s.threads[j].pos)];
    }
  }

  lemma ReleaseThread<T>(s: State<T>, i: nat, j: nat)
    requires Inv(s) && i < |s.threads| && s.threads[i].PopRelease? && j < |s.threads|
    ensures ThreadOk(Advanced(s, i), j)
  {
    assert ThreadOk(s, i) && ThreadOk(s, j);
    if j != i {
      ReaderIsAlone(s, i, j);
      GrownSequence(s, Advanced(s, i), j, s.Cell(s.threads[i].pos));
    }
  }

  lemma ReleaseHistory<T>(s: State<T>, i: nat)
    requires Inv(s) && i < |s.threads| && s.threads[i].PopRelease?
    ensures HoldersOk(Advanced(s, i)) && HistoryOk(Advanced(s, i))
  {
    assert ThreadOk(s, i);
    HeldCellIsFull(s, i);
  }

  lemma ReleaseKeeps<T>(s: State<T>, i: nat)
    requires Inv(s) && i < |s.threads| && s.threads[i].PopRelease?
    ensures Inv(Advanced(s, i))
  {
    var r := Advanced(s, i);
    ReleaseHistory(s, i);
    forall c | 0 <= c < s.cap ensures CellOk(r, c) {
      ReleaseCell(s, i, c);
    }
    forall j | 0 <= j < |r.threads| ensures ThreadOk(r, j) {
      ReleaseThread(s, i, j);
    }
  }

  lemma LocalKeeps<T>(s: State<T>, i: nat, l: Local<T>)
    requires Inv(s) && i < |s.threads| && ThreadOk(SetThread(s, i, l), i)
    requires Outside(s.threads[i]) || s.threads[i].PushLoad? || s.threads[i].PushSeq? || s.threads[i].PushCas?
      || s.threads[i].PopLoad? || s.threads[i].PopSeq? || s.threads[i].PopCas?
    ensures Inv(SetThread(s, i, l))
  {
    var r := SetThread(s, i, l);
    forall c | 0 <= c < s.cap ensures CellOk(r, c) {
      assert CellOk(s, c);
    }
    forall j | 0 <= j < |r.threads| ensures ThreadOk(r, j) {
      assert ThreadOk(s, j);
    }
  }

  lemma ReadKeeps<T>(s: State<T>, i: nat)
    requires Inv(s) && i < |s.threads| && s.threads[i].PopRead?
    ensures Inv(Advanced(s, i))
  {
    var r := Advanced(s, i);
    assert ThreadOk(s, i);
    forall c | 0 <= c < s.cap ensures CellOk(r, c) {
      assert CellOk(s, c);
    }
    forall j | 0 <= j < |r.threads| ensures ThreadOk(r, j) {
      assert ThreadOk(s, j);
    }
  }

  lemma AdvanceKeeps<T>(s: State<T>, i: nat)
    requires Inv(s) && i < |s.threads|
    ensures Inv(Advanced(s, i))
  {
    assert ThreadOk(s, i);
    match s.threads[i]
    case Idle =>
    case Refused(_) =>
    case PushWrite(_, _) => WriteKeeps(s, i);
    case PushPublish(_) => PublishKeeps(s, i);
    case PopRead(_) => ReadKeeps(s, i);
    case PopRelease(_, _) => ReleaseKeeps(s, i);
    case PushCas(pos, v) =>
      if pos == s.enq {
        ClaimEnqueueKeeps(s, i, v);
      } else {
        LocalKeeps(s, i, PushSeq(s.enq, v));
      }
    case PopCas(pos) =>
      if pos == s.deq {
        ClaimDequeueKeeps(s, i);
      } else {
        LocalKeeps(s, i, PopSeq(s.deq));
      }
    case _ => LoadKeeps(s, i);
  }

  lemma LoadKeeps<T>(s: State<T>, i: nat)
    requires Inv(s) && i < |s.threads|
    requires s.threads[i].PushLoad? || s.threads[i].PushSeq? || s.threads[i].PopLoad? || s.threads[i].PopSeq?
    ensures Inv(Advanced(s, i))
  {
    assert ThreadOk(s, i);
    LocalKeeps(s, i, Advanced(s, i).threads[i]);
  }

  /** Every atomic step of every thread keeps the invariant. */
  lemma StepKeeps<T>(s: State<T>, i: nat, a: Action<T>)
    requires Inv(s)
    ensures Inv(Apply(s, i, a))
  {
    if i < |s.threads| {
      match a
      case StartPush(v) => if Outside(s.threads[i]) { LocalKeeps(s, i, PushLoad(v)); }
      case StartPop => if Outside(s.threads[i]) { LocalKeeps(s, i, PopLoad); }
      case Advance => AdvanceKeeps(s, i);
      case SpuriousFailure =>
        match s.threads[i]
        case PushCas(_, v) => LocalKeeps(s, i, PushSeq(s.enq, v));
        case PopCas(_) => LocalKeeps(s, i, PopSeq(s.deq));
        case _ =>
    }
  }

  // ---------------------------------------------------------------- all runs

  datatype Move<T> = Move(thread: nat, action: Action<T>)

  lemma ApplyShaped<T>(s: State<T>, i: nat, a: Action<T>)
    requires s.Shaped()
    ensures Apply(s, i, a).Shaped()
  {
    if i < |s.threads| && a == Advance {
      AdvancedShaped(s, i);
    }
  }

  lemma AdvancedShaped<T>(s: State<T>, i: nat)
    requires s.Shaped() && i < |s.threads|
    ensures Advanced(s, i).Shaped()
  {
    match s.threads[i]
    case PushCas(pos, v) =>
    case _ =>
  }

  function RunFrom<T>(s: State<T>, moves: seq<Move<T>>): State<T>
    requires s.Shaped()
    decreases |moves|
  {
    if moves == [] then s
    else
      ApplyShaped(s, moves[0].thread, moves[0].action);
      RunFrom(Apply(s, moves[0].thread, moves[0].action), moves[1..])
  }

  lemma {:induction false} RunKeeps<T>(s: State<T>, moves: seq<Move<T>>)
    requires Inv(s)
    ensures Inv(RunFrom(s, moves))
    decreases |moves|
  {
    if moves != [] {
      StepKeeps(s, moves[0].thread, moves[0].action);
      RunKeeps(Apply(s, moves[0].thread, moves[0].action), moves[1..]);
    }
  }

  // ------------------------------------------------------------------ safety

  predicate Holds<T>(l: Local<T>) {
    l.PushWrite? || l.PushPublish? || l.PopRead? || l.PopRelease?
  }

  ghost predicate Faithful<T>(s: State<T>) {
    forall t :: t in s.popped ==> t < |s.pushed| && s.popped[t] == s.pushed[t]
  }

  ghost predicate ExclusiveCells<T>(s: State<T>)
    requires s.cap >= 1
  {
    forall i, j :: 0 <= i < j < |s.threads| && Holds(s.threads[i]) && Holds(s.threads[j]) ==>
      s.Cell(s.threads[i].pos) != s.Cell(s.threads[j].pos)
  }

  lemma HeldCellsDiffer<T>(s: State<T>, i: nat, j: nat)
    requires Inv(s) && i < j < |s.threads| && Holds(s.threads[i]) && Holds(s.threads[j])
    ensures s.Cell(s.threads[i].pos) != s.Cell(s.threads[j].pos)
  {
    assert ThreadOk(s, i) && ThreadOk(s, j);
    NeighboursDiffer(s.threads[i].pos, s.cap);
    NeighboursDiffer(s.threads[j].pos, s.cap);
  }

  /** In every run of any number of threads: the queue holds between zero and
      `cap` claimed tickets, each delivered value is the one pushed under its
      ticket, and no two threads ever hold the data of one cell. */
  lemma QueueIsSafe<T>(cap: nat, data: seq<T>, n: nat, moves: seq<Move<T>>)
    requires cap >= 2 && |data| == cap
    ensures var s := RunFrom(Init(cap, data, n), moves);
      && Inv(s) && s.deq <= s.enq <= s.deq + s.cap && Faithful(s) && ExclusiveCells(s)
  {
    InitInv(cap, data, n);
    RunKeeps(Init(cap, data, n), moves);
    var s := RunFrom(Init(cap, data, n), moves);
    forall i, j | 0 <= i < j < |s.threads| && Holds(s.threads[i]) && Holds(s.threads[j])
      ensures s.Cell(s.threads[i].pos) != s.Cell(s.threads[j].pos)
    {
      HeldCellsDiffer(s, i, j);
    }
  }

  /** A pop that returns delivers the pushed value of a ticket that was not delivered before. */
  lemma DeliveredOnce<T>(s: State<T>, i: nat)
    requires Inv(s) && i < |s.threads| && s.threads[i].PopRelease?
    ensures var pos, v := s.threads[i].pos, s.threads[i].v;
      && pos < |s.pushed| && pos !in s.popped && v == s.pushed[pos]
      && Advanced(s, i).popped == s.popped[pos := v] && Advanced(s, i).pushed == s.pushed
  {
    assert ThreadOk(s, i);
    var c := s.Cell(s.threads[i].pos);
    assert CellOk(s, c);
    NeighboursDiffer(s.threads[i].pos, s.cap);
  }

  /** History only grows: pushed values and delivered values are never rewritten. */
  lemma HistoryGrows<T>(s: State<T>, i: nat, a: Action<T>)
    requires Inv(s)
    ensures s.pushed <= Apply(s, i, a).pushed
    ensures forall t :: t in s.popped ==> t in Apply(s, i, a).popped && Apply(s, i, a).popped[t] == s.popped[t]
  {
    if i < |s.threads| && s.threads[i].PopRelease? {
      DeliveredOnce(s, i);
    }
  }

  /** At the load of the sequence number, `push` reports a full queue exactly when
      its position is current and the ticket one round earlier is not delivered yet. */
  lemma FullReportedIff<T>(s: State<T>, i: nat)
    requires Inv(s) && i < |s.threads| && s.threads[i].PushSeq?
    ensures Advanced(s, i).threads[i].Refused?
      <==> s.threads[i].pos == s.enq && s.enq >= s.cap && s.enq - s.cap !in s.popped
  {
    assert ThreadOk(s, i);
    var pos := s.threads[i].pos;
    var c := s.Cell(pos);
    var sq := s.sequence[c];
    assert CellOk(s, c);
    if sq < pos {
      if FreeCell(s, c) {
        SameCell(sq, pos, s.cap);
        assert s.pushers[sq] < |s.threads|;
        assert sq == s.enq - s.cap;
      } else {
        SameCell(sq - 1, pos, s.cap);
      }
    } else if pos == s.enq {
      EnqueueCell(s);
      if s.enq >= s.cap && s.enq - s.cap !in s.popped {
        OldTicketHeld(s);
      }
    }
  }

  /** While a cell is free for the next ticket, the ticket one round earlier was delivered. */
  lemma OldTicketHeld<T>(s: State<T>)
    requires Inv(s) && s.enq >= s.cap && s.enq - s.cap !in s.popped
    ensures s.sequence[s.Cell(s.enq)] < s.enq
  {
    var t := s.enq - s.cap;
    PreviousRound(s.enq, s.cap);
    var c := s.Cell(s.enq);
    assert CellOk(s, c);
    if t < s.deq {
      assert t in s.poppers;
      assert ThreadOk(s, s.poppers[t]);
    } else {
      assert t == s.deq;
      if FreeCell(s, c) && s.sequence[c] > t {
        SameCell(t, s.sequence[c], s.cap);
      }
      if FullCell(s, c) && s.sequence[c] - 1 > t {
        SameCell(t, s.sequence[c] - 1, s.cap);
      }
    }
  }

  lemma HeldTicketsUnpublished<T>(s: State<T>)
    requires Inv(s)
    ensures forall t :: t in s.pushers ==> s.sequence[s.Cell(t)] == t
  {
    forall t | t in s.pushers ensures s.sequence[s.Cell(t)] == t {
      assert ThreadOk(s, s.pushers[t]);
    }
  }

  /** At the load of the sequence number, `pop` reports an empty queue exactly when
      its position is current and that ticket is not published yet. */
  lemma EmptyReportedIff<T>(s: State<T>, i: nat)
    requires Inv(s) && i < |s.threads| && s.threads[i].PopSeq?
    ensures Advanced(s, i).threads[i].Idle?
      <==> s.threads[i].pos == s.deq && (s.deq == s.enq || s.deq in s.pushers)
  {
    assert ThreadOk(s, i);
    var pos := s.threads[i].pos;
    var c := s.Cell(pos);
    var sq := s.sequence[c];
    assert CellOk(s, c);
    if sq < pos + 1 {
      if FreeCell(s, c) {
        if sq < pos {
          SameCell(sq, pos, s.cap);
        }
      } else if sq - 1 < pos {
        SameCell(sq - 1, pos, s.cap);
      }
    } else if pos == s.deq {
      DequeueCell(s);
      HeldTicketsUnpublished(s);
    }
  }

  // ------------------------------------------------- a first-in first-out queue

  /** The claimed values that nobody has claimed to take, oldest first. */
  function Contents<T>(s: State<T>): (c: seq<T>)
    requires s.Shaped() && s.deq <= s.enq
    ensures |c| == s.enq - s.deq
  {
    s.pushed[s.deq..s.enq]
  }

  /** The step is the successful claim of a push. */
  predicate ClaimsPush<T>(s: State<T>, i: nat, a: Action<T>) {
    i < |s.threads| && a.Advance? && s.threads[i].PushCas? && s.threads[i].pos == s.enq
  }

  /** The step is the successful claim of a pop. */
  predicate ClaimsPop<T>(s: State<T>, i: nat, a: Action<T>) {
    i < |s.threads| && a.Advance? && s.threads[i].PopCas? && s.threads[i].pos == s.deq
  }

  lemma AdvancedKeepsPositions<T>(s: State<T>, i: nat)
    requires s.Shaped() && i < |s.threads| && !s.threads[i].PushCas? && !s.threads[i].PopCas?
    ensures var r := Advanced(s, i); r.enq == s.enq && r.deq == s.deq && r.pushed == s.pushed && r.cap == s.cap
  {
    match s.threads[i] {
      case Idle =>
      case Refused(_) =>
      case PushLoad(_) =>
      case PushSeq(_, _) =>
      case PushWrite(_, _) =>
      case PushPublish(_) =>
      case PopLoad =>
      case PopSeq(_) =>
      case PopRead(_) =>
      case PopRelease(_, _) =>
      case _ =>
    }
  }

  lemma OthersKeepPositions<T>(s: State<T>, i: nat, a: Action<T>)
    requires s.Shaped() && !ClaimsPush(s, i, a) && !ClaimsPop(s, i, a)
    ensures var r := Apply(s, i, a); r.enq == s.enq && r.deq == s.deq && r.pushed == s.pushed && r.cap == s.cap
  {
    if i < |s.threads| && a.Advance? && !s.threads[i].PushCas? && !s.threads[i].PopCas? {
      AdvancedKeepsPositions(s, i);
    }
  }

  /** A step changes the local state of its own thread only. */
  lemma AdvancedThreads<T>(s: State<T>, j: nat, i: nat)
    requires s.Shaped() && j < |s.threads|
    ensures |Advanced(s, j).threads| == |s.threads|
    ensures i < |s.threads| && i != j ==> Advanced(s, j).threads[i] == s.threads[i]
  {
    match s.threads[j] {
      case Idle =>
      case Refused(_) =>
      case PushLoad(_) =>
      case PushSeq(_, _) =>
      case PushWrite(_, _) =>
      case PushPublish(_) =>
      case PopLoad =>
      case PopSeq(_) =>
      case PopRead(_) =>
      case PopRelease(_, _) =>
      case _ =>
    }
  }

  lemma OtherThreads<T>(s: State<T>, j: nat, a: Action<T>, i: nat)
    requires s.Shaped()
    ensures |Apply(s, j, a).threads| == |s.threads|
    ensures i < |s.threads| && i != j ==> Apply(s, j, a).threads[i] == s.threads[i]
  {
    if j < |s.threads| && a.Advance? {
      AdvancedThreads(s, j, i);
    }
  }

  /** Every atomic step is one step of a bounded first-in first-out queue or none: a claimed
      push appends and there is room, a claimed pop removes the oldest, all else leaves it. */
  lemma RefinesFifo<T>(s: State<T>, i: nat, a: Action<T>)
    requires Inv(s)
    ensures var r := Apply(s, i, a); Inv(r) && |Contents(r)| <= r.cap == s.cap
    ensures var c, d := Contents(s), Contents(Apply(s, i, a));
      if ClaimsPush(s, i, a) then |c| < s.cap && d == c + [s.threads[i].v]
      else if ClaimsPop(s, i, a) then c != [] && d == c[1..]
      else d == c
  {
    StepKeeps(s, i, a);
    if ClaimsPush(s, i, a) {
      assert ThreadOk(s, i);
      EnqueueCell(s);
    } else if ClaimsPop(s, i, a) {
      assert ThreadOk(s, i);
      DequeueCell(s);
    } else {
      OthersKeepPositions(s, i, a);
    }
  }

  /** Whoever claimed to take the oldest value reads exactly that value out of the cell. */
  lemma ReadsItsTicket<T>(s: State<T>, i: nat)
    requires Inv(s) && i < |s.threads| && (s.threads[i].PopRead? || s.threads[i].PopRelease?)
    ensures s.threads[i].pos < |s.pushed| && s.data[s.Cell(s.threads[i].pos)] == s.pushed[s.threads[i].pos]
    ensures s.threads[i].PopRelease? ==> s.threads[i].v == s.pushed[s.threads[i].pos]
  {
    assert ThreadOk(s, i) && CellOk(s, s.Cell(s.threads[i].pos));
    NeighboursDiffer(s.threads[i].pos, s.cap);
  }

  /** Inside `push`, before the claim: the value is still the caller's. */
  ghost predicate Offers<T>(l: Local<T>, v: T) {
    (l.PushLoad? || l.PushSeq? || l.PushCas?) && l.v == v
  }

  /** Whatever step any thread takes, a thread inside `push` still offers its value, or it has
      claimed a ticket for that very value, or it was refused: then it has its value back and
      nothing else has changed, neither data nor sequences nor positions nor history. */
  lemma OfferIsKept<T>(s: State<T>, j: nat, a: Action<T>, i: nat, v: T)
    requires Inv(s) && i < |s.threads| && Offers(s.threads[i], v)
    ensures var r := Apply(s, j, a);
      && |r.threads| == |s.threads|
      && (|| Offers(r.threads[i], v)
          || (j == i && r.threads[i] == PushWrite(s.enq, v) && r.pushed == s.pushed + [v])
          || (j == i && r == s.(threads := s.threads[i := Refused(v)])))
  {
    OtherThreads(s, j, a, i);
    if j == i {
      OwnOffer(s, a, i, v);
    }
  }

  lemma OwnOffer<T>(s: State<T>, a: Action<T>, i: nat, v: T)
    requires s.Shaped() && i < |s.threads| && Offers(s.threads[i], v)
    ensures var r := Apply(s, i, a);
      || Offers(r.threads[i], v)
      || (r.threads[i] == PushWrite(s.enq, v) && r.pushed == s.pushed + [v])
      || r == s.(threads := s.threads[i := Refused(v)])
  {
    if a.Advance? {
      match s.threads[i]
      case PushLoad(_) =>
      case PushSeq(_, _) =>
      case PushCas(_, _) =>
    }
  }

  /** The caller of `push` makes no other call meanwhile. */
  predicate OneCall<T>(moves: seq<Move<T>>, i: nat) {
    forall k :: 0 <= k < |moves| && moves[k].thread == i ==> moves[k].action.Advance? || moves[k].action.SpuriousFailure?
  }

  ghost predicate Pushed<T>(s: State<T>, from: nat, v: T) {
    exists t :: from <= t < |s.pushed| && s.pushed[t] == v
  }

  lemma {:induction false} PushedStays<T>(s: State<T>, moves: seq<Move<T>>, from: nat, v: T)
    requires Inv(s) && Pushed(s, from, v)
    ensures Pushed(RunFrom(s, moves), from, v)
    decreases |moves|
  {
    if moves != [] {
      StepKeeps(s, moves[0].thread, moves[0].action);
      HistoryGrows(s, moves[0].thread, moves[0].action);
      PushedStays(Apply(s, moves[0].thread, moves[0].action), moves[1..], from, v);
    }
  }

  lemma RefusedStep<T>(s: State<T>, j: nat, a: Action<T>, i: nat)
    requires s.Shaped() && i < |s.threads| && s.threads[i].Refused? && j == i && (a.Advance? || a.SpuriousFailure?)
    ensures Apply(s, j, a) == s
  {
  }

  lemma {:induction false} RefusedStays<T>(s: State<T>, moves: seq<Move<T>>, i: nat, v: T)
    requires Inv(s) && i < |s.threads| && s.threads[i] == Refused(v) && OneCall(moves, i)
    ensures i < |RunFrom(s, moves).threads| && RunFrom(s, moves).threads[i] == Refused(v)
    decreases |moves|
  {
    if moves != [] {
      StepKeeps(s, moves[0].thread, moves[0].action);
      OtherThreads(s, moves[0].thread, moves[0].action, i);
      if moves[0].thread == i {
        RefusedStep(s, i, moves[0].action, i);
      }
      RefusedStays(Apply(s, moves[0].thread, moves[0].action), moves[1..], i, v);
    }
  }

  /** During one call of `push`, however the threads interleave, the value is with its caller
      or it is in the queue's history: it is never lost, and a refused call returns it. */
  lemma {:induction false} PushLosesNothing<T>(s: State<T>, moves: seq<Move<T>>, i: nat, v: T)
    requires Inv(s) && i < |s.threads| && Offers(s.threads[i], v) && OneCall(moves, i)
    ensures var r := RunFrom(s, moves);
      && i < |r.threads|
      && (Offers(r.threads[i], v) || r.threads[i] == Refused(v) || Pushed(r, |s.pushed|, v))
    decreases |moves|
  {
    if moves != [] {
      var r := Apply(s, moves[0].thread, moves[0].action);
      StepKeeps(s, moves[0].thread, moves[0].action);
      HistoryGrows(s, moves[0].thread, moves[0].action);
      OfferIsKept(s, moves[0].thread, moves[0].action, i, v);
      RunThreads(r, moves[1..]);
      if Offers(r.threads[i], v) {
        PushLosesNothing(r, moves[1..], i, v);
        LaterPushed(RunFrom(r, moves[1..]), |s.pushed|, |r.pushed|, v);
      } else if r.threads[i] == Refused(v) {
        RefusedStays(r, moves[1..], i, v);
      } else {
        assert r.pushed[|s.pushed|] == v;
        PushedStays(r, moves[1..], |s.pushed|, v);
      }
    }
  }

  lemma LaterPushed<T>(s: State<T>, from: nat, later: nat, v: T)
    requires from <= later
    ensures Pushed(s, later, v) ==> Pushed(s, from, v)
  {
  }

  lemma {:induction false} RunThreads<T>(s: State<T>, moves: seq<Move<T>>)
    requires s.Shaped()
    ensures |RunFrom(s, moves).threads| == |s.threads|
    decreases |moves|
  {
    if moves != [] {
      ApplyShaped(s, moves[0].thread, moves[0].action);
      OtherThreads(s, moves[0].thread, moves[0].action, 0);
      RunThreads(Apply(s, moves[0].thread, moves[0].action), moves[1..]);
    }
  }

  // -------------------------------------------------------- one cell is too few

  function Pushing<T>(v: T): seq<Move<T>> {
    [Move(0, StartPush(v)), Move(0, Advance), Move(0, Advance), Move(0, Advance), Move(0, Advance)]
  }

  function Overwriting<T>(v: T, w: T): seq<Move<T>> {
    Pushing(v) + [Move(0, Advance)] + Pushing(w)
  }

  function Popping<T>(): seq<Move<T>> {
    [Move(1, StartPop), Move(1, Advance), Move(1, Advance), Move(1, Advance), Move(1, Advance), Move(1, Advance)]
  }

  lemma {:induction false} RunAppend<T>(s: State<T>, m1: seq<Move<T>>, m2: seq<Move<T>>)
    requires s.Shaped()
    ensures RunFrom(s, m1).Shaped() && RunFrom(s, m1 + m2) == RunFrom(RunFrom(s, m1), m2)
    decreases |m1|
  {
    if m1 == [] {
      assert m1 + m2 == m2;
    } else {
      var t := Apply(s, m1[0].thread, m1[0].action);
      ApplyShaped(s, m1[0].thread, m1[0].action);
      assert (m1 + m2)[0] == m1[0] && (m1 + m2)[1..] == m1[1..] + m2;
      RunAppend(t, m1[1..], m2);
    }
  }

  lemma RunCons<T>(s: State<T>, m: Move<T>, rest: seq<Move<T>>)
    requires s.Shaped()
    ensures Apply(s, m.thread, m.action).Shaped()
    ensures RunFrom(s, [m] + rest) == RunFrom(Apply(s, m.thread, m.action), rest)
  {
    ApplyShaped(s, m.thread, m.action);
    assert ([m] + rest)[1..] == rest;
  }

  /** Four atomic steps take an idle thread of a one-cell queue to the written cell,
      whatever the cell held. */
  lemma SingleCellPush<T>(s: State<T>, v: T)
    requires s.Shaped() && s.cap == 1 && |s.threads| == 2 && s.threads[0] == Idle && s.sequence == [s.enq]
    ensures RunFrom(s, Pushing(v))
      == s.(threads := s.threads[0 := PushPublish(s.enq)], enq := s.enq + 1, pushed := s.pushed + [v],
            pushers := s.pushers[s.enq := 0], data := [v])
  {
    var p := Pushing(v);
    var s1 := s.(threads := s.threads[0 := PushLoad(v)]);
    var s2 := s.(threads := s.threads[0 := PushSeq(s.enq, v)]);
    var s3 := s.(threads := s.threads[0 := PushCas(s.enq, v)]);
    var s4 := s.(threads := s.threads[0 := PushWrite(s.enq, v)], enq := s.enq + 1, pushed := s.pushed + [v],
                 pushers := s.pushers[s.enq := 0]);
    var s5 := s4.(threads := s.threads[0 := PushPublish(s.enq)], data := [v]);
    assert s.data[0 := v] == [v];
    assert Apply(s, 0, StartPush(v)) == s1;
    assert Apply(s1, 0, Advance) == s2;
    assert Apply(s2, 0, Advance) == s3;
    assert Apply(s3, 0, Advance) == s4;
    assert Apply(s4, 0, Advance) == s5;
    RunFive(s, p, s1, s2, s3, s4, s5);
    assert p[5..] == [];
  }

  lemma RunFive<T>(s: State<T>, p: seq<Move<T>>, s1: State<T>, s2: State<T>, s3: State<T>, s4: State<T>, s5: State<T>)
    requires |p| >= 5 && s.Shaped() && s1.Shaped() && s2.Shaped() && s3.Shaped() && s4.Shaped() && s5.Shaped()
    requires Apply(s, p[0].thread, p[0].action) == s1 && Apply(s1, p[1].thread, p[1].action) == s2
    requires Apply(s2, p[2].thread, p[2].action) == s3 && Apply(s3, p[3].thread, p[3].action) == s4
    requires Apply(s4, p[4].thread, p[4].action) == s5
    ensures RunFrom(s, p) == RunFrom(s5, p[5..])
  {
    assert p == [p[0]] + p[1..] && p[1..] == [p[1]] + p[2..] && p[2..] == [p[2]] + p[3..] && p[3..] == [p[3]] + p[4..]
        && p[4..] == [p[4]] + p[5..];
    RunCons(s, p[0], p[1..]);
    RunCons(s1, p[1], p[2..]);
    RunCons(s2, p[2], p[3..]);
    RunCons(s3, p[3], p[4..]);
    RunCons(s4, p[4], p[5..]);
  }

  lemma SingleCellPop<T>(s: State<T>)
    requires s.Shaped() && s.cap == 1 && |s.threads| == 2 && s.threads[1] == Idle && s.deq == 0 && s.sequence == [1]
    ensures 0 in RunFrom(s, Popping<T>()).popped && RunFrom(s, Popping<T>()).popped[0] == s.data[0]
    ensures RunFrom(s, Popping<T>()).pushed == s.pushed
  {
    var p := Popping<T>();
    var s1, s2, s3, s4, s5 := SingleCellSteps(s);
    RunFive(s, p, s1, s2, s3, s4, s5);
    assert p[5..] == [Move(1, Advance)] + [];
    RunCons(s5, Move(1, Advance), []);
  }

  /** The states of a pop on the only cell, up to the release. */
  lemma SingleCellSteps<T>(s: State<T>) returns (s1: State<T>, s2: State<T>, s3: State<T>, s4: State<T>, s5: State<T>)
    requires s.Shaped() && s.cap == 1 && |s.threads| == 2 && s.threads[1] == Idle && s.deq == 0 && s.sequence == [1]
    ensures Apply(s, 1, StartPop) == s1 && s1.Shaped() && Apply(s1, 1, Advance) == s2
    ensures s2.Shaped() && Apply(s2, 1, Advance) == s3 && s3.Shaped() && Apply(s3, 1, Advance) == s4
    ensures s4.Shaped() && Apply(s4, 1, Advance) == s5 && s5.Shaped()
    ensures s5.threads == s.threads[1 := PopRelease(0, s.data[0])] && s5.popped == s.popped && s5.pushed == s.pushed
  {
    s1 := s.(threads := s.threads[1 := PopLoad]);
    s2 := s.(threads := s.threads[1 := PopSeq(0)]);
    s3 := s.(threads := s.threads[1 := PopCas(0)]);
    s4 := s.(threads := s.threads[1 := PopRead(0)], deq := 1, poppers := s.poppers[0 := 1]);
    s5 := s4.(threads := s.threads[1 := PopRelease(0, s.data[0])]);
  }

  /** Capacity one passes the power-of-two assertion, but the second push claims the
      cell of the first, and the consumer of ticket 0 gets the second value. */
  lemma SingleCellOverwrites<T>(d: T, v: T, w: T)
    ensures var s := RunFrom(Init(1, [d], 2), Overwriting(v, w) + Popping<T>());
      s.pushed == [v, w] && 0 in s.popped && s.popped[0] == w
  {
    var s := Init<T>(1, [d], 2);
    var a := s.(threads := s.threads[0 := PushPublish(0)], enq := 1, pushed := [v], pushers := map[0 := 0], data := [v]);
    SingleCellPush(s, v);
    assert RunFrom(s, Pushing(v)) == a;
    var b := a.(threads := a.threads[0 := Idle], sequence := [1], pushers := map[]);
    assert Apply(a, 0, Advance) == b;
    RunCons(a, Move(0, Advance), []);
    var one: seq<Move<T>> := [Move(0, Advance)];
    assert one + [] == one;
    RunAppend(s, Pushing(v), [Move(0, Advance)]);
    SingleCellPush(b, w);
    RunAppend(s, Pushing(v) + [Move(0, Advance)], Pushing(w));
    var e := RunFrom(b, Pushing(w));
    SingleCellPop(e);
    RunAppend(s, Overwriting(v, w), Popping<T>());
  }

  /** The queue delivers what was pushed, in all runs, if and only if it has at least two cells. */
  lemma FaithfulIffTwoCells(cap: nat)
    requires cap >= 1
    ensures (forall data: seq<int>, n: nat, moves: seq<Move<int>> :: |data| == cap ==>
               Faithful(RunFrom(Init(cap, data, n), moves)))
            <==> cap >= 2
  {
    if cap >= 2 {
      forall data: seq<int>, n: nat, moves: seq<Move<int>> | |data| == cap
        ensures Faithful(RunFrom(Init(cap, data, n), moves))
      {
        QueueIsSafe(cap, data, n, moves);
      }
    } else {
      SingleCellOverwrites(0, 1, 2);
      assert !Faithful(RunFrom(Init(1, [0], 2), Overwriting(1, 2) + Popping<int>()));
      assert |[0]| == cap;
    }
  }
}
