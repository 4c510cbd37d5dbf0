/**
 The single-producer single-consumer ring: each side keeps a private, possibly
 stale copy of the other side's index and refreshes it only when it must.
 Every interleaving of the two sides' atomic operations refines a bounded FIFO.
 */
module Spsc {
  import opened Modular

  datatype Producer<T> =
    | ProducerIdle
    | LoadTail(v: T)      // looks full: about to refresh tail_cached_
    | WriteSlot(v: T)     // room: about to write the buffer
    | StoreHead(v: T)     // written: about to publish head_

  datatype Consumer<T> =
    | ConsumerIdle
    | LoadHead            // looks empty: about to refresh head_cached_
    | ReadSlot
    | StoreTail(v: T)

  /** The ring, both sides, and the history of sent and received values. */
  datatype State<T> = State(
    cap: nat,
    head: nat,
    tail: nat,
    tailCached: nat,
    headCached: nat,
    buffer: seq<T>,
    producer: Producer<T>,
    consumer: Consumer<T>,
    sent: seq<T>,
    received: seq<T>)
  {
    predicate Shaped() {
      cap >= 1 && |buffer| == cap
    }
  }

  datatype Action<T> = Push(v: T) | Pop | StepProducer | StepConsumer

  function Init<T>(cap: nat, buffer: seq<T>): State<T>
    requires cap >= 1 && |buffer| == cap
  {
    State(cap, 0, 0, 0, 0, buffer, ProducerIdle, ConsumerIdle, [], [])
  }

  function Produced<T>(s: State<T>): State<T>
    requires s.Shaped()
  {
    match s.producer
    case ProducerIdle => s
    case LoadTail(v) =>
      s.(tailCached := s.tail, producer := if s.head - s.tail >= s.cap then ProducerIdle else WriteSlot(v))
    case WriteSlot(v) => s.(buffer := s.buffer[s.head % s.cap := v], producer := StoreHead(v))
    case StoreHead(v) => s.(head := s.head + 1, sent := s.sent + [v], producer := ProducerIdle)
  }

  function Consumed<T>(s: State<T>): State<T>
    requires s.Shaped()
  {
    match s.consumer
    case ConsumerIdle => s
    case LoadHead => s.(headCached := s.head, consumer := if s.head == s.tail then ConsumerIdle else ReadSlot)
    case ReadSlot => s.(consumer := StoreTail(s.buffer[s.tail % s.cap]))
    case StoreTail(v) => s.(tail := s.tail + 1, received := s.received + [v], consumer := ConsumerIdle)
  }

  function Next<T>(s: State<T>, a: Action<T>): State<T>
    requires s.Shaped()
  {
    match a
    case Push(v) =>
      if s.producer.ProducerIdle? then
        s.(producer := if s.head - s.tailCached >= s.cap then LoadTail(v) else WriteSlot(v))
      else s
    case Pop =>
      if s.consumer.ConsumerIdle? then s.(consumer := if s.headCached == s.tail then LoadHead else ReadSlot) else s
    case StepProducer => Produced(s)
    case StepConsumer => Consumed(s)
  }

  /** What the ring holds: the values sent and not yet received. */
  function Contents<T>(s: State<T>): seq<T>
    requires s.tail <= s.head == |s.sent|
  {
    s.sent[s.tail..]
  }

  ghost predicate Inv<T>(s: State<T>) {
    && s.Shaped()
    && s.tailCached <= s.tail <= s.head <= s.tail + s.cap
    && s.tail <= s.headCached <= s.head
    && |s.sent| == s.head && s.received == s.sent[..s.tail]
    && (forall k {:trigger s.sent[k]} :: s.tail <= k < s.head ==> s.buffer[k % s.cap] == s.sent[k])
    && (s.producer.WriteSlot? ==> s.head < s.tailCached + s.cap)
    && (s.producer.StoreHead? ==> s.head < s.tailCached + s.cap && s.buffer[s.head % s.cap] == s.producer.v)
    && (s.consumer.ReadSlot? ==> s.tail < s.headCached)
    && (s.consumer.StoreTail? ==> s.tail < s.headCached && s.consumer.v == s.sent[s.tail])
  }

  lemma InitInv<T>(cap: nat, buffer: seq<T>)
    requires cap >= 1 && |buffer| == cap
    ensures Inv(Init(cap, buffer))
  {
  }

  /** The slot being written is not one the consumer may still read. */
  lemma WriteKeeps<T>(s: State<T>)
    requires Inv(s) && s.producer.WriteSlot?
    ensures Inv(Produced(s))
  {
    var r := Produced(s);
    forall k | s.tail <= k < s.head ensures r.buffer[k % s.cap] == s.sent[k] {
      if k % s.cap == s.head % s.cap {
        SameCell(k, s.head, s.cap);
      }
    }
  }

  /** Publishing the head adds exactly the written value to the contents. */
  lemma PublishKeeps<T>(s: State<T>)
    requires Inv(s) && s.producer.StoreHead?
    ensures Inv(Produced(s))
  {
    var r := Produced(s);
    assert r.sent[..s.tail] == s.sent[..s.tail];
    forall k | r.tail <= k < r.head ensures r.buffer[k % r.cap] == r.sent[k] {
      assert k < s.head ==> r.sent[k] == s.sent[k];
    }
  }

  lemma ProducerKeeps<T>(s: State<T>)
    requires Inv(s)
    ensures Inv(Produced(s))
  {
    if s.producer.WriteSlot? {
      WriteKeeps(s);
    } else if s.producer.StoreHead? {
      PublishKeeps(s);
    }
  }

  lemma ConsumerKeeps<T>(s: State<T>)
    requires Inv(s)
    ensures Inv(Consumed(s))
  {
    if s.consumer.StoreTail? {
      assert s.sent[..s.tail + 1] == s.sent[..s.tail] + [s.sent[s.tail]];
    }
  }

  lemma StepKeeps<T>(s: State<T>, a: Action<T>)
    requires Inv(s)
    ensures Inv(Next(s, a))
  {
    match a
    case StepProducer => ProducerKeeps(s);
    case StepConsumer => ConsumerKeeps(s);
    case _ =>
  }

  function RunFrom<T>(s: State<T>, actions: seq<Action<T>>): State<T>
    requires s.Shaped()
    decreases |actions|
  {
    if actions == [] then s
    else
      assert Next(s, actions[0]).Shaped();
      RunFrom(Next(s, actions[0]), actions[1..])
  }

  lemma {:induction false} RunKeeps<T>(s: State<T>, actions: seq<Action<T>>)
    requires Inv(s)
    ensures Inv(RunFrom(s, actions)) && RunFrom(s, actions).cap == s.cap
    decreases |actions|
  {
    if actions != [] {
      StepKeeps(s, actions[0]);
      RunKeeps(Next(s, actions[0]), actions[1..]);
    }
  }

  /** In every run: values are received in the order they were sent, with nothing
      lost, repeated or invented; the ring never exceeds its capacity; and both
      stale copies stay on the safe side. */
  lemma RingIsFifo<T>(cap: nat, buffer: seq<T>, actions: seq<Action<T>>)
    requires cap >= 1 && |buffer| == cap
    ensures var s := RunFrom(Init(cap, buffer), actions);
      && s.tail <= s.head == |s.sent|
      && s.sent == s.received + Contents(s) && |Contents(s)| <= cap
      && s.tailCached <= s.tail <= s.headCached <= s.head
  {
    InitInv(cap, buffer);
    RunKeeps(Init(cap, buffer), actions);
  }

  /** Each step of the ring is a step of the bounded FIFO: append when there is
      room, remove the front, or leave the contents alone. */
  lemma RefinesBoundedFifo<T>(s: State<T>, a: Action<T>)
    requires Inv(s)
    ensures Inv(Next(s, a))
    ensures var c, d := Contents(s), Contents(Next(s, a));
      if a.StepProducer? && s.producer.StoreHead? then |c| < s.cap && d == c + [s.producer.v]
      else if a.StepConsumer? && s.consumer.StoreTail? then c != [] && s.consumer.v == c[0] && d == c[1..]
      else d == c
  {
    StepKeeps(s, a);
    var c := Contents(s);
    if a.StepProducer? && s.producer.StoreHead? {
      assert (s.sent + [s.producer.v])[s.tail..] == c + [s.producer.v];
    }
  }

  /** `push` reports a full ring exactly when the ring is full at the instant it reloads the tail. */
  lemma FullReportedIff<T>(s: State<T>)
    requires Inv(s) && s.producer.LoadTail?
    ensures Produced(s).producer.ProducerIdle? <==> |Contents(s)| == s.cap
  {
  }

  /** `pop` reports an empty ring exactly when the ring is empty at the instant it reloads the head. */
  lemma EmptyReportedIff<T>(s: State<T>)
    requires Inv(s) && s.consumer.LoadHead?
    ensures Consumed(s).consumer.ConsumerIdle? <==> Contents(s) == []
  {
  }

  // ----------------------------------------------- calls that nobody disturbs

  /** A whole call of `push`: what it does before its first access, and three accesses at most. */
  function Pushed<T>(s: State<T>, v: T): State<T>
    requires s.Shaped()
  {
    Produced(Produced(Produced(Next(s, Push(v)))))
  }

  function Popped<T>(s: State<T>): State<T>
    requires s.Shaped()
  {
    Consumed(Consumed(Consumed(Next(s, Pop))))
  }

  /** A push that is not disturbed appends its value if and only if there is room, however stale its copy
      of the tail; it reads the tail only when by that copy there is none. */
  lemma SoloPush<T>(s: State<T>, v: T)
    requires Inv(s) && s.producer.ProducerIdle?
    ensures var r := Pushed(s, v);
      && Inv(r) && r.producer.ProducerIdle? && r.consumer == s.consumer && r.received == s.received
      && Contents(r) == (if |Contents(s)| < s.cap then Contents(s) + [v] else Contents(s))
      && r.tailCached == if s.head - s.tailCached < s.cap then s.tailCached else s.tail
  {
    StepKeeps(s, Push(v));
    var s1 := Next(s, Push(v));
    RefinesBoundedFifo(s1, StepProducer);
    var s2 := Produced(s1);
    RefinesBoundedFifo(s2, StepProducer);
    RefinesBoundedFifo(Produced(s2), StepProducer);
  }

  /** A pop that is not disturbed takes the front if and only if there is one, and reads the head
      only when by its copy there is none. */
  lemma SoloPop<T>(s: State<T>)
    requires Inv(s) && s.consumer.ConsumerIdle?
    ensures var r := Popped(s);
      && Inv(r) && r.consumer.ConsumerIdle? && r.producer == s.producer && r.sent == s.sent
      && (if Contents(s) == [] then r.received == s.received && Contents(r) == []
          else r.received == s.received + [Contents(s)[0]] && Contents(r) == Contents(s)[1..])
      && r.headCached == if s.headCached != s.tail then s.headCached else s.head
  {
    StepKeeps(s, Pop);
    var s1 := Next(s, Pop);
    RefinesBoundedFifo(s1, StepConsumer);
    var s2 := Consumed(s1);
    RefinesBoundedFifo(s2, StepConsumer);
    RefinesBoundedFifo(Consumed(s2), StepConsumer);
  }

  // ------------------------------------------------------------- the object

  class SPSCQueue<T(0)> {
    const capacity: nat
    const buffer: array<T>
    var head: nat
    var tail: nat
    var tailCached: nat
    var headCached: nat
    var producer: Producer<T>
    var consumer: Consumer<T>
    ghost var sent: seq<T>
    ghost var received: seq<T>

    ghost predicate Shaped()
      reads this
    {
      capacity >= 1 && buffer.Length == capacity
    }

    ghost function Abs(): (s: State<T>)
      reads this, buffer
      requires Shaped()
      ensures s.Shaped()
    {
      State(capacity, head, tail, tailCached, headCached, buffer[..], producer, consumer, sent, received)
    }

    constructor (cap: nat)
      requires cap >= 1
      ensures Shaped() && fresh(buffer) && capacity == cap && Abs() == Init(cap, buffer[..])
      ensures Inv(Abs())
    {
      capacity := cap;
      buffer := new T[cap];
      head, tail, tailCached, headCached := 0, 0, 0, 0;
      producer, consumer := ProducerIdle, ConsumerIdle;
      sent, received := [], [];
    }

    /** `push` up to its first access to shared memory. */
    method BeginPush(item: T)
      requires Shaped() && producer.ProducerIdle? && Inv(Abs())
      modifies this`producer
      ensures Abs() == Next(old(Abs()), Push(item)) && Inv(Abs())
    {
      StepKeeps(Abs(), Push(item));
      producer := if head - tailCached >= capacity then LoadTail(item) else WriteSlot(item);
    }

    /** The next access of `push`; `pushed` tells that the call returned true. */
    method AdvancePush() returns (pushed: bool)
      requires Shaped() && !producer.ProducerIdle? && Inv(Abs())
      modifies this`head, this`tailCached, this`producer, this`sent, buffer
      ensures Abs() == Next(old(Abs()), StepProducer) && Inv(Abs())
      ensures pushed <==> old(producer.StoreHead?)
    {
      StepKeeps(Abs(), StepProducer);
      pushed := false;
      match producer
      case LoadTail(v) =>
        tailCached := tail;
        producer := if head - tailCached >= capacity then ProducerIdle else WriteSlot(v);
      case WriteSlot(v) =>
        buffer[head % capacity] := v;
        assert buffer[..] == old(buffer[..])[head % capacity := v];
        producer := StoreHead(v);
      case StoreHead(v) =>
        head := head + 1;
        sent := sent + [v];
        producer := ProducerIdle;
        pushed := true;
    }

    method BeginPop()
      requires Shaped() && consumer.ConsumerIdle? && Inv(Abs())
      modifies this`consumer
      ensures Abs() == Next(old(Abs()), Pop) && Inv(Abs())
    {
      StepKeeps(Abs(), Pop);
      consumer := if headCached == tail then LoadHead else ReadSlot;
    }

    /** The next access of `pop`; a value comes back when the call returned true. */
    method AdvancePop() returns (popped: bool, item: T)
      requires Shaped() && !consumer.ConsumerIdle? && Inv(Abs())
      modifies this`tail, this`headCached, this`consumer, this`received
      ensures Abs() == Next(old(Abs()), StepConsumer) && Inv(Abs())
      ensures popped <==> old(consumer.StoreTail?)
      ensures popped ==> old(Contents(Abs())) == [item] + Contents(Abs())
    {
      StepKeeps(Abs(), StepConsumer);
      RefinesBoundedFifo(Abs(), StepConsumer);
      popped := false;
      item := buffer[0];
      match consumer
      case LoadHead =>
        headCached := head;
        consumer := if headCached == tail then ConsumerIdle else ReadSlot;
      case ReadSlot =>
        consumer := StoreTail(buffer[tail % capacity]);
      case StoreTail(v) =>
        tail := tail + 1;
        received := received + [v];
        consumer := ConsumerIdle;
        popped, item := true, v;
    }
  }
}
