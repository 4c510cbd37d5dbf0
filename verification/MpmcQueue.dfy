/** The queue object itself: its cells and positions updated in place, one atomic operation per call. */
module MpmcObject {
  import opened Modular
  import opened Mpmc

  class MPMCQueue<T(0)> {
    const capacity: nat
    const sequence: array<nat>
    const data: array<T>
    var enqueuePos: nat
    var dequeuePos: nat
    var threads: seq<Local<T>>
    ghost var pushed: seq<T>
    ghost var popped: map<nat, T>
    ghost var pushers: map<nat, nat>
    ghost var poppers: map<nat, nat>

    ghost predicate Shaped()
      reads this
    {
      && capacity >= 1 && sequence.Length == capacity && data.Length == capacity
      && (sequence as object) != data && |pushed| == enqueuePos
    }

    /** The object as a state of the interleaving machine. */
    ghost function Abs(): (s: State<T>)
      reads this, sequence, data
      requires Shaped()
      ensures s.Shaped()
    {
      State(capacity, enqueuePos, dequeuePos, sequence[..], data[..], threads, pushed, popped, pushers, poppers)
    }

    /** Cell `i` starts with sequence number `i`; all threads are idle. */
    constructor (cap: nat, n: nat)
      requires cap >= 1
      ensures Shaped() && fresh(sequence) && fresh(data) && capacity == cap
      ensures Abs() == Init(cap, data[..], n)
    {
      capacity := cap;
      sequence := new nat[cap](i => i);
      data := new T[cap];
      enqueuePos, dequeuePos := 0, 0;
      threads := seq(n, _ => Idle);
      pushed, popped, pushers, poppers := [], map[], map[], map[];
      new;
      assert sequence[..] == seq(cap, i => i);
    }

    /** `push` reads the enqueue position. */
    method LoadEnqueuePos(i: nat)
      requires Shaped() && i < |threads| && threads[i].PushLoad?
      modifies this, sequence, data
      ensures Shaped() && Abs() == Advanced(old(Abs()), i)
    {
      threads := threads[i := PushSeq(enqueuePos, threads[i].v)];
    }

    /** `push` reads the sequence of its cell: claim it, refuse the value, or start over. */
    method LoadSequenceForPush(i: nat)
      requires Shaped() && i < |threads| && threads[i].PushSeq?
      modifies this, sequence, data
      ensures Shaped() && Abs() == Advanced(old(Abs()), i)
    {
      var pos, v := threads[i].pos, threads[i].v;
      var diff := sequence[pos % capacity] - pos;
      if diff == 0 {
        threads := threads[i := PushCas(pos, v)];
      } else if diff < 0 {
        threads := threads[i := Refused(v)];
      } else {
        threads := threads[i := PushLoad(v)];
      }
    }

    /** The claim: the position moves only if it is still the expected one. */
    method CompareExchangeEnqueue(i: nat)
      requires Shaped() && i < |threads| && threads[i].PushCas?
      modifies this, sequence, data
      ensures Shaped() && Abs() == Advanced(old(Abs()), i)
    {
      var pos, v := threads[i].pos, threads[i].v;
      if enqueuePos == pos {
        enqueuePos := pos + 1;
        pushed, pushers := pushed + [v], pushers[pos := i];
        threads := threads[i := PushWrite(pos, v)];
      } else {
        threads := threads[i := PushSeq(enqueuePos, v)];
      }
    }

    /** The claimed cell is filled. */
    method WriteData(i: nat)
      requires Shaped() && i < |threads| && threads[i].PushWrite?
      modifies this, sequence, data
      ensures Shaped() && Abs() == Advanced(old(Abs()), i)
    {
      var pos, v := threads[i].pos, threads[i].v;
      data[pos % capacity] := v;
      assert data[..] == old(data[..])[pos % capacity := v];
      threads := threads[i := PushPublish(pos)];
    }

    /** The filled cell is published. */
    method PublishSequence(i: nat)
      requires Shaped() && i < |threads| && threads[i].PushPublish?
      modifies this, sequence, data
      ensures Shaped() && Abs() == Advanced(old(Abs()), i)
    {
      var pos := threads[i].pos;
      sequence[pos % capacity] := pos + 1;
      assert sequence[..] == old(sequence[..])[pos % capacity := pos + 1];
      pushers := pushers - {pos};
      threads := threads[i := Idle];
    }

    /** `pop` reads the dequeue position. */
    method LoadDequeuePos(i: nat)
      requires Shaped() && i < |threads| && threads[i].PopLoad?
      modifies this, sequence, data
      ensures Shaped() && Abs() == Advanced(old(Abs()), i)
    {
      threads := threads[i := PopSeq(dequeuePos)];
    }

    /** `pop` reads the sequence of its cell: claim it, report an empty queue, or start over. */
    method LoadSequenceForPop(i: nat)
      requires Shaped() && i < |threads| && threads[i].PopSeq?
      modifies this, sequence, data
      ensures Shaped() && Abs() == Advanced(old(Abs()), i)
    {
      var pos := threads[i].pos;
      var diff := sequence[pos % capacity] - (pos + 1);
      if diff == 0 {
        threads := threads[i := PopCas(pos)];
      } else if diff < 0 {
        threads := threads[i := Idle];
      } else {
        threads := threads[i := PopLoad];
      }
    }

    /** The claim on the consumer side. */
    method CompareExchangeDequeue(i: nat)
      requires Shaped() && i < |threads| && threads[i].PopCas?
      modifies this, sequence, data
      ensures Shaped() && Abs() == Advanced(old(Abs()), i)
    {
      var pos := threads[i].pos;
      if dequeuePos == pos {
        dequeuePos := pos + 1;
        poppers := poppers[pos := i];
        threads := threads[i := PopRead(pos)];
      } else {
        threads := threads[i := PopSeq(dequeuePos)];
      }
    }

    /** The value is moved out of the cell. */
    method ReadData(i: nat)
      requires Shaped() && i < |threads| && threads[i].PopRead?
      modifies this, sequence, data
      ensures Shaped() && Abs() == Advanced(old(Abs()), i)
    {
      var pos := threads[i].pos;
      threads := threads[i := PopRelease(pos, data[pos % capacity])];
    }

    /** The cell is handed to the producer one round later. */
    method ReleaseSequence(i: nat)
      requires Shaped() && i < |threads| && threads[i].PopRelease?
      modifies this, sequence, data
      ensures Shaped() && Abs() == Advanced(old(Abs()), i)
    {
      var pos, v := threads[i].pos, threads[i].v;
      sequence[pos % capacity] := pos + capacity;
      assert sequence[..] == old(sequence[..])[pos % capacity := pos + capacity];
      popped, poppers := popped[pos := v], poppers - {pos};
      threads := threads[i := Idle];
    }
  }
}
