/**
 The queue when one call of `push` or `pop` is not disturbed: the call succeeds exactly when
 there is room, or a published value, at the position it finds, whatever the other threads
 are in the middle of.
 */
module MpmcSolo {
  import opened Modular
  import opened Mpmc

  /** `n` steps of thread `i` alone. */
  function Alone<T>(s: State<T>, i: nat, n: nat): (r: State<T>)
    requires s.Shaped()
    ensures r.Shaped()
    decreases n
  {
    if n == 0 then s
    else
      ApplyShaped(s, i, Advance);
      Alone(Apply(s, i, Advance), i, n - 1)
  }

  /** A whole call, from its first step to its return: five atomic steps. */
  function Called<T>(s: State<T>, i: nat, call: Action<T>, n: nat): (r: State<T>)
    requires s.Shaped()
    ensures r.Shaped()
  {
    ApplyShaped(s, i, call);
    Alone(Apply(s, i, call), i, n)
  }

  lemma OneMore<T>(s: State<T>, i: nat, n: nat)
    requires s.Shaped() && i < |s.threads|
    ensures Advanced(s, i).Shaped() && Alone(s, i, n + 1) == Alone(Advanced(s, i), i, n)
  {
    ApplyShaped(s, i, Advance);
  }

  /** A ticket is free to be claimed for pushing when the value one round earlier has been taken out. */
  predicate HasRoom<T>(s: State<T>) {
    s.enq < s.cap || s.enq - s.cap in s.popped
  }

  /** The oldest value is there to be taken: its ticket is claimed and published. */
  predicate HasValue<T>(s: State<T>) {
    s.deq < s.enq && s.deq !in s.pushers
  }

  // ------------------------------------------------------------------ push

  lemma SequenceForPush<T>(s: State<T>, i: nat, v: T)
    requires Inv(s) && i < |s.threads| && s.threads[i] == PushSeq(s.enq, v)
    ensures Advanced(s, i) == SetThread(s, i, if HasRoom(s) then PushCas(s.enq, v) else Refused(v))
  {
    FullReportedIff(s, i);
    if HasRoom(s) {
      EnqueueCell(s);
    }
  }

  lemma PushLoads<T>(s: State<T>, i: nat, v: T, n: nat)
    requires Inv(s) && i < |s.threads| && Outside(s.threads[i]) && n >= 1
    ensures var t := SetThread(s, i, PushSeq(s.enq, v)); Inv(t) && Called(s, i, StartPush(v), n) == Alone(t, i, n - 1)
  {
    var s1 := SetThread(s, i, PushLoad(v));
    StepKeeps(s, i, StartPush(v));
    OneMore(s1, i, n - 1);
    LoadKeeps(s1, i);
    assert Advanced(s1, i) == SetThread(s, i, PushSeq(s.enq, v));
  }

  lemma PushBegins<T>(s: State<T>, i: nat, v: T, n: nat)
    requires Inv(s) && i < |s.threads| && Outside(s.threads[i]) && n >= 2
    ensures var t := SetThread(s, i, if HasRoom(s) then PushCas(s.enq, v) else Refused(v));
      Inv(t) && Called(s, i, StartPush(v), n) == Alone(t, i, n - 2)
  {
    PushLoads(s, i, v, n);
    LooksForRoom(s, SetThread(s, i, PushSeq(s.enq, v)), i, v, n - 1);
  }

  lemma LooksForRoom<T>(s: State<T>, u: State<T>, i: nat, v: T, n: nat)
    requires i < |s.threads| && u == SetThread(s, i, PushSeq(s.enq, v)) && Inv(u) && n >= 1
    ensures var t := SetThread(s, i, if HasRoom(s) then PushCas(s.enq, v) else Refused(v));
      Inv(t) && Alone(u, i, n) == Alone(t, i, n - 1)
  {
    OneMore(u, i, n - 1);
    SequenceForPush(u, i, v);
    LoadKeeps(u, i);
    SetTwice(s, u, i, PushSeq(s.enq, v), if HasRoom(s) then PushCas(s.enq, v) else Refused(v));
  }

  lemma SetTwice<T>(s: State<T>, u: State<T>, i: nat, l: Local<T>, m: Local<T>)
    requires i < |s.threads| && u == SetThread(s, i, l)
    ensures SetThread(u, i, m) == SetThread(s, i, m)
    ensures HasRoom(u) == HasRoom(s) && HasValue(u) == HasValue(s)
  {
  }

  /** The queue after the push of `v`. */
  function Appended<T>(s: State<T>, i: nat, v: T): State<T>
    requires s.Shaped() && i < |s.threads|
  {
    var c := s.Cell(s.enq);
    SetThread(s, i, Idle).(enq := s.enq + 1, pushed := s.pushed + [v], data := s.data[c := v],
                           sequence := s.sequence[c := s.enq + 1], pushers := s.pushers - {s.enq})
  }

  /** The steps of that push after the sequence was right, one by one. */
  lemma ClaimedPush<T>(s: State<T>, i: nat, v: T) returns (q3: State<T>, q4: State<T>)
    requires Inv(s) && i < |s.threads| && s.threads[i] == PushCas(s.enq, v)
    ensures q3 == Advanced(s, i) && Inv(q3) && i < |q3.threads| && q3.threads[i].PushWrite?
    ensures q4 == Advanced(q3, i) && Inv(q4) && i < |q4.threads| && q4.threads[i].PushPublish?
    ensures Advanced(q4, i) == Appended(s, i, v) && Inv(Appended(s, i, v))
  {
    q3 := CasEnqueue(s, i, s.enq, v);
    StepKeeps(s, i, Advance);
    q4 := Advanced(q3, i);
    StepKeeps(q3, i, Advance);
    StepKeeps(q4, i, Advance);
    Published(s, i, v, q4);
  }

  lemma Published<T>(s: State<T>, i: nat, v: T, q4: State<T>)
    requires s.Shaped() && i < |s.threads|
    requires q4 == SetThread(CasEnqueue(s, i, s.enq, v), i, PushPublish(s.enq)).(data := s.data[s.Cell(s.enq) := v])
    ensures Advanced(q4, i) == Appended(s, i, v)
  {
    assert s.pushers[s.enq := i] - {s.enq} == s.pushers - {s.enq};
    assert q4.threads[i := Idle] == s.threads[i := Idle];
  }

  lemma PushClaims<T>(s: State<T>, i: nat, v: T, n: nat)
    requires Inv(s) && i < |s.threads| && s.threads[i] == PushCas(s.enq, v) && n >= 3
    ensures Alone(s, i, n) == Alone(Appended(s, i, v), i, n - 3)
  {
    var q3, q4 := ClaimedPush(s, i, v);
    OneMore(s, i, n - 1);
    OneMore(q3, i, n - 2);
    OneMore(q4, i, n - 3);
  }

  /** A push that is not disturbed appends its value if and only if there is room at the position
      it finds; otherwise it hands the value back, and nothing else has changed. */
  lemma SoloPush<T>(s: State<T>, i: nat, v: T, n: nat)
    requires Inv(s) && i < |s.threads| && Outside(s.threads[i]) && n == 5
    ensures var r := Called(s, i, StartPush(v), n);
      if HasRoom(s) then
        && r.threads == s.threads[i := Idle] && Contents(r) == Contents(s) + [v] && r.pushed == s.pushed + [v]
        && s.enq !in r.pushers && r.popped == s.popped
      else r == SetThread(s, i, Refused(v))
  {
    PushBegins(s, i, v, n);
    var t := SetThread(s, i, if HasRoom(s) then PushCas(s.enq, v) else Refused(v));
    if HasRoom(s) {
      PushClaims(t, i, v, n - 2);
      assert t.threads[i := Idle] == s.threads[i := Idle];
    } else {
      Stays(t, i, n - 2);
    }
  }

  lemma {:induction false} Stays<T>(s: State<T>, i: nat, n: nat)
    requires s.Shaped() && i < |s.threads| && Outside(s.threads[i])
    ensures Alone(s, i, n) == s
    decreases n
  {
    if n > 0 {
      Stays(s, i, n - 1);
    }
  }

  // ------------------------------------------------------------------- pop

  lemma SequenceForPop<T>(s: State<T>, i: nat)
    requires Inv(s) && i < |s.threads| && s.threads[i] == PopSeq(s.deq)
    ensures Advanced(s, i) == SetThread(s, i, if HasValue(s) then PopCas(s.deq) else Idle)
  {
    EmptyReportedIff(s, i);
    if HasValue(s) {
      DequeueCell(s);
    }
  }

  lemma PopLoads<T>(s: State<T>, i: nat, n: nat)
    requires Inv(s) && i < |s.threads| && Outside(s.threads[i]) && n >= 1
    ensures var t := SetThread(s, i, PopSeq(s.deq)); Inv(t) && Called(s, i, StartPop, n) == Alone(t, i, n - 1)
  {
    var s1 := SetThread(s, i, PopLoad);
    StepKeeps(s, i, StartPop);
    OneMore(s1, i, n - 1);
    LoadKeeps(s1, i);
    assert Advanced(s1, i) == SetThread(s, i, PopSeq(s.deq));
  }

  lemma PopBegins<T>(s: State<T>, i: nat, n: nat)
    requires Inv(s) && i < |s.threads| && Outside(s.threads[i]) && n >= 2
    ensures var t := SetThread(s, i, if HasValue(s) then PopCas(s.deq) else Idle);
      Inv(t) && Called(s, i, StartPop, n) == Alone(t, i, n - 2)
  {
    PopLoads(s, i, n);
    LooksForValue(s, SetThread(s, i, PopSeq(s.deq)), i, n - 1);
  }

  lemma LooksForValue<T>(s: State<T>, u: State<T>, i: nat, n: nat)
    requires i < |s.threads| && u == SetThread(s, i, PopSeq(s.deq)) && Inv(u) && n >= 1
    ensures var t := SetThread(s, i, if HasValue(s) then PopCas(s.deq) else Idle);
      Inv(t) && Alone(u, i, n) == Alone(t, i, n - 1)
  {
    OneMore(u, i, n - 1);
    SequenceForPop(u, i);
    LoadKeeps(u, i);
    SetTwice(s, u, i, PopSeq(s.deq), if HasValue(s) then PopCas(s.deq) else Idle);
  }

  /** The queue after the pop of its oldest value. */
  function Popped<T>(s: State<T>, i: nat): State<T>
    requires s.Shaped() && i < |s.threads| && s.deq < s.enq
  {
    SetThread(s, i, Idle).(deq := s.deq + 1, popped := s.popped[s.deq := s.pushed[s.deq]],
                           sequence := s.sequence[s.Cell(s.deq) := s.deq + s.cap], poppers := s.poppers - {s.deq})
  }

  /** The steps of that pop after the claim, one by one. */
  lemma ClaimedPop<T>(s: State<T>, i: nat) returns (q3: State<T>, q4: State<T>)
    requires Inv(s) && i < |s.threads| && s.threads[i] == PopCas(s.deq) && HasValue(s)
    ensures q3 == Advanced(s, i) && Inv(q3) && i < |q3.threads| && q3.threads[i].PopRead?
    ensures q4 == Advanced(q3, i) && Inv(q4) && i < |q4.threads| && q4.threads[i] == PopRelease(s.deq, s.pushed[s.deq])
    ensures Advanced(q4, i) == Popped(s, i) && Inv(Popped(s, i))
  {
    q3 := CasDequeue(s, i, s.deq);
    StepKeeps(s, i, Advance);
    ReadsItsTicket(q3, i);
    q4 := Advanced(q3, i);
    StepKeeps(q3, i, Advance);
    StepKeeps(q4, i, Advance);
    Released(s, i, q4);
  }

  lemma Released<T>(s: State<T>, i: nat, q4: State<T>)
    requires s.Shaped() && i < |s.threads| && s.deq < s.enq
    requires q4 == SetThread(CasDequeue(s, i, s.deq), i, PopRelease(s.deq, s.pushed[s.deq]))
    ensures Advanced(q4, i) == Popped(s, i)
  {
    assert s.poppers[s.deq := i] - {s.deq} == s.poppers - {s.deq};
    assert q4.threads[i := Idle] == s.threads[i := Idle];
  }

  lemma PopClaims<T>(s: State<T>, i: nat, n: nat)
    requires Inv(s) && i < |s.threads| && s.threads[i] == PopCas(s.deq) && HasValue(s) && n >= 3
    ensures Alone(s, i, n) == Alone(Popped(s, i), i, n - 3)
  {
    var q3, q4 := ClaimedPop(s, i);
    OneMore(s, i, n - 1);
    OneMore(q3, i, n - 2);
    OneMore(q4, i, n - 3);
  }

  /** A pop that is not disturbed delivers the oldest value if and only if that is published;
      otherwise it reports the queue empty, and nothing has changed. */
  lemma SoloPop<T>(s: State<T>, i: nat, n: nat)
    requires Inv(s) && i < |s.threads| && Outside(s.threads[i]) && n == 5
    ensures var r := Called(s, i, StartPop, n);
      if HasValue(s) then
        && r.threads == s.threads[i := Idle] && Contents(s) != [] && Contents(r) == Contents(s)[1..]
        && r.popped == s.popped[s.deq := Contents(s)[0]] && r.pushed == s.pushed
      else r == SetThread(s, i, Idle)
  {
    PopBegins(s, i, n);
    var t := SetThread(s, i, if HasValue(s) then PopCas(s.deq) else Idle);
    if HasValue(s) {
      PopClaims(t, i, n - 2);
      assert t.threads[i := Idle] == s.threads[i := Idle];
    } else {
      Stays(t, i, n - 2);
    }
  }
}
