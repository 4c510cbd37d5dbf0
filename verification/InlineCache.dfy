/**
 The polymorphic inline cache of a method call site: up to four receivers, found
 by shape or by virtual table.  A hit is always the receiver's current target, as
 long as every change of a class is followed by an invalidation.
 */
module InlineCache {
  const MAX_PIC_ENTRIES := 4
  const NULL := 0

  /** Shape ids and virtual tables are numbers; zero is no shape and the null table. */
  datatype Entry<T> = Entry(shape: nat, vtable: nat, target: T)

  datatype ICState = Uninitialized | Monomorphic | Polymorphic | Megamorphic

  /** A call site's cache: its state and the entries in use. */
  datatype Cache<T> = Cache(state: ICState, live: seq<Entry<T>>)

  predicate Matches<T(!new)>(e: Entry<T>, shape: nat, vt: nat) {
    (shape > 0 && e.shape == shape) || (vt != NULL && e.vtable == vt)
  }

  /** The first matching entry, or the number of entries. */
  function Find<T(!new)>(live: seq<Entry<T>>, shape: nat, vt: nat): (i: nat)
    ensures i <= |live|
    ensures forall j :: 0 <= j < i ==> !Matches(live[j], shape, vt)
    ensures i < |live| ==> Matches(live[i], shape, vt)
    decreases |live|
  {
    if live == [] || Matches(live[0], shape, vt) then 0 else 1 + Find(live[1..], shape, vt)
  }

  lemma FindIs<T(!new)>(live: seq<Entry<T>>, shape: nat, vt: nat, i: nat)
    requires i <= |live|
    requires forall j :: 0 <= j < i ==> !Matches(live[j], shape, vt)
    requires i < |live| ==> Matches(live[i], shape, vt)
    ensures Find(live, shape, vt) == i
  {
  }

  function StateFor(count: nat): ICState {
    if count == 0 then Uninitialized else if count == 1 then Monomorphic else Polymorphic
  }

  datatype Hit<T> = Miss | Hit(entry: Entry<T>)

  function Probe<T(!new)>(c: Cache<T>, shape: nat, vt: nat): Hit<T> {
    if c.state == Uninitialized || c.state == Megamorphic then Miss
    else
      var i := Find(c.live, shape, vt);
      if i < |c.live| then Hit(c.live[i]) else Miss
  }

  function Update<T(!new)>(c: Cache<T>, shape: nat, vt: nat, target: T): Cache<T> {
    if c.state == Megamorphic then c
    else
      var i := Find(c.live, shape, vt);
      if i < |c.live| then c.(live := c.live[i := c.live[i].(target := target)])
      else if |c.live| < MAX_PIC_ENTRIES then
        Cache(StateFor(|c.live| + 1), c.live + [Entry(shape, vt, target)])
      else c.(state := Megamorphic)
  }

  function Without<T(!new)>(live: seq<Entry<T>>, vt: nat): (r: seq<Entry<T>>)
    ensures |r| <= |live|
    decreases |live|
  {
    if live == [] then []
    else
      var rest := Without(live[..|live| - 1], vt);
      var e := live[|live| - 1];
      if e.vtable != vt then rest + [e] else rest
  }

  lemma {:induction false} WithoutHas<T(!new)>(live: seq<Entry<T>>, vt: nat, e: Entry<T>)
    ensures e in Without(live, vt) <==> e in live && e.vtable != vt
    decreases |live|
  {
    if live != [] {
      var n := |live| - 1;
      WithoutHas(live[..n], vt, e);
      assert live == live[..n] + [live[n]];
    }
  }

  lemma WithoutStep<T(!new)>(live: seq<Entry<T>>, vt: nat, i: nat)
    requires i < |live|
    ensures Without(live[..i + 1], vt) ==
            Without(live[..i], vt) + (if live[i].vtable != vt then [live[i]] else [])
  {
    assert live[..i + 1][..i] == live[..i];
  }

  function Invalidate<T(!new)>(c: Cache<T>, vt: nat): Cache<T> {
    if vt == NULL then c
    else
      var kept := Without(c.live, vt);
      Cache(StateFor(|kept|), kept)
  }

  // ----------------------------------------------------------------- one step

  /** The state tells how many entries are in use; a megamorphic cache is full. */
  predicate Agrees<T(!new)>(c: Cache<T>) {
    && |c.live| <= MAX_PIC_ENTRIES
    && (c.state == Megamorphic || c.state == StateFor(|c.live|))
    && (c.state == Megamorphic ==> |c.live| == MAX_PIC_ENTRIES)
  }

  /** The class that each shape belongs to, and each class's current target. */
  datatype World<T> = World(classOf: nat -> nat, target: nat -> T)

  /** A receiver has a virtual table, and a shape, if any, of that class. */
  predicate Receiver<T(!new)>(w: World<T>, shape: nat, vt: nat) {
    vt != NULL && (shape > 0 ==> w.classOf(shape) == vt)
  }

  predicate Current<T(==,!new)>(w: World<T>, e: Entry<T>) {
    Receiver(w, e.shape, e.vtable) && e.target == w.target(e.vtable)
  }

  ghost predicate Sound<T(!new)>(w: World<T>, c: Cache<T>) {
    Agrees(c) && forall e :: e in c.live ==> Current(w, e)
  }

  lemma UpdateKeeps<T(!new)>(w: World<T>, c: Cache<T>, shape: nat, vt: nat)
    requires Sound(w, c) && Receiver(w, shape, vt)
    ensures Sound(w, Update(c, shape, vt, w.target(vt)))
  {
    var d := Update(c, shape, vt, w.target(vt));
    var i := Find(c.live, shape, vt);
    forall e | e in d.live ensures Current(w, e) {
      if c.state != Megamorphic && i < |c.live| {
        assert c.live[i] in c.live;
        var j :| 0 <= j < |d.live| && d.live[j] == e;
        if j != i {
          assert c.live[j] in c.live;
        }
      }
    }
  }

  /** Changing a class and invalidating its entries drops exactly those, and the others are still current. */
  lemma ChangeKeeps<T(!new)>(w: World<T>, v: World<T>, c: Cache<T>, vt: nat)
    requires Sound(w, c) && vt != NULL
    requires v.classOf == w.classOf && forall u :: u != vt ==> v.target(u) == w.target(u)
    ensures Sound(v, Invalidate(c, vt))
    ensures forall e :: e in Invalidate(c, vt).live <==> e in c.live && e.vtable != vt
  {
    forall e ensures e in Invalidate(c, vt).live <==> e in c.live && e.vtable != vt {
      WithoutHas(c.live, vt, e);
    }
    forall e | e in Invalidate(c, vt).live ensures Current(v, e) {
      assert Current(w, e);
    }
  }

  /** A hit is the receiver's current target. */
  lemma HitIsCurrent<T(!new)>(w: World<T>, c: Cache<T>, shape: nat, vt: nat)
    requires Sound(w, c) && Receiver(w, shape, vt)
    ensures Probe(c, shape, vt).Hit? ==> Probe(c, shape, vt).entry.target == w.target(vt)
  {
    var i := Find(c.live, shape, vt);
    if i < |c.live| {
      assert c.live[i] in c.live;
    }
  }

  // -------------------------------------------------------------- whole runs

  /** What happens at a call site and to the classes. */
  datatype Event<T> =
    | Call(shape: nat, vt: nat)                // probe, and update on a miss
    | Change(vt: nat, target: T)               // a class changes, then its entries are invalidated

  datatype System<T> = System(world: World<T>, cache: Cache<T>)

  function Changed<T(!new)>(w: World<T>, vt: nat, target: T): World<T> {
    w.(target := (u: nat) => if u == vt then target else w.target(u))
  }

  function Next<T(!new)>(s: System<T>, ev: Event<T>): System<T> {
    match ev
    case Call(shape, vt) =>
      if Probe(s.cache, shape, vt).Hit? then s
      else s.(cache := Update(s.cache, shape, vt, s.world.target(vt)))
    case Change(vt, target) => System(Changed(s.world, vt, target), Invalidate(s.cache, vt))
  }

  function Run<T(!new)>(s: System<T>, events: seq<Event<T>>): System<T>
    decreases |events|
  {
    if events == [] then s else Next(Run(s, events[..|events| - 1]), events[|events| - 1])
  }

  predicate Proper<T(!new)>(w: World<T>, ev: Event<T>) {
    match ev
    case Call(shape, vt) => Receiver(w, shape, vt)
    case Change(vt, _) => vt != NULL
  }

  lemma {:induction false} RunIsSound<T(!new)>(w: World<T>, events: seq<Event<T>>)
    requires forall i :: 0 <= i < |events| ==> Proper(w, events[i])
    ensures var s := Run(System(w, Cache(Uninitialized, [])), events);
      Sound(s.world, s.cache) && s.world.classOf == w.classOf
    decreases |events|
  {
    if events != [] {
      var s := Run(System(w, Cache(Uninitialized, [])), events[..|events| - 1]);
      var ev := events[|events| - 1];
      RunIsSound(w, events[..|events| - 1]);
      assert Proper(w, ev);
      match ev
      case Call(shape, vt) => UpdateKeeps(s.world, s.cache, shape, vt);
      case Change(vt, target) => ChangeKeeps(s.world, Changed(s.world, vt, target), s.cache, vt);
    }
  }

  /** After any run of calls and class changes, a hit returns the receiver's current target. */
  lemma HitsAreCurrent<T(!new)>(w: World<T>, events: seq<Event<T>>, shape: nat, vt: nat)
    requires forall i :: 0 <= i < |events| ==> Proper(w, events[i])
    requires Receiver(w, shape, vt)
    ensures var s := Run(System(w, Cache(Uninitialized, [])), events);
      Probe(s.cache, shape, vt).Hit? ==> Probe(s.cache, shape, vt).entry.target == s.world.target(vt)
  {
    RunIsSound(w, events);
    var s := Run(System(w, Cache(Uninitialized, [])), events);
    HitIsCurrent(s.world, s.cache, shape, vt);
  }

  // ------------------------------------------------------------ megamorphic

  function Classes<T(!new)>(live: seq<Entry<T>>): set<nat> {
    set i | 0 <= i < |live| :: live[i].vtable
  }

  /** The classes of the receivers of some calls. */
  function Called<T(!new)>(events: seq<Event<T>>): set<nat> {
    set i | 0 <= i < |events| && events[i].Call? :: events[i].vt
  }

  predicate OneEach<T(!new)>(live: seq<Entry<T>>) {
    forall i, j :: 0 <= i < j < |live| ==> live[i].vtable != live[j].vtable
  }

  lemma ClassesAppend<T(!new)>(live: seq<Entry<T>>, e: Entry<T>)
    ensures Classes(live + [e]) == Classes(live) + {e.vtable}
  {
    var r := live + [e];
    assert r[|live|].vtable in Classes(r);
    forall i | 0 <= i < |live| ensures live[i].vtable in Classes(r) {
      assert r[i] == live[i];
    }
  }

  lemma CalledAppend<T(!new)>(events: seq<Event<T>>, shape: nat, vt: nat)
    ensures Called(events + [Call(shape, vt)]) == Called(events) + {vt}
  {
    var r := events + [Call(shape, vt)];
    assert r[|events|].Call? && r[|events|].vt in Called(r);
    forall i | 0 <= i < |events| && events[i].Call? ensures events[i].vt in Called(r) {
      assert r[i] == events[i];
    }
  }

  lemma OneMoreClass(all: set<nat>, vt: nat)
    ensures |all| <= |all + {vt}| <= |all| + 1
  {
    if vt in all {
      assert all + {vt} == all;
    }
  }

  lemma {:induction false} AsManyClasses<T(!new)>(live: seq<Entry<T>>)
    requires OneEach(live)
    ensures |Classes(live)| == |live|
    decreases |live|
  {
    if live != [] {
      var n := |live| - 1;
      AsManyClasses(live[..n]);
      ClassesAppend(live[..n], live[n]);
      assert live == live[..n] + [live[n]];
    }
  }

  /** A receiver of class `vt` is found if and only if its class has an entry. */
  lemma FoundIff<T(!new)>(w: World<T>, c: Cache<T>, shape: nat, vt: nat)
    requires Sound(w, c) && Receiver(w, shape, vt)
    ensures Find(c.live, shape, vt) < |c.live| <==> vt in Classes(c.live)
  {
    var i := Find(c.live, shape, vt);
    if i < |c.live| {
      assert c.live[i] in c.live;
    } else {
      forall j | 0 <= j < |c.live| ensures c.live[j].vtable != vt {
      }
    }
  }

  /** Where calls of the classes `all` have led from `s`. */
  ghost predicate Tracks<T(!new)>(s: System<T>, r: System<T>, all: set<nat>) {
    && r.world == s.world && Sound(r.world, r.cache) && OneEach(r.cache.live)
    && (r.cache.state == Megamorphic <==> |all| > MAX_PIC_ENTRIES)
    && (r.cache.state != Megamorphic ==> Classes(r.cache.live) == all)
  }

  lemma CallHits<T(!new)>(s: System<T>, shape: nat, vt: nat)
    requires Sound(s.world, s.cache) && OneEach(s.cache.live) && s.cache.state != Megamorphic && Receiver(s.world, shape, vt)
    requires vt in Classes(s.cache.live)
    ensures Next(s, Call(shape, vt)) == s && Classes(s.cache.live) + {vt} == Classes(s.cache.live)
  {
    FoundIff(s.world, s.cache, shape, vt);
  }

  lemma CallMisses<T(!new)>(s: System<T>, shape: nat, vt: nat)
    requires Sound(s.world, s.cache) && s.cache.state != Megamorphic && Receiver(s.world, shape, vt)
    requires vt !in Classes(s.cache.live)
    ensures Next(s, Call(shape, vt)).cache ==
            if |s.cache.live| < MAX_PIC_ENTRIES
            then Cache(StateFor(|s.cache.live| + 1), s.cache.live + [Entry(shape, vt, s.world.target(vt))])
            else s.cache.(state := Megamorphic)
    ensures Sound(s.world, Next(s, Call(shape, vt)).cache)
  {
    FoundIff(s.world, s.cache, shape, vt);
    UpdateKeeps(s.world, s.cache, shape, vt);
  }

  lemma OneEachAppend<T(!new)>(live: seq<Entry<T>>, e: Entry<T>)
    requires OneEach(live) && e.vtable !in Classes(live)
    ensures OneEach(live + [e])
  {
  }

  /** One call of a site that is not megamorphic. */
  lemma CallAdds<T(!new)>(s: System<T>, shape: nat, vt: nat)
    requires Sound(s.world, s.cache) && OneEach(s.cache.live) && s.cache.state != Megamorphic && Receiver(s.world, shape, vt)
    ensures Tracks(s, Next(s, Call(shape, vt)), Classes(s.cache.live) + {vt})
  {
    AsManyClasses(s.cache.live);
    if vt in Classes(s.cache.live) {
      CallHits(s, shape, vt);
    } else {
      CallMisses(s, shape, vt);
      OneEachAppend(s.cache.live, Entry(shape, vt, s.world.target(vt)));
      ClassesAppend(s.cache.live, Entry(shape, vt, s.world.target(vt)));
    }
  }

  lemma MegamorphicStays<T(!new)>(s: System<T>, shape: nat, vt: nat)
    requires s.cache.state == Megamorphic
    ensures Next(s, Call(shape, vt)) == s
  {
  }

  lemma OneMoreCall<T(!new)>(s: System<T>, r: System<T>, all: set<nat>, shape: nat, vt: nat)
    requires Tracks(s, r, all) && Receiver(s.world, shape, vt)
    ensures Tracks(s, Next(r, Call(shape, vt)), all + {vt})
  {
    if r.cache.state == Megamorphic {
      MegamorphicStays(r, shape, vt);
      OneMoreClass(all, vt);
    } else {
      CallAdds(r, shape, vt);
    }
  }

  lemma RunNext<T(!new)>(s: System<T>, events: seq<Event<T>>, ev: Event<T>)
    ensures Run(s, events + [ev]) == Next(Run(s, events), ev)
  {
    assert (events + [ev])[..|events|] == events;
  }

  lemma AfterOneMore<T(!new)>(s: System<T>, calls: seq<Event<T>>, all: set<nat>, shape: nat, vt: nat)
    requires Tracks(s, Run(s, calls), all) && Receiver(s.world, shape, vt)
    ensures Tracks(s, Run(s, calls + [Call(shape, vt)]), all + {vt})
  {
    RunNext(s, calls, Call(shape, vt));
    OneMoreCall(s, Run(s, calls), all, shape, vt);
  }

  lemma AllOfThem<T(!new)>(had: set<nat>, calls: seq<Event<T>>, shape: nat, vt: nat)
    ensures had + Called(calls + [Call(shape, vt)]) == had + Called(calls) + {vt}
  {
    CalledAppend(calls, shape, vt);
  }

  ghost predicate AllCalls<T(!new)>(w: World<T>, calls: seq<Event<T>>) {
    forall i :: 0 <= i < |calls| ==> calls[i].Call? && Receiver(w, calls[i].shape, calls[i].vt)
  }

  lemma NoCallsYet<T(!new)>(s: System<T>, calls: seq<Event<T>>)
    requires Sound(s.world, s.cache) && OneEach(s.cache.live) && s.cache.state != Megamorphic && calls == []
    ensures Tracks(s, Run(s, calls), Classes(s.cache.live) + Called(calls))
  {
    AsManyClasses(s.cache.live);
    assert Classes(s.cache.live) + Called(calls) == Classes(s.cache.live);
  }

  lemma LastCall<T(!new)>(s: System<T>, calls: seq<Event<T>>, before: seq<Event<T>>, last: Event<T>)
    requires calls == before + [last] && last.Call? && Receiver(s.world, last.shape, last.vt)
    requires Tracks(s, Run(s, before), Classes(s.cache.live) + Called(before))
    ensures Tracks(s, Run(s, calls), Classes(s.cache.live) + Called(calls))
  {
    assert last == Call(last.shape, last.vt);
    AllOfThem(Classes(s.cache.live), before, last.shape, last.vt);
    AfterOneMore(s, before, Classes(s.cache.live) + Called(before), last.shape, last.vt);
  }

  lemma LastIsCall<T(!new)>(w: World<T>, calls: seq<Event<T>>, n: nat)
    requires AllCalls(w, calls) && n + 1 == |calls|
    ensures AllCalls(w, calls[..n]) && calls == calls[..n] + [calls[n]]
    ensures calls[n].Call? && Receiver(w, calls[n].shape, calls[n].vt)
  {
  }

  /** Since the last change of a class, a site has become megamorphic if and only if more than four
      classes were called or had an entry then; otherwise it has an entry for exactly those. */
  lemma {:induction false} MegamorphicIff<T(!new)>(s: System<T>, calls: seq<Event<T>>)
    requires Sound(s.world, s.cache) && OneEach(s.cache.live) && s.cache.state != Megamorphic && AllCalls(s.world, calls)
    ensures Tracks(s, Run(s, calls), Classes(s.cache.live) + Called(calls))
    decreases |calls|
  {
    if calls == [] {
      NoCallsYet(s, calls);
    } else {
      LastIsCall(s.world, calls, |calls| - 1);
      MegamorphicIff(s, calls[..|calls| - 1]);
      LastCall(s, calls, calls[..|calls| - 1], calls[|calls| - 1]);
    }
  }

  /** A receiver hits if and only if the site is not megamorphic and the receiver's class has an entry. */
  lemma HitIff<T(!new)>(w: World<T>, c: Cache<T>, shape: nat, vt: nat)
    requires Sound(w, c) && Receiver(w, shape, vt)
    ensures Probe(c, shape, vt).Hit? <==> c.state != Megamorphic && vt in Classes(c.live)
  {
    FoundIff(w, c, shape, vt);
  }

  /** Since the last change of a class, a call hits if and only if at most four classes have been
      called or had an entry then, and the receiver's is one of them; it is then answered with the
      current target. */
  lemma CallHitsIff<T(!new)>(s: System<T>, calls: seq<Event<T>>, shape: nat, vt: nat)
    requires Sound(s.world, s.cache) && OneEach(s.cache.live) && s.cache.state != Megamorphic && AllCalls(s.world, calls)
    requires Receiver(s.world, shape, vt)
    ensures var c, known := Run(s, calls).cache, Classes(s.cache.live) + Called(calls);
      && (Probe(c, shape, vt).Hit? <==> |known| <= 4 && vt in known)
      && (Probe(c, shape, vt).Hit? ==> Probe(c, shape, vt).entry.target == s.world.target(vt))
  {
    MegamorphicIff(s, calls);
    HitIff(s.world, Run(s, calls).cache, shape, vt);
    HitIsCurrent(s.world, Run(s, calls).cache, shape, vt);
  }

  /** The entry that `update` touches. */
  predicate Touches<T(!new)>(c: Cache<T>, i: nat, shape: nat, vt: nat) {
    i < |c.live| && Matches(c.live[i], shape, vt) && forall j :: 0 <= j < i ==> !Matches(c.live[j], shape, vt)
  }

  /** After an update, with whatever target, the receiver hits with that target, unless there was
      neither an entry of it nor room for one: then, and then only, the site is megamorphic. All
      entries but that one are as before. */
  lemma UpdateIs<T(!new)>(c: Cache<T>, shape: nat, vt: nat, target: T)
    requires Agrees(c) && c.state != Megamorphic && (shape > 0 || vt != NULL)
    ensures var d, known := Update(c, shape, vt, target), exists i: nat :: Touches(c, i, shape, vt);
      && Agrees(d) && (d.state == Megamorphic <==> !known && |c.live| == 4)
      && (d.state == Megamorphic ==> d.live == c.live)
      && (d.state != Megamorphic ==> Probe(d, shape, vt).Hit? && Probe(d, shape, vt).entry.target == target)
      && (!known && |c.live| < 4 ==> d.live == c.live + [Entry(shape, vt, target)])
      && forall i: nat :: Touches(c, i, shape, vt) ==> d.live == c.live[i := c.live[i].(target := target)]
  {
    var i := Find(c.live, shape, vt);
    var d := Update(c, shape, vt, target);
    if i < |c.live| {
      assert Touches(c, i, shape, vt);
      FindIs(d.live, shape, vt, i);
    } else if |c.live| < 4 {
      FindIs(d.live, shape, vt, |c.live|);
    }
  }

  lemma {:induction false} WithoutOneEach<T(!new)>(live: seq<Entry<T>>, vt: nat)
    requires OneEach(live)
    ensures OneEach(Without(live, vt))
    decreases |live|
  {
    if live != [] {
      var n := |live| - 1;
      WithoutOneEach(live[..n], vt);
      forall e | e in Without(live[..n], vt) ensures e.vtable != live[n].vtable {
        WithoutHas(live[..n], vt, e);
      }
    }
  }

  /** No class ever has two entries. */
  lemma {:induction false} RunKeepsOneEach<T(!new)>(w: World<T>, events: seq<Event<T>>)
    requires forall i :: 0 <= i < |events| ==> Proper(w, events[i])
    ensures OneEach(Run(System(w, Cache(Uninitialized, [])), events).cache.live)
    decreases |events|
  {
    if events != [] {
      var before, ev := events[..|events| - 1], events[|events| - 1];
      var s := Run(System(w, Cache(Uninitialized, [])), before);
      RunKeepsOneEach(w, before);
      RunIsSound(w, before);
      assert Proper(w, ev);
      match ev
      case Call(shape, vt) =>
        if s.cache.state == Megamorphic {
          MegamorphicStays(s, shape, vt);
        } else {
          CallAdds(s, shape, vt);
        }
      case Change(vt, _) => WithoutOneEach(s.cache.live, vt);
    }
  }

  lemma ClassesWithout<T(!new)>(live: seq<Entry<T>>, vt: nat)
    ensures Classes(Without(live, vt)) == Classes(live) - {vt}
  {
    var kept := Without(live, vt);
    forall i | 0 <= i < |kept| ensures kept[i].vtable in Classes(live) - {vt} {
      WithoutHas(live, vt, kept[i]);
      var j :| 0 <= j < |live| && live[j] == kept[i];
    }
    forall j | 0 <= j < |live| && live[j].vtable != vt ensures live[j].vtable in Classes(kept) {
      WithoutHas(live, vt, live[j]);
      var i :| 0 <= i < |kept| && kept[i] == live[j];
    }
  }

  /** A change of any class, after any run, starts the count of `MegamorphicIff` anew. */
  lemma ChangeStartsAnew<T(!new)>(w: World<T>, events: seq<Event<T>>, vt: nat, target: T)
    requires forall i :: 0 <= i < |events| ==> Proper(w, events[i])
    requires vt != NULL
    ensures var s := Next(Run(System(w, Cache(Uninitialized, [])), events), Change(vt, target));
      && Sound(s.world, s.cache) && OneEach(s.cache.live) && s.cache.state != Megamorphic
      && Classes(s.cache.live) == Classes(Run(System(w, Cache(Uninitialized, [])), events).cache.live) - {vt}
  {
    var s := Run(System(w, Cache(Uninitialized, [])), events);
    ClassesWithout(s.cache.live, vt);
    RunIsSound(w, events);
    RunKeepsOneEach(w, events);
    ChangeKeeps(s.world, Changed(s.world, vt, target), s.cache, vt);
    WithoutOneEach(s.cache.live, vt);
  }

  // ------------------------------------------------------------- the object

  class MethodIC<T(0,!new)> {
    var state: ICState
    var count: nat
    var hits: nat
    var misses: nat
    const entries: array<Entry<T>>

    ghost predicate Valid()
      reads this
    {
      entries.Length == MAX_PIC_ENTRIES && count <= MAX_PIC_ENTRIES
    }

    ghost function Abs(): Cache<T>
      requires Valid()
      reads this, entries
    {
      Cache(state, entries[..count])
    }

    constructor (blank: T)
      ensures Valid() && fresh(entries) && Abs() == Cache(Uninitialized, [])
    {
      state, count, hits, misses := Uninitialized, 0, 0, 0;
      entries := new Entry<T>[MAX_PIC_ENTRIES](_ => Entry(0, NULL, blank));
    }

    method ProbeEntry(shape: nat, vt: nat) returns (hit: Hit<T>)
      requires Valid()
      modifies this`hits, this`misses
      ensures Abs() == old(Abs()) && hit == Probe(Abs(), shape, vt)
      ensures hits == if hit.Hit? then (old(hits) + 1) % 0x1_0000 else old(hits)
      ensures misses == if hit.Hit? then old(misses) else (old(misses) + 1) % 0x1_0000
    {
      if state == Uninitialized || state == Megamorphic {
        misses := (misses + 1) % 0x1_0000;
        return Miss;
      }
      var i := 0;
      while i < count
        invariant 0 <= i <= count
        invariant forall j :: 0 <= j < i ==> !Matches(entries[j], shape, vt)
      {
        if Matches(entries[i], shape, vt) {
          FindIs(entries[..count], shape, vt, i);
          hits := (hits + 1) % 0x1_0000;
          return Hit(entries[i]);
        }
        i := i + 1;
      }
      FindIs(entries[..count], shape, vt, count);
      misses := (misses + 1) % 0x1_0000;
      return Miss;
    }

    method UpdateEntry(shape: nat, vt: nat, target: T) returns (ok: bool)
      requires Valid()
      modifies this`state, this`count, entries
      ensures Valid() && Abs() == Update(old(Abs()), shape, vt, target)
      ensures ok <==> state != Megamorphic
    {
      if state == Megamorphic {
        return false;
      }
      var i := 0;
      while i < count
        invariant 0 <= i <= count == old(count) && state == old(state)
        invariant entries[..] == old(entries[..])
        invariant forall j :: 0 <= j < i ==> !Matches(entries[j], shape, vt)
      {
        if Matches(entries[i], shape, vt) {
          FindIs(entries[..count], shape, vt, i);
          entries[i] := entries[i].(target := target);
          assert entries[..count] == old(entries[..count])[i := entries[i]];
          return true;
        }
        i := i + 1;
      }
      FindIs(entries[..count], shape, vt, count);
      if count < MAX_PIC_ENTRIES {
        entries[count] := Entry(shape, vt, target);
        count := count + 1;
        state := if count == 1 then Monomorphic else Polymorphic;
        return true;
      }
      state := Megamorphic;
      return false;
    }

    /** One round of the compaction: entry `i` goes to place `write` unless it is dropped. */
    method KeepOrDrop(vt: nat, write: nat, i: nat) returns (next: nat)
      requires Valid() && write <= i < count
      modifies entries
      ensures next == if old(entries[i]).vtable != vt then write + 1 else write
      ensures next == write + 1 ==> entries[write] == old(entries[i])
      ensures forall k :: 0 <= k < entries.Length && (k != write || next == write) ==> entries[k] == old(entries[k])
    {
      if entries[i].vtable != vt {
        if write != i {
          entries[write] := entries[i];
        }
        return write + 1;
      }
      return write;
    }

    /** Compacts the entries in place, dropping those of one virtual table. */
    method InvalidateVtable(vt: nat)
      requires Valid()
      modifies this`state, this`count, entries
      ensures Valid() && Abs() == Invalidate(old(Abs()), vt)
    {
      if vt == NULL {
        return;
      }
      ghost var was, kept := entries[..count], [];
      var write := 0;
      var i := 0;
      while i < count
        invariant 0 <= write <= i <= count == old(count)
        invariant kept == Without(was[..i], vt) && |kept| == write
        invariant forall k :: 0 <= k < write ==> entries[k] == kept[k]
        invariant forall k :: i <= k < count ==> entries[k] == was[k]
      {
        WithoutStep(was, vt, i);
        kept := Without(was[..i + 1], vt);
        write := KeepOrDrop(vt, write, i);
        i := i + 1;
      }
      assert was[..count] == was;
      assert entries[..write] == kept;
      count := write;
      state := if count == 0 then Uninitialized else if count == 1 then Monomorphic else Polymorphic;
    }
  }
}
