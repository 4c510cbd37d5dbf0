/**
 The set-associative cache model: what its move-to-front arrays mean in terms of
 recency of use, and why more ways never hurt.
 */
module Lru {
  type Lines = seq<nat>

  function Zeros(n: nat): Lines {
    seq(n, _ => 0)
  }

  function FirstIndex(l: Lines, a: nat): (p: nat)
    ensures p <= |l|
    ensures forall i :: 0 <= i < p ==> l[i] != a
    ensures p < |l| ==> l[p] == a
    decreases |l|
  {
    if l == [] || l[0] == a then 0 else 1 + FirstIndex(l[1..], a)
  }

  lemma FirstIndexIs(l: Lines, a: nat, p: nat)
    requires p <= |l| && (forall i :: 0 <= i < p ==> l[i] != a) && (p < |l| ==> l[p] == a)
    ensures FirstIndex(l, a) == p
  {
  }

  /** Everything before position `p` moves one place back and `a` goes to the front. */
  function Shifted(l: Lines, p: nat, a: nat): Lines
    requires p < |l|
  {
    [a] + l[..p] + l[p + 1..]
  }

  /** One access: a hit is promoted, a miss evicts the last line. */
  function Touch(l: Lines, a: nat): Lines
    requires l != []
  {
    var p := FirstIndex(l, a);
    Shifted(l, if p < |l| then p else |l| - 1, a)
  }

  /** One set of `ways` lines after the accesses `t`, from an empty (all-zero) start. */
  function SetAfter(ways: nat, t: seq<nat>): (l: Lines)
    requires ways >= 1
    ensures |l| == ways
    decreases |t|
  {
    if t == [] then Zeros(ways) else Touch(SetAfter(ways, t[..|t| - 1]), t[|t| - 1])
  }

  // ---------------------------------------------------------------- recency

  function Without(l: Lines, a: nat): Lines {
    var p := FirstIndex(l, a);
    if p < |l| then l[..p] + l[p + 1..] else l
  }

  /** The distinct lines of `t`, most recently used first. */
  function Recency(t: seq<nat>): Lines
    decreases |t|
  {
    if t == [] then [] else [t[|t| - 1]] + Without(Recency(t[..|t| - 1]), t[|t| - 1])
  }

  /** The position after the last use of `a`, zero if it was never used. */
  function LastUse(t: seq<nat>, a: nat): (u: nat)
    ensures u <= |t|
    ensures u > 0 ==> t[u - 1] == a
    ensures forall i :: u <= i < |t| ==> t[i] != a
    decreases |t|
  {
    if t == [] then 0 else if t[|t| - 1] == a then |t| else LastUse(t[..|t| - 1], a)
  }

  /** The lines used since the last use of `a`. */
  function Since(t: seq<nat>, a: nat): set<nat> {
    set i | LastUse(t, a) <= i < |t| :: t[i]
  }

  predicate Distinct(l: Lines) {
    forall i, j :: 0 <= i < j < |l| ==> l[i] != l[j]
  }

  function Elements(l: Lines): set<nat> {
    set x | x in l
  }

  lemma {:induction false} DistinctCount(l: Lines)
    requires Distinct(l)
    ensures |Elements(l)| == |l|
    decreases |l|
  {
    if l != [] {
      var n := |l| - 1;
      DistinctCount(l[..n]);
      assert Elements(l) == Elements(l[..n]) + {l[n]};
    }
  }

  lemma WithoutFacts(l: Lines, a: nat)
    requires Distinct(l)
    ensures Distinct(Without(l, a)) && a !in Without(l, a)
    ensures forall x :: x in Without(l, a) <==> x in l && x != a
  {
    var p := FirstIndex(l, a);
    if p < |l| {
      var w := Without(l, a);
      forall x ensures x in w <==> x in l && x != a {
        if x in l && x != a {
          var i :| 0 <= i < |l| && l[i] == x;
          assert i < p ==> w[i] == x;
          assert i > p ==> w[i - 1] == x;
        }
      }
    }
  }

  lemma LastAppended(t: seq<nat>, x: nat)
    requires t != []
    ensures x in t <==> x in t[..|t| - 1] || x == t[|t| - 1]
  {
    assert t == t[..|t| - 1] + [t[|t| - 1]];
  }

  /** The recency list has each used line exactly once. */
  lemma {:induction false} RecencyFacts(t: seq<nat>)
    ensures Distinct(Recency(t)) && forall x :: x in Recency(t) <==> x in t
    decreases |t|
  {
    if t != [] {
      var n := |t| - 1;
      var rest := Without(Recency(t[..n]), t[n]);
      RecencyFacts(t[..n]);
      WithoutFacts(Recency(t[..n]), t[n]);
      assert Recency(t) == [t[n]] + rest;
      DistinctCons(t[n], rest);
      forall x ensures x in Recency(t) <==> x in t {
        LastAppended(t, x);
        assert x in [t[n]] + rest <==> x == t[n] || x in rest;
      }
    }
  }

  lemma DistinctCons(a: nat, l: Lines)
    requires Distinct(l) && a !in l
    ensures Distinct([a] + l)
  {
  }

  /** Ahead of a used line in the recency list stand exactly the lines used since. */
  lemma {:induction false} AheadAreSince(t: seq<nat>, a: nat)
    requires a in t
    ensures FirstIndex(Recency(t), a) < |Recency(t)|
    ensures Elements(Recency(t)[..FirstIndex(Recency(t), a)]) == Since(t, a)
    decreases |t|
  {
    var n := |t| - 1;
    var b := t[n];
    if b == a {
      FirstIndexIs(Recency(t), a, 0);
    } else {
      assert t == t[..n] + [b];
      assert a in t[..n];
      AheadAreSince(t[..n], a);
      RecencyFacts(t[..n]);
      FrontMoves(Recency(t[..n]), a, b, FirstIndex(Recency(t[..n]), a));
      SinceGrows(t, a);
    }
  }

  lemma SinceGrows(t: seq<nat>, a: nat)
    requires t != [] && t[|t| - 1] != a
    ensures Since(t, a) == Since(t[..|t| - 1], a) + {t[|t| - 1]}
  {
    var n := |t| - 1;
    var u := LastUse(t[..n], a);
    assert LastUse(t, a) == u;
    forall x | x in Since(t, a) ensures x in Since(t[..n], a) + {t[n]} {
      var i :| u <= i < |t| && t[i] == x;
      assert i < n ==> t[..n][i] == x;
    }
    forall x | x in Since(t[..n], a) ensures x in Since(t, a) {
      var i :| u <= i < n && t[..n][i] == x;
      assert t[i] == x;
    }
    assert t[n] in Since(t, a);
  }

  lemma ElementsOfSum(u: Lines, v: Lines)
    ensures Elements(u + v) == Elements(u) + Elements(v)
  {
  }

  /** Moving `b` to the front adds it to the lines ahead of `a`. */
  lemma FrontMoves(r: Lines, a: nat, b: nat, i: nat)
    requires Distinct(r) && a != b && i < |r| && FirstIndex(r, a) == i
    ensures var s := [b] + Without(r, b);
      && FirstIndex(s, a) < |s|
      && Elements(s[..FirstIndex(s, a)]) == Elements(r[..i]) + {b}
  {
    var p := FirstIndex(r, b);
    if p < i {
      MovedFromAhead(r, a, b, i, p);
    } else {
      MovedFromBehind(r, a, b, i, Without(r, b));
    }
  }

  lemma MovedFromAhead(r: Lines, a: nat, b: nat, i: nat, p: nat)
    requires p < i < |r| && r[p] == b && r[i] == a && Distinct(r) && a != b
    ensures var s := [b] + (r[..p] + r[p + 1..]);
      FirstIndex(s, a) == i && Elements(s[..i]) == Elements(r[..i]) + {b}
  {
    var s := [b] + (r[..p] + r[p + 1..]);
    FirstIndexIs(s, a, i);
    var u, v := r[..p], r[p + 1..i];
    assert r[..i] == u + ([b] + v) && s[..i] == [b] + (u + v);
    ElementsOfSum(u, [b] + v);
    ElementsOfSum([b], v);
    ElementsOfSum([b], u + v);
    ElementsOfSum(u, v);
    assert Elements([b]) == {b};
  }

  lemma MovedFromBehind(r: Lines, a: nat, b: nat, i: nat, w: Lines)
    requires i < |r| && i < |w| && r[i] == a && w[..i + 1] == r[..i + 1] && a != b
    requires forall j :: 0 <= j < i ==> r[j] != a
    ensures var s := [b] + w;
      FirstIndex(s, a) == i + 1 && Elements(s[..i + 1]) == Elements(r[..i]) + {b}
  {
    var s := [b] + w;
    forall j | 0 <= j <= i ensures w[j] == r[j] {
      assert w[..i + 1][j] == r[..i + 1][j];
    }
    FirstIndexIs(s, a, i + 1);
    assert s[..i + 1] == [b] + r[..i];
    ElementsOfSum([b], r[..i]);
    assert Elements([b]) == {b};
  }

  // ------------------------------------------------------- the cache's lines

  lemma TouchPrefix(u: Lines, l: Lines, a: nat)
    requires u != [] && u <= l
    ensures Touch(u, a) <= Touch(l, a)
  {
    var p, w := FirstIndex(l, a), |u|;
    assert u == l[..w];
    FirstIndexIs(u, a, if p < w then p else w);
  }

  /** A set with fewer ways always holds the first lines of one with more. */
  lemma {:induction false} NarrowIsPrefix(ways: nat, wider: nat, t: seq<nat>)
    requires 1 <= ways <= wider
    ensures SetAfter(ways, t) == SetAfter(wider, t)[..ways]
    decreases |t|
  {
    if t == [] {
    } else {
      var s, a := t[..|t| - 1], t[|t| - 1];
      NarrowIsPrefix(ways, wider, s);
      PrefixAfterTouch(SetAfter(ways, s), SetAfter(wider, s), a);
    }
  }

  lemma PrefixAfterTouch(u: Lines, l: Lines, a: nat)
    requires u != [] && |u| <= |l| && u == l[..|u|]
    ensures |Touch(l, a)| == |l| && Touch(u, a) == Touch(l, a)[..|u|]
  {
    TouchPrefix(u, l, a);
  }

  /** Before it fills up, a set looks like a recency list padded with zeros. */
  function Padded(ways: nat, t: seq<nat>): (l: Lines)
    ensures |l| >= ways
  {
    Recency(t) + Zeros(ways)
  }

  /** A line not used before takes the first way not yet used, or evicts. */
  lemma TouchUnused(ways: nat, r: Lines, a: nat)
    requires ways >= 1 && a !in r
    ensures Touch(r + Zeros(ways), a)[..ways] == ([a] + r + Zeros(ways))[..ways]
  {
    var l := r + Zeros(ways);
    assert forall i :: 0 <= i < |r| ==> l[i] == r[i] && r[i] in r;
    var m := [a] + r + Zeros(ways - 1);
    assert [a] + r + Zeros(ways) == m + [0];
    if a == 0 {
      FirstIndexIs(l, a, |r|);
      assert l[..|r|] == r && l[|r| + 1..] == Zeros(ways - 1);
    } else {
      FirstIndexIs(l, a, |l|);
      assert l[..|l| - 1] == r + Zeros(ways - 1) && l[|l|..] == [];
      assert Touch(l, a) == [a] + (r + Zeros(ways - 1));
    }
  }

  lemma TouchUsed(r: Lines, z: Lines, a: nat)
    requires a in r
    ensures Touch(r + z, a) == [a] + Without(r, a) + z
  {
    var p := FirstIndex(r, a);
    FirstIndexIs(r + z, a, p);
    assert (r + z)[..p] == r[..p] && (r + z)[p + 1..] == r[p + 1..] + z;
  }

  lemma TouchPadded(ways: nat, r: Lines, a: nat)
    requires ways >= 1 && Distinct(r)
    ensures Touch(r + Zeros(ways), a)[..ways] == ([a] + Without(r, a) + Zeros(ways))[..ways]
  {
    if a in r {
      TouchUsed(r, Zeros(ways), a);
    } else {
      assert Without(r, a) == r;
      TouchUnused(ways, r, a);
    }
  }

  /** After any trace a set holds its most recently used distinct lines in recency
      order, and zeros in the ways not yet used. */
  lemma {:induction false} LinesAreMostRecent(ways: nat, t: seq<nat>)
    requires ways >= 1
    ensures SetAfter(ways, t) == Padded(ways, t)[..ways]
    decreases |t|
  {
    if t == [] {
      assert Recency(t) + Zeros(ways) == Zeros(ways);
    } else {
      var s, a := t[..|t| - 1], t[|t| - 1];
      LinesAreMostRecent(ways, s);
      RecencyFacts(s);
      TouchPrefix(SetAfter(ways, s), Padded(ways, s), a);
      TouchPadded(ways, Recency(s), a);
      assert SetAfter(ways, t) == Touch(Padded(ways, s), a)[..ways];
    }
  }

  /** A line other than zero is in the set exactly when it was used before and fewer
      than `ways` other lines were used since. */
  lemma HitIff(ways: nat, t: seq<nat>, a: nat)
    requires ways >= 1 && a != 0
    ensures a in SetAfter(ways, t) <==> a in t && |Since(t, a)| < ways
  {
    LinesAreMostRecent(ways, t);
    RecencyFacts(t);
    var r := Recency(t);
    var p := FirstIndex(r, a);
    FirstIndexIs(Padded(ways, t), a, if p < |r| then p else |Padded(ways, t)|);
    if a in t {
      AheadAreSince(t, a);
      DistinctCount(r[..p]);
      assert a in SetAfter(ways, t) <==> p < ways by {
        if p < ways {
          assert Padded(ways, t)[..ways][p] == a;
        }
      }
    }
  }

  /** Line zero cannot be told from a way not yet used: it hits exactly when fewer than `ways` other lines
      were used since its last use, or ever, even before its first use. */
  lemma ZeroHitIff(ways: nat, t: seq<nat>)
    requires ways >= 1
    ensures 0 in SetAfter(ways, t) <==> |Since(t, 0)| < ways
  {
    var r := Recency(t);
    LinesAreMostRecent(ways, t);
    RecencyFacts(t);
    if 0 in t {
      AheadAreSince(t, 0);
    } else {
      NeverUsed(t, 0, r);
    }
    DistinctCount(r[..FirstIndex(r, 0)]);
    ZeroInPadded(ways, r);
  }

  lemma NeverUsed(t: seq<nat>, a: nat, r: Lines)
    requires a !in t && forall x :: x in r <==> x in t
    ensures FirstIndex(r, a) == |r| && Elements(r[..|r|]) == Since(t, a)
  {
    FirstIndexIs(r, a, |r|);
    assert r[..|r|] == r;
    assert LastUse(t, a) == 0;
    forall x ensures x in Elements(r) <==> x in Since(t, a) {
      if x in r {
        var i :| 0 <= i < |t| && t[i] == x;
      }
    }
  }

  /** Zero is among the first lines of a padded list when it stands there, or when the list is short. */
  lemma ZeroInPadded(ways: nat, r: Lines)
    requires ways >= 1
    ensures 0 in (r + Zeros(ways))[..ways] <==> FirstIndex(r, 0) < ways
  {
    var l, p := r + Zeros(ways), FirstIndex(r, 0);
    assert l[p] == 0;
    assert forall i :: 0 <= i < p ==> l[i] == r[i];
    if p < ways {
      assert l[..ways][p] == 0;
    }
  }

  // ---------------------------------------------------------- whole caches

  /** The accesses of `t` that go to set `k`. */
  function SubTrace(t: seq<nat>, sets: nat, k: nat): seq<nat>
    requires sets >= 1
    decreases |t|
  {
    if t == [] then []
    else
      var s := SubTrace(t[..|t| - 1], sets, k);
      if t[|t| - 1] % sets == k then s + [t[|t| - 1]] else s
  }

  /** One more access changes its own set only. */
  lemma SetAfterAccess(ways: nat, sets: nat, t: seq<nat>, a: nat, k: nat)
    requires ways >= 1 && sets >= 1
    ensures var l := SetAfter(ways, SubTrace(t, sets, k));
      SetAfter(ways, SubTrace(t + [a], sets, k)) == if k == a % sets then Touch(l, a) else l
  {
    assert (t + [a])[..|t|] == t;
    var s := SubTrace(t, sets, k);
    assert (s + [a])[..|s|] == s;
  }

  lemma MissesAfterAccess(ways: nat, sets: nat, t: seq<nat>, a: nat)
    requires ways >= 1 && sets >= 1
    ensures Misses(ways, sets, t + [a]) == Misses(ways, sets, t) + if HitAfter(ways, sets, t, a) then 0 else 1
  {
    assert (t + [a])[..|t|] == t;
  }

  predicate HitAfter(ways: nat, sets: nat, t: seq<nat>, a: nat)
    requires ways >= 1 && sets >= 1
  {
    a in SetAfter(ways, SubTrace(t, sets, a % sets))
  }

  function Misses(ways: nat, sets: nat, t: seq<nat>): nat
    requires ways >= 1 && sets >= 1
    decreases |t|
  {
    if t == [] then 0
    else Misses(ways, sets, t[..|t| - 1]) + if HitAfter(ways, sets, t[..|t| - 1], t[|t| - 1]) then 0 else 1
  }

  /** With the same number of sets, more ways never mean more misses, on any trace. */
  lemma {:induction false} MoreWaysFewerMisses(ways: nat, wider: nat, sets: nat, t: seq<nat>)
    requires 1 <= ways <= wider && sets >= 1
    ensures Misses(wider, sets, t) <= Misses(ways, sets, t)
    decreases |t|
  {
    if t != [] {
      var s, a := t[..|t| - 1], t[|t| - 1];
      MoreWaysFewerMisses(ways, wider, sets, s);
      NarrowIsPrefix(ways, wider, SubTrace(s, sets, a % sets));
    }
  }

  lemma SubTraceHas(t: seq<nat>, sets: nat, k: nat, x: nat)
    requires sets >= 1
    ensures x in SubTrace(t, sets, k) <==> x in t && x % sets == k
    decreases |t|
  {
    if t != [] {
      LastAppended(t, x);
      SubTraceHas(t[..|t| - 1], sets, k, x);
    }
  }

  /** The lines of the set used since the last use of `a`. */
  function SinceInSet(t: seq<nat>, sets: nat, a: nat): set<nat>
    requires sets >= 1
  {
    set x | x in Since(t, a) && x % sets == a % sets
  }

  lemma {:induction false} SinceOfSubTrace(t: seq<nat>, sets: nat, a: nat)
    requires sets >= 1 && a in t
    ensures a in SubTrace(t, sets, a % sets)
    ensures Since(SubTrace(t, sets, a % sets), a) == SinceInSet(t, sets, a)
    decreases |t|
  {
    var n, k := |t| - 1, a % sets;
    var b := t[n];
    var s := SubTrace(t[..n], sets, k);
    SubTraceHas(t, sets, k, a);
    if b == a {
      assert (s + [a])[|s|] == a;
      assert Since(t, a) == {} && Since(s + [a], a) == {};
    } else {
      LastAppended(t, a);
      SinceOfSubTrace(t[..n], sets, a);
      SinceGrows(t, a);
      if b % sets == k {
        assert (s + [b])[..|s|] == s;
        SinceGrows(s + [b], a);
      }
    }
  }

  /** In the whole cache: a line other than zero hits exactly when it was used before, and since then
      fewer than `ways` other lines were whose number has the same remainder by the number of sets. */
  lemma CacheHitIff(ways: nat, sets: nat, t: seq<nat>, a: nat)
    requires ways >= 1 && sets >= 1 && a != 0
    ensures HitAfter(ways, sets, t, a) <==> a in t && |SinceInSet(t, sets, a)| < ways
  {
    HitIff(ways, SubTrace(t, sets, a % sets), a);
    SubTraceHas(t, sets, a % sets, a);
    if a in t {
      SinceOfSubTrace(t, sets, a);
    }
  }

  // ------------------------------------------------------------- the object

  class CacheModel {
    const lineSize: nat
    const numSets: nat
    const ways: nat
    const lines: array2<nat>
    var accesses: nat
    var misses: nat
    /** The lines accessed since construction or the last reset. */
    ghost var trace: seq<nat>

    function SetLines(k: nat): (l: Lines)
      requires k < lines.Length0
      reads lines
      ensures |l| == lines.Length1
    {
      seq(lines.Length1, i requires 0 <= i < lines.Length1 reads lines => lines[k, i])
    }

    ghost predicate Valid()
      reads this, lines
    {
      && lineSize >= 1 && numSets >= 1 && ways >= 1
      && lines.Length0 == numSets && lines.Length1 == ways
      && accesses == |trace| && misses == Misses(ways, numSets, trace)
      && forall k :: 0 <= k < numSets ==> SetLines(k) == SetAfter(ways, SubTrace(trace, numSets, k))
    }

    constructor (totalSize: nat, waysCount: nat, lineSz: nat)
      requires waysCount >= 1 && lineSz >= 1 && lineSz * waysCount <= totalSize
      ensures Valid() && fresh(lines) && trace == []
      ensures lineSize == lineSz && ways == waysCount && numSets == totalSize / (lineSz * waysCount)
    {
      AtLeastOneSet(totalSize, lineSz * waysCount);
      lineSize, ways := lineSz, waysCount;
      numSets := totalSize / (lineSz * waysCount);
      lines := new nat[totalSize / (lineSz * waysCount), waysCount]((_, _) => 0);
      accesses, misses, trace := 0, 0, [];
    }

    method Reset()
      requires Valid()
      modifies this`accesses, this`misses, this`trace, lines
      ensures Valid() && trace == []
    {
      forall k, i | 0 <= k < lines.Length0 && 0 <= i < lines.Length1 {
        lines[k, i] := 0;
      }
      accesses, misses, trace := 0, 0, [];
    }

    /** Moves the lines before position `p` back by one and puts `a` in front. */
    method Shift(k: nat, p: nat, a: nat)
      requires k < lines.Length0 && p < lines.Length1
      modifies lines
      ensures SetLines(k) == Shifted(old(SetLines(k)), p, a)
      ensures forall m :: 0 <= m < lines.Length0 && m != k ==> SetLines(m) == old(SetLines(m))
    {
      var j := p;
      while j > 0
        invariant 0 <= j <= p
        invariant forall m, i :: 0 <= m < lines.Length0 && 0 <= i < lines.Length1 ==>
          lines[m, i] == if m == k && j < i <= p then old(lines[m, i - 1]) else old(lines[m, i])
      {
        lines[k, j] := lines[k, j - 1];
        j := j - 1;
      }
      lines[k, 0] := a;
    }

    /** Looks `a` up in set `k`: promotes it, or evicts the last line for it. */
    method Place(k: nat, a: nat) returns (hit: bool)
      requires k < lines.Length0 && lines.Length1 >= 1
      modifies lines
      ensures hit <==> a in old(SetLines(k))
      ensures SetLines(k) == Touch(old(SetLines(k)), a)
      ensures forall m :: 0 <= m < lines.Length0 && m != k ==> SetLines(m) == old(SetLines(m))
    {
      ghost var l := SetLines(k);
      var i := 0;
      while i < lines.Length1
        invariant 0 <= i <= lines.Length1
        invariant forall j :: 0 <= j < i ==> l[j] != a
      {
        assert l[i] == lines[k, i];
        if lines[k, i] == a {
          FirstIndexIs(l, a, i);
          Shift(k, i, lines[k, i]);
          return true;
        }
        i := i + 1;
      }
      FirstIndexIs(l, a, lines.Length1);
      Shift(k, lines.Length1 - 1, a);
      return false;
    }

    method AccessLine(a: nat) returns (hit: bool)
      requires Valid()
      modifies this`accesses, this`misses, this`trace, lines
      ensures Valid() && trace == old(trace) + [a]
      ensures hit <==> HitAfter(ways, numSets, old(trace), a)
    {
      accesses := accesses + 1;
      var k := a % numSets;
      MissesAfterAccess(ways, numSets, trace, a);
      forall m | 0 <= m < numSets
        ensures SetAfter(ways, SubTrace(trace + [a], numSets, m)) ==
                if m == k then Touch(SetLines(k), a) else SetLines(m)
      {
        SetAfterAccess(ways, numSets, trace, a, m);
      }
      hit := Place(k, a);
      if !hit {
        misses := misses + 1;
      }
      trace := trace + [a];
    }

    /** An access of `size` bytes: one line, or its first and last line when it crosses a boundary. */
    method Access(addr: nat, size: nat) returns (hit: bool)
      requires Valid() && addr < 0x1_0000_0000_0000_0000 && size < 0x1_0000_0000_0000_0000
      modifies this`accesses, this`misses, this`trace, lines
      ensures Valid()
      ensures var line0 := addr / lineSize;
        var line1 := ((addr + size - 1) % 0x1_0000_0000_0000_0000) / lineSize;
        && trace == old(trace) + (if line1 != line0 then [line0, line1] else [line0])
        && (hit <==> HitAfter(ways, numSets, old(trace), line0) &&
                     (line1 != line0 ==> HitAfter(ways, numSets, old(trace) + [line0], line1)))
    {
      var line0 := addr / lineSize;
      var line1 := ((addr + size - 1) % 0x1_0000_0000_0000_0000) / lineSize;
      hit := AccessLine(line0);
      if line1 != line0 {
        var hit1 := AccessLine(line1);
        hit := hit && hit1;
      }
    }
  }

  lemma AtLeastOneSet(total: nat, unit: nat)
    requires 1 <= unit <= total
    ensures total / unit >= 1
  {
  }
}
