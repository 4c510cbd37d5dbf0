/** The UTF-8 helpers on machine words, bit operation for bit operation, compute the functions above. */
module Utf8Bits {
  import opened StringCodec
  import opened Utf8

  /** A byte, promoted to a word as in every expression of the helpers. */
  type Octet = b: bv32 | b <= 0xFF

  function EncodeWord(cp: bv32): seq<bv32>
    decreases cp > 0x10FFFF
  {
    if cp <= 0x7F then [cp]
    else if cp <= 0x7FF then [0xC0 | (cp >> 6), 0x80 | (cp & 0x3F)]
    else if cp <= 0xFFFF then [0xE0 | (cp >> 12), 0x80 | ((cp >> 6) & 0x3F), 0x80 | (cp & 0x3F)]
    else if cp <= 0x10FFFF then
      [0xF0 | (cp >> 18), 0x80 | ((cp >> 12) & 0x3F), 0x80 | ((cp >> 6) & 0x3F), 0x80 | (cp & 0x3F)]
    else EncodeWord(0xFFFD)
  }

  function DecodeWord(s: seq<Octet>, i: nat): (d: Decoded<bv32>)
  {
    if i >= |s| then Decoded(0xFFFD, i)
    else
      var b0: bv32 := s[i];
      var error := Decoded(0xFFFD, i + 1);
      if b0 < 0x80 then Decoded(b0, i + 1)
      else if b0 & 0xE0 == 0xC0 then
        if i + 1 < |s| && s[i + 1] & 0xC0 == 0x80 then
          var cp := ((b0 & 0x1F) << 6) | (s[i + 1] & 0x3F);
          if cp >= 0x80 then Decoded(cp, i + 2) else error
        else error
      else if b0 & 0xF0 == 0xE0 then
        if i + 2 < |s| && s[i + 1] & 0xC0 == 0x80 && s[i + 2] & 0xC0 == 0x80 then
          var cp := ((b0 & 0x0F) << 12) | ((s[i + 1] & 0x3F) << 6) | (s[i + 2] & 0x3F);
          if cp >= 0x800 && !(cp >= 0xD800 && cp <= 0xDFFF) then Decoded(cp, i + 3) else error
        else error
      else if b0 & 0xF8 == 0xF0 then
        if i + 3 < |s| && s[i + 1] & 0xC0 == 0x80 && s[i + 2] & 0xC0 == 0x80 && s[i + 3] & 0xC0 == 0x80 then
          var cp := ((b0 & 0x07) << 18) | ((s[i + 1] & 0x3F) << 12) | ((s[i + 2] & 0x3F) << 6) | (s[i + 3] & 0x3F);
          if cp >= 0x10000 && cp <= 0x10FFFF then Decoded(cp, i + 4) else error
        else error
      else error
  }

  function Ints(s: seq<bv32>): (r: seq<int>)
    ensures |r| == |s|
  {
    seq(|s|, k requires 0 <= k < |s| => s[k] as int)
  }

  // ------------------------------------------------------------ bits and sums

  /** Six bits behind `q`. */
  lemma JoinSix(q: bv32, r: bv32)
    requires q <= 0x7FFF
    ensures ((q << 6) | (r & 0x3F)) as int == (q as int) * 0x40 + (r & 0x3F) as int
  {
  }

  lemma SplitSixBits(x: bv32)
    requires x <= 0x10FFFF
    ensures x == ((x >> 6) << 6) | (x & 0x3F) && x >> 6 <= 0x43FF && x & 0x3F <= 0x3F
  {
  }

  lemma SmallBits(r: bv32, x: bv32)
    requires r == x & 0x3F
    ensures 0 <= r as int < 0x40 && r as int == (x & 0x3F) as int
  {
  }

  lemma JoinedMasked(x: bv32, q: bv32, r: bv32)
    requires x == ((q << 6) | (r & 0x3F)) && q <= 0x7FFF
    ensures x as int == (q as int) * 0x40 + (r & 0x3F) as int
  {
    JoinSix(q, r);
  }

  lemma Joined(x: bv32, q: bv32, r: bv32)
    requires x == ((q << 6) | r) && q <= 0x7FFF && r <= 0x3F
    ensures x as int == (q as int) * 0x40 + r as int
  {
    SmallMask(r);
    JoinedMasked(x, q, r);
    SmallBits(r, r);
  }

  lemma SmallMask(r: bv32)
    requires r <= 0x3F
    ensures r == r & 0x3F
  {
  }

  lemma SixDigits(n: int, q: int, r: int)
    requires n == q * 0x40 + r && 0 <= r < 0x40
    ensures n / 0x40 == q && n % 0x40 == r
  {
  }

  /** Shifting by six is division and masking six bits is the remainder. */
  lemma SplitSix(x: bv32, q: bv32, r: bv32)
    requires x <= 0x10FFFF && q == x >> 6 && r == x & 0x3F
    ensures q as int == (x as int) / 0x40 && r as int == (x as int) % 0x40 && q <= 0x43FF && r <= 0x3F
  {
    SplitSixBits(x);
    Joined(x, q, r);
    SmallBits(r, x);
    SixDigits(x as int, q as int, r as int);
  }

  lemma Ors(x: bv32)
    ensures x <= 0x3F ==> (0x80 | x) as int == 0x80 + x as int
    ensures x <= 0x1F ==> (0xC0 | x) as int == 0xC0 + x as int
    ensures x <= 0x0F ==> (0xE0 | x) as int == 0xE0 + x as int
    ensures x <= 0x07 ==> (0xF0 | x) as int == 0xF0 + x as int
  {
  }

  lemma ShiftsCompose(x: bv32)
    ensures x >> 12 == (x >> 6) >> 6 && x >> 18 == (x >> 12) >> 6
    ensures x <= 0x7FF ==> x >> 6 <= 0x1F
    ensures x <= 0xFFFF ==> x >> 12 <= 0x0F
    ensures x <= 0x10FFFF ==> x >> 18 <= 0x04 && x >> 12 <= 0x10F && x >> 6 <= 0x43FF
  {
  }

  // ----------------------------------------------------------------- encoder

  lemma TailIs(x: bv32, n: int)
    requires x <= 0x10FFFF && n == x as int
    ensures (0x80 | (x & 0x3F)) as int == 0x80 + n % 0x40
  {
    SplitSix(x, x >> 6, x & 0x3F);
    Ors(x & 0x3F);
  }

  lemma ShiftIs(x: bv32, y: bv32, n: int)
    requires x <= 0x10FFFF && n == x as int && y == x >> 6
    ensures y as int == n / 0x40 && y <= 0x10FFFF
  {
    SplitSix(x, y, x & 0x3F);
  }

  /** The code point and what is left of it after each shift by six. */
  lemma Shifted(cp: bv32, n: int)
    requires cp <= 0x10FFFF && n == cp as int
    ensures (cp >> 6) as int == n / 0x40 && (cp >> 12) as int == n / 0x40 / 0x40
    ensures (cp >> 18) as int == n / 0x40 / 0x40 / 0x40
    ensures cp >> 6 <= 0x10FFFF && cp >> 12 <= 0x10FFFF
  {
    ShiftsCompose(cp);
    ShiftIs(cp, cp >> 6, n);
    ShiftIs(cp >> 6, cp >> 12, n / 0x40);
    ShiftIs(cp >> 12, cp >> 18, n / 0x40 / 0x40);
  }

  lemma Quotients(n: int)
    requires n >= 0
    ensures n / 0x40 / 0x40 == n / 0x1000 && n / 0x40 / 0x40 / 0x40 == n / 0x4_0000
  {
  }

  lemma Limits(x: bv32)
    ensures x <= 0x7F <==> x as int <= 0x7F
    ensures x <= 0x7FF <==> x as int <= 0x7FF
    ensures x <= 0xFFFF <==> x as int <= 0xFFFF
    ensures x <= 0x10FFFF <==> x as int <= 0x10FFFF
  {
  }

  lemma TwoOctets(cp: bv32, n: int)
    requires 0x7F < cp <= 0x7FF && n == cp as int
    ensures (0xC0 | (cp >> 6)) as int == 0xC0 + n / 0x40 && (0x80 | (cp & 0x3F)) as int == 0x80 + n % 0x40
  {
    ShiftsCompose(cp);
    Shifted(cp, n);
    TailIs(cp, n);
    Ors(cp >> 6);
  }

  lemma ThreeOctets(cp: bv32, n: int)
    requires 0x7FF < cp <= 0xFFFF && n == cp as int
    ensures (0xE0 | (cp >> 12)) as int == 0xE0 + n / 0x40 / 0x40
    ensures (0x80 | ((cp >> 6) & 0x3F)) as int == 0x80 + n / 0x40 % 0x40
    ensures (0x80 | (cp & 0x3F)) as int == 0x80 + n % 0x40
  {
    ShiftsCompose(cp);
    Shifted(cp, n);
    TailIs(cp, n);
    TailIs(cp >> 6, n / 0x40);
    Ors(cp >> 12);
  }

  lemma FourOctets(cp: bv32, n: int)
    requires 0xFFFF < cp <= 0x10FFFF && n == cp as int
    ensures (0xF0 | (cp >> 18)) as int == 0xF0 + n / 0x40 / 0x40 / 0x40
    ensures (0x80 | ((cp >> 12) & 0x3F)) as int == 0x80 + n / 0x40 / 0x40 % 0x40
    ensures (0x80 | ((cp >> 6) & 0x3F)) as int == 0x80 + n / 0x40 % 0x40
    ensures (0x80 | (cp & 0x3F)) as int == 0x80 + n % 0x40
  {
    ShiftsCompose(cp);
    Shifted(cp, n);
    TailIs(cp, n);
    TailIs(cp >> 6, n / 0x40);
    TailIs(cp >> 12, n / 0x40 / 0x40);
    Ors(cp >> 18);
  }

  lemma IntsAre(w: seq<bv32>, e: seq<int>)
    requires |w| == |e| && forall k :: 0 <= k < |w| ==> w[k] as int == e[k]
    ensures Ints(w) == e
  {
  }

  lemma TwoAre(cp: bv32, n: int, e: seq<int>)
    requires 0x7F < cp <= 0x7FF && n == cp as int && e == [0xC0 + n / 0x40, 0x80 + n % 0x40]
    ensures Ints(EncodeWord(cp)) == e
  {
    TwoOctets(cp, n);
    IntsAre([0xC0 | (cp >> 6), 0x80 | (cp & 0x3F)], e);
  }

  lemma ThreeAre(cp: bv32, n: int, e: seq<int>)
    requires 0x7FF < cp <= 0xFFFF && n == cp as int
    requires e == [0xE0 + n / 0x40 / 0x40, 0x80 + n / 0x40 % 0x40, 0x80 + n % 0x40]
    ensures Ints(EncodeWord(cp)) == e
  {
    ThreeOctets(cp, n);
    IntsAre([0xE0 | (cp >> 12), 0x80 | ((cp >> 6) & 0x3F), 0x80 | (cp & 0x3F)], e);
  }

  lemma FourAre(cp: bv32, n: int, e: seq<int>)
    requires 0xFFFF < cp <= 0x10FFFF && n == cp as int
    requires e == [0xF0 + n / 0x40 / 0x40 / 0x40, 0x80 + n / 0x40 / 0x40 % 0x40, 0x80 + n / 0x40 % 0x40, 0x80 + n % 0x40]
    ensures Ints(EncodeWord(cp)) == e
  {
    FourOctets(cp, n);
    IntsAre([0xF0 | (cp >> 18), 0x80 | ((cp >> 12) & 0x3F), 0x80 | ((cp >> 6) & 0x3F), 0x80 | (cp & 0x3F)], e);
  }

  lemma EncodeTwo(n: CodePoint, e: seq<int>)
    requires 0x7F < n <= 0x7FF && e == [0xC0 + n / 0x40, 0x80 + n % 0x40]
    ensures Encode(n) == e
  {
  }

  lemma EncodeThree(n: CodePoint, e: seq<int>)
    requires 0x7FF < n <= 0xFFFF && e == [0xE0 + n / 0x40 / 0x40, 0x80 + n / 0x40 % 0x40, 0x80 + n % 0x40]
    ensures Encode(n) == e
  {
    Quotients(n);
  }

  lemma EncodeFour(n: CodePoint, e: seq<int>)
    requires 0xFFFF < n <= 0x10FFFF
    requires e == [0xF0 + n / 0x40 / 0x40 / 0x40, 0x80 + n / 0x40 / 0x40 % 0x40, 0x80 + n / 0x40 % 0x40, 0x80 + n % 0x40]
    ensures Encode(n) == e
  {
    Quotients(n);
  }

  /** The bytes of a code point in repeated division by 64. */
  function Sixes(n: nat): seq<int> {
    if n <= 0x7F then [n]
    else if n <= 0x7FF then [0xC0 + n / 0x40, 0x80 + n % 0x40]
    else if n <= 0xFFFF then [0xE0 + n / 0x40 / 0x40, 0x80 + n / 0x40 % 0x40, 0x80 + n % 0x40]
    else [0xF0 + n / 0x40 / 0x40 / 0x40, 0x80 + n / 0x40 / 0x40 % 0x40, 0x80 + n / 0x40 % 0x40, 0x80 + n % 0x40]
  }

  lemma WordIsSixes(cp: bv32, n: nat)
    requires cp <= 0x10FFFF && n == cp as int
    ensures Ints(EncodeWord(cp)) == Sixes(n)
  {
    Limits(cp);
    if cp <= 0x7F {
      IntsAre([cp], [n]);
    } else if cp <= 0x7FF {
      TwoAre(cp, n, Sixes(n));
    } else if cp <= 0xFFFF {
      ThreeAre(cp, n, Sixes(n));
    } else {
      FourAre(cp, n, Sixes(n));
    }
  }

  lemma EncodeIsSixes(n: CodePoint)
    requires n <= 0x10FFFF
    ensures Encode(n) == Sixes(n)
  {
    if n <= 0x7F {
    } else if n <= 0x7FF {
      EncodeTwo(n, Sixes(n));
    } else if n <= 0xFFFF {
      EncodeThree(n, Sixes(n));
    } else {
      EncodeFour(n, Sixes(n));
    }
  }

  lemma EncodeUpTo(cp: bv32, n: CodePoint)
    requires cp <= 0x10FFFF && n == cp as int
    ensures Ints(EncodeWord(cp)) == Encode(n)
  {
    Limits(cp);
    WordIsSixes(cp, n);
    EncodeIsSixes(n);
  }

  /** The encoder's shifts, masks and bitwise ors produce the bytes of `Encode`. */
  lemma EncodeWordIs(cp: bv32)
    ensures Ints(EncodeWord(cp)) == Encode(cp as int)
  {
    Limits(cp);
    if cp <= 0x10FFFF {
      EncodeUpTo(cp, cp as int);
    } else {
      EncodeUpTo(0xFFFD, REPLACEMENT);
    }
  }

  // ----------------------------------------------------------------- decoder

  /** The mask tests on a byte are range tests. */
  lemma MaskTests(b: Octet)
    ensures b & 0xC0 == 0x80 <==> Continuation(b as int)
    ensures b & 0xE0 == 0xC0 <==> 0xC0 <= b as int <= 0xDF
    ensures b & 0xF0 == 0xE0 <==> 0xE0 <= b as int <= 0xEF
    ensures b & 0xF8 == 0xF0 <==> 0xF0 <= b as int <= 0xF7
    ensures b < 0x80 <==> b as int < 0x80
  {
  }

  lemma MaskParts(b: Octet)
    ensures b & 0xC0 == 0x80 ==> b == 0x80 | (b & 0x3F)
    ensures b & 0xE0 == 0xC0 ==> b == 0xC0 | (b & 0x1F)
    ensures b & 0xF0 == 0xE0 ==> b == 0xE0 | (b & 0x0F)
    ensures b & 0xF8 == 0xF0 ==> b == 0xF0 | (b & 0x07)
    ensures b & 0x3F <= 0x3F && b & 0x1F <= 0x1F && b & 0x0F <= 0x0F && b & 0x07 <= 0x07
  {
  }

  lemma Payloads(n: int, x: int)
    ensures 0 <= x < 0x40 && n == 0x80 + x ==> n % 0x40 == x
    ensures 0 <= x < 0x20 && n == 0xC0 + x ==> n % 0x20 == x
    ensures 0 <= x < 0x10 && n == 0xE0 + x ==> n % 0x10 == x
    ensures 0 <= x < 0x08 && n == 0xF0 + x ==> n % 0x08 == x
  {
  }

  lemma SmallLimits(x: bv32)
    ensures x <= 0x3F ==> 0 <= x as int < 0x40
    ensures x <= 0x1F ==> 0 <= x as int < 0x20
    ensures x <= 0x0F ==> 0 <= x as int < 0x10
    ensures x <= 0x07 ==> 0 <= x as int < 0x08
  {
  }

  /** The bits after the mark of a byte are the remainder that the mark leaves. */
  lemma PayloadIs(b: Octet, x: bv32, n: int)
    requires n == b as int
    ensures b & 0xC0 == 0x80 && x == b & 0x3F ==> x as int == n % 0x40
    ensures b & 0xE0 == 0xC0 && x == b & 0x1F ==> x as int == n % 0x20
    ensures b & 0xF0 == 0xE0 && x == b & 0x0F ==> x as int == n % 0x10
    ensures b & 0xF8 == 0xF0 && x == b & 0x07 ==> x as int == n % 0x08
  {
    MaskParts(b);
    Ors(x);
    SmallLimits(x);
    Payloads(n, x as int);
  }

  lemma JoinShifts(a: bv32, b: bv32, c: bv32, d: bv32)
    requires b <= 0x3F && c <= 0x3F && d <= 0x3F
    ensures a <= 0x0F ==> (a << 12) | (b << 6) | c == (((a << 6) | b) << 6) | c && (a << 6) | b <= 0x43FF
    ensures a <= 0x07 ==> (a << 18) | (b << 12) | (c << 6) | d == (((((a << 6) | b) << 6) | c) << 6) | d
    ensures a <= 0x07 ==> (a << 6) | b <= 0x43FF && (((a << 6) | b) << 6) | c <= 0x7FFF
  {
  }

  lemma JoinTwo(a: bv32, b: bv32)
    requires a <= 0x1F && b <= 0x3F
    ensures ((a << 6) | b) as int == (a as int) * 0x40 + b as int
  {
    Joined((a << 6) | b, a, b);
  }

  /** The bits put together one byte after the other. */
  lemma Stepwise(a: bv32, b: bv32, c: bv32, j: bv32, k: bv32, x: int, y: int, z: int)
    requires j == ((a << 6) | b) && k == ((j << 6) | c) && a <= 0x0F && j <= 0x43FF && b <= 0x3F && c <= 0x3F
    requires x == a as int && y == b as int && z == c as int
    ensures j as int == x * 0x40 + y && k as int == x * 0x1000 + y * 0x40 + z
  {
    Joined(j, a, b);
    Joined(k, j, c);
  }

  lemma JoinThree(a: bv32, b: bv32, c: bv32, cp: bv32, x: int, y: int, z: int)
    requires a <= 0x0F && b <= 0x3F && c <= 0x3F && x == a as int && y == b as int && z == c as int
    requires cp == (a << 12) | (b << 6) | c
    ensures cp as int == x * 0x1000 + y * 0x40 + z
  {
    JoinShifts(a, b, c, 0);
    Stepwise(a, b, c, (a << 6) | b, cp, x, y, z);
  }

  lemma FourSteps(a: bv32, b: bv32, c: bv32, d: bv32, j: bv32, k: bv32, cp: bv32, x: int, y: int, z: int, w: int)
    requires a <= 0x0F && b <= 0x3F && c <= 0x3F && d <= 0x3F && j <= 0x43FF && k <= 0x7FFF
    requires x == a as int && y == b as int && z == c as int && w == d as int
    requires j == ((a << 6) | b) && k == ((j << 6) | c) && cp == ((k << 6) | d)
    ensures cp as int == x * 0x4_0000 + y * 0x1000 + z * 0x40 + w
  {
    Stepwise(a, b, c, j, k, x, y, z);
    Joined(cp, k, d);
  }

  lemma JoinFour(a: bv32, b: bv32, c: bv32, d: bv32, cp: bv32, x: int, y: int, z: int, w: int)
    requires a <= 0x07 && b <= 0x3F && c <= 0x3F && d <= 0x3F
    requires x == a as int && y == b as int && z == c as int && w == d as int
    requires cp == (a << 18) | (b << 12) | (c << 6) | d
    ensures cp as int == x * 0x4_0000 + y * 0x1000 + z * 0x40 + w
  {
    var j, k := Shape(a, b, c, d, cp);
    FourSteps(a, b, c, d, j, k, cp, x, y, z, w);
  }

  lemma Shape(a: bv32, b: bv32, c: bv32, d: bv32, cp: bv32) returns (j: bv32, k: bv32)
    requires a <= 0x07 && b <= 0x3F && c <= 0x3F && d <= 0x3F && cp == (a << 18) | (b << 12) | (c << 6) | d
    ensures j <= 0x43FF && k <= 0x7FFF && j == ((a << 6) | b) && k == ((j << 6) | c) && cp == ((k << 6) | d)
  {
    JoinShifts(a, b, c, d);
    j := (a << 6) | b;
    k := (j << 6) | c;
  }

  lemma Bounds(x: bv32)
    ensures x >= 0x80 <==> x as int >= 0x80
    ensures x >= 0x800 <==> x as int >= 0x800
    ensures x >= 0x10000 <==> x as int >= 0x10000
    ensures x >= 0xD800 <==> x as int >= 0xD800
    ensures x <= 0xDFFF <==> x as int <= 0xDFFF
    ensures x <= 0x10FFFF <==> x as int <= 0x10FFFF
  {
  }

  function Octets(s: seq<Octet>): (r: seq<Byte>)
    ensures |r| == |s| && forall k :: 0 <= k < |s| ==> r[k] == s[k] as int
  {
    seq(|s|, k requires 0 <= k < |s| => s[k] as int)
  }

  /** The same code point, as a number and as a word, and the same next index. */
  predicate SameResult(e: Decoded<CodePoint>, d: Decoded<bv32>) {
    e.cp == d.cp as int && e.next == d.next
  }

  /** A continuation byte's payload is its low six bits. */
  lemma Continues(b: Octet)
    ensures b & 0xC0 == 0x80 <==> Continuation(b as int)
    ensures b & 0x3F <= 0x3F && (Continuation(b as int) ==> (b & 0x3F) as int == Low(b as int))
  {
    MaskTests(b);
    MaskParts(b);
    PayloadIs(b, b & 0x3F, b as int);
  }

  lemma Leads(b: Octet)
    ensures b & 0x1F <= 0x1F && b & 0x0F <= 0x0F && b & 0x07 <= 0x07
    ensures b & 0xE0 == 0xC0 ==> (b & 0x1F) as int == (b as int) % 0x20
    ensures b & 0xF0 == 0xE0 ==> (b & 0x0F) as int == (b as int) % 0x10
    ensures b & 0xF8 == 0xF0 ==> (b & 0x07) as int == (b as int) % 0x08
  {
    MaskParts(b);
    PayloadIs(b, b & 0x1F, b as int);
    PayloadIs(b, b & 0x0F, b as int);
    PayloadIs(b, b & 0x07, b as int);
  }

  lemma TwoFrom(b0: Octet, b1: Octet, cp: bv32)
    requires b0 & 0xE0 == 0xC0 && b1 & 0xC0 == 0x80 && cp == ((b0 & 0x1F) << 6) | (b1 & 0x3F)
    ensures cp as int == ((b0 as int) % 0x20) * 0x40 + Low(b1 as int)
  {
    Leads(b0);
    Continues(b1);
    JoinTwo(b0 & 0x1F, b1 & 0x3F);
  }

  lemma ThreeFrom(b0: Octet, b1: Octet, b2: Octet, a: bv32, b: bv32, c: bv32, cp: bv32)
    requires b0 & 0xF0 == 0xE0 && b1 & 0xC0 == 0x80 && b2 & 0xC0 == 0x80
    requires a == b0 & 0x0F && b == b1 & 0x3F && c == b2 & 0x3F && cp == (a << 12) | (b << 6) | c
    ensures cp as int == ((b0 as int) % 0x10) * 0x1000 + Low(b1 as int) * 0x40 + Low(b2 as int)
  {
    Leads(b0);
    Continues(b1);
    Continues(b2);
    JoinThree(a, b, c, cp, (b0 as int) % 0x10, Low(b1 as int), Low(b2 as int));
  }

  lemma FourFrom(b0: Octet, b1: Octet, b2: Octet, b3: Octet, a: bv32, b: bv32, c: bv32, d: bv32, cp: bv32)
    requires b0 & 0xF8 == 0xF0 && b1 & 0xC0 == 0x80 && b2 & 0xC0 == 0x80 && b3 & 0xC0 == 0x80
    requires a == b0 & 0x07 && b == b1 & 0x3F && c == b2 & 0x3F && d == b3 & 0x3F
    requires cp == (a << 18) | (b << 12) | (c << 6) | d
    ensures cp as int
         == ((b0 as int) % 0x08) * 0x4_0000 + Low(b1 as int) * 0x1000 + Low(b2 as int) * 0x40 + Low(b3 as int)
  {
    Leads(b0);
    Continues(b1);
    Continues(b2);
    Continues(b3);
    JoinFour(a, b, c, d, cp, (b0 as int) % 0x08, Low(b1 as int), Low(b2 as int), Low(b3 as int));
  }

  // The decoder, one length at a time: first on numbers, then on words, then together.

  /** What both decoders do with a complete sequence of `len` bytes whose value is `cp`. */
  predicate Agreed(cp: bv32, n: int) {
    && n == cp as int
    && (cp >= 0x80 <==> n >= 0x80) && (cp >= 0x800 <==> n >= 0x800) && (cp >= 0x10000 <==> n >= 0x10000)
    && (cp >= 0xD800 <==> n >= 0xD800) && (cp <= 0xDFFF <==> n <= 0xDFFF) && (cp <= 0x10FFFF <==> n <= 0x10FFFF)
  }

  lemma AgreedOn(cp: bv32, n: int)
    requires n == cp as int
    ensures Agreed(cp, n)
  {
    Bounds(cp);
  }

  lemma Accepted(cp: bv32, n: int) returns (ok: bool)
    requires Agreed(cp, n)
    ensures ok <==> cp >= 0x800 && !(cp >= 0xD800 && cp <= 0xDFFF)
    ensures ok <==> n >= 0x800 && !(n >= 0xD800 && n <= 0xDFFF)
  {
    ok := cp >= 0x800 && !(cp >= 0xD800 && cp <= 0xDFFF);
  }

  lemma NextTwo(r: seq<Byte>, i: nat, cp: CodePoint)
    requires i + 1 < |r| && 0xC0 <= r[i] <= 0xDF && Continuation(r[i + 1])
    requires cp == (r[i] % 0x20) * 0x40 + Low(r[i + 1])
    ensures DecodeNext(r, i) == if cp >= 0x80 then Decoded(cp, i + 2) else Decoded(REPLACEMENT, i + 1)
  {
  }

  lemma NextThree(r: seq<Byte>, i: nat, cp: CodePoint, ok: bool)
    requires i + 2 < |r| && 0xE0 <= r[i] <= 0xEF && Continuation(r[i + 1]) && Continuation(r[i + 2])
    requires cp == (r[i] % 0x10) * 0x1000 + Low(r[i + 1]) * 0x40 + Low(r[i + 2])
    requires ok <==> cp >= 0x800 && !(cp >= 0xD800 && cp <= 0xDFFF)
    ensures DecodeNext(r, i) == if ok then Decoded(cp, i + 3) else Decoded(REPLACEMENT, i + 1)
  {
  }

  lemma NextFour(r: seq<Byte>, i: nat, cp: CodePoint)
    requires i + 3 < |r| && 0xF0 <= r[i] <= 0xF7
    requires Continuation(r[i + 1]) && Continuation(r[i + 2]) && Continuation(r[i + 3])
    requires cp == (r[i] % 0x08) * 0x4_0000 + Low(r[i + 1]) * 0x1000 + Low(r[i + 2]) * 0x40 + Low(r[i + 3])
    ensures DecodeNext(r, i) == if cp >= 0x10000 && cp <= 0x10FFFF then Decoded(cp, i + 4) else Decoded(REPLACEMENT, i + 1)
  {
  }

  lemma WordTwo(s: seq<Octet>, i: nat, cp: bv32)
    requires i + 1 < |s| && s[i] & 0xE0 == 0xC0 && s[i + 1] & 0xC0 == 0x80
    requires cp == ((s[i] & 0x1F) << 6) | (s[i + 1] & 0x3F)
    ensures DecodeWord(s, i) == if cp >= 0x80 then Decoded(cp, i + 2) else Decoded(0xFFFD, i + 1)
  {
  }

  lemma WordThree(s: seq<Octet>, i: nat, cp: bv32, ok: bool)
    requires i + 2 < |s| && s[i] & 0xF0 == 0xE0 && s[i + 1] & 0xC0 == 0x80 && s[i + 2] & 0xC0 == 0x80
    requires cp == ((s[i] & 0x0F) << 12) | ((s[i + 1] & 0x3F) << 6) | (s[i + 2] & 0x3F)
    requires ok <==> cp >= 0x800 && !(cp >= 0xD800 && cp <= 0xDFFF)
    ensures DecodeWord(s, i) == if ok then Decoded(cp, i + 3) else Decoded(0xFFFD, i + 1)
  {
  }

  lemma WordFour(s: seq<Octet>, i: nat, cp: bv32)
    requires i + 3 < |s| && s[i] & 0xF8 == 0xF0
    requires s[i + 1] & 0xC0 == 0x80 && s[i + 2] & 0xC0 == 0x80 && s[i + 3] & 0xC0 == 0x80
    requires cp == ((s[i] & 0x07) << 18) | ((s[i + 1] & 0x3F) << 12) | ((s[i + 2] & 0x3F) << 6) | (s[i + 3] & 0x3F)
    ensures DecodeWord(s, i) == if cp >= 0x10000 && cp <= 0x10FFFF then Decoded(cp, i + 4) else Decoded(0xFFFD, i + 1)
  {
  }

  /** The results are the same once the values and the tests on them are. */
  lemma SameDecoded(ok: bool, cp: bv32, n: CodePoint, i: nat, j: nat, d: Decoded<bv32>, e: Decoded<CodePoint>)
    requires n == cp as int
    requires d == if ok then Decoded(cp, j) else Decoded(0xFFFD, i)
    requires e == if ok then Decoded(n, j) else Decoded(REPLACEMENT, i)
    ensures SameResult(e, d)
  {
  }

  lemma LeadIs(s: seq<Octet>, i: nat)
    requires i < |s|
    ensures s[i] & 0xE0 == 0xC0 ==> 0xC0 <= Octets(s)[i] <= 0xDF
    ensures s[i] & 0xF0 == 0xE0 ==> 0xE0 <= Octets(s)[i] <= 0xEF
    ensures s[i] & 0xF8 == 0xF0 ==> 0xF0 <= Octets(s)[i] <= 0xF7
  {
    MaskTests(s[i]);
  }

  lemma TailBits(s: seq<Octet>, i: nat)
    requires i < |s| && s[i] & 0xC0 == 0x80
    ensures Continuation(Octets(s)[i])
  {
    Continues(s[i]);
  }

  lemma ValueThree(b0: Octet, b1: Octet, b2: Octet, cp: bv32)
    requires b0 & 0xF0 == 0xE0 && b1 & 0xC0 == 0x80 && b2 & 0xC0 == 0x80
    requires cp == ((b0 & 0x0F) << 12) | ((b1 & 0x3F) << 6) | (b2 & 0x3F)
    ensures cp as int == ((b0 as int) % 0x10) * 0x1000 + Low(b1 as int) * 0x40 + Low(b2 as int)
  {
    ThreeFrom(b0, b1, b2, b0 & 0x0F, b1 & 0x3F, b2 & 0x3F, cp);
  }

  lemma ValueFour(b0: Octet, b1: Octet, b2: Octet, b3: Octet, cp: bv32)
    requires b0 & 0xF8 == 0xF0 && b1 & 0xC0 == 0x80 && b2 & 0xC0 == 0x80 && b3 & 0xC0 == 0x80
    requires cp == ((b0 & 0x07) << 18) | ((b1 & 0x3F) << 12) | ((b2 & 0x3F) << 6) | (b3 & 0x3F)
    ensures cp as int
         == ((b0 as int) % 0x08) * 0x4_0000 + Low(b1 as int) * 0x1000 + Low(b2 as int) * 0x40 + Low(b3 as int)
  {
    FourFrom(b0, b1, b2, b3, b0 & 0x07, b1 & 0x3F, b2 & 0x3F, b3 & 0x3F, cp);
  }

  lemma Number(cp: bv32) returns (n: CodePoint)
    ensures n == cp as int && Agreed(cp, n)
  {
    n := cp as int;
    AgreedOn(cp, n);
  }

  lemma DecodeTwo(s: seq<Octet>, r: seq<Byte>, i: nat)
    requires r == Octets(s) && i + 1 < |s| && s[i] & 0xE0 == 0xC0 && s[i + 1] & 0xC0 == 0x80
    ensures SameResult(DecodeNext(r, i), DecodeWord(s, i))
  {
    var cp := ((s[i] & 0x1F) << 6) | (s[i + 1] & 0x3F);
    LeadIs(s, i);
    TailBits(s, i + 1);
    TwoFrom(s[i], s[i + 1], cp);
    var n := Number(cp);
    NextTwo(r, i, n);
    WordTwo(s, i, cp);
    SameDecoded(cp >= 0x80, cp, n, i + 1, i + 2, DecodeWord(s, i), DecodeNext(r, i));
  }

  lemma DecodeThree(s: seq<Octet>, r: seq<Byte>, i: nat)
    requires r == Octets(s) && i + 2 < |s| && s[i] & 0xF0 == 0xE0 && s[i + 1] & 0xC0 == 0x80 && s[i + 2] & 0xC0 == 0x80
    ensures SameResult(DecodeNext(r, i), DecodeWord(s, i))
  {
    var cp := ((s[i] & 0x0F) << 12) | ((s[i + 1] & 0x3F) << 6) | (s[i + 2] & 0x3F);
    LeadIs(s, i);
    TailBits(s, i + 1);
    TailBits(s, i + 2);
    ValueThree(s[i], s[i + 1], s[i + 2], cp);
    var n := Number(cp);
    var ok := Accepted(cp, n);
    NextThree(r, i, n, ok);
    WordThree(s, i, cp, ok);
    SameDecoded(ok, cp, n, i + 1, i + 3, DecodeWord(s, i), DecodeNext(r, i));
  }

  lemma DecodeFour(s: seq<Octet>, r: seq<Byte>, i: nat)
    requires r == Octets(s) && i + 3 < |s| && s[i] & 0xF8 == 0xF0
    requires s[i + 1] & 0xC0 == 0x80 && s[i + 2] & 0xC0 == 0x80 && s[i + 3] & 0xC0 == 0x80
    ensures SameResult(DecodeNext(r, i), DecodeWord(s, i))
  {
    var cp := ((s[i] & 0x07) << 18) | ((s[i + 1] & 0x3F) << 12) | ((s[i + 2] & 0x3F) << 6) | (s[i + 3] & 0x3F);
    LeadIs(s, i);
    TailBits(s, i + 1);
    TailBits(s, i + 2);
    TailBits(s, i + 3);
    ValueFour(s[i], s[i + 1], s[i + 2], s[i + 3], cp);
    var n := Number(cp);
    NextFour(r, i, n);
    WordFour(s, i, cp);
    SameDecoded(cp >= 0x10000 && cp <= 0x10FFFF, cp, n, i + 1, i + 4, DecodeWord(s, i), DecodeNext(r, i));
  }

  /** A complete sequence starts at `i`: a lead byte and as many continuation bytes as it asks for. */
  predicate Complete(s: seq<Octet>, i: nat, len: nat)
    requires i < |s|
  {
    && i + len <= |s|
    && match len
       case 2 => s[i] & 0xE0 == 0xC0 && s[i + 1] & 0xC0 == 0x80
       case 3 => s[i] & 0xF0 == 0xE0 && s[i + 1] & 0xC0 == 0x80 && s[i + 2] & 0xC0 == 0x80
       case 4 => s[i] & 0xF8 == 0xF0 && s[i + 1] & 0xC0 == 0x80 && s[i + 2] & 0xC0 == 0x80 && s[i + 3] & 0xC0 == 0x80
       case _ => false
  }

  lemma WordFails(s: seq<Octet>, i: nat)
    requires i < |s| && s[i] >= 0x80 && !Complete(s, i, 2) && !Complete(s, i, 3) && !Complete(s, i, 4)
    ensures DecodeWord(s, i) == Decoded(0xFFFD, i + 1)
  {
  }

  lemma NextFails(s: seq<Octet>, r: seq<Byte>, i: nat)
    requires r == Octets(s) && i < |s| && s[i] >= 0x80
    requires !Complete(s, i, 2) && !Complete(s, i, 3) && !Complete(s, i, 4)
    ensures DecodeNext(r, i) == Decoded(REPLACEMENT, i + 1)
  {
    MaskTests(s[i]);
    if i + 1 < |s| { Continues(s[i + 1]); }
    if i + 2 < |s| { Continues(s[i + 2]); }
    if i + 3 < |s| { Continues(s[i + 3]); }
  }

  lemma DecodeAscii(s: seq<Octet>, r: seq<Byte>, i: nat)
    requires r == Octets(s) && i < |s| && s[i] < 0x80
    ensures SameResult(DecodeNext(r, i), DecodeWord(s, i))
  {
    MaskTests(s[i]);
  }

  /** The decoder's masks, shifts and bitwise ors compute `DecodeNext`, at every index of every
      byte string. */
  lemma DecodeWordIs(s: seq<Octet>, i: nat)
    ensures SameResult(DecodeNext(Octets(s), i), DecodeWord(s, i))
  {
    var r := Octets(s);
    if i < |s| {
      if s[i] < 0x80 {
        DecodeAscii(s, r, i);
      } else if Complete(s, i, 2) {
        DecodeTwo(s, r, i);
      } else if Complete(s, i, 3) {
        DecodeThree(s, r, i);
      } else if Complete(s, i, 4) {
        DecodeFour(s, r, i);
      } else {
        WordFails(s, i);
        NextFails(s, r, i);
      }
    }
  }
}
