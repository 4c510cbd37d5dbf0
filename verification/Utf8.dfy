/** Codes on strings built from a code on single characters. */
module StringCodec {
  /** The character at an index and the index after it. */
  datatype Decoded<T> = Decoded(cp: T, next: nat)

  function EncodeAll<T, B>(encode: T -> seq<B>, cps: seq<T>): seq<B>
    decreases |cps|
  {
    if cps == [] then [] else encode(cps[0]) + EncodeAll(encode, cps[1..])
  }

  /** What repeated decoding from index `i` finds, as long as it moves forward. */
  function DecodeAll<T, B>(decode: (seq<B>, nat) -> Decoded<T>, s: seq<B>, i: nat): seq<T>
    decreases |s| - i
  {
    if i >= |s| then []
    else
      var d := decode(s, i);
      if i < d.next <= |s| then [d.cp] + DecodeAll(decode, s, d.next) else []
  }

  /** Whatever surrounds it, the encoding of a good character decodes to that character. */
  ghost predicate Invertible<T(!new), B(!new)>(encode: T -> seq<B>, decode: (seq<B>, nat) -> Decoded<T>, good: T -> bool) {
    forall before: seq<B>, cp: T, after: seq<B> {:trigger before + encode(cp) + after} :: good(cp) ==>
      encode(cp) != [] && decode(before + encode(cp) + after, |before|) == Decoded(cp, |before| + |encode(cp)|)
  }

  lemma {:induction false} StringRoundTrip<T(!new), B(!new)>(encode: T -> seq<B>, decode: (seq<B>, nat) -> Decoded<T>,
                                                  good: T -> bool, before: seq<B>, cps: seq<T>)
    requires Invertible(encode, decode, good)
    requires forall k :: 0 <= k < |cps| ==> good(cps[k])
    ensures DecodeAll(decode, before + EncodeAll(encode, cps), |before|) == cps
    decreases |cps|
  {
    if cps == [] {
    } else {
      var c, rest := encode(cps[0]), EncodeAll(encode, cps[1..]);
      var s := before + c + rest;
      assert decode(s, |before|) == Decoded(cps[0], |before| + |c|);
      StringRoundTrip(encode, decode, good, before + c, cps[1..]);
      assert s == before + EncodeAll(encode, cps);
    }
  }

  /** Every decoded character encodes to exactly the bytes consumed for it. */
  ghost predicate Canonical<T(!new), B(!new)>(encode: T -> seq<B>, decode: (seq<B>, nat) -> Decoded<T>, s: seq<B>, bad: T) {
    forall i {:trigger decode(s, i)} :: 0 <= i < |s| ==>
      var d := decode(s, i); i < d.next <= |s| && (d.cp != bad ==> encode(d.cp) == s[i..d.next])
  }

  /** A string in which nothing bad is found is the encoding of what is found. */
  lemma {:induction false} CleanStringEncodesBack<T(!new), B(!new)>(encode: T -> seq<B>, decode: (seq<B>, nat) -> Decoded<T>,
                                                         bad: T, s: seq<B>, i: nat)
    requires i <= |s| && Canonical(encode, decode, s, bad) && bad !in DecodeAll(decode, s, i)
    ensures EncodeAll(encode, DecodeAll(decode, s, i)) == s[i..]
    decreases |s| - i
  {
    if i < |s| {
      var d := decode(s, i);
      var rest := DecodeAll(decode, s, d.next);
      assert DecodeAll(decode, s, i) == [d.cp] + rest;
      assert ([d.cp] + rest)[1..] == rest;
      CleanStringEncodesBack(encode, decode, bad, s, d.next);
      assert s[i..] == s[i..d.next] + s[d.next..];
    }
  }
}

/**
 The UTF-8 helpers, against the grammar of section 4 of RFC 3629.  Bytes and code
 points are numbers here; module `Utf8Bits` runs the helpers' masks, shifts and bitwise
 ors on machine words and shows that they compute `Encode` and `DecodeNext`.
 */
module Utf8 {
  import opened StringCodec

  type Byte = b: int | 0 <= b < 0x100
  type CodePoint = c: int | 0 <= c < 0x1_0000_0000

  const REPLACEMENT: CodePoint := 0xFFFD

  /** The Unicode scalar values: every code point but the surrogates. */
  predicate Scalar(cp: CodePoint) {
    cp <= 0xD7FF || 0xE000 <= cp <= 0x10FFFF
  }

  function Encode(cp: CodePoint): (bytes: seq<Byte>)
    ensures 1 <= |bytes| <= 4
    decreases if cp <= 0x10FFFF then 0 else 1
  {
    if cp <= 0x7F then [cp]
    else if cp <= 0x7FF then [0xC0 + cp / 0x40, Tail(cp)]
    else if cp <= 0xFFFF then [0xE0 + cp / 0x1000, Tail(cp / 0x40), Tail(cp)]
    else if cp <= 0x10FFFF then [0xF0 + cp / 0x4_0000, Tail(cp / 0x1000), Tail(cp / 0x40), Tail(cp)]
    else Encode(REPLACEMENT)
  }

  /** A continuation byte carrying the low six bits. */
  function Tail(bits: CodePoint): Byte {
    0x80 + bits % 0x40
  }

  predicate Continuation(b: Byte) {
    0x80 <= b <= 0xBF
  }

  function Low(b: Byte): CodePoint {
    b % 0x40
  }

  function DecodeNext(s: seq<Byte>, i: nat): (d: Decoded<CodePoint>)
    ensures i < |s| ==> i < d.next <= |s|
    ensures i >= |s| ==> d == Decoded(REPLACEMENT, i)
  {
    if i >= |s| then Decoded(REPLACEMENT, i)
    else
      var b0 := s[i];
      var error := Decoded(REPLACEMENT, i + 1);
      if b0 < 0x80 then Decoded(b0, i + 1)
      else if 0xC0 <= b0 <= 0xDF then
        if i + 1 < |s| && Continuation(s[i + 1]) then
          var cp := (b0 % 0x20) * 0x40 + Low(s[i + 1]);
          if cp >= 0x80 then Decoded(cp, i + 2) else error
        else error
      else if 0xE0 <= b0 <= 0xEF then
        if i + 2 < |s| && Continuation(s[i + 1]) && Continuation(s[i + 2]) then
          var cp := (b0 % 0x10) * 0x1000 + Low(s[i + 1]) * 0x40 + Low(s[i + 2]);
          if cp >= 0x800 && !(cp >= 0xD800 && cp <= 0xDFFF) then Decoded(cp, i + 3) else error
        else error
      else if 0xF0 <= b0 <= 0xF7 then
        if i + 3 < |s| && Continuation(s[i + 1]) && Continuation(s[i + 2]) && Continuation(s[i + 3]) then
          var cp := (b0 % 0x08) * 0x4_0000 + Low(s[i + 1]) * 0x1000 + Low(s[i + 2]) * 0x40 + Low(s[i + 3]);
          if cp >= 0x10000 && cp <= 0x10FFFF then Decoded(cp, i + 4) else error
        else error
      else error
  }

  // --------------------------------------------- section 4 of RFC 3629, UTF8-char

  /** The bytes are exactly one UTF8-char of the grammar. */
  predicate Utf8Char(c: seq<Byte>) {
    match |c|
    case 1 => c[0] <= 0x7F
    case 2 => 0xC2 <= c[0] <= 0xDF && 0x80 <= c[1] <= 0xBF
    case 3 =>
      0x80 <= c[2] <= 0xBF &&
      (|| (c[0] == 0xE0 && 0xA0 <= c[1] <= 0xBF)
       || (0xE1 <= c[0] <= 0xEC && 0x80 <= c[1] <= 0xBF)
       || (c[0] == 0xED && 0x80 <= c[1] <= 0x9F)
       || (0xEE <= c[0] <= 0xEF && 0x80 <= c[1] <= 0xBF))
    case 4 =>
      0x80 <= c[2] <= 0xBF && 0x80 <= c[3] <= 0xBF &&
      (|| (c[0] == 0xF0 && 0x90 <= c[1] <= 0xBF)
       || (0xF1 <= c[0] <= 0xF3 && 0x80 <= c[1] <= 0xBF)
       || (c[0] == 0xF4 && 0x80 <= c[1] <= 0x8F))
    case _ => false
  }

  // ------------------------------------------------------ one code point

  /** Exactly the characters of the grammar are encodings of scalar values. */
  lemma Utf8CharIff(c: seq<Byte>)
    ensures Utf8Char(c) <==> exists cp: CodePoint :: Scalar(cp) && Encode(cp) == c
  {
    if Utf8Char(c) {
      var cp := DecodeNext(c, 0).cp;
      CharDecodes(c, 0, c);
      assert Scalar(cp) && Encode(cp) == c;
    }
    forall cp: CodePoint | Scalar(cp) ensures Utf8Char(Encode(cp)) {
      EncodingIsChar(cp);
    }
  }

  lemma Digits(h: nat, x: nat, y: nat, z: nat)
    requires x < 0x40 && y < 0x40 && z < 0x40
    ensures var n := h * 0x4_0000 + x * 0x1000 + y * 0x40 + z;
      n / 0x4_0000 == h && n / 0x1000 % 0x40 == x && n / 0x40 % 0x40 == y && n % 0x40 == z
  {
    var n := h * 0x4_0000 + x * 0x1000 + y * 0x40 + z;
    assert n / 0x40 == h * 0x1000 + x * 0x40 + y;
    assert n / 0x1000 == h * 0x40 + x;
  }

  lemma TwoBytes(b0: Byte, b1: Byte)
    requires 0xC2 <= b0 <= 0xDF && 0x80 <= b1 <= 0xBF
    ensures var cp := (b0 % 0x20) * 0x40 + Low(b1); cp >= 0x80 && Encode(cp) == [b0, b1]
  {
  }

  lemma ThreeBytes(b0: Byte, b1: Byte, b2: Byte)
    requires Utf8Char([b0, b1, b2])
    ensures var cp := (b0 % 0x10) * 0x1000 + Low(b1) * 0x40 + Low(b2);
      cp >= 0x800 && Scalar(cp) && Encode(cp) == [b0, b1, b2]
  {
    Digits(0, b0 % 0x10, Low(b1), Low(b2));
  }

  lemma FourBytes(b0: Byte, b1: Byte, b2: Byte, b3: Byte)
    requires 0xF0 <= b0 <= 0xF4 && Continuation(b1) && Continuation(b2) && Continuation(b3)
    requires (b0 == 0xF0 ==> b1 >= 0x90) && (b0 == 0xF4 ==> b1 <= 0x8F)
    ensures var cp := (b0 % 0x08) * 0x4_0000 + Low(b1) * 0x1000 + Low(b2) * 0x40 + Low(b3);
      0x10000 <= cp <= 0x10FFFF && Encode(cp) == [b0, b1, b2, b3]
  {
    LeadBits(b0);
    LowBits(b1);
    LowBits(b2);
    LowBits(b3);
    EncodeDigits(b0 - 0xF0, b1 - 0x80, b2 - 0x80, b3 - 0x80);
  }

  lemma LeadBits(b: Byte)
    requires 0xF0 <= b <= 0xF7
    ensures b % 0x08 == b - 0xF0
  {
  }

  lemma LowBits(b: Byte)
    requires Continuation(b)
    ensures Low(b) == b - 0x80
  {
  }

  lemma EncodeDigits(h: nat, x: nat, y: nat, z: nat)
    requires h < 8 && x < 0x40 && y < 0x40 && z < 0x40
    requires 0x10000 <= h * 0x4_0000 + x * 0x1000 + y * 0x40 + z <= 0x10FFFF
    ensures Encode(h * 0x4_0000 + x * 0x1000 + y * 0x40 + z) == [0xF0 + h, 0x80 + x, 0x80 + y, 0x80 + z]
  {
    Digits(h, x, y, z);
    var cp := h * 0x4_0000 + x * 0x1000 + y * 0x40 + z;
    assert Encode(cp) == [0xF0 + cp / 0x4_0000, Tail(cp / 0x1000), Tail(cp / 0x40), Tail(cp)];
  }

  /** A character of the grammar is decoded wherever it stands, to the scalar value it encodes. */
  lemma CharDecodes(s: seq<Byte>, i: nat, c: seq<Byte>)
    requires Utf8Char(c) && i + |c| <= |s| && s[i..i + |c|] == c
    ensures var d := DecodeNext(s, i); d.next == i + |c| && Scalar(d.cp) && Encode(d.cp) == c
  {
    assert s[i] == c[0];
    if |c| == 2 {
      assert s[i + 1] == c[1] && c == [c[0], c[1]];
      TwoBytes(c[0], c[1]);
    } else if |c| == 3 {
      assert s[i + 1] == c[1] && s[i + 2] == c[2] && c == [c[0], c[1], c[2]];
      ThreeBytes(c[0], c[1], c[2]);
    } else if |c| == 4 {
      assert s[i + 1] == c[1] && s[i + 2] == c[2] && s[i + 3] == c[3] && c == [c[0], c[1], c[2], c[3]];
      FourBytes(c[0], c[1], c[2], c[3]);
    }
  }

  // ------------------------------------------------- everything else is rejected

  /** At every index: either the decoder consumes one character of the grammar and returns
      the scalar value it encodes, or no character starts there and it returns the
      replacement character, one byte further. */
  lemma DecodeIff(s: seq<Byte>, i: nat)
    requires i < |s|
    ensures var d := DecodeNext(s, i);
      if Utf8Char(s[i..d.next]) then Scalar(d.cp) && Encode(d.cp) == s[i..d.next]
      else d == Decoded(REPLACEMENT, i + 1) && forall j :: i <= j <= |s| ==> !Utf8Char(s[i..j])
  {
    var d := DecodeNext(s, i);
    if Utf8Char(s[i..d.next]) {
      CharDecodes(s, i, s[i..d.next]);
    } else {
      forall j | i <= j <= |s| ensures !Utf8Char(s[i..j]) {
        if Utf8Char(s[i..j]) {
          CharDecodes(s, i, s[i..j]);
        }
      }
      AcceptedIsChar(s, i);
    }
  }

  /** Whatever is not an error was a character of the grammar. */
  lemma AcceptedIsChar(s: seq<Byte>, i: nat)
    requires i < |s|
    ensures var d := DecodeNext(s, i); Utf8Char(s[i..d.next]) || d == Decoded(REPLACEMENT, i + 1)
  {
    var d := DecodeNext(s, i);
    var c := s[i..d.next];
    assert c[0] == s[i];
    assert d.next > i + 1 ==> c[1] == s[i + 1];
    assert d.next > i + 2 ==> c[2] == s[i + 2];
    assert d.next > i + 3 ==> c[3] == s[i + 3];
  }

  /** Whatever surrounds it, an encoded scalar value decodes to itself. */
  lemma RoundTrip(before: seq<Byte>, cp: CodePoint, after: seq<Byte>)
    requires Scalar(cp)
    ensures DecodeNext(before + Encode(cp) + after, |before|) == Decoded(cp, |before| + |Encode(cp)|)
  {
    var s := before + Encode(cp) + after;
    assert s[|before|..|before| + |Encode(cp)|] == Encode(cp);
    EncodingIsChar(cp);
    CharDecodes(s, |before|, Encode(cp));
    EncodingInjective(cp, DecodeNext(s, |before|).cp);
  }

  lemma EncodingIsChar(cp: CodePoint)
    requires Scalar(cp)
    ensures Utf8Char(Encode(cp))
  {
    if cp <= 0x7FF {
    } else if cp <= 0xFFFF {
      ThreeByteChar(cp / 0x1000, cp / 0x40 % 0x40, cp % 0x40, cp);
    } else {
      FourByteChar(cp / 0x4_0000, cp / 0x1000 % 0x40, cp / 0x40 % 0x40, cp % 0x40, cp);
    }
  }

  lemma ThreeByteChar(h: nat, x: nat, y: nat, cp: CodePoint)
    requires h == cp / 0x1000 && x == cp / 0x40 % 0x40 && y == cp % 0x40 && Scalar(cp) && 0x800 <= cp <= 0xFFFF
    ensures Utf8Char([0xE0 + h, 0x80 + x, 0x80 + y])
  {
    assert cp / 0x40 == h * 0x40 + x;
  }

  lemma FourByteChar(h: nat, x: nat, y: nat, z: nat, cp: CodePoint)
    requires h == cp / 0x4_0000 && x == cp / 0x1000 % 0x40 && y == cp / 0x40 % 0x40 && z == cp % 0x40
    requires 0x10000 <= cp <= 0x10FFFF
    ensures Utf8Char([0xF0 + h, 0x80 + x, 0x80 + y, 0x80 + z])
  {
    assert cp / 0x1000 == h * 0x40 + x;
  }

  lemma EncodingInjective(x: CodePoint, y: CodePoint)
    requires Scalar(x) && Scalar(y) && Encode(x) == Encode(y)
    ensures x == y
  {
    EncodedValue(x, Encode(x));
    EncodedValue(y, Encode(y));
  }

  lemma EncodedValue(cp: CodePoint, c: seq<Byte>)
    requires Scalar(cp) && c == Encode(cp)
    ensures cp == Value(c)
  {
    assert cp / 0x40 / 0x40 == cp / 0x1000 && cp / 0x1000 / 0x40 == cp / 0x4_0000;
  }

  /** The number that one to four bytes stand for. */
  function Value(c: seq<Byte>): int
    requires 1 <= |c| <= 4
  {
    var c0: int := c[0];
    if |c| == 1 then c0
    else
      var c1: int := c[1];
      if |c| == 2 then (c0 - 0xC0) * 0x40 + (c1 - 0x80)
      else
        var c2: int := c[2];
        if |c| == 3 then (c0 - 0xE0) * 0x1000 + (c1 - 0x80) * 0x40 + (c2 - 0x80)
        else
          var c3: int := c[3];
          (c0 - 0xF0) * 0x4_0000 + (c1 - 0x80) * 0x1000 + (c2 - 0x80) * 0x40 + (c3 - 0x80)
  }

  /** The encoder replaces only what lies beyond the last code point: a surrogate, also
      not a scalar value, is written out as three bytes that the decoder rejects. */
  lemma ReplacedIff(cp: CodePoint)
    requires !Scalar(cp)
    ensures Encode(cp) == Encode(REPLACEMENT) <==> cp > 0x10FFFF
    ensures cp <= 0x10FFFF ==> !Utf8Char(Encode(cp)) && DecodeNext(Encode(cp), 0) == Decoded(REPLACEMENT, 1)
  {
  }

  // ------------------------------------------------------------ whole strings

  ghost predicate Scalars(cps: seq<CodePoint>) {
    forall k :: 0 <= k < |cps| ==> Scalar(cps[k])
  }

  /** Decoding the concatenated encodings of scalar values gives them back. */
  lemma TextRoundTrip(cps: seq<CodePoint>)
    requires Scalars(cps)
    ensures DecodeAll(DecodeNext, EncodeAll(Encode, cps), 0) == cps
  {
    var encode, decode, good := Encode, DecodeNext, Scalar;
    forall before: seq<Byte>, cp: CodePoint, after: seq<Byte> {:trigger before + encode(cp) + after} | good(cp)
      ensures encode(cp) != [] && decode(before + encode(cp) + after, |before|) == Decoded(cp, |before| + |encode(cp)|)
    {
      RoundTrip(before, cp, after);
    }
    assert Invertible(encode, decode, good);
    StringRoundTrip(Encode, DecodeNext, Scalar, [], cps);
    assert [] + EncodeAll(Encode, cps) == EncodeAll(Encode, cps);
  }

  /** A byte string in which no replacement character is found is the encoding of the
      code points found in it. */
  lemma CleanTextEncodesBack(s: seq<Byte>)
    requires REPLACEMENT !in DecodeAll(DecodeNext, s, 0)
    ensures EncodeAll(Encode, DecodeAll(DecodeNext, s, 0)) == s
  {
    forall i | 0 <= i < |s|
      ensures var d := DecodeNext(s, i); i < d.next <= |s| && (d.cp != REPLACEMENT ==> Encode(d.cp) == s[i..d.next])
    {
      DecodeIff(s, i);
    }
    CleanStringEncodesBack(Encode, DecodeNext, REPLACEMENT, s, 0);
    assert s[0..] == s;
  }

  /** Whatever the bytes are, only scalar values are found in them. */
  lemma {:induction false} FindsScalars(s: seq<Byte>, i: nat)
    ensures Scalars(DecodeAll(DecodeNext, s, i))
    decreases |s| - i
  {
    if i < |s| {
      var d := DecodeNext(s, i);
      DecodeIff(s, i);
      FindsScalars(s, d.next);
      assert DecodeAll(DecodeNext, s, i) == [d.cp] + DecodeAll(DecodeNext, s, d.next);
    }
  }

  /** A byte string is the encoding of some text. */
  ghost predicate IsText(s: seq<Byte>) {
    exists cps :: Scalars(cps) && EncodeAll(Encode, cps) == s
  }

  /** Decoding and encoding again gives the bytes back exactly for the encodings of texts,
      those that contain a replacement character themselves included. */
  lemma EncodesBackIff(s: seq<Byte>)
    ensures EncodeAll(Encode, DecodeAll(DecodeNext, s, 0)) == s <==> IsText(s)
  {
    FindsScalars(s, 0);
    forall cps | Scalars(cps) && EncodeAll(Encode, cps) == s
      ensures EncodeAll(Encode, DecodeAll(DecodeNext, s, 0)) == s
    {
      TextRoundTrip(cps);
    }
  }

  /** The number of code points that repeated decoding finds. */
  method CodepointCount(s: seq<Byte>) returns (count: nat)
    ensures count == |DecodeAll(DecodeNext, s, 0)|
    ensures forall cps :: Scalars(cps) && EncodeAll(Encode, cps) == s ==> count == |cps|
  {
    count := 0;
    var i := 0;
    while i < |s|
      invariant 0 <= i <= |s|
      invariant count + |DecodeAll(DecodeNext, s, i)| == |DecodeAll(DecodeNext, s, 0)|
      decreases |s| - i
    {
      var d := DecodeNext(s, i);
      i := d.next;
      count := count + 1;
    }
    forall cps | Scalars(cps) && EncodeAll(Encode, cps) == s ensures count == |cps| {
      TextRoundTrip(cps);
    }
  }

  /** The encoder as it runs: bytes pushed one by one. */
  method EncodeBytes(cp: CodePoint) returns (out: seq<Byte>)
    ensures out == Encode(cp)
    decreases if cp <= 0x10FFFF then 0 else 1
  {
    out := [];
    if cp <= 0x7F {
      out := out + [cp];
    } else if cp <= 0x7FF {
      out := out + [0xC0 + cp / 0x40];
      out := out + [Tail(cp)];
    } else if cp <= 0xFFFF {
      out := out + [0xE0 + cp / 0x1000];
      out := out + [Tail(cp / 0x40)];
      out := out + [Tail(cp)];
    } else if cp <= 0x10FFFF {
      out := out + [0xF0 + cp / 0x4_0000];
      out := out + [Tail(cp / 0x1000)];
      out := out + [Tail(cp / 0x40)];
      out := out + [Tail(cp)];
    } else {
      out := EncodeBytes(REPLACEMENT);
    }
  }
}
