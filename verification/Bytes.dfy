/** Little-endian operands of the bytecode: 16-bit words and 64-bit immediates. */
module Bytes {
  type Byte = b: int | 0 <= b < 256

  const INT16_MIN := -32768
  const INT16_MAX := 32767

  predicate FitsInt16(x: int) {
    INT16_MIN <= x <= INT16_MAX
  }

  // A value of one byte is a case of its own in what follows: otherwise the verifier keeps
  // evaluating the same literal.

  /** Two bytes read as an unsigned word. */
  function U16(lo: Byte, hi: Byte): (r: int)
    ensures 0 <= r < 65536 && r == lo + 256 * hi
  {
    if hi == 0 then lo else lo + 256 * hi
  }

  /** Two bytes read as a two's complement word. */
  function I16(lo: Byte, hi: Byte): (r: int)
    ensures FitsInt16(r)
  {
    if hi < 128 then U16(lo, hi) else U16(lo, hi) - 65536
  }

  /** The low and the high byte that `write_int16` emits for a value. */
  function Lo(x: int): Byte {
    if 0 <= x < 256 then x else x % 256
  }

  function Hi(x: int): Byte {
    if 0 <= x < 256 then 0 else (x / 256) % 256
  }

  function Word(x: int): (w: seq<Byte>)
    ensures |w| == 2
  {
    [Lo(x), Hi(x)]
  }

  lemma Digits(x: int)
    ensures U16(Lo(x), Hi(x)) == x % 65536
  {
    var q := x / 256;
    assert x == 256 * q + x % 256;
    assert q == 256 * (q / 256) + q % 256;
    assert x == 65536 * (q / 256) + (256 * (q % 256) + x % 256);
  }

  lemma WordReadsBackSigned(x: int)
    requires FitsInt16(x)
    ensures I16(Lo(x), Hi(x)) == x
  {
    Digits(x);
    SignedDigits(Lo(x), Hi(x), x);
  }

  lemma SignedDigits(lo: Byte, hi: Byte, x: int)
    requires FitsInt16(x) && U16(lo, hi) == x % 65536
    ensures I16(lo, hi) == x
  {
  }

  lemma WordReadsBackUnsigned(x: int)
    requires 0 <= x < 65536
    ensures U16(Lo(x), Hi(x)) == x
  {
    Digits(x);
  }

  /** An offset outside the 16-bit range comes back as a different number. */
  lemma WordLosesLargeOffsets(x: int)
    ensures I16(Lo(x), Hi(x)) == x <==> FitsInt16(x)
  {
    if FitsInt16(x) {
      WordReadsBackSigned(x);
    }
  }

  const TWO_63: int := 0x8000_0000_0000_0000
  const TWO_64: int := 0x1_0000_0000_0000_0000

  /** The int64 that a mathematical integer becomes when it is stored in 64 bits. */
  function Wrap64(x: int): (r: int)
    ensures -TWO_63 <= r < TWO_63
  {
    (x + TWO_63) % TWO_64 - TWO_63
  }

  /** Only whole turns of 64 bits are lost. */
  lemma WrapLosesTurns(x: int)
    ensures (x - Wrap64(x)) % TWO_64 == 0
    ensures Wrap64(x) == x <==> -TWO_63 <= x < TWO_63
  {
    var k := (x + TWO_63) / TWO_64;
    assert x - Wrap64(x) == k * TWO_64;
  }

  /** Bytes read as one little-endian number. */
  function FromBytes(b: seq<Byte>): nat
    decreases |b|
  {
    if b == [] then 0 else b[0] + 256 * FromBytes(b[1..])
  }

  /** A 64-bit word read as two's complement. */
  function Signed64(u: nat): int {
    if u >= TWO_63 then u - TWO_64 else u
  }

  /** The 8-byte immediate of PUSH_INT. */
  function I64(code: seq<Byte>, pos: nat): int
    requires pos + 8 <= |code|
  {
    Signed64(FromBytes(code[pos..pos + 8]))
  }

  /** The first byte has the lowest weight, and the last one the sign. */
  lemma I64Is(code: seq<Byte>, pos: nat)
    requires pos + 8 <= |code|
    ensures I64(code, pos) == code[pos] + 256 * (code[pos + 1] + 256 * (code[pos + 2] + 256 * (code[pos + 3]
              + 256 * (code[pos + 4] + 256 * (code[pos + 5] + 256 * (code[pos + 6] + 256 * code[pos + 7]))))))
              - (if code[pos + 7] >= 128 then TWO_64 else 0)
  {
    FromBytesFrom(code, pos + 8, pos + 8);
    FromBytesFrom(code, pos + 7, pos + 8);
    FromBytesFrom(code, pos + 6, pos + 8);
    FromBytesFrom(code, pos + 5, pos + 8);
    FromBytesFrom(code, pos + 4, pos + 8);
    FromBytesFrom(code, pos + 3, pos + 8);
    FromBytesFrom(code, pos + 2, pos + 8);
    FromBytesFrom(code, pos + 1, pos + 8);
    FromBytesFrom(code, pos, pos + 8);
  }

  lemma FromBytesFrom(code: seq<Byte>, at: nat, end: nat)
    requires at <= end <= |code|
    ensures FromBytes(code[at..end]) == if at == end then 0 else code[at] + 256 * FromBytes(code[at + 1..end])
  {
    if at < end {
      assert code[at..end][1..] == code[at + 1..end];
    }
  }

  lemma WrapStep(x: int, k: int)
    ensures Wrap64(x + k * TWO_64) == Wrap64(x)
  {
    var y := x + TWO_63;
    assert (y + k * TWO_64) % TWO_64 == y % TWO_64;
  }

  /** Wrapping the product first and the sum afterwards is wrapping the whole once. */
  lemma WrapAbsorbsInner(x: int, y: int)
    ensures Wrap64(Wrap64(x) + y) == Wrap64(x + y)
  {
    var k := (x + TWO_63) / TWO_64;
    assert Wrap64(x) == x - k * TWO_64;
    WrapStep(x + y, -k);
  }
}
