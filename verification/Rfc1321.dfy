/** The MD5 algorithm as RFC 1321 describes it. */
module Rfc1321 {
  import opened Bits

  /** A 32-bit word; `+` on words wraps. */
  type Word = bv32

  /** An entry of the sine table, as a number. */
  type Constant = t: int | 0 <= t < 0x1_0000_0000

  datatype State = State(a: Word, b: Word, c: Word, d: Word)

  const INITIAL := State(0x67452301, 0xefcdab89, 0x98badcfe, 0x10325476)

  // ---------------------------------------------------------------- section 3.4: one 16-word block

  function F(x: Word, y: Word, z: Word): Word {
    (x & y) | (!x & z)
  }

  function G(x: Word, y: Word, z: Word): Word {
    (x & z) | (y & !z)
  }

  function H(x: Word, y: Word, z: Word): Word {
    x ^ y ^ z
  }

  function I(x: Word, y: Word, z: Word): Word {
    y ^ (x | !z)
  }

  /** The word of the block that operation `i` uses. */
  function WordIndex(i: nat): (k: nat)
    requires i < 64
    ensures k < 16
  {
    if i < 16 then i else if i < 32 then (5 * i + 1) % 16 else if i < 48 then (3 * i + 5) % 16 else (7 * i) % 16
  }

  function Pick(j: nat, s0: Constant, s1: Constant, s2: Constant, s3: Constant): Constant {
    if j == 0 then s0 else if j == 1 then s1 else if j == 2 then s2 else s3
  }

  /** The rotation of operation `i`. */
  function Shift(i: nat): (s: nat)
    requires i < 64
    ensures 0 < s < 32
  {
    if i < 16 then Pick(i % 4, 7, 12, 17, 22)
    else if i < 32 then Pick(i % 4, 5, 9, 14, 20)
    else if i < 48 then Pick(i % 4, 4, 11, 16, 23)
    else Pick(i % 4, 6, 10, 15, 21)
  }

  /** The sine table: entry `i` is the integer part of 2^32 * |sin(i + 1)|. */
  function T(i: nat): Constant
    requires i < 64
  {
    if i < 16 then T1(i) else if i < 32 then T2(i - 16) else if i < 48 then T3(i - 32) else T4(i - 48)
  }

  function T1(j: nat): Constant {
    if j < 4 then Pick(j % 4, 0xd76aa478, 0xe8c7b756, 0x242070db, 0xc1bdceee)
    else if j < 8 then Pick(j % 4, 0xf57c0faf, 0x4787c62a, 0xa8304613, 0xfd469501)
    else if j < 12 then Pick(j % 4, 0x698098d8, 0x8b44f7af, 0xffff5bb1, 0x895cd7be)
    else Pick(j % 4, 0x6b901122, 0xfd987193, 0xa679438e, 0x49b40821)
  }

  function T2(j: nat): Constant {
    if j < 4 then Pick(j % 4, 0xf61e2562, 0xc040b340, 0x265e5a51, 0xe9b6c7aa)
    else if j < 8 then Pick(j % 4, 0xd62f105d, 0x02441453, 0xd8a1e681, 0xe7d3fbc8)
    else if j < 12 then Pick(j % 4, 0x21e1cde6, 0xc33707d6, 0xf4d50d87, 0x455a14ed)
    else Pick(j % 4, 0xa9e3e905, 0xfcefa3f8, 0x676f02d9, 0x8d2a4c8a)
  }

  function T3(j: nat): Constant {
    if j < 4 then Pick(j % 4, 0xfffa3942, 0x8771f681, 0x6d9d6122, 0xfde5380c)
    else if j < 8 then Pick(j % 4, 0xa4beea44, 0x4bdecfa9, 0xf6bb4b60, 0xbebfbc70)
    else if j < 12 then Pick(j % 4, 0x289b7ec6, 0xeaa127fa, 0xd4ef3085, 0x04881d05)
    else Pick(j % 4, 0xd9d4d039, 0xe6db99e5, 0x1fa27cf8, 0xc4ac5665)
  }

  function T4(j: nat): Constant {
    if j < 4 then Pick(j % 4, 0xf4292244, 0x432aff97, 0xab9423a7, 0xfc93a039)
    else if j < 8 then Pick(j % 4, 0x655b59c3, 0x8f0ccc92, 0xffeff47d, 0x85845dd1)
    else if j < 12 then Pick(j % 4, 0x6fa87e4f, 0xfe2ce6e0, 0xa3014314, 0x4e0811a1)
    else Pick(j % 4, 0xf7537e82, 0xbd3af235, 0x2ad7d2bb, 0xeb86d391)
  }

  function Plus(x: Word, y: Word): Word {
    x + y
  }

  function Sum(a: Word, mix: Word, x: Word, t: Constant): Word {
    a + mix + x + t as Word
  }

  function RotateLeft(x: Word, s: nat): Word
    requires s <= 32
  {
    x.RotateLeft(s)
  }

  /** `b + ((a + mix + x + t) <<< s)`. */
  function NewWord(a: Word, b: Word, mix: Word, x: Word, t: Constant, s: nat): Word
    requires s <= 32
  {
    Plus(b, RotateLeft(Sum(a, mix, x, t), s))
  }

  /** Replace the first register, after which the four registers change places. */
  function Turn(s: State, mix: Word, x: Word, t: Constant, rotation: nat): State
    requires rotation <= 32
  {
    State(s.d, NewWord(s.a, s.b, mix, x, t, rotation), s.b, s.c)
  }

  /** Operation `i`. */
  function Operation(i: nat, s: State, x: seq<Word>): State
    requires i < 64 && |x| == 16
  {
    if i < 16 then Turn(s, F(s.b, s.c, s.d), x[WordIndex(i)], T(i), Shift(i))
    else if i < 32 then Turn(s, G(s.b, s.c, s.d), x[WordIndex(i)], T(i), Shift(i))
    else if i < 48 then Turn(s, H(s.b, s.c, s.d), x[WordIndex(i)], T(i), Shift(i))
    else Turn(s, I(s.b, s.c, s.d), x[WordIndex(i)], T(i), Shift(i))
  }

  /** `n` operations, the first of them number `i`. */
  function Operations(i: nat, n: nat, s: State, x: seq<Word>): State
    requires i + n <= 64 && |x| == 16
  {
    if n == 0 then s else Operation(i + n - 1, Operations(i, n - 1, s, x), x)
  }

  function AddStates(s: State, r: State): State {
    State(Plus(s.a, r.a), Plus(s.b, r.b), Plus(s.c, r.c), Plus(s.d, r.d))
  }

  function Compress(s: State, x: seq<Word>): State
    requires |x| == 16
  {
    AddStates(s, Operations(0, 64, s, x))
  }

  // ---------------------------------------------------------------- sections 3.1 to 3.3 and 3.5

  /** Byte `j` of a number, the lowest first. */
  function Digit(n: nat, j: nat): (d: nat)
    ensures d < 256
  {
    n / Pow2(8 * j) % 256
  }

  function ByteOf(n: nat, j: nat): byte {
    Digit(n, j) as byte
  }

  /** Words are four bytes, the low-order byte first. */
  function WordAt(block: seq<byte>, j: nat): Word
    requires 4 * j + 4 <= |block|
  {
    (block[4 * j] as Word) | ((block[4 * j + 1] as Word) << 8)
    | ((block[4 * j + 2] as Word) << 16) | ((block[4 * j + 3] as Word) << 24)
  }

  lemma WordOfBytes(b0: byte, b1: byte, b2: byte, b3: byte)
    ensures ((b0 as Word) | ((b1 as Word) << 8) | ((b2 as Word) << 16) | ((b3 as Word) << 24)) as nat
         == b0 as nat + 0x100 * b1 as nat + 0x1_0000 * b2 as nat + 0x100_0000 * b3 as nat
  {
  }

  /** The value of a word. */
  lemma WordIsNumber(block: seq<byte>, j: nat)
    requires 4 * j + 4 <= |block|
    ensures WordAt(block, j) as nat
         == block[4 * j] as nat + 0x100 * block[4 * j + 1] as nat
          + 0x1_0000 * block[4 * j + 2] as nat + 0x100_0000 * block[4 * j + 3] as nat
  {
    WordOfBytes(block[4 * j], block[4 * j + 1], block[4 * j + 2], block[4 * j + 3]);
  }

  function Words(block: seq<byte>): (x: seq<Word>)
    requires |block| == 64
    ensures |x| == 16
  {
    seq(16, j requires 0 <= j < 16 => WordAt(block, j))
  }

  /** The state after all 64-byte blocks of a message. */
  function Fold(m: seq<byte>): State
    requires |m| % 64 == 0
  {
    if |m| == 0 then INITIAL else Compress(Fold(m[..|m| - 64]), Words(m[|m| - 64..]))
  }

  function Zeros(n: nat): seq<byte> {
    seq(n, _ => 0)
  }

  /** The number of bits of the message, as 64 bits, low-order byte first. */
  function LengthBytes(m: seq<byte>): (l: seq<byte>)
    ensures |l| == 8
  {
    seq(8, j requires 0 <= j < 8 => ByteOf(8 * |m|, j))
  }

  /** Byte `j` of the length is the digit of weight 256^j of the number of bits. */
  lemma LengthByteIs(m: seq<byte>, j: nat)
    requires j < 8
    ensures LengthBytes(m)[j] as nat == 8 * |m| / Pow2(8 * j) % 256
  {
    NumberIsItsByte(Digit(8 * |m|, j));
  }

  /** Padding: one bit, then zero bits up to 448 modulo 512, then the length. */
  function Padded(m: seq<byte>): (p: seq<byte>)
    ensures |p| % 64 == 0
  {
    m + [0x80] + Zeros((55 - |m|) % 64) + LengthBytes(m)
  }

  function WordBytes(w: Word): (l: seq<byte>)
    ensures |l| == 4
  {
    seq(4, j requires 0 <= j < 4 => ByteOf(w as nat, j))
  }

  function StateBytes(s: State): (l: seq<byte>)
    ensures |l| == 16
  {
    WordBytes(s.a) + WordBytes(s.b) + WordBytes(s.c) + WordBytes(s.d)
  }

  /** The MD5 digest of a message. */
  function Md5(m: seq<byte>): (digest: seq<byte>)
    ensures |digest| == 16
  {
    StateBytes(Fold(Padded(m)))
  }
}
