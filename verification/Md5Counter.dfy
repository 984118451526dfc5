/** The two-word bit counter of the MD5 context, with the carry found by comparison (`MD5Update`). */
module Md5Counter {
  import opened Bits
  import opened Rfc1321

  /** The low and high word of the number of bits in `n` bytes. */
  function LowBits(n: nat): nat {
    8 * n % TWO_TO_THE_32
  }

  function HighBits(n: nat): nat {
    8 * n / TWO_TO_THE_32 % TWO_TO_THE_32
  }

  /** The 32-bit additions. */
  function AddLow(low: nat, len: nat): nat {
    (low + len % TWO_TO_THE_32 * 8 % TWO_TO_THE_32) % TWO_TO_THE_32
  }

  function AddHigh(low: nat, high: nat, len: nat): nat {
    var carried := if AddLow(low, len) < low then (high + 1) % TWO_TO_THE_32 else high;
    (carried + len / 0x2000_0000) % TWO_TO_THE_32
  }

  /** Four bytes of a word in memory, the low-order byte first. */
  function NatBytes(n: nat): (l: seq<byte>)
    ensures |l| == 4
  {
    seq(4, j requires 0 <= j < 4 => ByteOf(n, j))
  }

  lemma Divides(x: nat, q: nat, r: nat)
    requires x == q * 0x1_0000_0000 + r && r < 0x1_0000_0000
    ensures x / 0x1_0000_0000 == q && x % 0x1_0000_0000 == r
  {
  }

  /** The shifted 32-bit length is the low word of the bits added, and the length shifted right the high word. */
  lemma ShiftedLength(len: nat, q: nat, r: nat)
    requires 8 * len == q * 0x1_0000_0000 + r && r < 0x1_0000_0000
    ensures len / 0x2000_0000 == q
    ensures len % 0x1_0000_0000 * 8 % 0x1_0000_0000 == r
  {
    var d, m := len / 0x1_0000_0000, len % 0x1_0000_0000;
    assert 8 * m == (q - 8 * d) * 0x1_0000_0000 + r;
    assert q - 8 * d >= 0;
    Divides(8 * m, q - 8 * d, r);
  }

  lemma ReducedFirst(q: nat, p: nat)
    ensures (q % 0x1_0000_0000 + p) % 0x1_0000_0000 == (q + p) % 0x1_0000_0000
  {
    var d := q / 0x1_0000_0000;
    var y := q % 0x1_0000_0000 + p;
    Divides(q + p, d + y / 0x1_0000_0000, y % 0x1_0000_0000);
  }

  /** The two words keep counting the bits modulo 2^64: the comparison finds every carry. */
  lemma CounterAdds(n: nat, len: nat)
    ensures AddLow(LowBits(n), len) == LowBits(n + len)
    ensures AddHigh(LowBits(n), HighBits(n), len) == HighBits(n + len)
  {
    var q, r := 8 * n / 0x1_0000_0000, 8 * n % 0x1_0000_0000;
    var q', r' := 8 * len / 0x1_0000_0000, 8 * len % 0x1_0000_0000;
    ShiftedLength(len, q', r');
    if r + r' < 0x1_0000_0000 {
      Divides(r + r', 0, r + r');
      Divides(8 * (n + len), q + q', r + r');
      ReducedFirst(q, q');
    } else {
      Divides(r + r', 1, r + r' - 0x1_0000_0000);
      Divides(8 * (n + len), q + q' + 1, r + r' - 0x1_0000_0000);
      ReducedFirst(q, 1);
      ReducedFirst(q + 1, q');
    }
  }

  /** The bytes that wait in the buffer are counted by the low word. */
  lemma CountOfPending(n: nat)
    ensures LowBits(n) / 8 % 64 == n % 64
  {
    var q, r := n / 0x2000_0000, n % 0x2000_0000;
    Divides(8 * n, q, 8 * r);
    Eighth(r);
    DropsBlocks(n, q * 0x80_0000, r);
  }

  lemma Eighth(r: nat)
    ensures 8 * r / 8 == r
  {
  }

  lemma DropsBlocks(n: nat, q: nat, r: nat)
    requires n == 64 * q + r
    ensures n % 64 == r % 64
  {
    var p, s := r / 64, r % 64;
    assert n == 64 * (q + p) + s;
  }

  lemma Powers()
    ensures Pow2(0) == 1 && Pow2(8) == 0x100 && Pow2(16) == 0x1_0000 && Pow2(24) == 0x100_0000
    ensures Pow2(32) == 0x1_0000_0000 && Pow2(40) == 0x100_0000_0000
    ensures Pow2(48) == 0x1_0000_0000_0000 && Pow2(56) == 0x100_0000_0000_0000
  {
  }

  lemma LowDigits(x: nat, h: nat, l: nat)
    requires x == h * 0x1_0000_0000 + l && l < 0x1_0000_0000
    ensures x % 0x100 == l % 0x100
    ensures x / 0x100 == h * 0x100_0000 + l / 0x100
    ensures x / 0x1_0000 == h * 0x1_0000 + l / 0x1_0000
    ensures x / 0x100_0000 == h * 0x100 + l / 0x100_0000
  {
  }

  lemma HighDigits(x: nat, h: nat, l: nat)
    requires x == h * 0x1_0000_0000 + l && l < 0x1_0000_0000
    ensures x / 0x1_0000_0000 == h
    ensures x / 0x100_0000_0000 == h / 0x100
    ensures x / 0x1_0000_0000_0000 == h / 0x1_0000
    ensures x / 0x100_0000_0000_0000 == h / 0x100_0000
  {
  }

  lemma DigitDropsMultiple(a: nat, m: nat, b: nat)
    requires a == m * 0x100 + b
    ensures a % 0x100 == b % 0x100
  {
    var q, r := b / 0x100, b % 0x100;
    assert a == (m + q) * 0x100 + r;
  }

  /** The bytes of a number as quotients by literals. */
  lemma LowDigitsAre(x: nat)
    ensures Digit(x, 0) == x % 0x100
    ensures Digit(x, 1) == x / 0x100 % 0x100
    ensures Digit(x, 2) == x / 0x1_0000 % 0x100
    ensures Digit(x, 3) == x / 0x100_0000 % 0x100
  {
    hide Pow2;
    Powers();
  }

  lemma HighDigitsAre(x: nat)
    ensures Digit(x, 4) == x / 0x1_0000_0000 % 0x100
    ensures Digit(x, 5) == x / 0x100_0000_0000 % 0x100
    ensures Digit(x, 6) == x / 0x1_0000_0000_0000 % 0x100
    ensures Digit(x, 7) == x / 0x100_0000_0000_0000 % 0x100
  {
    hide Pow2;
    Powers();
  }

  /** Removing multiples of 2^32 does not change the four low bytes. */
  lemma LowBytes(x: nat, h: nat, l: nat)
    requires x == h * 0x1_0000_0000 + l && l < 0x1_0000_0000
    ensures forall j :: 0 <= j < 4 ==> Digit(x, j) == Digit(l, j)
  {
    hide Digit;
    LowDigitsAre(x);
    LowDigitsAre(l);
    LowDigits(x, h, l);
    DigitDropsMultiple(x / 0x100, h * 0x1_0000, l / 0x100);
    DigitDropsMultiple(x / 0x1_0000, h * 0x100, l / 0x1_0000);
    DigitDropsMultiple(x / 0x100_0000, h, l / 0x100_0000);
  }

  /** The higher bytes are those of the quotient. */
  lemma HighBytes(x: nat, h: nat, l: nat)
    requires x == h * 0x1_0000_0000 + l && l < 0x1_0000_0000
    ensures forall j :: 0 <= j < 4 ==> Digit(x, j + 4) == Digit(h, j)
  {
    hide Digit;
    HighDigitsAre(x);
    LowDigitsAre(h);
    HighDigits(x, h, l);
  }

  /** The two words, low-order bytes first, are the length bytes of the padding. */
  lemma CounterIsLength(m: seq<byte>)
    ensures NatBytes(LowBits(|m|)) + NatBytes(HighBits(|m|)) == LengthBytes(m)
  {
    hide Digit;
    var x := 8 * |m|;
    var h, l := x / 0x1_0000_0000, x % 0x1_0000_0000;
    LowBytes(x, h, l);
    HighBytes(x, h, l);
    LowBytes(h, h / 0x1_0000_0000, h % 0x1_0000_0000);
    SameBytes(x, l, h % 0x1_0000_0000);
  }

  lemma SameBytes(x: nat, l: nat, h: nat)
    requires forall j :: 0 <= j < 4 ==> Digit(l, j) == Digit(x, j) && Digit(h, j) == Digit(x, j + 4)
    ensures NatBytes(l) + NatBytes(h) == seq(8, j requires 0 <= j < 8 => ByteOf(x, j))
  {
    forall j | 0 <= j < 8 ensures (NatBytes(l) + NatBytes(h))[j] == ByteOf(x, j) {
      if j >= 4 {
        assert Digit(h, j - 4) == Digit(x, j - 4 + 4);
      }
    }
  }
}
