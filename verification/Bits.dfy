/** Bytes, single-bit access to them, and powers of two. */
module Bits {
  type byte = bv8

  const TWO_TO_THE_32: nat := 0x1_0000_0000
  const TWO_TO_THE_64: int := 0x1_0000_0000_0000_0000

  /** The mask with only bit `j` set, as `1 << j` computes it. */
  function Mask(j: nat): byte
    requires j < 8
  {
    1 << j
  }

  predicate TestBit(x: byte, j: nat)
    requires j < 8
  {
    x & Mask(j) != 0
  }

  function SetBit(x: byte, j: nat): byte
    requires j < 8
  {
    x | Mask(j)
  }

  lemma SetBitTests(x: byte, i: nat, j: nat)
    requires i < 8 && j < 8
    ensures TestBit(SetBit(x, i), j) <==> (i == j || TestBit(x, j))
  {
    MasksDiffer(i, j);
    OrTests(x, Mask(i), Mask(j));
  }

  lemma OrTests(x: byte, m: byte, n: byte)
    ensures (x | m) & n != 0 <==> m & n != 0 || x & n != 0
  {
  }

  lemma MasksDiffer(i: nat, j: nat)
    requires i < 8 && j < 8
    ensures Mask(i) & Mask(j) != 0 <==> i == j
  {
  }

  /** A byte is determined by its eight bits. */
  lemma BitsDetermineByte(x: byte, y: byte)
    requires forall j: nat | j < 8 :: TestBit(x, j) == TestBit(y, j)
    ensures x == y
  {
    assert TestBit(x, 0) == TestBit(y, 0);
    assert TestBit(x, 1) == TestBit(y, 1);
    assert TestBit(x, 2) == TestBit(y, 2);
    assert TestBit(x, 3) == TestBit(y, 3);
    assert TestBit(x, 4) == TestBit(y, 4);
    assert TestBit(x, 5) == TestBit(y, 5);
    assert TestBit(x, 6) == TestBit(y, 6);
    assert TestBit(x, 7) == TestBit(y, 7);
  }

  lemma ZeroHasNoBits(j: nat)
    requires j < 8
    ensures !TestBit(0, j)
  {
  }

  lemma ByteIsItsNumber(x: byte)
    ensures (x as int) as byte == x && (x as int == 0 <==> x == 0)
  {
  }

  lemma NumberIsItsByte(n: nat)
    requires n < 256
    ensures (n as byte) as int == n
  {
    assert n % 256 == n;
  }

  function Pow2(n: nat): (p: nat)
    ensures p > 0
  {
    if n == 0 then 1 else 2 * Pow2(n - 1)
  }

  // ---------------------------------------------------------------- bits as binary digits

  lemma SmallPowers()
    ensures Pow2(0) == 1 && Pow2(1) == 2 && Pow2(2) == 4 && Pow2(3) == 8
    ensures Pow2(4) == 16 && Pow2(5) == 32 && Pow2(6) == 64 && Pow2(7) == 128
  {
  }

  function BitValue(x: byte, j: nat): (b: nat)
    requires j < 8
    ensures b <= 1 && (b == 1 <==> TestBit(x, j))
  {
    if TestBit(x, j) then 1 else 0
  }

  lemma ByteIsItsMasks(x: byte)
    ensures x as nat
         == (if x & 1 != 0 then 1 else 0) + (if x & 2 != 0 then 2 else 0)
          + (if x & 4 != 0 then 4 else 0) + (if x & 8 != 0 then 8 else 0)
          + (if x & 16 != 0 then 16 else 0) + (if x & 32 != 0 then 32 else 0)
          + (if x & 64 != 0 then 64 else 0) + (if x & 128 != 0 then 128 else 0)
  {
  }

  /** The bits of a byte are its binary digits, the lowest first. */
  lemma ByteIsItsBits(x: byte)
    ensures x as nat == BitValue(x, 0) + 2 * BitValue(x, 1) + 4 * BitValue(x, 2) + 8 * BitValue(x, 3)
                      + 16 * BitValue(x, 4) + 32 * BitValue(x, 5) + 64 * BitValue(x, 6) + 128 * BitValue(x, 7)
  {
    ByteIsItsMasks(x);
  }

  lemma DigitAt(x: nat, low: nat, weight: nat, digit: nat, high: nat)
    requires weight in {1, 2, 4, 8, 16, 32, 64, 128}
    requires x == low + weight * (digit + 2 * high) && low < weight && digit <= 1
    ensures x / weight % 2 == digit
  {
    if
    case weight == 1 =>
    case weight == 2 =>
    case weight == 4 =>
    case weight == 8 =>
    case weight == 16 =>
    case weight == 32 =>
    case weight == 64 =>
    case weight == 128 =>
  }

  /** Testing a bit reads the binary digit of its weight. */
  lemma BitIsDigit(x: byte, j: nat)
    requires j < 8
    ensures TestBit(x, j) <==> x as nat / Pow2(j) % 2 == 1
  {
    SmallPowers();
    ByteIsItsBits(x);
    hide TestBit, BitValue, Pow2;
    var n := x as nat;
    var b0, b1, b2, b3 := BitValue(x, 0), BitValue(x, 1), BitValue(x, 2), BitValue(x, 3);
    var b4, b5, b6, b7 := BitValue(x, 4), BitValue(x, 5), BitValue(x, 6), BitValue(x, 7);
    var h3 := b4 + 2 * b5 + 4 * b6 + 8 * b7;
    var l4 := b0 + 2 * b1 + 4 * b2 + 8 * b3;
    match j
    case 0 => DigitAt(n, 0, 1, b0, b1 + 2 * b2 + 4 * b3 + 8 * h3);
    case 1 => DigitAt(n, b0, 2, b1, b2 + 2 * b3 + 4 * h3);
    case 2 => DigitAt(n, b0 + 2 * b1, 4, b2, b3 + 2 * h3);
    case 3 => DigitAt(n, b0 + 2 * b1 + 4 * b2, 8, b3, h3);
    case 4 => DigitAt(n, l4, 16, b4, b5 + 2 * b6 + 4 * b7);
    case 5 => DigitAt(n, l4 + 16 * b4, 32, b5, b6 + 2 * b7);
    case 6 => DigitAt(n, l4 + 16 * b4 + 32 * b5, 64, b6, b7);
    case 7 => DigitAt(n, l4 + 16 * b4 + 32 * b5 + 64 * b6, 128, b7, 0);
  }

  /** Setting a bit adds its weight if the bit was clear. */
  lemma SetBitAddsWeight(x: byte, j: nat)
    requires j < 8
    ensures SetBit(x, j) as nat == x as nat + if TestBit(x, j) then 0 else Pow2(j)
  {
    hide *;
    ByteIsSum(x);
    ByteIsSum(SetBit(x, j));
    BitsAfterSet(x, j);
    WeightAdded(BitsOf(x), BitsOf(SetBit(x, j)), j);
  }

  lemma BitsAfterSet(x: byte, j: nat)
    requires j < 8
    ensures BitsOf(x)[j] == if TestBit(x, j) then 1 else 0
    ensures forall i | 0 <= i < 8 :: BitsOf(SetBit(x, j))[i] == if i == j then 1 else BitsOf(x)[i]
  {
    forall i: nat | i < 8 ensures BitsOf(SetBit(x, j))[i] == if i == j then 1 else BitsOf(x)[i] {
      BitAfterSet(x, j, i);
    }
  }

  ghost function BitsOf(x: byte): (a: seq<nat>)
    ensures |a| == 8
  {
    seq(8, i requires 0 <= i < 8 => BitValue(x, i))
  }

  lemma ByteIsSum(x: byte)
    ensures x as nat == SumOfWeights(BitsOf(x))
  {
    ByteIsItsBits(x);
    hide BitValue;
  }

  ghost function SumOfWeights(a: seq<nat>): nat
    requires |a| == 8
  {
    a[0] + 2 * a[1] + 4 * a[2] + 8 * a[3] + 16 * a[4] + 32 * a[5] + 64 * a[6] + 128 * a[7]
  }

  lemma WeightAdded(a: seq<nat>, b: seq<nat>, j: nat)
    requires |a| == |b| == 8 && j < 8 && a[j] <= 1
    requires forall i | 0 <= i < 8 :: b[i] == if i == j then 1 else a[i]
    ensures SumOfWeights(b) == SumOfWeights(a) + (1 - a[j]) * Pow2(j)
  {
    SmallPowers();
    match j
    case 0 =>
    case 1 =>
    case 2 =>
    case 3 =>
    case 4 =>
    case 5 =>
    case 6 =>
    case 7 =>
  }

  lemma BitAfterSet(x: byte, i: nat, j: nat)
    requires i < 8 && j < 8
    ensures BitValue(SetBit(x, i), j) == if i == j then 1 else BitValue(x, j)
  {
    SetBitTests(x, i, j);
  }
}
