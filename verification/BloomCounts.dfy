/** Two ways of counting the bits that are set in a vector: byte by byte, and over a histogram of the bytes. */
module BloomCounts {
  import opened Bits
  import opened BloomSpec

  /** The number of bits set among the lowest `n` of a byte. */
  function PopCount(x: byte, n: nat): (c: nat)
    requires n <= 8
    ensures c <= n
  {
    if n == 0 then 0 else PopCount(x, n - 1) + if TestBit(x, n - 1) then 1 else 0
  }

  function SumOfPopCounts(v: seq<byte>): nat {
    if |v| == 0 then 0 else SumOfPopCounts(v[..|v| - 1]) + PopCount(v[|v| - 1], 8)
  }

  /** The bit numbers, counted from `base`, of the bits set among the lowest `n` of a byte. */
  ghost function ByteBits(x: byte, base: nat, n: nat): set<nat>
    requires n <= 8
  {
    if n == 0 then {} else ByteBits(x, base, n - 1) + if TestBit(x, n - 1) then {base + n - 1} else {}
  }

  lemma {:induction false} ByteBitsAre(x: byte, base: nat, n: nat)
    requires n <= 8
    ensures forall b: nat :: b in ByteBits(x, base, n) <==> base <= b < base + n && TestBit(x, b - base)
  {
    hide TestBit;
    if n > 0 {
      ByteBitsAre(x, base, n - 1);
      var init := ByteBits(x, base, n - 1);
      assert ByteBits(x, base, n) == if TestBit(x, n - 1) then init + {base + n - 1} else init;
    }
  }

  lemma {:induction false} ByteBitsAreCounted(x: byte, base: nat, n: nat)
    requires n <= 8
    ensures |ByteBits(x, base, n)| == PopCount(x, n)
  {
    if n > 0 {
      ByteBitsAreCounted(x, base, n - 1);
      ByteBitsAre(x, base, n - 1);
      NextBit(x, base, n - 1);
      hide *;
      OneMoreBit(ByteBits(x, base, n - 1), base + n - 1);
    }
  }

  lemma NextBit(x: byte, base: nat, n: nat)
    requires n < 8
    ensures ByteBits(x, base, n + 1) == ByteBits(x, base, n) + if TestBit(x, n) then {base + n} else {}
    ensures PopCount(x, n + 1) == PopCount(x, n) + if TestBit(x, n) then 1 else 0
  {
    hide TestBit;
  }

  lemma OneMoreBit(s: set<nat>, b: nat)
    requires b !in s
    ensures |s + {b}| == |s| + 1 && s + {} == s
  {
  }

  lemma LastByteBits(v: seq<byte>, x: byte, b: nat)
    ensures b in BitSet(v + [x]) <==> b in BitSet(v) || (8 * |v| <= b < 8 * |v| + 8 && TestBit(x, b - 8 * |v|))
  {
    var w := v + [x];
    if b < 8 * |v| {
      assert b / 8 < |v| && w[b / 8] == v[b / 8];
    } else if b < 8 * |w| {
      assert b / 8 == |v| && b % 8 == b - 8 * |v|;
    }
  }

  lemma BitSetGrows(v: seq<byte>, x: byte)
    ensures BitSet(v + [x]) == BitSet(v) + ByteBits(x, 8 * |v|, 8)
    ensures |BitSet(v + [x])| == |BitSet(v)| + PopCount(x, 8)
  {
    LastByteAdds(v, x);
    ByteBitsAre(x, 8 * |v|, 8);
    ByteBitsAreCounted(x, 8 * |v|, 8);
    BitsAreBelow(v);
    hide BitSet, ByteBits, PopCount, TestBit;
    assert BitSet(v) !! ByteBits(x, 8 * |v|, 8);
  }

  lemma LastByteAdds(v: seq<byte>, x: byte)
    ensures BitSet(v + [x]) == BitSet(v) + ByteBits(x, 8 * |v|, 8)
  {
    ByteBitsAre(x, 8 * |v|, 8);
    hide BitSet, ByteBits, PopCount, TestBit;
    var all, init, last := BitSet(v + [x]), BitSet(v), ByteBits(x, 8 * |v|, 8);
    forall b: nat ensures b in all <==> b in init || b in last {
      LastByteBits(v, x, b);
    }
    assert all == init + last;
  }

  lemma BitsAreBelow(v: seq<byte>)
    ensures forall b | b in BitSet(v) :: b < 8 * |v|
  {
  }

  /** Adding up the bits of the bytes gives the number of set bits. */
  lemma {:induction false} PopCountsCountBits(v: seq<byte>)
    ensures SumOfPopCounts(v) == |BitSet(v)|
  {
    if |v| == 0 {
      assert BitSet(v) == {};
    } else {
      var init := v[..|v| - 1];
      hide BitSet;
      PopCountsCountBits(init);
      BitSetGrows(init, v[|v| - 1]);
      assert v == init + [v[|v| - 1]];
    }
  }

  lemma SumStep(v: seq<byte>, x: byte)
    ensures SumOfPopCounts(v + [x]) == SumOfPopCounts(v) + PopCount(x, 8)
    ensures x == 0 ==> SumOfPopCounts(v + [x]) == SumOfPopCounts(v)
  {
    assert (v + [x])[..|v|] == v;
    ZeroByte();
  }

  // ---------------------------------------------------------------- the histogram

  /** How many bytes of the vector are `c`; the histogram leaves the zero bytes out. */
  function Histogram(v: seq<byte>, c: nat): nat {
    if |v| == 0 then 0 else Histogram(v[..|v| - 1], c) + if v[|v| - 1] as nat == c != 0 then 1 else 0
  }

  lemma HistogramStep(v: seq<byte>, x: byte, c: nat)
    ensures Histogram(v + [x], c) == Histogram(v, c) + if x as nat == c != 0 then 1 else 0
  {
    assert (v + [x])[..|v|] == v;
  }

  /** The number of bits that `count` bytes of value `c` contribute with their lowest `n` bits. */
  function PartWeight(count: nat, c: nat, n: nat): nat
    requires c < 256 && n <= 8
  {
    count * PopCount(c as byte, n)
  }

  function Weight(count: nat, c: nat): nat
    requires c < 256
  {
    PartWeight(count, c, 8)
  }

  lemma PartWeightStep(count: nat, c: nat, n: nat)
    requires c < 256 && n < 8
    ensures PartWeight(count, c, 0) == 0 && PartWeight(0, c, 8) == 0
    ensures PartWeight(count, c, n + 1) == PartWeight(count, c, n) + if TestBit(c as byte, n) then count else 0
  {
  }

  /** The bits of the byte values below `n`, each weighted with its count. */
  function WeightedSum(counts: seq<nat>, n: nat): nat
    requires n <= |counts| <= 256
  {
    if n == 0 then 0 else WeightedSum(counts, n - 1) + Weight(counts[n - 1], n - 1)
  }

  /** The places of a byte value. */
  ghost function Places(v: seq<byte>, c: nat): set<int> {
    set i | 0 <= i < |v| && IsAt(v[i], c)
  }

  predicate IsAt(x: byte, c: nat) {
    x as nat == c
  }

  lemma PlacesMore(v: seq<byte>, c: nat)
    requires |v| > 0
    ensures |Places(v, c)| == |Places(v[..|v| - 1], c)| + if v[|v| - 1] as nat == c then 1 else 0
  {
    hide IsAt;
    var n := |v| - 1;
    if IsAt(v[n], c) {
      assert Places(v, c) == Places(v[..n], c) + {n};
    } else {
      assert Places(v, c) == Places(v[..n], c);
    }
    assert IsAt(v[n], c) <==> v[n] as nat == c by { AtIs(v[n], c); }
  }

  lemma AtIs(x: byte, c: nat)
    ensures IsAt(x, c) <==> x as nat == c
  {
  }

  /** The count of a byte value is the number of its places; zeros are not counted. */
  lemma {:induction false} HistogramIsCount(v: seq<byte>, c: nat)
    ensures Histogram(v, c) == if c == 0 then 0 else |Places(v, c)|
  {
    if |v| == 0 {
      assert Places(v, c) == {};
    } else {
      HistogramIsCount(v[..|v| - 1], c);
      PlacesMore(v, c);
      hide Places;
    }
  }

  ghost predicate IsHistogram(v: seq<byte>, counts: seq<nat>) {
    |counts| == 256 && forall c: nat | c < 256 :: counts[c] == Histogram(v, c)
  }

  /** Counting one more byte of value `c` adds its bits to the weighted sum. */
  lemma {:induction false} WeightedSumStep(counts: seq<nat>, counts': seq<nat>, c: nat, n: nat)
    requires |counts| == |counts'| == 256 && c < 256 && n <= 256
    requires forall i | 0 <= i < 256 :: counts'[i] == counts[i] + if i == c != 0 then 1 else 0
    ensures WeightedSum(counts', n) == WeightedSum(counts, n) + if 0 < c < n then PopCount(c as byte, 8) else 0
  {
    if n > 0 {
      WeightedSumStep(counts, counts', c, n - 1);
      OneMore(counts[n - 1], n - 1);
      hide Weight, PopCount;
    }
  }

  lemma OneMore(count: nat, c: nat)
    requires c < 256
    ensures Weight(count + 1, c) == Weight(count, c) + PopCount(c as byte, 8)
  {
  }

  lemma {:induction false} EmptyWeighs(counts: seq<nat>, n: nat)
    requires n <= |counts| <= 256 && forall i | 0 <= i < n :: counts[i] == 0
    ensures WeightedSum(counts, n) == 0
  {
    if n > 0 { EmptyWeighs(counts, n - 1); }
  }

  lemma ZeroByte()
    ensures PopCount(0, 8) == 0
  {
    assert forall j: nat | j < 8 :: !TestBit(0, j) by {
      forall j: nat | j < 8 ensures !TestBit(0, j) { ZeroHasNoBits(j); }
    }
    NoBits(0, 8);
  }

  lemma {:induction false} NoBits(x: byte, n: nat)
    requires n <= 8 && forall j: nat | j < n :: !TestBit(x, j)
    ensures PopCount(x, n) == 0
  {
    if n > 0 { NoBits(x, n - 1); }
  }

  /** Summing over the histogram is summing over the bytes. */
  lemma {:induction false} HistogramCountsBits(v: seq<byte>, counts: seq<nat>)
    requires IsHistogram(v, counts)
    ensures WeightedSum(counts, 256) == SumOfPopCounts(v)
  {
    if |v| == 0 {
      EmptyWeighs(counts, 256);
    } else {
      var counts' := seq(256, c requires 0 <= c < 256 => Histogram(v[..|v| - 1], c));
      HistogramCountsBits(v[..|v| - 1], counts');
      var x := v[|v| - 1];
      WeightedSumStep(counts', counts, x as nat, 256);
      ByteIsItsNumber(x);
      ZeroByte();
    }
  }

  /** The two counts of the filter agree for every vector. */
  lemma CountsAgree(v: seq<byte>, counts: seq<nat>)
    requires IsHistogram(v, counts)
    ensures WeightedSum(counts, 256) == SumOfPopCounts(v) == |BitSet(v)|
  {
    HistogramCountsBits(v, counts);
    PopCountsCountBits(v);
  }
}
