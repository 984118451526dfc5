/** What the Bloom filter stands for: a set of bit numbers and three counters, fed with sliced hashes. */
module BloomSpec {
  import opened Bits
  import opened Offsets

  type Hash = seq<byte>

  /** Bit number `bit` of a byte buffer: the hash that is sliced, and the filter's own vector. */
  predicate GetBit(buf: seq<byte>, bit: nat)
    requires bit < 8 * |buf|
  {
    TestBit(buf[bit / 8], bit % 8)
  }

  function SetBitAt(buf: seq<byte>, bit: nat): (r: seq<byte>)
    requires bit < 8 * |buf|
    ensures |r| == |buf|
  {
    buf[bit / 8 := SetBit(buf[bit / 8], bit % 8)]
  }

  /** The number whose binary digits are the `n` bits of the hash from `offset` on, the first bit highest. */
  function Slice(h: Hash, offset: nat, n: nat): (v: nat)
    requires offset + n <= 8 * |h|
    ensures v < Pow2(n)
  {
    if n == 0 then 0 else 2 * Slice(h, offset, n - 1) + if GetBit(h, offset + n - 1) then 1 else 0
  }

  /** A hash is long enough for k slices of M bits. */
  predicate Sliceable(h: Hash, M: nat, k: nat) {
    Offset(k, M) <= 8 * |h|
  }

  /** The M bits of hash function `i` lie within the bits of k hash functions. */
  lemma SliceInRange(i: nat, M: nat, k: nat)
    requires i < k
    ensures Offset(i, M) + M == Offset(i + 1, M) <= Offset(k, M)
  {
    hide Offset;
    OffsetAdd(i, 1, M);
    OffsetUnit(M);
    OffsetAdd(i + 1, k - (i + 1), M);
  }

  /** The bit number that hash function `i` takes from a hash: its M bits from bit i*M on. */
  function BitNumber(h: Hash, M: nat, i: nat): (v: nat)
    requires Sliceable(h, M, i + 1)
    ensures v < Pow2(M)
  {
    SliceInRange(i, M, i + 1);
    Slice(h, Offset(i, M), M)
  }

  /** The binary digit of weight 2^w. */
  function BinaryDigit(x: nat, w: nat): nat {
    x / Pow2(w) % 2
  }

  lemma GetBitIsDigit(buf: seq<byte>, bit: nat)
    requires bit < 8 * |buf|
    ensures BinaryDigit(buf[bit / 8] as nat, bit % 8) == if GetBit(buf, bit) then 1 else 0
  {
    BitIsDigit(buf[bit / 8], bit % 8);
    hide TestBit, Pow2;
  }

  /** A slice is read in binary: its digit of weight 2^(n-1-i) is bit `offset + i`. */
  lemma {:induction false} SliceDigit(h: Hash, offset: nat, n: nat, i: nat)
    requires offset + n <= 8 * |h| && i < n
    ensures BinaryDigit(Slice(h, offset, n), n - 1 - i) == if GetBit(h, offset + i) then 1 else 0
  {
    hide GetBit, BinaryDigit;
    var bit := GetBit(h, offset + n - 1);
    NextDigit(Slice(h, offset, n - 1), if bit then 1 else 0, n - 2 - i);
    if i < n - 1 { SliceDigit(h, offset, n - 1, i); }
  }

  /** Reading one more digit moves the others up. */
  lemma NextDigit(x: nat, bit: nat, w: int)
    requires bit <= 1
    ensures BinaryDigit(2 * x + bit, 0) == bit
    ensures w >= 0 ==> BinaryDigit(2 * x + bit, w + 1) == BinaryDigit(x, w)
  {
    assert Pow2(0) == 1;
    if w >= 0 {
      var p := Pow2(w);
      assert Pow2(w + 1) == 2 * p;
      hide Pow2;
      DivideTwice(2 * x + bit, p);
    }
  }

  lemma DivideTwice(x: nat, p: nat)
    requires p > 0
    ensures x / (2 * p) == x / 2 / p
  {
    var q, r := x / 2 / p, x / 2 % p;
    assert x / 2 == p * q + r;
    var s := 2 * r + x % 2;
    assert x == 2 * p * q + s && s < 2 * p;
    QuotientIs(x, 2 * p, q, s);
  }

  lemma QuotientIs(x: nat, d: nat, q: nat, r: nat)
    requires x == d * q + r && r < d
    ensures x / d == q
  {
    OffsetMonotonic(x / d, q, d);
    OffsetMonotonic(q, x / d, d);
  }

  /** Hash function `i` reads bits i*M to i*M + M - 1, the first one highest. */
  lemma BitNumberDigit(h: Hash, M: nat, i: nat, j: nat)
    requires Sliceable(h, M, i + 1) && j < M
    ensures i * M + j < 8 * |h|
    ensures BitNumber(h, M, i) / Pow2(M - 1 - j) % 2 == h[(i * M + j) / 8] as nat / Pow2((i * M + j) % 8) % 2
  {
    SliceInRange(i, M, i + 1);
    assert Offset(i, M) == i * M;
    hide Offset, Slice, GetBit, Pow2;
    SliceDigit(h, i * M, M, j);
    GetBitIsDigit(h, i * M + j);
  }

  /** The `k` bit numbers that a hash stands for in a filter of 2^M bits. */
  ghost function Slices(h: Hash, M: nat, k: nat): (s: set<nat>)
    requires Sliceable(h, M, k)
  {
    if k == 0 then {} else
      SliceInRange(k - 1, M, k);
      Slices(h, M, k - 1) + {BitNumber(h, M, k - 1)}
  }

  /** They are those of hash functions 0 to k - 1. */
  lemma {:induction false} SlicesAreBitNumbers(h: Hash, M: nat, k: nat, v: nat)
    requires Sliceable(h, M, k)
    ensures v in Slices(h, M, k) <==> exists i: nat :: i < k && Sliceable(h, M, i + 1) && v == BitNumber(h, M, i)
  {
    hide BitNumber;
    if k > 0 {
      SliceInRange(k - 1, M, k);
      SlicesAreBitNumbers(h, M, k - 1, v);
    }
  }

  /** There are at most k bit numbers, all of them in the vector. */
  lemma {:induction false} SlicesInRange(h: Hash, M: nat, k: nat)
    requires Sliceable(h, M, k)
    ensures |Slices(h, M, k)| <= k
    ensures forall v | v in Slices(h, M, k) :: v < Pow2(M)
  {
    if k > 0 {
      SliceInRange(k - 1, M, k);
      SlicesInRange(h, M, k - 1);
    }
  }

  // ---------------------------------------------------------------- slicing loses nothing

  /** Equal slices have equal bits. */
  lemma {:induction false} SliceDeterminesBits(h: Hash, h': Hash, offset: nat, n: nat)
    requires offset + n <= 8 * |h| && |h| == |h'|
    ensures Slice(h, offset, n) == Slice(h', offset, n)
       <==> forall b | offset <= b < offset + n :: GetBit(h, b) == GetBit(h', b)
  {
    if n > 0 {
      SliceDeterminesBits(h, h', offset, n - 1);
    }
  }

  /** Two hashes have the same list of bit numbers. */
  ghost predicate SameSlices(h: Hash, h': Hash, M: nat, k: nat)
    requires Sliceable(h, M, k) && |h| == |h'|
  {
    if k == 0 then true
    else
      SliceInRange(k - 1, M, k);
      SameSlices(h, h', M, k - 1) && BitNumber(h, M, k - 1) == BitNumber(h', M, k - 1)
  }

  /** The list of bit numbers determines exactly the first k*M bits of the hash. */
  lemma {:induction false} SlicesDetermineBits(h: Hash, h': Hash, M: nat, k: nat)
    requires Sliceable(h, M, k) && |h| == |h'|
    ensures SameSlices(h, h', M, k) <==> forall b | 0 <= b < Offset(k, M) :: GetBit(h, b) == GetBit(h', b)
  {
    if k > 0 {
      hide GetBit, Slice, Offset;
      SliceInRange(k - 1, M, k);
      SlicesDetermineBits(h, h', M, k - 1);
      SliceDeterminesBits(h, h', Offset(k - 1, M), M);
    }
  }

  lemma BufferIsItsBits(h: Hash, h': Hash)
    requires |h| == |h'| && forall b | 0 <= b < 8 * |h| :: GetBit(h, b) == GetBit(h', b)
    ensures h == h'
  {
    forall i | 0 <= i < |h| ensures h[i] == h'[i] {
      forall j: nat | j < 8 ensures TestBit(h[i], j) == TestBit(h'[i], j) {
        assert (8 * i + j) / 8 == i && (8 * i + j) % 8 == j;
        assert GetBit(h, 8 * i + j) == GetBit(h', 8 * i + j);
      }
      BitsDetermineByte(h[i], h'[i]);
    }
  }

  /** Slicing is one-to-one on the hashes of a given length exactly when it uses every bit of them. */
  lemma SlicingIsInjective(bytes: nat, M: nat, k: nat)
    requires Offset(k, M) <= 8 * bytes
    ensures Offset(k, M) == 8 * bytes
       <==> forall h: Hash, h': Hash | |h| == bytes && |h'| == bytes && SameSlices(h, h', M, k) :: h == h'
  {
    if Offset(k, M) == 8 * bytes {
      forall h: Hash, h': Hash | |h| == bytes && |h'| == bytes && SameSlices(h, h', M, k) ensures h == h' {
        SlicesDetermineBits(h, h', M, k);
        BufferIsItsBits(h, h');
      }
    } else {
      var zero: Hash := seq(bytes, _ => 0);
      var other := SetBitAt(zero, 8 * bytes - 1);
      forall b | 0 <= b < Offset(k, M) ensures GetBit(zero, b) == GetBit(other, b) {
        SetBitTests(zero[b / 8], 7, b % 8);
      }
      SlicesDetermineBits(zero, other, M, k);
      ZeroHasNoBits(7);
      SetBitTests(0, 7, 7);
      assert other[bytes - 1] != zero[bytes - 1];
    }
  }

  // ---------------------------------------------------------------- the set of bits

  ghost function BitSet(v: seq<byte>): set<nat> {
    set n: nat | n < 8 * |v| && GetBit(v, n)
  }

  /** Bit `n` of a buffer is a binary digit of byte n / 8. */
  lemma BitSetDigit(v: seq<byte>, n: nat)
    ensures n in BitSet(v) <==> n < 8 * |v| && v[n / 8] as nat / Pow2(n % 8) % 2 == 1
  {
    if n < 8 * |v| { BitIsDigit(v[n / 8], n % 8); }
  }

  lemma SetBitAtAddsOne(v: seq<byte>, bit: nat)
    requires bit < 8 * |v|
    ensures BitSet(SetBitAt(v, bit)) == BitSet(v) + {bit}
  {
    var w := SetBitAt(v, bit);
    forall n: nat | n < 8 * |v| ensures GetBit(w, n) <==> GetBit(v, n) || n == bit {
      if n / 8 == bit / 8 { SetBitTests(v[bit / 8], bit % 8, n % 8); }
    }
  }

  lemma EmptyVector(n: nat)
    ensures BitSet(seq(n, _ => 0)) == {}
  {
    var v := seq(n, _ => 0);
    forall b: nat | b < 8 * n ensures !GetBit(v, b) { ZeroHasNoBits(b % 8); }
  }

  // ---------------------------------------------------------------- the counters

  /** The filter as a set of bits with its counters. */
  datatype Filter = Filter(bits: set<nat>, added: nat, unique: nat, aliased: nat)

  const EMPTY := Filter({}, 0, 0, 0)

  /** One add: the slices join the set; the add is unique if all k of them were new, aliased if none was. */
  ghost function Added(f: Filter, slices: set<nat>, k: nat): Filter {
    var newBits := slices - f.bits;
    Filter(f.bits + slices, f.added + 1,
           f.unique + (if |newBits| == k then 1 else 0), f.aliased + (if |newBits| == 0 then 1 else 0))
  }

  ghost predicate Present(f: Filter, slices: set<nat>) {
    slices <= f.bits
  }

  ghost predicate Fits(hashes: seq<Hash>, bytes: nat, M: nat, k: nat) {
    Offset(k, M) <= 8 * bytes && forall i | 0 <= i < |hashes| :: |hashes[i]| == bytes
  }

  lemma FitsIs(hashes: seq<Hash>, bytes: nat, M: nat, k: nat)
    ensures Fits(hashes, bytes, M, k) <==> k * M <= 8 * bytes && forall h | h in hashes :: |h| == bytes
  {
    assert forall i | 0 <= i < |hashes| :: hashes[i] in hashes;
  }

  /** The filter after a sequence of adds to the empty filter. */
  ghost function AfterAdds(hashes: seq<Hash>, bytes: nat, M: nat, k: nat): Filter
    requires Fits(hashes, bytes, M, k)
  {
    if |hashes| == 0 then EMPTY
    else Added(AfterAdds(hashes[..|hashes| - 1], bytes, M, k), Slices(hashes[|hashes| - 1], M, k), k)
  }

  lemma AfterOneMore(hashes: seq<Hash>, h: Hash, bytes: nat, M: nat, k: nat)
    requires Fits(hashes, bytes, M, k) && |h| == bytes
    ensures Fits(hashes + [h], bytes, M, k) && Sliceable(h, M, k)
    ensures AfterAdds(hashes + [h], bytes, M, k) == Added(AfterAdds(hashes, bytes, M, k), Slices(h, M, k), k)
  {
    assert (hashes + [h])[..|hashes|] == hashes;
  }

  /** The bits set are exactly the slices of the added hashes. */
  lemma {:induction false} BitsAreSlices(hashes: seq<Hash>, bytes: nat, M: nat, k: nat, v: nat)
    requires Fits(hashes, bytes, M, k)
    ensures v in AfterAdds(hashes, bytes, M, k).bits <==> exists i :: 0 <= i < |hashes| && v in Slices(hashes[i], M, k)
  {
    if |hashes| > 0 {
      var init := hashes[..|hashes| - 1];
      BitsAreSlices(init, bytes, M, k, v);
      if i :| 0 <= i < |init| && v in Slices(init[i], M, k) { assert v in Slices(hashes[i], M, k); }
      if i :| 0 <= i < |hashes| && v in Slices(hashes[i], M, k) && i < |hashes| - 1 {
        assert v in Slices(init[i], M, k);
      }
    }
  }

  /** The order of the adds, and repetitions among them, do not matter to the bits. */
  lemma OrderDoesNotMatter(hashes: seq<Hash>, hashes': seq<Hash>, bytes: nat, M: nat, k: nat)
    requires Fits(hashes, bytes, M, k) && Fits(hashes', bytes, M, k)
    requires forall h :: h in hashes <==> h in hashes'
    ensures AfterAdds(hashes, bytes, M, k).bits == AfterAdds(hashes', bytes, M, k).bits
  {
    forall v: nat ensures v in AfterAdds(hashes, bytes, M, k).bits <==> v in AfterAdds(hashes', bytes, M, k).bits {
      BitsAreSlices(hashes, bytes, M, k, v);
      BitsAreSlices(hashes', bytes, M, k, v);
      if i :| 0 <= i < |hashes| && v in Slices(hashes[i], M, k) {
        assert hashes[i] in hashes';
        var j :| 0 <= j < |hashes'| && hashes'[j] == hashes[i];
      }
      if i :| 0 <= i < |hashes'| && v in Slices(hashes'[i], M, k) {
        assert hashes'[i] in hashes;
        var j :| 0 <= j < |hashes| && hashes[j] == hashes'[i];
      }
    }
  }

  /** A hash that was added is found. */
  lemma AddedIsPresent(hashes: seq<Hash>, bytes: nat, M: nat, k: nat, i: nat)
    requires Fits(hashes, bytes, M, k) && i < |hashes|
    ensures Present(AfterAdds(hashes, bytes, M, k), Slices(hashes[i], M, k))
  {
    forall v | v in Slices(hashes[i], M, k) ensures v in AfterAdds(hashes, bytes, M, k).bits {
      BitsAreSlices(hashes, bytes, M, k, v);
    }
  }

  /** The partial adds: those that set some, but not all, of their k bits. */
  ghost function Partial(f: Filter): int {
    f.added - f.unique - f.aliased
  }

  /** `k` bits for each unique add and between 1 and k - 1 for each partial one. */
  ghost predicate Bounded(k: nat, unique: nat, partial: int, bits: nat) {
    k * unique + partial <= bits <= k * unique + (k - 1) * partial
  }

  /** The counters bound the number of set bits, over any sequence of adds. */
  lemma {:induction false} CountersBoundBits(hashes: seq<Hash>, bytes: nat, M: nat, k: nat)
    requires Fits(hashes, bytes, M, k)
    ensures
      var f := AfterAdds(hashes, bytes, M, k);
      Bounded(k, f.unique, Partial(f), |f.bits|)
  {
    if |hashes| > 0 {
      hide Bounded, Slices, Added;
      var init, slices := hashes[..|hashes| - 1], Slices(hashes[|hashes| - 1], M, k);
      CountersBoundBits(init, bytes, M, k);
      SlicesInRange(hashes[|hashes| - 1], M, k);
      AddKeepsBound(AfterAdds(init, bytes, M, k), slices, k);
    } else {
      assert Bounded(k, 0, 0, 0);
    }
  }

  lemma AddKeepsBound(f: Filter, slices: set<nat>, k: nat)
    requires |slices| <= k && Bounded(k, f.unique, Partial(f), |f.bits|)
    ensures
      var g := Added(f, slices, k);
      Bounded(k, g.unique, Partial(g), |g.bits|)
  {
    hide Bounded;
    var newBits := slices - f.bits;
    assert f.bits + slices == f.bits + newBits && f.bits !! newBits;
    assert |f.bits + newBits| == |f.bits| + |newBits|;
    SmallerSet(newBits, slices);
    BoundStep(k, f.unique, Partial(f), |f.bits|, |newBits|);
  }

  lemma SmallerSet<T>(a: set<T>, b: set<T>)
    requires a <= b
    ensures |a| <= |b|
  {
    assert b == a + (b - a);
  }

  lemma BoundStep(k: nat, u: nat, p: int, bits: nat, newBits: nat)
    requires Bounded(k, u, p, bits) && newBits <= k
    ensures Bounded(k, u + (if newBits == k then 1 else 0),
                    p + 1 - (if newBits == k then 1 else 0) - (if newBits == 0 then 1 else 0), bits + newBits)
  {
    assert k * (u + 1) == k * u + k;
    assert (k - 1) * (p + 1) == (k - 1) * p + (k - 1);
    assert (k - 1) * (p - 1) == (k - 1) * p - (k - 1);
  }

  /** An add is counted as aliased exactly when a query just before it would have found the hash. */
  lemma AliasedExactlyWhenPresent(f: Filter, slices: set<nat>, k: nat)
    ensures Added(f, slices, k).aliased == f.aliased + (if Present(f, slices) then 1 else 0)
  {
    if slices <= f.bits {
      assert slices - f.bits == {};
    } else {
      var v :| v in slices && v !in f.bits;
      assert v in slices - f.bits;
    }
  }
}
