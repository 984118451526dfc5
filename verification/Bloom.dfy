/** The Bloom filter object (`nsrl_bloom`): a bit vector in memory, three counters and a hit count. */
module Bloom {
  import opened Bits
  import opened BloomSpec
  import opened BloomCounts
  import opened Offsets

  lemma VectorHoldsAllBits(M: nat)
    requires M >= 3
    ensures 8 * Pow2(M - 3) == Pow2(M)
  {
    assert Pow2(M) == 2 * Pow2(M - 1) == 4 * Pow2(M - 2) == 8 * Pow2(M - 3);
  }

  datatype CreateResult = Created(filter: NSRLBloom) | ExitTooFewHashBits | ExitNotWholeBytes | ExitUnknownDigest

  class NSRLBloom {
    const hashBytes: nat
    const M: nat
    const k: nat
    const comment: string
    const vector: array<byte>
    var addedItems: nat
    var uniqueAddedItems: nat
    var aliasedAdds: nat
    var hits: nat

    ghost function State(): Filter
      reads `addedItems, `uniqueAddedItems, `aliasedAdds, vector
    {
      Filter(BitSet(vector[..]), addedItems, uniqueAddedItems, aliasedAdds)
    }

    /** The parameters are in range: every slice lies in the hash, and every bit number in the vector. */
    ghost predicate Valid() {
      3 <= M <= 63 && vector.Length == Pow2(M - 3) && Offset(k, M) <= 8 * hashBytes
    }

    constructor (hashBytes: nat, bloomBits: nat, k: nat, comment: string)
      requires 3 <= bloomBits <= 63
      ensures this.hashBytes == hashBytes && M == bloomBits && this.k == k && this.comment == comment && fresh(vector)
      ensures State() == EMPTY && hits == 0
      ensures k * bloomBits <= 8 * hashBytes <==> Valid()
    {
      this.hashBytes, this.M, this.k, this.comment := hashBytes, bloomBits, k, comment;
      vector := new byte[Pow2(bloomBits - 3)](_ => 0);
      addedItems, uniqueAddedItems, aliasedAdds, hits := 0, 0, 0, 0;
      new;
      assert vector[..] == seq(vector.Length, _ => 0);
      EmptyVector(vector.Length);
    }

    /** A filter with the fields and the vector that a file holds. */
    constructor Mapped(hashBytes: nat, bloomBits: nat, k: nat, comment: string, counters: (nat, nat, nat),
                       contents: seq<byte>)
      ensures this.hashBytes == hashBytes && M == bloomBits && this.k == k && this.comment == comment
      ensures addedItems == counters.0 && uniqueAddedItems == counters.1 && aliasedAdds == counters.2 && hits == 0
      ensures fresh(vector) && vector[..] == contents
    {
      this.hashBytes, this.M, this.k, this.comment := hashBytes, bloomBits, k, comment;
      vector := new byte[|contents|](i requires 0 <= i < |contents| => contents[i]);
      addedItems, uniqueAddedItems, aliasedAdds, hits := counters.0, counters.1, counters.2, 0;
    }

    /** `nsrl_bloom_create` for a filter in memory; the exits are those of the function and of `nsrl_bloom_set_params`.
        The product is a 32-bit one, so a filter that passes the test is usable exactly when it did not wrap. */
    static method Create(hashBits: nat, bloomBits: nat, k: nat, comment: string) returns (r: CreateResult)
      requires 3 <= bloomBits <= 63
      ensures r.ExitTooFewHashBits? <==> hashBits < bloomBits * k % 0x1_0000_0000
      ensures r.ExitNotWholeBytes? <==> hashBits >= bloomBits * k % 0x1_0000_0000 && hashBits % 8 != 0
      ensures r.Created? <==> hashBits >= bloomBits * k % 0x1_0000_0000 && hashBits in {128, 160, 256}
      ensures r.Created? ==> fresh(r.filter) && fresh(r.filter.vector)
      ensures r.Created? ==> r.filter.State() == EMPTY && r.filter.hits == 0
      ensures r.Created? ==> r.filter.hashBytes == hashBits / 8 && r.filter.M == bloomBits
      ensures r.Created? ==> r.filter.k == k && r.filter.comment == comment
      ensures r.Created? ==> (r.filter.Valid() <==> bloomBits * k <= hashBits)
    {
      if hashBits < bloomBits * k % 0x1_0000_0000 { return ExitTooFewHashBits; }
      if hashBits % 8 != 0 { return ExitNotWholeBytes; }
      if hashBits / 8 !in {16, 20, 32} { return ExitUnknownDigest; }
      var b := new NSRLBloom(hashBits / 8, bloomBits, k, comment);
      assert k * bloomBits == bloomBits * k;
      r := Created(b);
    }

    /** The bit number that hash function `i` computes: M bits of the hash, shifted in one by one. */
    method HashFunction(hash: Hash, i: nat) returns (v: nat)
      requires Valid() && |hash| == hashBytes && i < k
      ensures Sliceable(hash, M, i + 1) && v == BitNumber(hash, M, i)
      ensures v < 8 * vector.Length
    {
      hide Offset;
      SliceInRange(i, M, k);
      var offset := Offset(i, M);
      v := 0;
      for j := 0 to M
        invariant v == Slice(hash, offset, j)
      {
        v := 2 * v + if GetBit(hash, offset + j) then 1 else 0;
      }
      VectorHoldsAllBits(M);
    }

    method SetBloomBit(bit: nat)
      requires bit < 8 * vector.Length
      modifies vector
      ensures BitSet(vector[..]) == BitSet(old(vector[..])) + {bit}
      ensures vector[bit / 8] as nat
           == old(vector[bit / 8]) as nat + if bit in BitSet(old(vector[..])) then 0 else Pow2(bit % 8)
    {
      SetBitAtAddsOne(vector[..], bit);
      SetBitAddsWeight(vector[bit / 8], bit % 8);
      vector[bit / 8] := SetBit(vector[bit / 8], bit % 8);
      assert vector[..] == SetBitAt(old(vector[..]), bit);
    }

    method GetBloomBit(bit: nat) returns (set_: bool)
      requires bit < 8 * vector.Length
      ensures set_ == (bit in BitSet(vector[..]))
      ensures set_ <==> vector[bit / 8] as nat / Pow2(bit % 8) % 2 == 1
    {
      BitSetDigit(vector[..], bit);
      set_ := TestBit(vector[bit / 8], bit % 8);
    }

    /** The loop of `nsrl_bloom_add`: set the bits of the hash and count those that were not set. */
    method SetBits(hash: Hash) returns (addedBits: nat)
      requires Valid() && |hash| == hashBytes
      modifies vector
      ensures Sliceable(hash, M, k) && BitSet(vector[..]) == With(BitSet(old(vector[..])), hash, M, k)
      ensures addedBits == NewBits(hash, M, k, BitSet(old(vector[..])))
    {
      assert Valid() && Sliceable(hash, M, k);
      NoSlices(hash, M, BitSet(vector[..]));
      hide Valid, Offset, NewBits, With, Slices, BitNumber, BitSet, Sliceable, Pow2;
      ghost var bits := BitSet(vector[..]);
      addedBits := 0;
      for i := 0 to k
        invariant Sliceable(hash, M, i)
        invariant BitSet(vector[..]) == With(bits, hash, M, i)
        invariant addedBits == NewBits(hash, M, i, bits)
      {
        var v := HashFunction(hash, i);
        NextSlices(hash, M, i, k, bits);
        var isSet := GetBloomBit(v);
        if !isSet {
          SetBloomBit(v);
          addedBits := addedBits + 1;
        }
      }
    }

    method Add(hash: Hash)
      requires Valid() && |hash| == hashBytes
      modifies `addedItems, `uniqueAddedItems, `aliasedAdds, vector
      ensures Sliceable(hash, M, k) && State() == Added(old(State()), Slices(hash, M, k), k)
    {
      ghost var f := State();
      hide Valid, Offset, BitSet, Slices, With, NewBits, Added;
      var addedBits := SetBits(hash);
      CountAdd(addedBits);
      AddedIs(f, hash, M, k);
    }

    method CountAdd(addedBits: nat)
      modifies `uniqueAddedItems, `aliasedAdds, `addedItems
      ensures uniqueAddedItems == old(uniqueAddedItems) + (if addedBits == k then 1 else 0)
      ensures aliasedAdds == old(aliasedAdds) + (if addedBits == 0 then 1 else 0)
      ensures addedItems == old(addedItems) + 1
    {
      if addedBits == k { uniqueAddedItems := uniqueAddedItems + 1; }
      if addedBits == 0 { aliasedAdds := aliasedAdds + 1; }
      addedItems := addedItems + 1;
    }

    /** The loop of `nsrl_bloom_query`: stop at the first bit of the hash that is not set. */
    method TestBits(hash: Hash) returns (found: bool)
      requires Valid() && |hash| == hashBytes
      ensures Sliceable(hash, M, k) && found == (Slices(hash, M, k) <= BitSet(vector[..]))
    {
      assert Valid() && Sliceable(hash, M, k);
      NoSlices(hash, M, {});
      hide Valid, Offset, Slices, BitNumber, BitSet, Sliceable, Pow2;
      ghost var bits := BitSet(vector[..]);
      found := true;
      var i := 0;
      while i < k && found
        invariant 0 <= i <= k && Sliceable(hash, M, i)
        invariant if found then Slices(hash, M, i) <= bits else !(Slices(hash, M, k) <= bits)
      {
        var v := HashFunction(hash, i);
        NextSlices(hash, M, i, k, bits);
        var isSet := GetBloomBit(v);
        if !isSet { found := false; }
        i := i + 1;
      }
    }

    /** `found` says whether all bits of the hash are set. */
    method Query(hash: Hash) returns (found: bool)
      requires Valid() && |hash| == hashBytes
      modifies `hits
      ensures Sliceable(hash, M, k) && found == Present(State(), Slices(hash, M, k))
      ensures hits == old(hits) + 1
    {
      found := TestBits(hash);
      hits := hits + 1;
    }

    /** `nsrl_bloom_addString`; the argument is the digest of the string. It adds only what a query does not
        find, so it never counts an aliased add (for k = 0 every query succeeds). */
    method AddString(hash: Hash) returns (previouslyPresent: bool)
      requires Valid() && |hash| == hashBytes
      modifies `addedItems, `uniqueAddedItems, `aliasedAdds, `hits, vector
      ensures Sliceable(hash, M, k) && previouslyPresent == Present(old(State()), Slices(hash, M, k))
      ensures State() == if previouslyPresent then old(State()) else Added(old(State()), Slices(hash, M, k), k)
      ensures aliasedAdds == old(aliasedAdds) && hits == old(hits) + 1
    {
      previouslyPresent := Query(hash);
      if !previouslyPresent {
        AliasedExactlyWhenPresent(State(), Slices(hash, M, k), k);
        Add(hash);
      }
    }

    // -------------------------------------------------------------- counting the bits

    /** The table of `nsrl_bloom_utilization`: the number of bits set in each byte value. */
    static method BitsPer() returns (bitsPer: array<nat>)
      ensures fresh(bitsPer) && bitsPer.Length == 256
      ensures forall i: nat | i < 256 :: bitsPer[i] == PopCount(i as byte, 8)
    {
      bitsPer := new nat[256](_ => 0);
      for i := 0 to 256
        invariant forall m: nat | m < i :: bitsPer[m] == PopCount(m as byte, 8)
      {
        bitsPer[i] := 0;
        for j := 0 to 8
          invariant bitsPer[i] == PopCount(i as byte, j)
          invariant forall m: nat | m < i :: bitsPer[m] == PopCount(m as byte, 8)
        {
          if TestBit(i as byte, j) { bitsPer[i] := bitsPer[i] + 1; }
        }
      }
    }

    /** The numerator of `nsrl_bloom_utilization`. Its loop counter is an `int`. */
    method BitsSet() returns (bitsSet: nat)
      requires vector.Length < 0x8000_0000
      ensures bitsSet == |BitSet(vector[..])|
    {
      var bitsPer := BitsPer();
      bitsSet := 0;
      for i := 0 to vector.Length
        invariant bitsSet == SumOfPopCounts(vector[..i])
        invariant forall m: nat | m < 256 :: bitsPer[m] == PopCount(m as byte, 8)
      {
        assert vector[..i + 1] == vector[..i] + [vector[i]];
        SumStep(vector[..i], vector[i]);
        ByteIsItsNumber(vector[i]);
        if vector[i] != 0 { bitsSet := bitsSet + bitsPer[vector[i] as nat]; }
      }
      assert vector[..vector.Length] == vector[..];
      PopCountsCountBits(vector[..]);
    }

    /** `nsrl_calc_histogram`; the counts are a buffer of the caller, not the vector. */
    method CalcHistogram(counts: array<nat>)
      requires counts.Length == 256 && counts as object != vector
      modifies counts
      ensures IsHistogram(vector[..], counts[..])
    {
      for c := 0 to 256
        invariant forall m | 0 <= m < c :: counts[m] == 0
      {
        counts[c] := 0;
      }
      for i := 0 to vector.Length
        invariant forall c: nat | c < 256 :: counts[c] == Histogram(vector[..i], c)
      {
        var x := vector[i];
        ghost var done, before := vector[..i], counts[..];
        assert vector[..i + 1] == done + [x];
        ByteIsItsNumber(x);
        if x != 0 { counts[x as nat] := counts[x as nat] + 1; }
        forall c: nat | c < 256 ensures counts[c] == Histogram(done + [x], c) {
          HistogramStep(done, x, c);
          assert counts[c] == before[c] + if x as nat == c != 0 then 1 else 0;
        }
      }
      assert vector[..vector.Length] == vector[..];
    }

    /** The bit count that `nsrl_print_histogram` prints. */
    static method BitCount(counts: array<nat>) returns (bitCount: nat)
      requires counts.Length == 256
      ensures bitCount == WeightedSum(counts[..], 256)
    {
      bitCount := 0;
      assert WeightedSum(counts[..], 1) == 0 by { ZeroByte(); }
      hide PartWeight;
      for i := 1 to 256
        invariant bitCount == WeightedSum(counts[..], i)
      {
        PartWeightStep(counts[i], i, 0);
        if counts[i] > 0 {
          for j := 0 to 8
            invariant bitCount == WeightedSum(counts[..], i) + PartWeight(counts[i], i, j)
          {
            PartWeightStep(counts[i], i, j);
            if TestBit(i as byte, j) { bitCount := bitCount + counts[i]; }
          }
        }
      }
    }
  }

  /** How many of the first `k` bit numbers of a hash are not in `bits`. */
  ghost function NewBits(h: Hash, M: nat, k: nat, bits: set<nat>): nat
    requires Sliceable(h, M, k)
  {
    |Slices(h, M, k) - bits|
  }

  /** The set with the first `k` bit numbers of a hash added. */
  ghost function With(bits: set<nat>, h: Hash, M: nat, k: nat): set<nat>
    requires Sliceable(h, M, k)
  {
    bits + Slices(h, M, k)
  }

  lemma AddedIs(f: Filter, h: Hash, M: nat, k: nat)
    requires Sliceable(h, M, k)
    ensures
      var n := NewBits(h, M, k, f.bits);
      Added(f, Slices(h, M, k), k) ==
        Filter(With(f.bits, h, M, k), f.added + 1,
               f.unique + (if n == k then 1 else 0), f.aliased + (if n == 0 then 1 else 0))
  {
  }

  lemma NoSlices(h: Hash, M: nat, bits: set<nat>)
    ensures Sliceable(h, M, 0) && Slices(h, M, 0) == {}
    ensures With(bits, h, M, 0) == bits && NewBits(h, M, 0, bits) == 0
  {
  }

  /** How the bit numbers of a hash, and those of them not in `bits`, grow with one more hash function. */
  lemma NextSlices(h: Hash, M: nat, i: nat, k: nat, bits: set<nat>)
    requires Sliceable(h, M, k) && i < k
    ensures Sliceable(h, M, i) && Sliceable(h, M, i + 1)
    ensures
      var v, before := BitNumber(h, M, i), With(bits, h, M, i);
      && v in Slices(h, M, k) && Slices(h, M, i + 1) == Slices(h, M, i) + {v}
      && With(bits, h, M, i + 1) == before + {v}
      && (v in before ==> With(bits, h, M, i + 1) == before)
      && NewBits(h, M, i + 1, bits) == NewBits(h, M, i, bits) + (if v in before then 0 else 1)
  {
    hide Offset;
    SliceInRange(i, M, k);
    SliceAmong(h, M, i, k);
    var v, s := BitNumber(h, M, i), Slices(h, M, i);
    if v in bits + s {
      assert (s + {v}) - bits == s - bits;
    } else {
      assert (s + {v}) - bits == (s - bits) + {v};
    }
  }

  lemma {:induction false} SliceAmong(h: Hash, M: nat, i: nat, k: nat)
    requires i < k && Sliceable(h, M, k)
    ensures Sliceable(h, M, i + 1) && BitNumber(h, M, i) in Slices(h, M, k)
    decreases k
  {
    hide Offset;
    SliceInRange(i, M, k);
    if i < k - 1 {
      SliceInRange(k - 1, M, k);
      SliceAmong(h, M, i, k - 1);
    }
  }
}
