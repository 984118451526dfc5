/** What the scan of an image leaves in a filemap, and how that compares with matching all blocks against all. */
module ScanSpec {
  import opened Bits
  import opened Digests
  import opened Filemaps
  import opened Offsets

  function Block(data: seq<byte>, i: nat, bs: nat): seq<byte>
    requires bs > 0 && i < Blocks(|data|, bs)
  {
    BlockInData(data, i, bs);
    data[Offset(i, bs)..Offset(i, bs) + bs]
  }

  lemma BlockInData(data: seq<byte>, i: nat, bs: nat)
    requires bs > 0 && i < Blocks(|data|, bs)
    ensures Offset(i, bs) + bs <= |data|
  {
    hide Offset, Blocks, Extra;
    SplitBytes(|data|, bs);
    OffsetMonotonic(i, Blocks(|data|, bs), bs);
  }

  /** The digests of the full blocks of a file. */
  function BlockDigests(hash: seq<byte> -> Digest, data: seq<byte>, bs: nat): seq<Digest>
    requires bs > 0
  {
    seq<Digest>(Blocks(|data|, bs), i requires 0 <= i < Blocks(|data|, bs) => hash(Block(data, i, bs)))
  }

  // ---------------------------------------------------------------- the index of a master

  /** The block numbers, narrowed to 32 bits, that the index holds for a digest, in the order they were added in. */
  function Indices(master: seq<Digest>, d: Digest): (idx: seq<nat>)
    ensures forall k | 0 <= k < |idx| :: idx[k] < |master| && idx[k] < TWO_TO_THE_32
  {
    if |master| == 0 then []
    else
      var last := |master| - 1;
      Indices(master[..last], d) + if master[last] == d then [last % TWO_TO_THE_32] else []
  }

  /** How often the index holds block `i` for a digest. */
  function Multiplicity(master: seq<Digest>, d: Digest, i: nat): nat {
    multiset(Indices(master, d))[i]
  }

  lemma {:induction false} NeverBeyond32Bits(master: seq<Digest>, d: Digest, i: nat)
    requires i >= TWO_TO_THE_32
    ensures Multiplicity(master, d, i) == 0
  {
    if |master| > 0 { NeverBeyond32Bits(master[..|master| - 1], d, i); }
  }

  /** No block whose number needs more than 32 bits has the digest. */
  ghost predicate NoneWide(master: seq<Digest>, d: Digest) {
    forall j | TWO_TO_THE_32 <= j < |master| :: master[j] != d
  }

  /** If no block beyond 32 bits has the digest, block `i` is held once when it has the digest, else not at all. */
  lemma {:induction false} HeldOnce(master: seq<Digest>, d: Digest, i: nat)
    requires i < TWO_TO_THE_32 && NoneWide(master, d)
    ensures Multiplicity(master, d, i) == if i < |master| && master[i] == d then 1 else 0
  {
    if |master| > 0 {
      var last := |master| - 1;
      HeldOnce(master[..last], d, i);
      assert multiset([last])[i] == if last == i then 1 else 0;
      assert last < TWO_TO_THE_32 ==> last % TWO_TO_THE_32 == last;
    }
  }

  /** A digest has indices exactly when some block of the master has it. */
  lemma {:induction false} IndicesNonEmpty(master: seq<Digest>, d: Digest)
    ensures |Indices(master, d)| > 0 <==> d in master
  {
    if |master| > 0 {
      var last := |master| - 1;
      IndicesNonEmpty(master[..last], d);
      assert master == master[..last] + [master[last]];
    }
  }

  // ---------------------------------------------------------------- the scan

  /** `count` entries of the same image block. */
  function Copies(n: BlockNumber, count: nat): (l: Blocklist)
    ensures |l| == count && forall i | 0 <= i < count :: l[i] == n
  {
    seq(count, _ => n)
  }

  predicate Scannable(image: seq<Digest>, start: nat, end: nat) {
    end <= |image| < 0x2000_0000_0000_0000
  }

  /** What scanning image blocks from .. end - 1 leaves in the list of master block `i`. */
  function Hits(master: seq<Digest>, image: seq<Digest>, i: nat, start: nat, end: nat): Blocklist
    requires Scannable(image, start, end)
    decreases end
  {
    if end <= start then []
    else Hits(master, image, i, start, end - 1) + Copies(end - 1, Multiplicity(master, image[end - 1], i))
  }

  /** Every image block against master block `i`, without index or filter. */
  function Naive(master: seq<Digest>, image: seq<Digest>, i: nat, start: nat, end: nat): Blocklist
    requires Scannable(image, start, end) && i < |master|
    decreases end
  {
    if end <= start then []
    else Naive(master, image, i, start, end - 1) + if image[end - 1] == master[i] then [end - 1] else []
  }

  /** The naive list holds exactly the scanned image blocks with the digest of the master block. */
  lemma {:induction false} NaiveIsAllMatches(master: seq<Digest>, image: seq<Digest>, i: nat, start: nat, end: nat,
                                             v: BlockNumber)
    requires Scannable(image, start, end) && i < |master|
    ensures v in Naive(master, image, i, start, end) <==> start <= v < end && image[v] == master[i]
    decreases end
  {
    if end > start { NaiveIsAllMatches(master, image, i, start, end - 1, v); }
  }

  /** The naive list is strictly increasing. */
  lemma {:induction false} NaiveIncreases(master: seq<Digest>, image: seq<Digest>, i: nat, start: nat, end: nat, j: nat,
                                          k: nat)
    requires Scannable(image, start, end) && i < |master| && j < k < |Naive(master, image, i, start, end)|
    ensures Naive(master, image, i, start, end)[j] < Naive(master, image, i, start, end)[k]
    decreases end
  {
    var prev := Naive(master, image, i, start, end - 1);
    if k < |prev| {
      NaiveIncreases(master, image, i, start, end - 1, j, k);
    } else {
      assert prev[j] in prev;
      NaiveIsAllMatches(master, image, i, start, end - 1, prev[j]);
    }
  }

  /** Every location is that of a scanned block. */
  lemma {:induction false} HitsAreScanned(master: seq<Digest>, image: seq<Digest>, i: nat, start: nat, end: nat)
    requires Scannable(image, start, end)
    ensures forall v | v in Hits(master, image, i, start, end) :: start <= v < end
    decreases end
  {
    hide Multiplicity, Copies;
    if end > start { HitsAreScanned(master, image, i, start, end - 1); }
  }

  ghost predicate Under(l: Blocklist, n: BlockNumber) {
    forall j | 0 <= j < |l| :: l[j] < n
  }

  lemma HitsAreUnder(master: seq<Digest>, image: seq<Digest>, i: nat, start: nat, end: nat)
    requires Scannable(image, start, end)
    ensures Under(Hits(master, image, i, start, end), end)
  {
    HitsAreScanned(master, image, i, start, end);
    hide Hits;
    var l := Hits(master, image, i, start, end);
    assert forall j | 0 <= j < |l| :: l[j] in l;
  }

  ghost predicate FirstIsLowest(l: Blocklist) {
    forall j | 0 <= j < |l| :: l[0] <= l[j]
  }

  lemma StaysLowest(l: Blocklist, n: BlockNumber, count: nat)
    requires FirstIsLowest(l) && Under(l, n)
    ensures FirstIsLowest(l + Copies(n, count))
  {
  }

  /** The first location of a block is its lowest. */
  lemma {:induction false} FirstHitIsLowest(master: seq<Digest>, image: seq<Digest>, i: nat, start: nat, end: nat)
    requires Scannable(image, start, end)
    ensures FirstIsLowest(Hits(master, image, i, start, end))
    decreases end
  {
    hide Multiplicity, Under, Copies;
    if end > start {
      var init := Hits(master, image, i, start, end - 1);
      FirstHitIsLowest(master, image, i, start, end - 1);
      HitsAreUnder(master, image, i, start, end - 1);
      StaysLowest(init, end - 1, Multiplicity(master, image[end - 1], i));
    }
  }

  lemma {:induction false} BeyondIsNeverFound(master: seq<Digest>, image: seq<Digest>, i: nat, start: nat, end: nat)
    requires Scannable(image, start, end) && i >= TWO_TO_THE_32
    ensures Hits(master, image, i, start, end) == []
    decreases end
  {
    if end > start {
      BeyondIsNeverFound(master, image, i, start, end - 1);
      NeverBeyond32Bits(master, image[end - 1], i);
    }
  }

  lemma FewCopies(n: BlockNumber)
    ensures Copies(n, 1) == [n] && Copies(n, 0) == []
  {
  }

  /** No block whose number needs more than 32 bits occurs in the scanned part of the image. */
  ghost predicate NoWideBlockOccurs(master: seq<Digest>, image: seq<Digest>, start: nat, end: nat)
    requires Scannable(image, start, end)
  {
    forall n | start <= n < end :: NoneWide(master, image[n])
  }

  lemma {:induction false} HitsAreNaive(master: seq<Digest>, image: seq<Digest>, i: nat, start: nat, end: nat)
    requires Scannable(image, start, end) && i < |master| && i < TWO_TO_THE_32
    requires NoWideBlockOccurs(master, image, start, end)
    ensures Hits(master, image, i, start, end) == Naive(master, image, i, start, end)
    decreases end
  {
    if end > start {
      hide Multiplicity, NoneWide;
      HitsAreNaive(master, image, i, start, end - 1);
      HeldOnce(master, image[end - 1], i);
      FewCopies(end - 1);
    }
  }

  ghost predicate ScanIsExact(master: seq<Digest>, image: seq<Digest>, start: nat, end: nat)
    requires Scannable(image, start, end)
  {
    forall i: nat | i < |master| :: Hits(master, image, i, start, end) == Naive(master, image, i, start, end)
  }

  /** The indexed scan finds exactly what the naive comparison finds, if and only if no wide block occurs. */
  lemma ScanExactly(master: seq<Digest>, image: seq<Digest>, start: nat, end: nat)
    requires Scannable(image, start, end)
    ensures ScanIsExact(master, image, start, end) <==> NoWideBlockOccurs(master, image, start, end)
    ensures |master| <= TWO_TO_THE_32 ==> ScanIsExact(master, image, start, end)
  {
    if ScanIsExact(master, image, start, end) {
      forall n, j | start <= n < end && TWO_TO_THE_32 <= j < |master| ensures master[j] != image[n] {
        BeyondIsNeverFound(master, image, j, start, end);
        NaiveIsAllMatches(master, image, j, start, end, n);
      }
    }
    if NoWideBlockOccurs(master, image, start, end) {
      forall i: nat | i < |master| ensures Hits(master, image, i, start, end) == Naive(master, image, i, start, end) {
        if i < TWO_TO_THE_32 {
          HitsAreNaive(master, image, i, start, end);
        } else {
          BeyondIsNeverFound(master, image, i, start, end);
          var l := Naive(master, image, i, start, end);
          if |l| > 0 { NaiveIsAllMatches(master, image, i, start, end, l[0]); }
        }
      }
    }
  }

  /** A failure: in an image that is the master itself, the block just beyond 32 bits occurs but is not found. */
  lemma WideBlockIsLost(master: seq<Digest>)
    requires |master| == TWO_TO_THE_32 + 1
    ensures
      var n: nat := |master|;
      Hits(master, master, TWO_TO_THE_32, 0, n) == [] && TWO_TO_THE_32 in Naive(master, master, TWO_TO_THE_32, 0, n)
  {
    BeyondIsNeverFound(master, master, TWO_TO_THE_32, 0, |master|);
    NaiveIsAllMatches(master, master, TWO_TO_THE_32, 0, |master|, TWO_TO_THE_32);
  }

  /** The number of scanned image blocks whose digest occurs in some master. */
  function MatchingBlocks(masters: seq<seq<Digest>>, image: seq<Digest>, start: nat, end: nat): nat
    requires Scannable(image, start, end)
    decreases end
  {
    if end <= start then 0
    else MatchingBlocks(masters, image, start, end - 1) + if Occurs(masters, image[end - 1]) then 1 else 0
  }

  lemma {:induction false} MatchingIsCount(masters: seq<seq<Digest>>, image: seq<Digest>, start: nat, end: nat)
    requires Scannable(image, start, end)
    ensures MatchingBlocks(masters, image, start, end)
         == |(set n: nat | start <= n < end && exists t :: 0 <= t < |masters| && image[n] in masters[t])|
    decreases end
  {
    var all := set n: nat | start <= n < end && exists t :: 0 <= t < |masters| && image[n] in masters[t];
    if end <= start {
      assert all == {};
    } else {
      MatchingIsCount(masters, image, start, end - 1);
      var init := set n: nat | start <= n < end - 1 && exists t :: 0 <= t < |masters| && image[n] in masters[t];
      assert all == init + if Occurs(masters, image[end - 1]) then {end - 1} else {};
    }
  }

  predicate Occurs(masters: seq<seq<Digest>>, d: Digest) {
    exists t :: 0 <= t < |masters| && d in masters[t]
  }

  // ---------------------------------------------------------------- from digests to bytes

  /** Blocks of the master and of the image with the same digest hold the same bytes. */
  ghost predicate NoCollision(hash: seq<byte> -> Digest, master: seq<byte>, image: seq<byte>, bs: nat)
    requires bs > 0
  {
    forall i: nat, v: nat | i < Blocks(|master|, bs) && v < Blocks(|image|, bs) ::
      hash(Block(master, i, bs)) == hash(Block(image, v, bs)) ==> Block(master, i, bs) == Block(image, v, bs)
  }

  /** Without it there are two different blocks, one of the master and one of the image, with the same digest. */
  lemma CollisionOtherwise(hash: seq<byte> -> Digest, master: seq<byte>, image: seq<byte>, bs: nat)
    requires bs > 0 && !NoCollision(hash, master, image, bs)
    ensures exists i: nat, v: nat | i < Blocks(|master|, bs) && v < Blocks(|image|, bs) ::
      Block(master, i, bs) != Block(image, v, bs) && hash(Block(master, i, bs)) == hash(Block(image, v, bs))
  {
  }
}
