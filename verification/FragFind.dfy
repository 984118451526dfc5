/** The program: hash the masters, scan the image, clean the filemaps, and report. */
module FragFind {
  import opened Bits
  import opened Bloom
  import opened BloomSpec
  import opened Digests
  import opened Filemaps
  import opened Masterfiles
  import opened Offsets
  import opened Reports
  import opened ScanSpec

  /** The masters are different objects with different filemaps. */
  ghost predicate Apart(masters: seq<Masterfile>) {
    forall i, j | 0 <= i < j < |masters| :: masters[i] != masters[j] && masters[i].filemap != masters[j].filemap
  }

  /** Every master's index holds its digests. */
  ghost predicate Indexed(masters: seq<Masterfile>, digests: seq<seq<Digest>>)
    reads masters
  {
    |digests| == |masters| && forall i | 0 <= i < |masters| :: masters[i].Indexes(digests[i])
  }

  ghost predicate Scanned(masters: seq<Masterfile>, digests: seq<seq<Digest>>, image: seq<Digest>, start: nat, end: nat)
    requires |digests| == |masters| && Scannable(image, start, end)
    reads set t | t in masters :: t.filemap
  {
    forall i | 0 <= i < |masters| :: masters[i].filemap.lists == HitMap(digests[i], image, start, end)
  }

  /** Pushing the scanned block takes the lists one step on. */
  lemma HitMapStep(master: seq<Digest>, image: seq<Digest>, start: nat, n: nat)
    requires Scannable(image, start, n + 1) && start <= n
    ensures HitMap(master, image, start, n + 1)
              == PushAll(HitMap(master, image, start, n), n, Indices(master, image[n]))
  {
  }

  /** A block whose digest no index holds changes nothing. */
  lemma HitMapSkip(master: seq<Digest>, image: seq<Digest>, start: nat, n: nat)
    requires Scannable(image, start, n + 1) && start <= n && image[n] !in master
    ensures HitMap(master, image, start, n + 1) == HitMap(master, image, start, n)
  {
    IndicesNonEmpty(master, image[n]);
    HitMapStep(master, image, start, n);
    PushNone(HitMap(master, image, start, n), n);
  }

  /** Offer one image block to every master. */
  method RecordInMasters(masters: seq<Masterfile>, n: nat, md5: Digest,
                         ghost digests: seq<seq<Digest>>, ghost image: seq<Digest>, ghost start: nat)
    returns (added: nat)
    requires Apart(masters) && Indexed(masters, digests)
    requires Scannable(image, start, n + 1) && start <= n && md5 == image[n]
    requires Scanned(masters, digests, image, start, n)
    modifies (set t | t in masters :: t)`md5map, set t | t in masters :: t.filemap
    ensures Indexed(masters, digests) && Scanned(masters, digests, image, start, n + 1)
    ensures added == 0 <==> !Occurs(digests, md5)
  {
    hide HitMap, Indices, PushAll, Occurs, Masterfile.Indexes;
    added := 0;
    assert !Occurs(digests[..0], md5) by { NothingOccurs(md5); assert digests[..0] == []; }
    for t := 0 to |masters|
      invariant Indexed(masters, digests)
      invariant forall i | 0 <= i < |masters| ::
                  masters[i].filemap.lists == HitMap(digests[i], image, start, if i < t then n + 1 else n)
      invariant added == 0 <==> !Occurs(digests[..t], md5)
    {
      HitMapStep(digests[t], image, start, n);
      OccursStep(digests, t, md5);
      var count := masters[t].RecordBlock(md5, n, digests[t]);
      added := added + count;
    }
    assert digests[..|digests|] == digests;
  }

  lemma NothingOccurs(d: Digest)
    ensures !Occurs([], d)
  {
  }

  lemma OccursStep(digests: seq<seq<Digest>>, t: nat, d: Digest)
    requires t < |digests|
    ensures Occurs(digests[..t + 1], d) <==> Occurs(digests[..t], d) || |Indices(digests[t], d)| > 0
  {
    IndicesNonEmpty(digests[t], d);
    if Occurs(digests[..t + 1], d) {
      var i :| 0 <= i < t + 1 && d in digests[..t + 1][i];
      if i < t { assert d in digests[..t][i]; }
    }
    if Occurs(digests[..t], d) {
      var i :| 0 <= i < t && d in digests[..t][i];
      assert d in digests[..t + 1][i];
    }
    assert digests[..t + 1][t] == digests[t];
  }

  /** A query for any digest of any master succeeds in a filter with these bits. */
  ghost predicate AllHeld(bits: set<nat>, digests: seq<seq<Digest>>, M: nat, k: nat) {
    forall i | 0 <= i < |digests| :: Held(bits, digests[i], M, k)
  }

  ghost predicate HoldsAll(b: NSRLBloom, digests: seq<seq<Digest>>)
    reads b`addedItems, b`uniqueAddedItems, b`aliasedAdds, b.vector
  {
    AllHeld(b.State().bits, digests, b.M, b.k)
  }

  lemma NotFilteredOut(f: Filter, digests: seq<seq<Digest>>, d: Digest, M: nat, k: nat)
    requires AllHeld(f.bits, digests, M, k) && Sliceable(d, M, k) && !Present(f, Slices(d, M, k))
    ensures !Occurs(digests, d)
  {
  }

  /** Before the scan, and when the range is empty, every list is empty. */
  lemma NothingScanned(master: seq<Digest>, image: seq<Digest>, start: nat, end: nat)
    requires Scannable(image, start, end) && end <= start
    ensures HitMap(master, image, start, end) == seq(|master|, _ => [])
  {
  }

  /** The block after the last one that is scanned. */
  function Stop(blocks: nat, end: nat): nat {
    var last := if end == 0 then blocks else end;
    if last < blocks then last else blocks
  }

  /** The scan ends before block `end`, or at the end of the image if that comes first or `end` is 0. */
  lemma StopIs(blocks: nat, end: nat)
    ensures Stop(blocks, end) == if end == 0 || blocks < end then blocks else end
  {
  }

  /** How many scanned blocks a filter with these bits lets through. */
  ghost function PassedBlocks(bits: set<nat>, image: seq<Digest>, start: nat, end: nat, M: nat, k: nat): nat
    requires Scannable(image, start, end) && DigestsFit(M, k)
    decreases end
  {
    if end <= start then 0
    else PassedBlocks(bits, image, start, end - 1, M, k) + if Slices(image[end - 1], M, k) <= bits then 1 else 0
  }

  /** All bit numbers of a digest are in the set. */
  ghost predicate LetsThrough(bits: set<nat>, d: Digest, M: nat, k: nat)
    requires DigestsFit(M, k)
  {
    Slices(d, M, k) <= bits
  }

  lemma {:induction false} PassedIsCount(bits: set<nat>, image: seq<Digest>, start: nat, end: nat, M: nat, k: nat)
    requires Scannable(image, start, end) && DigestsFit(M, k)
    ensures PassedBlocks(bits, image, start, end, M, k)
         == |(set n: nat | start <= n < end && LetsThrough(bits, image[n], M, k))|
    decreases end
  {
    hide Slices;
    var all := set n: nat | start <= n < end && LetsThrough(bits, image[n], M, k);
    if end <= start {
      assert all == {};
    } else {
      PassedIsCount(bits, image, start, end - 1, M, k);
      var init := set n: nat | start <= n < end - 1 && LetsThrough(bits, image[n], M, k);
      assert all == init + if LetsThrough(bits, image[end - 1], M, k) then {end - 1} else {};
    }
  }

  /** A block filtered out, or offered to every master, advances the scan by one. */
  method ScanBlock(masters: seq<Masterfile>, b: NSRLBloom, n: nat, md5: Digest,
                   ghost digests: seq<seq<Digest>>, ghost image: seq<Digest>, ghost start: nat)
    returns (hit: bool, falsePositive: bool)
    requires Apart(masters) && Indexed(masters, digests) && HoldsAll(b, digests) && b.Valid() && b.hashBytes == 16
    requires Scannable(image, start, n + 1) && start <= n && md5 == image[n]
    requires Scanned(masters, digests, image, start, n)
    modifies b`hits, (set t | t in masters :: t)`md5map, set t | t in masters :: t.filemap
    ensures Indexed(masters, digests) && HoldsAll(b, digests) && Scanned(masters, digests, image, start, n + 1)
    ensures falsePositive ==> hit
    ensures Sliceable(md5, b.M, b.k) && hit == (Slices(md5, b.M, b.k) <= b.State().bits) && b.hits == old(b.hits) + 1
    ensures MatchingBlocks(digests, image, start, n + 1)
              == MatchingBlocks(digests, image, start, n) + if hit && !falsePositive then 1 else 0
  {
    hide HitMap, Occurs, Masterfile.Indexes, AllHeld, Indices, Slices;
    var found := b.Query(md5);
    if !found {
      NotFilteredOut(b.State(), digests, md5, b.M, b.k);
      forall i | 0 <= i < |masters|
        ensures HitMap(digests[i], image, start, n + 1) == HitMap(digests[i], image, start, n)
      {
        DoesNotOccur(digests, i, md5);
        HitMapSkip(digests[i], image, start, n);
      }
      return false, false;
    }
    var added := RecordInMasters(masters, n, md5, digests, image, start);
    return true, added == 0;
  }

  lemma DoesNotOccur(digests: seq<seq<Digest>>, i: nat, d: Digest)
    requires i < |digests| && !Occurs(digests, d)
    ensures d !in digests[i]
  {
  }

  /** What the scan has left in the masters, and counted, before image block `n`. */
  ghost predicate SoFar(masters: seq<Masterfile>, digests: seq<seq<Digest>>, b: NSRLBloom, bits: set<nat>,
                        image: seq<Digest>, start: nat, n: nat, hits: nat, bloomFalsePositives: nat)
    reads masters, set t | t in masters :: t.filemap, b, b.vector
  {
    && Scannable(image, start, n) && DigestsFit(b.M, b.k) && b.State().bits == bits
    && Indexed(masters, digests) && HoldsAll(b, digests) && Scanned(masters, digests, image, start, n)
    && hits - bloomFalsePositives == MatchingBlocks(digests, image, start, n)
    && hits == PassedBlocks(bits, image, start, n, b.M, b.k)
  }

  /** One turn of the loop over the image blocks. */
  method ScanNext(masters: seq<Masterfile>, b: NSRLBloom, n: nat, md5: Digest, hits: nat, bloomFalsePositives: nat,
                  ghost digests: seq<seq<Digest>>, ghost bits: set<nat>, ghost image: seq<Digest>, ghost start: nat)
    returns (hits': nat, bloomFalsePositives': nat)
    requires Apart(masters) && b.Valid() && b.hashBytes == 16
    requires SoFar(masters, digests, b, bits, image, start, n, hits, bloomFalsePositives)
    requires Scannable(image, start, n + 1) && start <= n && md5 == image[n]
    modifies b`hits, (set t | t in masters :: t)`md5map, set t | t in masters :: t.filemap
    ensures SoFar(masters, digests, b, bits, image, start, n + 1, hits', bloomFalsePositives')
  {
    hide HitMap, Masterfile.Indexes, Indexed, HoldsAll, Scanned, MatchingBlocks, Slices, NSRLBloom.Valid, DigestsFit;
    var hit, falsePositive := ScanBlock(masters, b, n, md5, digests, image, start);
    bloomFalsePositives' := if falsePositive then bloomFalsePositives + 1 else bloomFalsePositives;
    hits' := if hit then hits + 1 else hits;
  }

  /** The scan: whatever the filter lets through, the filemaps end up as the digests alone determine them. */
  method Scan(image: seq<byte>, masters: seq<Masterfile>, b: NSRLBloom, hash: Hasher, start: nat, end: nat, bs: nat,
              ghost digests: seq<seq<Digest>>)
    returns (hits: nat, bloomFalsePositives: nat)
    requires 4 <= bs && |image| < 0x8000_0000_0000_0000
    requires Apart(masters) && Indexed(masters, digests) && HoldsAll(b, digests) && b.Valid() && b.hashBytes == 16
    requires forall i | 0 <= i < |masters| :: masters[i].filemap.lists == seq(|digests[i]|, _ => [])
    modifies b`hits, (set t | t in masters :: t)`md5map, set t | t in masters :: t.filemap
    ensures
      var blocks, stop := BlockDigests(hash, image, bs), Stop(Blocks(|image|, bs), end);
      && Scannable(blocks, start, stop) && Scanned(masters, digests, blocks, start, stop)
      && hits - bloomFalsePositives == MatchingBlocks(digests, blocks, start, stop)
      && DigestsFit(b.M, b.k) && hits == PassedBlocks(b.State().bits, blocks, start, stop, b.M, b.k)
  {
    ghost var blocks, stop := BlockDigests(hash, image, bs), Stop(Blocks(|image|, bs), end);
    ghost var bits := b.State().bits;
    FewBlocks(|image|, bs);
    SoFarAtStart(masters, digests, b, blocks, start, if start < stop then start else stop);
    hide SoFar, NSRLBloom.Valid, NSRLBloom.State, Indexed, HoldsAll, Scanned, BlockDigests, Stop;
    hits, bloomFalsePositives := ScanBlocks(image, masters, b, hash, start, end, bs, digests, bits);
    SoFarIs(masters, digests, b, bits, blocks, start, stop, hits, bloomFalsePositives);
  }

  /** The loop over the image blocks. */
  method ScanBlocks(image: seq<byte>, masters: seq<Masterfile>, b: NSRLBloom, hash: Hasher, start: nat, end: nat,
                    bs: nat, ghost digests: seq<seq<Digest>>, ghost bits: set<nat>)
    returns (hits: nat, bloomFalsePositives: nat)
    requires bs > 0 && Apart(masters) && b.Valid() && b.hashBytes == 16
    requires
      var blocks, stop := BlockDigests(hash, image, bs), Stop(Blocks(|image|, bs), end);
      && Scannable(blocks, start, stop)
      && SoFar(masters, digests, b, bits, blocks, start, if start < stop then start else stop, 0, 0)
    modifies b`hits, (set t | t in masters :: t)`md5map, set t | t in masters :: t.filemap
    ensures
      var blocks, stop := BlockDigests(hash, image, bs), Stop(Blocks(|image|, bs), end);
      SoFar(masters, digests, b, bits, blocks, start, stop, hits, bloomFalsePositives)
  {
    hide SoFar, NSRLBloom.Valid, Blocks, BlockDigests, Stop;
    var blockCount := Blocks(|image|, bs);
    var last := if end == 0 then blockCount else end;
    ghost var blocks, stop := BlockDigests(hash, image, bs), Stop(blockCount, end);
    ghost var reached := if start < stop then start else stop;  // the scan so far covers start .. reached - 1
    hits, bloomFalsePositives := 0, 0;
    var n := start;
    while n < last && n < blockCount
      invariant if start < stop then start <= n == reached <= stop else n == start && reached == stop
      invariant SoFar(masters, digests, b, bits, blocks, start, reached, hits, bloomFalsePositives)
      decreases blockCount - n
    {
      DigestOfBlock(hash, image, bs, n);
      InRange(blockCount, end, n);
      var md5 := hash(Block(image, n, bs));
      hits, bloomFalsePositives :=
        ScanNext(masters, b, n, md5, hits, bloomFalsePositives, digests, bits, blocks, start);
      n := n + 1;
      reached := n;
    }
    InRange(blockCount, end, n);
  }

  lemma SoFarAtStart(masters: seq<Masterfile>, digests: seq<seq<Digest>>, b: NSRLBloom, image: seq<Digest>,
                     start: nat, n: nat)
    requires Scannable(image, start, n) && n <= start && b.Valid() && b.hashBytes == 16
    requires Indexed(masters, digests) && HoldsAll(b, digests)
    requires forall i | 0 <= i < |masters| :: masters[i].filemap.lists == seq(|digests[i]|, _ => [])
    ensures SoFar(masters, digests, b, b.State().bits, image, start, n, 0, 0)
  {
    hide Scanned, Masterfile.Indexes, AllHeld, HitMap;
    StartOfScan(masters, digests, image, start, n);
  }

  lemma SoFarIs(masters: seq<Masterfile>, digests: seq<seq<Digest>>, b: NSRLBloom, bits: set<nat>,
                image: seq<Digest>, start: nat, n: nat, hits: nat, bloomFalsePositives: nat)
    requires SoFar(masters, digests, b, bits, image, start, n, hits, bloomFalsePositives)
    ensures Scannable(image, start, n) && |digests| == |masters| && Scanned(masters, digests, image, start, n)
    ensures hits - bloomFalsePositives == MatchingBlocks(digests, image, start, n)
    ensures DigestsFit(b.M, b.k) && hits == PassedBlocks(b.State().bits, image, start, n, b.M, b.k)
  {
    hide Scanned, HoldsAll, MatchingBlocks, DigestsFit, Scannable, NSRLBloom.State;
  }

  lemma DigestOfBlock(hash: Hasher, data: seq<byte>, bs: nat, n: nat)
    requires bs > 0 && n < Blocks(|data|, bs)
    ensures |BlockDigests(hash, data, bs)| == Blocks(|data|, bs)
    ensures BlockDigests(hash, data, bs)[n] == hash(Block(data, n, bs))
  {
  }

  /** The two tests of the loop together are one test. */
  lemma InRange(blocks: nat, end: nat, n: nat)
    ensures n < Stop(blocks, end) <==> n < (if end == 0 then blocks else end) && n < blocks
  {
  }

  lemma StartOfScan(masters: seq<Masterfile>, digests: seq<seq<Digest>>, image: seq<Digest>, start: nat, end: nat)
    requires |digests| == |masters| && Scannable(image, start, end) && end <= start
    requires forall i | 0 <= i < |masters| :: masters[i].filemap.lists == seq(|digests[i]|, _ => [])
    ensures Scanned(masters, digests, image, start, end)
  {
    hide HitMap;
    forall i | 0 <= i < |masters| ensures masters[i].filemap.lists == HitMap(digests[i], image, start, end) {
      NothingScanned(digests[i], image, start, end);
    }
  }

  lemma FewBlocks(n: nat, bs: nat)
    requires 4 <= bs && n < 0x8000_0000_0000_0000
    ensures Blocks(n, bs) < 0x2000_0000_0000_0000
  {
    hide Blocks, Offset, Extra;
    SplitBytes(n, bs);
    WiderBlocks(Blocks(n, bs), 4, bs);
    FourEach(Blocks(n, bs));
  }

  lemma WiderBlocks(b: nat, narrow: nat, wide: nat)
    requires narrow <= wide
    ensures Offset(b, narrow) <= Offset(b, wide)
  {
    var more := wide - narrow;
    assert b * (narrow + more) == b * narrow + b * more;
  }

  lemma FourEach(b: nat)
    ensures Offset(b, 4) == 4 * b
  {
  }

  // ---------------------------------------------------------------- the whole program

  function AllDigests(hash: Hasher, files: seq<seq<byte>>, bs: nat): seq<seq<Digest>>
    requires bs > 0
  {
    seq<seq<Digest>>(|files|, i requires 0 <= i < |files| => BlockDigests(hash, files[i], bs))
  }

  /** The masters hold these files, and nothing has been scanned. */
  ghost predicate Opened(masters: seq<Masterfile>, files: seq<seq<byte>>, bs: nat)
    requires bs > 0
    reads set t | t in masters :: t.filemap
  {
    && |masters| == |files|
    && forall i | 0 <= i < |masters| ::
         && masters[i].data == files[i] && masters[i].blocksize == bs
         && masters[i].filemap.lists == seq(Blocks(|files[i]|, bs), _ => [])
  }

  lemma HeldGrows(bits: set<nat>, bits': set<nat>, digests: seq<seq<Digest>>, more: seq<Digest>, M: nat, k: nat)
    requires AllHeld(bits, digests, M, k) && bits <= bits' && Held(bits', more, M, k)
    ensures AllHeld(bits', digests + [more], M, k)
  {
    forall i | 0 <= i < |digests| ensures Held(bits', digests[i], M, k) {
      assert Held(bits, digests[i], M, k);
    }
  }

  /** The filter after the digests of all masters have been added. */
  ghost function FilterAfter(f: Filter, digests: seq<seq<Digest>>, M: nat, k: nat): Filter
    requires DigestsFit(M, k)
  {
    if |digests| == 0 then f else AddedAll(FilterAfter(f, digests[..|digests| - 1], M, k), digests[|digests| - 1], M, k)
  }

  /** Its bits are the slices of the digests. */
  lemma {:induction false} FilterBits(digests: seq<seq<Digest>>, M: nat, k: nat, v: nat)
    requires DigestsFit(M, k)
    ensures v in FilterAfter(EMPTY, digests, M, k).bits
       <==> exists i, d: Digest :: 0 <= i < |digests| && d in digests[i] && v in Slices(d, M, k)
  {
    hide Slices, AddedAll;
    if |digests| > 0 {
      var init, last := digests[..|digests| - 1], digests[|digests| - 1];
      FilterBits(init, M, k, v);
      AddedBits(FilterAfter(EMPTY, init, M, k), last, M, k, v);
      if i, d: Digest :| 0 <= i < |init| && d in init[i] && v in Slices(d, M, k) {
        assert d in digests[i];
      }
      if i, d: Digest :| 0 <= i < |digests| && d in digests[i] && v in Slices(d, M, k) && i < |init| {
        assert d in init[i];
      }
    }
  }

  lemma NothingAdded(f: Filter, M: nat, k: nat, hashBytes: nat)
    requires Offset(k, M) <= 8 * hashBytes && hashBytes == 16
    ensures DigestsFit(M, k) && FilterAfter(f, [], M, k) == f
  {
  }

  lemma FilterAfterOneMore(f: Filter, digests: seq<seq<Digest>>, more: seq<Digest>, M: nat, k: nat)
    requires DigestsFit(M, k)
    ensures FilterAfter(f, digests + [more], M, k) == AddedAll(FilterAfter(f, digests, M, k), more, M, k)
  {
    assert (digests + [more])[..|digests|] == digests;
  }

  /** The filter, which was `before`, has had all these digests added, and so lets them through. */
  ghost predicate Loaded(b: NSRLBloom, before: Filter, digests: seq<seq<Digest>>)
    reads b`addedItems, b`uniqueAddedItems, b`aliasedAdds, b.vector
  {
    DigestsFit(b.M, b.k) && b.State() == FilterAfter(before, digests, b.M, b.k) && HoldsAll(b, digests)
  }

  /** `masters_t::add_master_file`. */
  method AddMasterFile(file: seq<byte>, hash: Hasher, b: NSRLBloom, bs: nat, ghost before: Filter,
                       ghost digests: seq<seq<Digest>>)
    returns (t: Masterfile)
    requires bs > 0 && b.Valid() && b.hashBytes == 16 && Loaded(b, before, digests)
    modifies b`addedItems, b`uniqueAddedItems, b`aliasedAdds, b.vector
    ensures fresh(t) && fresh(t.filemap) && t.data == file && t.blocksize == bs
    ensures t.filemap.lists == seq(Blocks(|file|, bs), _ => []) && t.Indexes(BlockDigests(hash, file, bs))
    ensures Loaded(b, before, digests + [BlockDigests(hash, file, bs)])
  {
    ghost var bits := b.State().bits;
    hide NSRLBloom.State, FilterAfter, AddedAll, AllHeld, Held;
    t := new Masterfile(file, bs);
    t.Load(hash, b);
    HeldGrows(bits, b.State().bits, digests, BlockDigests(hash, file, bs), b.M, b.k);
    FilterAfterOneMore(before, digests, BlockDigests(hash, file, bs), b.M, b.k);
  }

  lemma NoneOpened(hash: Hasher, bs: nat)
    requires bs > 0
    ensures Opened([], [], bs) && Apart([]) && Indexed([], []) && AllDigests(hash, [], bs) == []
  {
  }

  lemma OneMoreOpened(masters: seq<Masterfile>, digests: seq<seq<Digest>>, files: seq<seq<byte>>, t: Masterfile,
                      file: seq<byte>, hash: Hasher, bs: nat)
    requires bs > 0 && Opened(masters, files, bs) && Apart(masters) && Indexed(masters, digests)
    requires digests == AllDigests(hash, files, bs)
    requires t.data == file && t.blocksize == bs && t.filemap.lists == seq(Blocks(|file|, bs), _ => [])
    requires t.Indexes(BlockDigests(hash, file, bs))
    requires t !in masters && forall i | 0 <= i < |masters| :: masters[i].filemap != t.filemap
    ensures Opened(masters + [t], files + [file], bs) && Apart(masters + [t])
    ensures Indexed(masters + [t], digests + [BlockDigests(hash, file, bs)])
    ensures digests + [BlockDigests(hash, file, bs)] == AllDigests(hash, files + [file], bs)
  {
    hide Masterfile.Indexes, BlockDigests;
  }

  lemma NothingLoaded(b: NSRLBloom)
    requires b.Valid() && b.hashBytes == 16
    ensures Loaded(b, b.State(), [])
  {
    NothingAdded(b.State(), b.M, b.k, b.hashBytes);
  }

  /** Everything that loading these files establishes. */
  ghost predicate AllLoaded(masters: seq<Masterfile>, files: seq<seq<byte>>, hash: Hasher, b: NSRLBloom, before: Filter,
                            bs: nat)
    reads masters, set t | t in masters :: t.filemap, b`addedItems, b`uniqueAddedItems, b`aliasedAdds, b.vector
  {
    && bs > 0 && Opened(masters, files, bs) && Apart(masters) && Indexed(masters, AllDigests(hash, files, bs))
    && Loaded(b, before, AllDigests(hash, files, bs))
  }

  lemma NoneLoaded(hash: Hasher, b: NSRLBloom, bs: nat)
    requires bs > 0 && b.Valid() && b.hashBytes == 16
    ensures AllLoaded([], [], hash, b, b.State(), bs)
  {
    NoneOpened(hash, bs);
    NothingLoaded(b);
  }

  /** One turn of the loop over the masters. */
  method AddNextMaster(masters: seq<Masterfile>, ghost files: seq<seq<byte>>, file: seq<byte>, hash: Hasher,
                       b: NSRLBloom, bs: nat, ghost before: Filter)
    returns (more: seq<Masterfile>)
    requires b.Valid() && b.hashBytes == 16 && AllLoaded(masters, files, hash, b, before, bs)
    modifies b`addedItems, b`uniqueAddedItems, b`aliasedAdds, b.vector
    ensures forall t | t in more :: t in masters || (fresh(t) && fresh(t.filemap))
    ensures AllLoaded(more, files + [file], hash, b, before, bs)
  {
    hide Opened, Apart, Indexed, AllDigests, BlockDigests, Loaded;
    ghost var digests := AllDigests(hash, files, bs);
    var t := AddMasterFile(file, hash, b, bs, before, digests);
    OneMoreOpened(masters, digests, files, t, file, hash, bs);
    more := masters + [t];
  }

  /** Load the masters in turn; one that is larger than the image ends the program. */
  method AddMasterFiles(files: seq<seq<byte>>, imageSize: nat, hash: Hasher, b: NSRLBloom, bs: nat)
    returns (masters: seq<Masterfile>, tooLarge: bool)
    requires bs > 0 && b.Valid() && b.hashBytes == 16
    modifies b`addedItems, b`uniqueAddedItems, b`aliasedAdds, b.vector
    ensures tooLarge <==> exists i :: 0 <= i < |files| && |files[i]| > imageSize
    ensures forall t | t in masters :: fresh(t) && fresh(t.filemap)
    ensures !tooLarge ==> AllLoaded(masters, files, hash, b, old(b.State()), bs)
  {
    hide AllLoaded, NSRLBloom.State, NSRLBloom.Valid;
    ghost var before := b.State();
    NoneLoaded(hash, b, bs);
    masters := [];
    for i := 0 to |files|
      invariant forall t | t in masters :: fresh(t) && fresh(t.filemap)
      invariant AllLoaded(masters, files[..i], hash, b, before, bs)
      invariant forall j | 0 <= j < i :: |files[j]| <= imageSize
    {
      if imageSize < |files[i]| { return masters, true; }
      masters := AddNextMaster(masters, files[..i], files[i], hash, b, bs, before);
      assert files[..i + 1] == files[..i] + [files[i]];
    }
    assert files[..|files|] == files;
    tooLarge := false;
  }

  /** What the program reports for one master: its cleaned filemap, the printed rows, and the runs of the XML report. */
  datatype FileReport = FileReport(filemap: seq<Blocklist>, rows: seq<Row>, runs: seq<Run>)

  ghost predicate ReportOf(rep: FileReport, m: seq<Blocklist>, master: seq<byte>, image: seq<byte>, bs: nat,
                           tail: seq<Run>) {
    && rep.filemap == Cleaned(m) && FullMap(rep.filemap, master, bs)
    && Describes(rep.filemap, rep.rows, 0, |m|) && IsTail(rep.filemap, master, image, bs, tail)
    && rep.runs == RunsOf(rep.filemap, rep.rows, bs) + tail
  }

  ghost predicate Reported(rep: FileReport, m: seq<Blocklist>, master: seq<byte>, image: seq<byte>, bs: nat) {
    exists tail :: ReportOf(rep, m, master, image, bs, tail)
  }

  /** Clean the filemap of one master, once, and report it. */
  method ReportMaster(t: Masterfile, image: seq<byte>) returns (rep: FileReport)
    requires FullMap(t.filemap.lists, t.data, t.blocksize)
    modifies t.filemap
    ensures Reported(rep, old(t.filemap.lists), t.data, image, t.blocksize)
  {
    ghost var m := t.filemap.lists;
    t.filemap.Clean();
    var rows, runs, tail := t.PrintReport(image);
    rep := FileReport(t.filemap.lists, rows, runs);
    assert ReportOf(rep, m, t.data, image, t.blocksize, tail);
  }

  /** A file with no full block can only be reported if it is empty: the report looks at the last list. */
  predicate Reportable(file: seq<byte>, bs: nat) {
    |file| < bs ==> |file| == 0
  }

  lemma ReportableIs(file: seq<byte>, bs: nat)
    ensures Reportable(file, bs) <==> file == [] || |file| >= bs
  {
  }

  method ReportMasters(masters: seq<Masterfile>, files: seq<seq<byte>>, image: seq<byte>, bs: nat,
                       ghost maps: seq<seq<Blocklist>>)
    returns (reports: seq<FileReport>)
    requires bs > 0 && Apart(masters) && |masters| == |files| == |maps|
    requires forall i | 0 <= i < |masters| ::
               && masters[i].data == files[i] && masters[i].blocksize == bs && masters[i].filemap.lists == maps[i]
               && FullMap(maps[i], files[i], bs)
    modifies set t | t in masters :: t.filemap
    ensures |reports| == |files|
    ensures forall i | 0 <= i < |files| :: Reported(reports[i], maps[i], files[i], image, bs)
  {
    hide Reported, FullMap;
    reports := [];
    for t := 0 to |masters|
      invariant |reports| == t
      invariant forall i | 0 <= i < t :: Reported(reports[i], maps[i], files[i], image, bs)
      invariant forall i | t <= i < |masters| :: masters[i].filemap.lists == maps[i]
    {
      var rep := ReportMaster(masters[t], image);
      reports := reports + [rep];
    }
  }

  datatype Outcome =
    | BadBloomSize
    | Usage
    | BlocksizeTooSmall
    | EmptyImage
    | ImageTooSmall
    | MasterTooLarge
    | Done(reports: seq<FileReport>, hits: nat, bloomFalsePositives: nat)

  /** The scan, and then the report of each master. */
  method ScanAndReport(image: seq<byte>, files: seq<seq<byte>>, masters: seq<Masterfile>, b: NSRLBloom, hash: Hasher,
                       start: nat, end: nat, bs: nat)
    returns (reports: seq<FileReport>, hits: nat, bloomFalsePositives: nat)
    requires 4 <= bs && |image| < 0x8000_0000_0000_0000 && forall i | 0 <= i < |files| :: Reportable(files[i], bs)
    requires Opened(masters, files, bs) && Apart(masters) && Indexed(masters, AllDigests(hash, files, bs))
    requires b.Valid() && b.hashBytes == 16 && HoldsAll(b, AllDigests(hash, files, bs))
    modifies b`hits, set t | t in masters, set t | t in masters :: t.filemap
    ensures
      var digests, stop := BlockDigests(hash, image, bs), Stop(Blocks(|image|, bs), end);
      && Scannable(digests, start, stop) && |reports| == |files|
      && (forall i | 0 <= i < |files| ::
            Reported(reports[i], HitMap(BlockDigests(hash, files[i], bs), digests, start, stop), files[i], image, bs))
      && hits - bloomFalsePositives == MatchingBlocks(AllDigests(hash, files, bs), digests, start, stop)
      && DigestsFit(b.M, b.k) && hits == PassedBlocks(b.State().bits, digests, start, stop, b.M, b.k)
  {
    hide HoldsAll, Reported, MatchingBlocks, HitMap;
    ghost var digests := AllDigests(hash, files, bs);
    hits, bloomFalsePositives := Scan(image, masters, b, hash, start, end, bs, digests);
    ghost var blocks, stop := BlockDigests(hash, image, bs), Stop(Blocks(|image|, bs), end);
    ghost var maps := seq(|files|, i requires 0 <= i < |files| => HitMap(digests[i], blocks, start, stop));
    reports := ReportMasters(masters, files, image, bs, maps);
  }

  /** `main`, from the checked options to the reports. */
  method Run(image: seq<byte>, files: seq<seq<byte>>, hash: Hasher, start: nat, end: nat, optM: int, bs: nat)
    returns (r: Outcome)
    requires |image| < 0x8000_0000_0000_0000
    requires forall i | 0 <= i < |files| :: Reportable(files[i], bs)
    ensures r.BadBloomSize? <==> optM < 5 || optM > 32
    ensures 5 <= optM <= 32 ==> (r.Usage? <==> |files| == 0)
    ensures 5 <= optM <= 32 && |files| > 0 ==> (r.BlocksizeTooSmall? <==> bs < 4)
    ensures 5 <= optM <= 32 && |files| > 0 && 4 <= bs ==>
      && (r.EmptyImage? <==> |image| == 0)
      && (r.ImageTooSmall? <==> 0 < |image| < bs)
      && (r.MasterTooLarge? <==> bs <= |image| && exists i :: 0 <= i < |files| && |files[i]| > |image|)
      && (r.Done? <==> bs <= |image| && forall i | 0 <= i < |files| :: |files[i]| <= |image|)
    ensures r.Done? ==>
      var digests, stop := BlockDigests(hash, image, bs), Stop(Blocks(|image|, bs), end);
      && Scannable(digests, start, stop) && |r.reports| == |files|
      && (forall i | 0 <= i < |files| ::
            Reported(r.reports[i], HitMap(BlockDigests(hash, files[i], bs), digests, start, stop), files[i], image, bs))
      && r.hits - r.bloomFalsePositives == MatchingBlocks(AllDigests(hash, files, bs), digests, start, stop)
      && DigestsFit(optM, 4)
      && r.hits == PassedBlocks(FilterAfter(EMPTY, AllDigests(hash, files, bs), optM, 4).bits, digests, start, stop,
                                optM, 4)
  {
    if optM < 5 || optM > 32 { return BadBloomSize; }
    if |files| == 0 { return Usage; }
    if bs < 4 { return BlocksizeTooSmall; }
    var created := NSRLBloom.Create(128, optM, 4, "In-memory bloom filter for frag find");
    var b := created.filter;
    if |image| == 0 { return EmptyImage; }
    if |image| < bs { return ImageTooSmall; }
    var masters, tooLarge := AddMasterFiles(files, |image|, hash, b, bs);
    if tooLarge { return MasterTooLarge; }
    var reports, hits, bloomFalsePositives := ScanAndReport(image, files, masters, b, hash, start, end, bs);
    r := Done(reports, hits, bloomFalsePositives);
  }
}
