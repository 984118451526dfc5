/** A master file (`masterfile`): its bytes, the index of its block digests, and its filemap. */
module Masterfiles {
  import opened Bits
  import opened Bloom
  import opened BloomSpec
  import opened Digests
  import opened Filemaps
  import opened Offsets
  import opened Reports
  import opened ScanSpec

  type Hasher = seq<byte> -> Digest

  /** The lists of all blocks of a master after scanning image blocks start .. end - 1. */
  function HitMap(master: seq<Digest>, image: seq<Digest>, start: nat, end: nat): (m: seq<Blocklist>)
    requires Scannable(image, start, end)
    ensures |m| == |master|
  {
    seq<Blocklist>(|master|, i requires 0 <= i < |master| => Hits(master, image, i, start, end))
  }

  /** The lists after pushing image block `n` once for every entry of `idx`. */
  function PushAll(m: seq<Blocklist>, n: BlockNumber, idx: seq<nat>): (r: seq<Blocklist>)
    ensures |r| == |m|
  {
    seq<Blocklist>(|m|, i requires 0 <= i < |m| => m[i] + Copies(n, multiset(idx)[i]))
  }

  lemma PushNone(m: seq<Blocklist>, n: BlockNumber)
    ensures PushAll(m, n, []) == m
  {
    assert forall i | 0 <= i < |m| :: PushAll(m, n, [])[i] == m[i] + Copies(n, 0) == m[i];
  }

  lemma PushOneMore(m: seq<Blocklist>, n: BlockNumber, idx: seq<nat>, i: nat)
    requires i < |m|
    ensures
      var before := PushAll(m, n, idx);
      PushAll(m, n, idx + [i]) == before[i := before[i] + [n]]
  {
    var before, after := PushAll(m, n, idx), PushAll(m, n, idx + [i]);
    assert multiset(idx + [i]) == multiset(idx) + multiset{i};
    forall j | 0 <= j < |m| ensures after[j] == before[i := before[i] + [n]][j] {
      if j == i { assert Copies(n, multiset(idx)[i] + 1) == Copies(n, multiset(idx)[i]) + [n]; }
    }
  }

  /** Digests of 16 bytes are long enough for k slices of M bits. */
  predicate DigestsFit(M: nat, k: nat) {
    Offset(k, M) <= 128
  }

  /** The filter after all digests have been added, in order. */
  ghost function AddedAll(f: Filter, digests: seq<Digest>, M: nat, k: nat): Filter
    requires DigestsFit(M, k)
  {
    if |digests| == 0 then f
    else Added(AddedAll(f, digests[..|digests| - 1], M, k), Slices(digests[|digests| - 1], M, k), k)
  }

  lemma AddedOneMore(f: Filter, digests: seq<Digest>, d: Digest, M: nat, k: nat)
    requires DigestsFit(M, k)
    ensures AddedAll(f, digests + [d], M, k) == Added(AddedAll(f, digests, M, k), Slices(d, M, k), k)
  {
    assert (digests + [d])[..|digests|] == digests;
  }

  lemma {:induction false} AddedBits(f: Filter, digests: seq<Digest>, M: nat, k: nat, v: nat)
    requires DigestsFit(M, k)
    ensures v in AddedAll(f, digests, M, k).bits
       <==> v in f.bits || exists d: Digest :: d in digests && v in Slices(d, M, k)
  {
    hide Slices;
    if |digests| > 0 {
      var init, last := digests[..|digests| - 1], digests[|digests| - 1];
      AddedBits(f, init, M, k, v);
      assert forall d: Digest :: d in digests <==> d in init || d == last by {
        assert digests == init + [last];
      }
      if v in Slices(last, M, k) { assert last in digests; }
    }
  }

  /** A query for any of the digests succeeds in a filter with these bits. */
  ghost predicate Held(bits: set<nat>, digests: seq<Digest>, M: nat, k: nat) {
    forall d | d in digests :: Sliceable(d, M, k) && Slices(d, M, k) <= bits
  }

  /** The filter, which was `before`, has had these digests added, and so lets them through. */
  ghost predicate Entered(before: Filter, after: Filter, digests: seq<Digest>, M: nat, k: nat) {
    DigestsFit(M, k) && after == AddedAll(before, digests, M, k) && Held(after.bits, digests, M, k)
      && before.bits <= after.bits
  }

  lemma NothingEntered(f: Filter, M: nat, k: nat, hashBytes: nat)
    requires Offset(k, M) <= 8 * hashBytes && hashBytes == 16
    ensures Entered(f, f, [], M, k)
  {
  }

  lemma OneMoreEntered(before: Filter, f: Filter, digests: seq<Digest>, d: Digest, M: nat, k: nat)
    requires Entered(before, f, digests, M, k)
    ensures Sliceable(d, M, k) && Entered(before, Added(f, Slices(d, M, k), k), digests + [d], M, k)
  {
    hide Slices;
    AddedOneMore(before, digests, d, M, k);
  }

  class Masterfile {
    const data: seq<byte>
    const blocksize: nat
    const filemap: Filemap
    var md5map: map<Digest, seq<nat>>

    function BlockCount(): nat
      requires blocksize > 0
    {
      Blocks(|data|, blocksize)
    }

    /** `md5map[md5]`, as an absent key reads. */
    function Lookup(d: Digest): seq<nat>
      reads `md5map
    {
      if d in md5map then md5map[d] else []
    }

    /** The index holds the block numbers of these digests. */
    ghost predicate Indexes(digests: seq<Digest>)
      reads `md5map
    {
      forall d: Digest :: Lookup(d) == Indices(digests, d)
    }

    constructor (data: seq<byte>, blocksize: nat)
      requires blocksize > 0
      ensures this.data == data && this.blocksize == blocksize && Indexes([])
      ensures fresh(filemap) && filemap.lists == seq(Blocks(|data|, blocksize), _ => [])
    {
      this.data, this.blocksize, md5map := data, blocksize, map[];
      filemap := new Filemap(Blocks(|data|, blocksize));
    }

    /** Enter one block into the index, after those with `digests`, and into the filter. */
    method AddBlockHash(blocknumber: nat, md5: Digest, b: NSRLBloom, ghost digests: seq<Digest>)
      requires Indexes(digests) && blocknumber == |digests| && b.Valid() && b.hashBytes == 16
      modifies `md5map, b`addedItems, b`uniqueAddedItems, b`aliasedAdds, b.vector
      ensures Indexes(digests + [md5])
      ensures Sliceable(md5, b.M, b.k) && b.State() == Added(old(b.State()), Slices(md5, b.M, b.k), b.k)
    {
      md5map := md5map[md5 := Lookup(md5) + [blocknumber % TWO_TO_THE_32]];
      assert Indexes(digests + [md5]) by {
        assert (digests + [md5])[..|digests|] == digests;
      }
      b.Add(md5);
    }

    /** Hash the master block by block into the index and the Bloom filter. */
    method Load(hash: Hasher, b: NSRLBloom)
      requires blocksize > 0 && Indexes([]) && b.Valid() && b.hashBytes == 16
      modifies `md5map, b`addedItems, b`uniqueAddedItems, b`aliasedAdds, b.vector
      ensures Indexes(BlockDigests(hash, data, blocksize))
      ensures Entered(old(b.State()), b.State(), BlockDigests(hash, data, blocksize), b.M, b.k)
    {
      ghost var digests, before := BlockDigests(hash, data, blocksize), b.State();
      NothingEntered(before, b.M, b.k, b.hashBytes);
      assert digests[..0] == [];
      hide Entered, NSRLBloom.State, NSRLBloom.Valid, Indices, Added, Slices;
      for blocknumber := 0 to BlockCount()
        invariant Indexes(digests[..blocknumber])
        invariant Entered(before, b.State(), digests[..blocknumber], b.M, b.k)
      {
        var md5 := hash(Block(data, blocknumber, blocksize));
        assert digests[..blocknumber + 1] == digests[..blocknumber] + [md5];
        OneMoreEntered(before, b.State(), digests[..blocknumber], md5, b.M, b.k);
        AddBlockHash(blocknumber, md5, b, digests[..blocknumber]);
      }
      assert digests[..|digests|] == digests;
    }

    /** `md5map[md5]`: the operator enters an absent key, which changes no lookup. */
    method Entry(md5: Digest, ghost digests: seq<Digest>) returns (idx: seq<nat>)
      requires Indexes(digests)
      modifies `md5map
      ensures Indexes(digests) && idx == Indices(digests, md5)
    {
      if md5 !in md5map { md5map := md5map[md5 := []]; }
      idx := md5map[md5];
      assert idx == Lookup(md5);
    }

    /** Push image block `n` onto the list of every block in `idx`. */
    method PushBlocks(idx: seq<nat>, n: BlockNumber) returns (added: nat)
      requires forall j | 0 <= j < |idx| :: idx[j] < |filemap.lists|
      modifies filemap
      ensures filemap.lists == PushAll(old(filemap.lists), n, idx) && added == |idx|
    {
      ghost var m := filemap.lists;
      added := 0;
      PushNone(m, n);
      hide PushAll;
      for j := 0 to |idx|
        invariant added == j && filemap.lists == PushAll(m, n, idx[..j])
      {
        PushOneMore(m, n, idx[..j], idx[j]);
        assert idx[..j + 1] == idx[..j] + [idx[j]];
        filemap.PushBack(idx[j], n);
        added := added + 1;
      }
      assert idx[..|idx|] == idx;
    }

    /** The inner loop of the scan: push image block `n` onto the list of every indexed block with its digest. */
    method RecordBlock(md5: Digest, n: BlockNumber, ghost digests: seq<Digest>) returns (added: nat)
      requires Indexes(digests) && |filemap.lists| == |digests|
      modifies `md5map, filemap
      ensures Indexes(digests)
      ensures filemap.lists == PushAll(old(filemap.lists), n, Indices(digests, md5))
      ensures added == |Indices(digests, md5)|
    {
      hide PushAll;
      var idx := Entry(md5, digests);
      added := PushBlocks(idx, n);
    }

    // -------------------------------------------------------------- the report

    /** The `run` elements of one row. The clamp to the end of the file never applies. */
    method EmitRow(r: Row) returns (runs: seq<Run>)
      requires FullMap(filemap.lists, data, blocksize) && IsRow(filemap.lists, r)
      ensures runs == RowRuns(filemap.lists, r, blocksize)
    {
      RowInFile(filemap.lists, r, data, blocksize);
      hide Offset, IsRow;
      var runBytes := Offset(r.count, blocksize);
      if Offset(r.first, blocksize) + runBytes > |data| {
        runBytes := |data| - Offset(r.first, blocksize);
      }
      if r.count > 1 {
        return [Run(Offset(r.first, blocksize), Offset(r.imageBlock, blocksize), runBytes)];
      }
      OffsetUnit(blocksize);
      var locations := filemap.lists[r.first];
      runs := [];
      for i := 0 to |locations|
        invariant runs == RowRuns(filemap.lists, r, blocksize)[..i]
      {
        runs := runs + [Run(Offset(r.first, blocksize), Offset(locations[i], blocksize), runBytes)];
      }
    }

    /** The row that starts at a found block: the run from its first location. */
    method EmitNextRow(tb: nat) returns (row: Row, runs: seq<Run>)
      requires FullMap(filemap.lists, data, blocksize) && tb < |filemap.lists| && |filemap.lists[tb]| > 0
      ensures row.first == tb && row.imageBlock == Front(filemap.lists[tb])
      ensures IsRun(filemap.lists, row.first, row.imageBlock, row.count)
      ensures IsRow(filemap.lists, row) && runs == RowRuns(filemap.lists, row, blocksize)
    {
      hide IsRun, FullMap, RowRuns;
      var firstIb := Front(filemap.lists[tb]);
      var runBlocks := filemap.RunLen(tb, firstIb);
      row := Row(tb, firstIb, runBlocks);
      runs := EmitRow(row);
    }

    /** The main loop of `print_report`: cut the filemap into rows, greedily. */
    method EmitRows() returns (rows: seq<Row>, runs: seq<Run>)
      requires FullMap(filemap.lists, data, blocksize)
      ensures Describes(filemap.lists, rows, 0, |filemap.lists|)
      ensures runs == RunsOf(filemap.lists, rows, blocksize)
    {
      ghost var m := filemap.lists;
      NothingCut(m, blocksize);
      hide Cut, IsRow, RowRuns, FullMap, IsRun, Front;
      rows, runs := [], [];
      var tb := 0;
      while tb < |filemap.lists|
        invariant 0 <= tb <= |m| && Cut(m, rows, runs, blocksize, tb)
        decreases |m| - tb
      {
        if |filemap.lists[tb]| == 0 {
          EmptyBlockCut(m, rows, runs, blocksize, tb);
          tb := tb + 1;
          continue;
        }
        var row, rowRuns := EmitNextRow(tb);
        NextRowCut(m, rows, runs, row, blocksize);
        rows, runs := rows + [row], runs + rowRuns;
        tb := row.End();
      }
      CutIs(m, rows, runs, blocksize);
    }

    /** The partial block at the end of the master, after the first location of the last block that it follows. */
    method EmitTail(image: seq<byte>) returns (tail: seq<Run>)
      requires FullMap(filemap.lists, data, blocksize)
      ensures IsTail(filemap.lists, data, image, blocksize, tail)
    {
      hide Offset, Blocks, Extra, TailMatches;
      var extraBytes := Extra(|data|, blocksize);
      if extraBytes == 0 { return []; }
      var last := filemap.lists[|filemap.lists| - 1];
      for k := 0 to |last|
        invariant forall i | 0 <= i < k :: !TailMatches(data, image, blocksize, last[i])
      {
        if TailMatches(data, image, blocksize, last[k]) {
          assert FirstTail(data, image, blocksize, last, k);
          return [Run(Offset(|filemap.lists|, blocksize), Offset(last[k] as int + 1, blocksize), extraBytes)];
        }
      }
      return [];
    }

    method PrintReport(image: seq<byte>) returns (rows: seq<Row>, runs: seq<Run>, ghost tail: seq<Run>)
      requires FullMap(filemap.lists, data, blocksize)
      ensures Describes(filemap.lists, rows, 0, |filemap.lists|) && IsTail(filemap.lists, data, image, blocksize, tail)
      ensures runs == RunsOf(filemap.lists, rows, blocksize) + tail
    {
      var rowRuns, tailRuns;
      rows, rowRuns := EmitRows();
      tailRuns := EmitTail(image);
      tail := tailRuns;
      runs := rowRuns + tailRuns;
    }
  }
}
