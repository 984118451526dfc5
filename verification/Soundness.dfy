/** What a report of the program says about the bytes of master and image. */
module Soundness {
  import opened Bits
  import opened Digests
  import opened Filemaps
  import opened FragFind
  import opened Masterfiles
  import opened Offsets
  import opened Reassembly
  import opened Reports
  import opened ScanSpec

  lemma CleanedKeepsMatches(m: seq<Blocklist>, master: seq<byte>, image: seq<byte>, bs: nat)
    requires LocationsMatch(m, master, image, bs)
    ensures LocationsMatch(Cleaned(m), master, image, bs)
  {
    hide SameBlock;
    forall i: nat, k | i < |m| && 0 <= k < |Cleaned(m)[i]| ensures SameBlock(master, i, image, Cleaned(m)[i][k], bs) {
      CleanedSelects(m, i);
      if Cleaned(m)[i] == m[i] {
        assert SameBlock(master, i, image, m[i][k], bs);
      } else {
        var h :| 0 <= h < |m[i]| && m[i][h] == Front(Cleaned(m)[i]);
        assert SameBlock(master, i, image, m[i][h], bs);
      }
    }
  }

  /** If no two blocks collide, the scan notes only locations that hold the bytes of the master block. */
  lemma ScanMatches(hash: Hasher, master: seq<byte>, image: seq<byte>, bs: nat, start: nat, end: nat)
    requires bs > 0 && Scannable(BlockDigests(hash, image, bs), start, end) && NoCollision(hash, master, image, bs)
    requires NoWideBlockOccurs(BlockDigests(hash, master, bs), BlockDigests(hash, image, bs), start, end)
    ensures LocationsMatch(HitMap(BlockDigests(hash, master, bs), BlockDigests(hash, image, bs), start, end),
                     master, image, bs)
  {
    var md, id := BlockDigests(hash, master, bs), BlockDigests(hash, image, bs);
    var m := HitMap(md, id, start, end);
    ScanExactly(md, id, start, end);
    forall i: nat, k | i < |m| && 0 <= k < |m[i]| ensures SameBlock(master, i, image, m[i][k], bs) {
      var v := m[i][k];
      assert v in Naive(md, id, i, start, end);
      NaiveIsAllMatches(md, id, i, start, end, v);
      assert Block(master, i, bs) == Block(image, v, bs);
      BlockInData(master, i, bs);
      BlockInData(image, v, bs);
    }
  }

  /** Every run of a report names equal bytes of master and image, if no two blocks collide. */
  lemma ReportIsSound(rep: FileReport, hash: Hasher, master: seq<byte>, image: seq<byte>, bs: nat, start: nat, end: nat)
    requires bs > 0 && Scannable(BlockDigests(hash, image, bs), start, end) && NoCollision(hash, master, image, bs)
    requires NoWideBlockOccurs(BlockDigests(hash, master, bs), BlockDigests(hash, image, bs), start, end)
    requires Reported(rep, HitMap(BlockDigests(hash, master, bs), BlockDigests(hash, image, bs), start, end),
                     master, image, bs)
    ensures AllMatch(rep.runs, master, image)
  {
    var m := HitMap(BlockDigests(hash, master, bs), BlockDigests(hash, image, bs), start, end);
    ScanMatches(hash, master, image, bs, start, end);
    CleanedKeepsMatches(m, master, image, bs);
    var tail :| ReportOf(rep, m, master, image, bs, tail);
    RunsMatch(rep.filemap, rep.rows, master, image, bs);
    TailMatchesBytes(rep.filemap, master, image, bs, tail);
  }

  /** Some scanned image block has the digest of master block `i`. */
  ghost predicate OccursInScan(master: seq<Digest>, image: seq<Digest>, i: nat, start: nat, end: nat)
    requires i < |master| && Scannable(image, start, end)
  {
    exists n :: start <= n < end && image[n] == master[i]
  }

  /** A full block of the master is reported as found exactly when its digest occurs in the scanned blocks. */
  lemma FoundExactly(hash: Hasher, master: seq<byte>, image: seq<byte>, bs: nat, start: nat, end: nat, i: nat)
    requires bs > 0 && Scannable(BlockDigests(hash, image, bs), start, end) && i < Blocks(|master|, bs)
    requires NoWideBlockOccurs(BlockDigests(hash, master, bs), BlockDigests(hash, image, bs), start, end)
    ensures
      var md, id := BlockDigests(hash, master, bs), BlockDigests(hash, image, bs);
      |Cleaned(HitMap(md, id, start, end))[i]| > 0 <==> OccursInScan(md, id, i, start, end)
  {
    var md, id := BlockDigests(hash, master, bs), BlockDigests(hash, image, bs);
    var m := HitMap(md, id, start, end);
    ScanExactly(md, id, start, end);
    CleanedSelects(m, i);
    if |m[i]| > 0 {
      NaiveIsAllMatches(md, id, i, start, end, m[i][0]);
      assert m[i][0] in Naive(md, id, i, start, end);
    }
    if OccursInScan(md, id, i, start, end) {
      var n :| start <= n < end && id[n] == md[i];
      NaiveIsAllMatches(md, id, i, start, end, n);
    }
  }

  // ---------------------------------------------------------------- which rows are cut

  /** The front of a cleaned list is its lowest location. */
  lemma FrontIsLowest(master: seq<Digest>, image: seq<Digest>, i: nat, start: nat, end: nat)
    requires Scannable(image, start, end) && i < |master|
    ensures
      var l := Cleaned(HitMap(master, image, start, end))[i];
      |l| > 0 ==> Front(l) in l && forall v | v in l :: Front(l) <= v
  {
    hide Hits, Cleaned;
    var m := HitMap(master, image, start, end);
    FirstHitIsLowest(master, image, i, start, end);
    CleanedSelects(m, i);
    assert m[i] == Hits(master, image, i, start, end);
  }

  /** Every row starts at the lowest location of its first block, and is the longest run from there: each of its blocks
      has its aligned location, and the block after it has not. */
  lemma RowStartsAtLowest(rep: FileReport, hash: Hasher, master: seq<byte>, image: seq<byte>, bs: nat, start: nat,
                          end: nat, r: Row)
    requires bs > 0 && Scannable(BlockDigests(hash, image, bs), start, end) && r in rep.rows
    requires Reported(rep, HitMap(BlockDigests(hash, master, bs), BlockDigests(hash, image, bs), start, end),
                     master, image, bs)
    ensures r.count >= 1 && r.first + r.count <= |rep.filemap|
    ensures r.imageBlock in rep.filemap[r.first] && forall v | v in rep.filemap[r.first] :: r.imageBlock <= v
    ensures IsLongest(rep.filemap, r)
  {
    var md, id := BlockDigests(hash, master, bs), BlockDigests(hash, image, bs);
    var m := HitMap(md, id, start, end);
    var tail :| ReportOf(rep, m, master, image, bs, tail);
    var i :| 0 <= i < |rep.rows| && rep.rows[i] == r;
    assert IsRow(rep.filemap, rep.rows[i]);
    RowIsLongest(rep.filemap, r);
    hide *;
    FrontIsLowest(md, id, r.first, start, end);
  }

  /** The run of a row: every block has its aligned location, and the block after it has not. */
  ghost predicate IsLongest(m: seq<Blocklist>, r: Row)
    requires r.first + r.count <= |m|
  {
    && (forall b | r.first <= b < r.first + r.count :: r.imageBlock + (b - r.first) in m[b])
    && (r.first + r.count < |m| ==> r.imageBlock + r.count !in m[r.first + r.count])
  }

  lemma RowIsLongest(m: seq<Blocklist>, r: Row)
    requires IsRow(m, r)
    ensures r.count >= 1 && r.first + r.count <= |m| && IsLongest(m, r)
    ensures |m[r.first]| > 0 && r.imageBlock == Front(m[r.first]) && r.imageBlock in m[r.first]
  {
    RowIsWithin(m, r);
    forall b | r.first <= b < r.first + r.count ensures r.imageBlock + (b - r.first) in m[b] {
      if b > r.first { assert Contains(m[b], r.imageBlock + (b - r.first)); }
    }
  }

  // ---------------------------------------------------------------- where the runs lie

  /** A run lies in the master and in the image. */
  ghost predicate LiesInFiles(r: Run, master: seq<byte>, image: seq<byte>) {
    r.fileOffset + r.len <= |master| && r.imgOffset + r.len <= |image|
  }

  ghost predicate AllBelow(c: seq<Blocklist>, n: nat) {
    forall i | 0 <= i < |c| :: ListBelow(c[i], n)
  }

  ghost predicate ListBelow(l: Blocklist, n: nat) {
    forall v | v in l :: v < n
  }

  lemma HitsAreBelow(hash: Hasher, master: seq<byte>, image: seq<byte>, bs: nat, start: nat, end: nat)
    requires bs > 0 && Scannable(BlockDigests(hash, image, bs), start, end)
    ensures AllBelow(Cleaned(HitMap(BlockDigests(hash, master, bs), BlockDigests(hash, image, bs), start, end)),
              Blocks(|image|, bs))
  {
    hide Blocks, Cleaned, Hits;
    var md, id := BlockDigests(hash, master, bs), BlockDigests(hash, image, bs);
    var m := HitMap(md, id, start, end);
    forall i | 0 <= i < |m| ensures ListBelow(Cleaned(m)[i], Blocks(|image|, bs)) {
      HitsAreScanned(md, id, i, start, end);
      assert m[i] == Hits(md, id, i, start, end);
      SelectedIsBelow(m, i, end);
    }
  }

  lemma SelectedIsBelow(m: seq<Blocklist>, i: int, n: nat)
    requires 0 <= i < |m| && ListBelow(m[i], n)
    ensures ListBelow(Cleaned(m)[i], n)
  {
    hide Cleaned;
    CleanedSelects(m, i);
    if Cleaned(m)[i] != m[i] {
      var k :| 0 <= k < |m[i]| && m[i][k] == Front(Cleaned(m)[i]);
      assert m[i][k] in m[i];
    }
  }

  lemma RowRunsLieInFiles(c: seq<Blocklist>, r: Row, master: seq<byte>, image: seq<byte>, bs: nat)
    requires FullMap(c, master, bs) && IsRow(c, r) && AllBelow(c, Blocks(|image|, bs))
    ensures forall k | 0 <= k < |RowRuns(c, r, bs)| :: LiesInFiles(RowRuns(c, r, bs)[k], master, image)
  {
    hide Offset, Blocks, Extra;
    RowInFile(c, r, master, bs);
    RowIsWithin(c, r);
    OffsetMonotonic(1, r.count, bs);
    OffsetUnit(bs);
    if r.count > 1 {
      LastOfRow(c, r, Blocks(|image|, bs));
      EndInData(image, r.imageBlock + r.count, bs);
      OffsetAdd(r.imageBlock, r.count, bs);
    } else {
      LocationsLieInImage(c[r.first], image, bs);
    }
  }

  lemma LocationsLieInImage(l: Blocklist, image: seq<byte>, bs: nat)
    requires bs > 0 && ListBelow(l, Blocks(|image|, bs))
    ensures forall k | 0 <= k < |l| :: Offset(l[k], bs) + bs <= |image|
  {
    hide Offset, Blocks;
    OffsetUnit(bs);
    forall k | 0 <= k < |l| ensures Offset(l[k], bs) + bs <= |image| {
      assert l[k] in l;
      EndInData(image, l[k] as nat + 1, bs);
      OffsetAdd(l[k], 1, bs);
    }
  }

  /** The last block of a longer row has its aligned location, which is below the bound of all locations. */
  lemma LastOfRow(c: seq<Blocklist>, r: Row, n: nat)
    requires IsRow(c, r) && r.count > 1 && AllBelow(c, n)
    ensures r.imageBlock + r.count <= n
  {
    var last := c[r.first + r.count - 1];
    assert ListBelow(last, n);
    assert r.imageBlock + r.count - 1 in last;
  }

  lemma {:induction false} RowsLieInFiles(c: seq<Blocklist>, rows: seq<Row>, master: seq<byte>, image: seq<byte>,
                                          bs: nat)
    requires FullMap(c, master, bs) && AllRows(c, rows) && AllBelow(c, Blocks(|image|, bs))
    ensures forall k | 0 <= k < |RunsOf(c, rows, bs)| :: LiesInFiles(RunsOf(c, rows, bs)[k], master, image)
  {
    if |rows| > 0 {
      hide LiesInFiles, RowRuns, AllBelow, IsRow, FullMap, Blocks;
      RowsLieInFiles(c, rows[..|rows| - 1], master, image, bs);
      RowRunsLieInFiles(c, rows[|rows| - 1], master, image, bs);
    }
  }

  /** Every run of every report lies in the files, whatever the hash. */
  lemma ReportLiesInFiles(rep: FileReport, hash: Hasher, master: seq<byte>, image: seq<byte>, bs: nat, start: nat,
                          end: nat)
    requires bs > 0 && Scannable(BlockDigests(hash, image, bs), start, end)
    requires Reported(rep, HitMap(BlockDigests(hash, master, bs), BlockDigests(hash, image, bs), start, end),
                     master, image, bs)
    ensures forall k | 0 <= k < |rep.runs| :: LiesInFiles(rep.runs[k], master, image)
  {
    var m := HitMap(BlockDigests(hash, master, bs), BlockDigests(hash, image, bs), start, end);
    var tail :| ReportOf(rep, m, master, image, bs, tail);
    hide HitMap, Cleaned, AllBelow, Blocks, IsTail, FullMap;
    HitsAreBelow(hash, master, image, bs, start, end);
    RowsLieInFiles(rep.filemap, rep.rows, master, image, bs);
    TailMatchesBytes(rep.filemap, master, image, bs, tail);
    forall k | 0 <= k < |tail| ensures LiesInFiles(tail[k], master, image) {
      assert RunMatches(tail[k], master, image);
    }
  }

  // ---------------------------------------------------------------- putting the master together again

  ghost predicate TailAfter(last: Blocklist, master: seq<byte>, image: seq<byte>, bs: nat)
    requires bs > 0
  {
    exists k :: 0 <= k < |last| && TailMatches(master, image, bs, last[k])
  }

  /** A location of the last full block is followed by the partial block of the master. */
  ghost predicate TailFollows(c: seq<Blocklist>, master: seq<byte>, image: seq<byte>, bs: nat)
    requires bs > 0
  {
    |c| > 0 && TailAfter(c[|c| - 1], master, image, bs)
  }

  /** What image and master must be for the report to give the master back: every full block occurs in the scanned
      blocks, the cleaned map of the hits never comes to a lone block with several locations, and the partial last
      block, if there is one, follows a location of the last full block. */
  ghost predicate Recoverable(hash: Hasher, master: seq<byte>, image: seq<byte>, bs: nat, start: nat, end: nat)
    requires bs > 0 && Scannable(BlockDigests(hash, image, bs), start, end)
  {
    var md, id := BlockDigests(hash, master, bs), BlockDigests(hash, image, bs);
    var c := Cleaned(HitMap(md, id, start, end));
    && (forall i: nat | i < |md| :: OccursInScan(md, id, i, start, end))
    && CutsCleanly(c, 0)
    && (Extra(|master|, bs) == 0 || TailFollows(c, master, image, bs))
  }

  lemma TailIsFound(c: seq<Blocklist>, master: seq<byte>, image: seq<byte>, bs: nat, tail: seq<Run>)
    requires FullMap(c, master, bs) && IsTail(c, master, image, bs, tail) && Extra(|master|, bs) > 0
    ensures |tail| > 0 <==> TailFollows(c, master, image, bs)
  {
    hide TailMatches, Offset, Blocks, Extra;
    var last := c[|c| - 1];
    if |tail| > 0 {
      var k :| FirstTail(master, image, bs, last, k);
      assert TailMatches(master, image, bs, last[k]);
    }
  }

  lemma EqualBlocksAreFoundTogether(hash: Hasher, master: seq<byte>, image: seq<byte>, bs: nat, start: nat, end: nat)
    requires bs > 0 && Scannable(BlockDigests(hash, image, bs), start, end)
    requires NoWideBlockOccurs(BlockDigests(hash, master, bs), BlockDigests(hash, image, bs), start, end)
    ensures
      var c := Cleaned(HitMap(BlockDigests(hash, master, bs), BlockDigests(hash, image, bs), start, end));
      EqualFoundTogether(c, master, bs)
  {
    hide Cleaned, HitMap, NoWideBlockOccurs, Blocks, Block;
    var md, id := BlockDigests(hash, master, bs), BlockDigests(hash, image, bs);
    var c := Cleaned(HitMap(md, id, start, end));
    forall i: nat, j: nat | i < |c| && j < |c| && Block(master, i, bs) == Block(master, j, bs)
      ensures |c[i]| > 0 <==> |c[j]| > 0
    {
      FoundExactly(hash, master, image, bs, start, end, i);
      FoundExactly(hash, master, image, bs, start, end, j);
      assert md[i] == md[j];
    }
  }

  /** The conditions on the report are those on image and master. */
  lemma CompleteIsRecoverable(rep: FileReport, hash: Hasher, master: seq<byte>, image: seq<byte>, bs: nat, start: nat,
                              end: nat, tail: seq<Run>)
    requires bs > 0 && Scannable(BlockDigests(hash, image, bs), start, end)
    requires NoWideBlockOccurs(BlockDigests(hash, master, bs), BlockDigests(hash, image, bs), start, end)
    requires ReportOf(rep, HitMap(BlockDigests(hash, master, bs), BlockDigests(hash, image, bs), start, end),
                     master, image, bs, tail)
    ensures AllRows(rep.filemap, rep.rows)
    ensures Complete(rep.filemap, rep.rows, master, bs, tail) <==> Recoverable(hash, master, image, bs, start, end)
  {
    hide Cleaned, HitMap, NoWideBlockOccurs, OccursInScan, TailFollows, Unambiguous, CutsCleanly, IsTail, Describes;
    var md, id := BlockDigests(hash, master, bs), BlockDigests(hash, image, bs);
    InBounds(rep.filemap, rep.rows, 0, |rep.filemap|);
    UnambiguousIsCleanCut(rep.filemap, rep.rows, 0);
    if Extra(|master|, bs) > 0 { TailIsFound(rep.filemap, master, image, bs, tail); }
    forall i: nat | i < |md| ensures |rep.filemap[i]| > 0 <==> OccursInScan(md, id, i, start, end) {
      FoundExactly(hash, master, image, bs, start, end, i);
    }
  }

  /** The runs of a report, joined in order, are the master exactly if image and master are such that it is
      recoverable. */
  lemma ReportReassemblesMaster(rep: FileReport, hash: Hasher, master: seq<byte>, image: seq<byte>, bs: nat, start: nat,
                                end: nat)
    requires bs > 0 && Scannable(BlockDigests(hash, image, bs), start, end) && NoCollision(hash, master, image, bs)
    requires NoWideBlockOccurs(BlockDigests(hash, master, bs), BlockDigests(hash, image, bs), start, end)
    requires Reported(rep, HitMap(BlockDigests(hash, master, bs), BlockDigests(hash, image, bs), start, end),
                     master, image, bs)
    ensures AllMatch(rep.runs, master, image) && InImage(rep.runs, image)
    ensures Reassembled(rep.runs, image) == master <==> Recoverable(hash, master, image, bs, start, end)
  {
    var m := HitMap(BlockDigests(hash, master, bs), BlockDigests(hash, image, bs), start, end);
    var tail :| ReportOf(rep, m, master, image, bs, tail);
    hide NoWideBlockOccurs, NoCollision, LocationsMatch, EqualFoundTogether, Describes, IsTail, Recoverable, Complete;
    hide HitMap, Cleaned;
    ScanMatches(hash, master, image, bs, start, end);
    CleanedKeepsMatches(m, master, image, bs);
    ReportIsSound(rep, hash, master, image, bs, start, end);
    EqualBlocksAreFoundTogether(hash, master, image, bs, start, end);
    CompleteIsRecoverable(rep, hash, master, image, bs, start, end, tail);
    ReassemblesExactlyComplete(rep.filemap, rep.rows, master, image, bs, tail);
  }

  // ---------------------------------------------------------------- when that is, and when it is not

  /** Exactly one scanned image block has the digest of master block `i`. */
  ghost predicate OccursOnce(master: seq<Digest>, image: seq<Digest>, i: nat, start: nat, end: nat)
    requires i < |master| && Scannable(image, start, end)
  {
    exists n: nat ::
      && start <= n < end && image[n] == master[i]
      && forall k | start <= k < end && image[k] == master[i] :: k == n
  }

  lemma OnceIsOneHit(master: seq<Digest>, image: seq<Digest>, i: nat, start: nat, end: nat)
    requires i < |master| && Scannable(image, start, end) && NoWideBlockOccurs(master, image, start, end)
    requires OccursOnce(master, image, i, start, end)
    ensures |HitMap(master, image, start, end)[i]| == 1 && OccursInScan(master, image, i, start, end)
  {
    ScanExactly(master, image, start, end);
    var n: nat :| start <= n < end && image[n] == master[i]
                  && forall k | start <= k < end && image[k] == master[i] :: k == n;
    var l := Naive(master, image, i, start, end);
    assert HitMap(master, image, start, end)[i] == l;
    NaiveIsAllMatches(master, image, i, start, end, n);
    if |l| > 1 {
      NaiveIncreases(master, image, i, start, end, 0, 1);
      NaiveIsAllMatches(master, image, i, start, end, l[0]);
      NaiveIsAllMatches(master, image, i, start, end, l[1]);
    }
  }

  /** A master whose full blocks each occur once in the scanned blocks, and whose partial block follows, is
      recoverable. */
  lemma OnceEachIsRecoverable(hash: Hasher, master: seq<byte>, image: seq<byte>, bs: nat, start: nat, end: nat)
    requires bs > 0 && Scannable(BlockDigests(hash, image, bs), start, end)
    requires NoWideBlockOccurs(BlockDigests(hash, master, bs), BlockDigests(hash, image, bs), start, end)
    requires forall i: nat | i < Blocks(|master|, bs) ::
               OccursOnce(BlockDigests(hash, master, bs), BlockDigests(hash, image, bs), i, start, end)
    requires Extra(|master|, bs) == 0 ||
      TailFollows(HitMap(BlockDigests(hash, master, bs), BlockDigests(hash, image, bs), start, end), master, image, bs)
    ensures Recoverable(hash, master, image, bs, start, end)
  {
    hide NoWideBlockOccurs, HitMap, TailFollows, CutsCleanly, OccursOnce, OccursInScan;
    var md, id := BlockDigests(hash, master, bs), BlockDigests(hash, image, bs);
    var m := HitMap(md, id, start, end);
    forall i: nat | i < |md| ensures |m[i]| == 1 && OccursInScan(md, id, i, start, end) {
      OnceIsOneHit(md, id, i, start, end);
    }
    OneLocationIsClean(m);
  }

  lemma OneLocationIsClean(m: seq<Blocklist>)
    requires forall b | 0 <= b < |m| :: |m[b]| == 1
    ensures Cleaned(m) == m && CutsCleanly(Cleaned(m), 0)
  {
    CleanedFixesExactlyStable(m);
    FewLocationsCutCleanly(m, 0);
  }

  lemma TwoBlocks(master: seq<byte>, bs: nat)
    requires |master| == bs > 0
    ensures Blocks(|master|, bs) == 1 && Extra(|master|, bs) == 0 && Block(master, 0, bs) == master
    ensures
      var image := master + master;
      Blocks(|image|, bs) == 2 && Block(image, 0, bs) == master && Block(image, 1, bs) == master
  {
    OffsetIsWhole(1, bs);
    OffsetIsWhole(2, bs);
  }

  lemma FoundAtBoth(hash: Hasher, master: seq<byte>, bs: nat)
    requires |master| == bs > 0
    ensures
      var md, id := BlockDigests(hash, master, bs), BlockDigests(hash, master + master, bs);
      && Scannable(id, 0, 2)
      && Cleaned(HitMap(md, id, 0, 2)) == [[0, 1]]
  {
    TwoBlocks(master, bs);
    hide Blocks, Block;
    var md, id := BlockDigests(hash, master, bs), BlockDigests(hash, master + master, bs);
    OneBlockTwice(md, id);
    OneListIsClean(HitMap(md, id, 0, 2));
  }

  lemma OneBlockTwice(master: seq<Digest>, image: seq<Digest>)
    requires |master| == 1 && image == [master[0], master[0]]
    ensures Scannable(image, 0, 2) && HitMap(master, image, 0, 2) == [[0, 1]]
  {
    ScanExactly(master, image, 0, 2);
    assert Naive(master, image, 0, 0, 0) == [];
    assert Naive(master, image, 0, 0, 1) == [0];
    assert Naive(master, image, 0, 0, 2) == [0, 1];
    hide Naive, Hits;
    assert HitMap(master, image, 0, 2)[0] == Hits(master, image, 0, 0, 2);
  }

  lemma OneListIsClean(m: seq<Blocklist>)
    requires |m| == 1
    ensures Cleaned(m) == m
  {
    CleanedFixesExactlyStable(m);
  }

  /** A failure: a master of one block, which the image holds twice, is put together twice. */
  lemma BlockTwiceIsJoinedTwice(rep: FileReport, hash: Hasher, master: seq<byte>, bs: nat)
    requires |master| == bs > 0 && Scannable(BlockDigests(hash, master + master, bs), 0, 2)
    requires Reported(rep, HitMap(BlockDigests(hash, master, bs), BlockDigests(hash, master + master, bs), 0, 2),
                      master, master + master, bs)
    ensures InImage(rep.runs, master + master) && Reassembled(rep.runs, master + master) == master + master != master
  {
    var image := master + master;
    var m := HitMap(BlockDigests(hash, master, bs), BlockDigests(hash, image, bs), 0, 2);
    var tail :| ReportOf(rep, m, master, image, bs, tail);
    FoundAtBoth(hash, master, bs);
    TwoBlocks(master, bs);
    hide HitMap, Blocks, Extra, Cleaned, Describes, RunsOf, AllRows, Reassembled, InImage, BlockDigests;
    TwoRuns(rep.filemap, rep.rows, bs);
    assert tail == [] && rep.runs == [Run(0, 0, bs)] + [Run(0, bs, bs)];
    TwoCopies(master, bs);
  }

  lemma TwoCopies(master: seq<byte>, bs: nat)
    requires |master| == bs
    ensures
      var runs := [Run(0, 0, bs)] + [Run(0, bs, bs)];
      InImage(runs, master + master) && Reassembled(runs, master + master) == master + master
  {
    hide Reassembled, InImage;
    var image := master + master;
    ReassembledOne(Run(0, 0, bs), image);
    ReassembledOne(Run(0, bs, bs), image);
    ReassembledMore([Run(0, 0, bs)], [Run(0, bs, bs)], image);
  }

  lemma TwoRuns(m: seq<Blocklist>, rows: seq<Row>, bs: nat)
    requires m == [[0, 1]] && Describes(m, rows, 0, 1)
    ensures AllRows(m, rows) && RunsOf(m, rows, bs) == [Run(0, 0, bs)] + [Run(0, bs, bs)]
  {
    var row := Row(0, 0, 1);
    assert IsRow(m, row) && [row][0] == row;
    assert InRows([row], 0);
    RowsUnique(m, rows, [row], 0, 1);
    OffsetUnit(bs);
    assert RunsOf(m, [row][..0], bs) == [];
    assert RowRuns(m, row, bs) == [Run(0, 0, bs), Run(0, bs, bs)];
  }
}
