/** What `print_report` prints and writes: rows of master blocks, and the byte runs of the XML report. */
module Reports {
  import opened Bits
  import opened Filemaps
  import opened Offsets

  /** A printed row: `count` master blocks from `first`, found from `imageBlock` on. */
  datatype Row = Row(first: nat, imageBlock: BlockNumber, count: nat) {
    function End(): nat {
      first + count
    }
  }

  /** One `run` element of the XML report. */
  datatype Run = Run(fileOffset: nat, imgOffset: nat, len: nat)

  // ---------------------------------------------------------------- rows

  /** A row starts at a found block, at that block's first location, and is the longest run from there. */
  ghost predicate IsRow(m: seq<Blocklist>, r: Row) {
    && r.first < |m| && |m[r.first]| > 0 && r.imageBlock == Front(m[r.first])
    && IsRun(m, r.first, r.imageBlock, r.count)
  }

  ghost predicate AllRows(m: seq<Blocklist>, rows: seq<Row>) {
    forall i | 0 <= i < |rows| :: IsRow(m, rows[i])
  }

  ghost predicate InOrder(rows: seq<Row>, lo: int, hi: int) {
    && (forall i | 0 <= i < |rows| :: lo <= rows[i].first && rows[i].End() <= hi)
    && (forall i, j | 0 <= i < j < |rows| :: rows[i].End() <= rows[j].first)
  }

  ghost predicate LeavesOutNone(m: seq<Blocklist>, rows: seq<Row>, lo: int, hi: int)
    requires 0 <= lo <= hi <= |m|
  {
    forall b | lo <= b < hi && |m[b]| > 0 :: InRows(rows, b)
  }

  /** The rows report the blocks of [lo, hi): they are rows, in order, disjoint, and leave out no found block. */
  ghost predicate Describes(m: seq<Blocklist>, rows: seq<Row>, lo: int, hi: int) {
    0 <= lo <= hi <= |m| && AllRows(m, rows) && InOrder(rows, lo, hi) && LeavesOutNone(m, rows, lo, hi)
  }

  ghost predicate InRows(rows: seq<Row>, b: int) {
    exists i :: 0 <= i < |rows| && rows[i].first <= b < rows[i].End()
  }

  lemma DescribesRest(m: seq<Blocklist>, rows: seq<Row>, lo: int, hi: int)
    requires Describes(m, rows, lo, hi) && |rows| > 0
    ensures Describes(m, rows[1..], rows[0].End(), hi)
    ensures forall b | lo <= b < rows[0].first :: |m[b]| == 0
  {
    hide IsRow;
    forall b | rows[0].End() <= b < hi && |m[b]| > 0 ensures InRows(rows[1..], b) {
      InLaterRow(rows, b);
    }
    forall b | lo <= b < rows[0].first ensures |m[b]| == 0 {
      var covered := InRows(rows, b);
    }
  }

  lemma InLaterRow(rows: seq<Row>, b: int)
    requires InRows(rows, b) && !(rows[0].first <= b < rows[0].End())
    ensures InRows(rows[1..], b)
  {
    var i :| 0 <= i < |rows| && rows[i].first <= b < rows[i].End();
    assert rows[1..][i - 1] == rows[i];
  }

  lemma RowIsWithin(m: seq<Blocklist>, r: Row)
    requires IsRow(m, r)
    ensures r.End() <= |m| && r.count >= 1
  {
  }

  lemma InRowsAppend(rows: seq<Row>, r: Row, b: int)
    ensures InRows(rows + [r], b) <==> InRows(rows, b) || r.first <= b < r.End()
  {
    var rs := rows + [r];
    if InRows(rows, b) {
      var i :| 0 <= i < |rows| && rows[i].first <= b < rows[i].End();
      assert rs[i] == rows[i];
    }
    assert rs[|rows|] == r;
  }

  lemma DescribesAppend(m: seq<Blocklist>, rows: seq<Row>, lo: int, r: Row)
    requires Describes(m, rows, lo, r.first) && IsRow(m, r)
    ensures Describes(m, rows + [r], lo, r.End())
  {
    RowIsWithin(m, r);
    AllRowsAppend(m, rows, r);
    InOrderAppend(rows, lo, r);
    hide IsRow, InRows, AllRows, InOrder;
    forall b | lo <= b < r.End() && |m[b]| > 0 ensures InRows(rows + [r], b) {
      InRowsAppend(rows, r, b);
    }
  }

  lemma AllRowsAppend(m: seq<Blocklist>, rows: seq<Row>, r: Row)
    requires AllRows(m, rows) && IsRow(m, r)
    ensures AllRows(m, rows + [r])
  {
    hide IsRow;
  }

  lemma InOrderAppend(rows: seq<Row>, lo: int, r: Row)
    requires InOrder(rows, lo, r.first) && r.count >= 1 && lo <= r.first
    ensures InOrder(rows + [r], lo, r.End())
  {
  }

  lemma RowUnique(m: seq<Blocklist>, r: Row, r': Row)
    requires IsRow(m, r) && IsRow(m, r')
    ensures |m[r.first]| > 0 && |m[r'.first]| > 0 && (r.first == r'.first ==> r == r')
  {
    if r.first == r'.first { RunIsUnique(m, r.first, r.imageBlock, r.count, r'.count); }
  }

  /** The rows of a filemap are determined by the filemap. */
  lemma {:induction false} RowsUnique(m: seq<Blocklist>, rows: seq<Row>, rows': seq<Row>, lo: int, hi: int)
    requires Describes(m, rows, lo, hi) && Describes(m, rows', lo, hi)
    ensures rows == rows'
    decreases |rows|
  {
    if |rows| == 0 {
      var covered := |rows'| > 0 && InRows(rows, rows'[0].first);
    } else if |rows'| == 0 {
      var covered := InRows(rows', rows[0].first);
    } else {
      DescribesRest(m, rows, lo, hi);
      DescribesRest(m, rows', lo, hi);
      RowUnique(m, rows[0], rows'[0]);
      hide IsRow, InRows;
      RowsUnique(m, rows[1..], rows'[1..], rows[0].End(), hi);
    }
  }

  ghost function FoundIn(m: seq<Blocklist>, lo: int, hi: int): set<int> {
    set b | lo <= b < hi && 0 <= b < |m| && |m[b]| > 0
  }

  ghost function TotalCount(rows: seq<Row>): nat {
    if |rows| == 0 then 0 else rows[0].count + TotalCount(rows[1..])
  }

  lemma {:induction false} FoundInRun(m: seq<Blocklist>, lo: int, hi: int)
    requires 0 <= lo <= hi <= |m| && forall b | lo <= b < hi :: |m[b]| > 0
    ensures |FoundIn(m, lo, hi)| == hi - lo
    decreases hi - lo
  {
    if lo < hi {
      FoundInRun(m, lo, hi - 1);
      assert FoundIn(m, lo, hi) == FoundIn(m, lo, hi - 1) + {hi - 1};
    } else {
      assert FoundIn(m, lo, hi) == {};
    }
  }

  lemma FoundInSplits(m: seq<Blocklist>, lo: int, mid: int, hi: int)
    requires 0 <= lo <= mid <= hi <= |m|
    ensures |FoundIn(m, lo, hi)| == |FoundIn(m, lo, mid)| + |FoundIn(m, mid, hi)|
  {
    assert FoundIn(m, lo, hi) == FoundIn(m, lo, mid) + FoundIn(m, mid, hi);
  }

  lemma RowIsFound(m: seq<Blocklist>, r: Row)
    requires IsRow(m, r)
    ensures forall b | r.first <= b < r.End() :: b < |m| && |m[b]| > 0
  {
  }

  /** The rows cover exactly the found blocks. */
  lemma RowsCoverFound(m: seq<Blocklist>, rows: seq<Row>, lo: int, hi: int)
    requires Describes(m, rows, lo, hi)
    ensures forall b | lo <= b < hi :: |m[b]| > 0 <==> InRows(rows, b)
  {
    forall b | lo <= b < hi && InRows(rows, b) ensures |m[b]| > 0 {
      var i :| 0 <= i < |rows| && rows[i].first <= b < rows[i].End();
      RowIsFound(m, rows[i]);
    }
  }

  /** The lengths of the rows add up to the number of found blocks. */
  lemma {:induction false} RowsCountFound(m: seq<Blocklist>, rows: seq<Row>, lo: int, hi: int)
    requires Describes(m, rows, lo, hi)
    ensures TotalCount(rows) == |FoundIn(m, lo, hi)|
    decreases |rows|
  {
    if |rows| == 0 {
      forall b | lo <= b < hi ensures |m[b]| == 0 { var covered := InRows(rows, b); }
      assert FoundIn(m, lo, hi) == {};
    } else {
      var r := rows[0];
      DescribesRest(m, rows, lo, hi);
      RowsCountFound(m, rows[1..], r.End(), hi);
      RowIsFound(m, r);
      FoundInRun(m, r.first, r.End());
      FoundInSplits(m, lo, r.first, hi);
      FoundInSplits(m, r.first, r.End(), hi);
      assert FoundIn(m, lo, r.first) == {};
    }
  }

  /** The rows of a report add up to what `found_count` returns, before and after cleaning. */
  lemma RowsAddUpToFoundCount(m: seq<Blocklist>, rows: seq<Row>)
    requires Describes(Cleaned(m), rows, 0, |m|)
    ensures TotalCount(rows) == |NonEmpty(Cleaned(m))| == |NonEmpty(m)|
  {
    RowsCountFound(Cleaned(m), rows, 0, |m|);
    CleanedKeepsFound(m);
    assert FoundIn(Cleaned(m), 0, |m|) == NonEmpty(Cleaned(m));
  }

  /** One list for every full block of the master; the report needs a last list to look for a partial block. */
  predicate FullMap(m: seq<Blocklist>, master: seq<byte>, bs: nat) {
    bs > 0 && |m| == Blocks(|master|, bs) && (|m| > 0 || Extra(|master|, bs) == 0)
  }

  // ---------------------------------------------------------------- runs

  /** The `run` elements of one row: one for a longer run, one for each location of a lone block. */
  ghost function RowRuns(m: seq<Blocklist>, r: Row, bs: nat): seq<Run>
    requires r.first < |m|
  {
    if r.count > 1 then [Run(Offset(r.first, bs), Offset(r.imageBlock, bs), Offset(r.count, bs))]
    else seq(|m[r.first]|, i requires 0 <= i < |m[r.first]| => Run(Offset(r.first, bs), Offset(m[r.first][i], bs), bs))
  }

  ghost function RunsOf(m: seq<Blocklist>, rows: seq<Row>, bs: nat): seq<Run>
    requires AllRows(m, rows)
  {
    if |rows| == 0 then [] else RunsOf(m, rows[..|rows| - 1], bs) + RowRuns(m, rows[|rows| - 1], bs)
  }

  /** The numbers in the runs of one row. */
  lemma RunsOfRow(m: seq<Blocklist>, r: Row, bs: nat)
    requires bs > 0 && IsRow(m, r)
    ensures r.count > 1 ==> RowRuns(m, r, bs) == [Run(r.first * bs, r.imageBlock * bs, r.count * bs)]
    ensures r.count == 1 ==> |RowRuns(m, r, bs)| == |m[r.first]|
    ensures r.count == 1 ==> forall k | 0 <= k < |m[r.first]| ::
      RowRuns(m, r, bs)[k] == Run(r.first * bs, m[r.first][k] * bs, bs)
  {
  }

  lemma NoRows(m: seq<Blocklist>, bs: nat)
    ensures Describes(m, [], 0, 0) && AllRows(m, []) && RunsOf(m, [], bs) == []
  {
  }

  lemma EmptyBlock(m: seq<Blocklist>, rows: seq<Row>, tb: nat)
    requires Describes(m, rows, 0, tb) && tb < |m| && |m[tb]| == 0
    ensures Describes(m, rows, 0, tb + 1)
  {
  }

  /** These rows, with these runs, report the blocks before `tb`. */
  ghost predicate Cut(m: seq<Blocklist>, rows: seq<Row>, runs: seq<Run>, bs: nat, tb: int) {
    Describes(m, rows, 0, tb) && AllRows(m, rows) && runs == RunsOf(m, rows, bs)
  }

  lemma CutIs(m: seq<Blocklist>, rows: seq<Row>, runs: seq<Run>, bs: nat)
    requires Cut(m, rows, runs, bs, |m|)
    ensures Describes(m, rows, 0, |m|) && runs == RunsOf(m, rows, bs)
  {
    hide Describes, AllRows, RunsOf;
  }

  lemma NothingCut(m: seq<Blocklist>, bs: nat)
    ensures Cut(m, [], [], bs, 0)
  {
    NoRows(m, bs);
  }

  lemma EmptyBlockCut(m: seq<Blocklist>, rows: seq<Row>, runs: seq<Run>, bs: nat, tb: nat)
    requires Cut(m, rows, runs, bs, tb) && tb < |m| && |m[tb]| == 0
    ensures Cut(m, rows, runs, bs, tb + 1)
  {
    EmptyBlock(m, rows, tb);
    hide Describes, AllRows, RunsOf;
  }

  lemma NextRowCut(m: seq<Blocklist>, rows: seq<Row>, runs: seq<Run>, r: Row, bs: nat)
    requires Cut(m, rows, runs, bs, r.first) && r.first < |m| && |m[r.first]| > 0
    requires r.imageBlock == Front(m[r.first]) && IsRun(m, r.first, r.imageBlock, r.count)
    ensures r.count >= 1 && r.End() <= |m| && Cut(m, rows + [r], runs + RowRuns(m, r, bs), bs, r.End())
  {
    NextRow(m, rows, r, bs);
    hide Describes, AllRows, RunsOf, RowRuns, IsRow, IsRun;
  }

  /** The row that starts at the first block not yet reported. */
  lemma NextRow(m: seq<Blocklist>, rows: seq<Row>, r: Row, bs: nat)
    requires r.first < |m| && |m[r.first]| > 0 && r.imageBlock == Front(m[r.first])
    requires IsRun(m, r.first, r.imageBlock, r.count) && Describes(m, rows, 0, r.first)
    ensures IsRow(m, r) && r.count >= 1 && r.End() <= |m| && Describes(m, rows + [r], 0, r.End())
    ensures AllRows(m, rows) && AllRows(m, rows + [r])
    ensures RunsOf(m, rows + [r], bs) == RunsOf(m, rows, bs) + RowRuns(m, r, bs)
  {
    DescribesAppend(m, rows, 0, r);
    assert (rows + [r])[..|rows|] == rows;
  }

  /** A row lies within the full blocks of the master, so within the file. */
  lemma RowInFile(m: seq<Blocklist>, r: Row, master: seq<byte>, bs: nat)
    requires FullMap(m, master, bs) && IsRow(m, r)
    ensures Offset(r.first, bs) + Offset(r.count, bs) <= |master|
  {
    hide Offset, Blocks, Extra;
    OffsetAdd(r.first, r.count, bs);
    OffsetMonotonic(r.End(), |m|, bs);
    SplitBytes(|master|, bs);
  }

  /** The bytes after the last full block of the master follow image block `v` in the image. */
  predicate TailMatches(master: seq<byte>, image: seq<byte>, bs: nat, v: int)
    requires bs > 0 && v >= 0
  {
    var extra := Extra(|master|, bs);
    Offset(v + 1, bs) + extra <= |image|
      && image[Offset(v + 1, bs)..Offset(v + 1, bs) + extra] == master[|master| - extra..]
  }

  /** `k` is the first location of the last master block that the tail follows. */
  ghost predicate FirstTail(master: seq<byte>, image: seq<byte>, bs: nat, last: Blocklist, k: int)
    requires bs > 0
  {
    0 <= k < |last| && TailMatches(master, image, bs, last[k])
    && forall i | 0 <= i < k :: !TailMatches(master, image, bs, last[i])
  }

  /** The run for the partial block at the end of the master: one if there is such a block and it is found. */
  ghost predicate IsTail(m: seq<Blocklist>, master: seq<byte>, image: seq<byte>, bs: nat, tail: seq<Run>)
    requires bs > 0 && (|m| > 0 || Extra(|master|, bs) == 0)
  {
    if Extra(|master|, bs) == 0 then tail == []
    else
      var last := m[|m| - 1];
      || (tail == [] && forall k | 0 <= k < |last| :: !TailMatches(master, image, bs, last[k]))
      || (exists k ::
            FirstTail(master, image, bs, last, k)
            && tail == [Run(Offset(|m|, bs), Offset(last[k] as int + 1, bs), Extra(|master|, bs))])
  }

  /** The run of the partial block: it follows the last full block, and a location of it; no earlier location of the
      list will do; and there is none only if no location will. */
  lemma TailIs(m: seq<Blocklist>, master: seq<byte>, image: seq<byte>, bs: nat, tail: seq<Run>)
    requires bs > 0 && |m| > 0 && |m| * bs <= |master| < |m| * bs + bs && IsTail(m, master, image, bs, tail)
    ensures
      var extra, last := |master| - |m| * bs, m[|m| - 1];
      if extra == 0 then tail == []
      else if exists k :: 0 <= k < |last| && FollowedBy(image, (last[k] + 1) * bs, master[|m| * bs..]) then
        exists k ::
          && 0 <= k < |last| && tail == [Run(|m| * bs, (last[k] + 1) * bs, extra)]
          && FollowedBy(image, (last[k] + 1) * bs, master[|m| * bs..])
          && forall i | 0 <= i < k :: !FollowedBy(image, (last[i] + 1) * bs, master[|m| * bs..])
      else tail == []
  {
    var extra, last := |master| - |m| * bs, m[|m| - 1];
    ExtraIs(|master|, |m|, bs);
    forall k | 0 <= k < |last|
      ensures TailMatches(master, image, bs, last[k]) <==> FollowedBy(image, (last[k] + 1) * bs, master[|m| * bs..])
      ensures Offset(last[k] as int + 1, bs) == (last[k] + 1) * bs
    {
      FollowedIs(master, image, bs, |m|, last[k]);
    }
    assert Offset(|m|, bs) == |m| * bs;
    hide TailMatches, FollowedBy, Offset, Extra;
  }

  lemma ExtraIs(n: nat, blocks: nat, bs: nat)
    requires bs > 0 && blocks * bs <= n < blocks * bs + bs
    ensures Extra(n, bs) == n - blocks * bs
  {
    SplitBytes(n, bs);
    OffsetMonotonic(Blocks(n, bs), blocks, bs);
    OffsetMonotonic(blocks, Blocks(n, bs), bs);
    assert Offset(blocks, bs) == blocks * bs;
    hide *;
  }

  lemma FollowedIs(master: seq<byte>, image: seq<byte>, bs: nat, blocks: nat, v: BlockNumber)
    requires bs > 0 && blocks * bs <= |master| && Extra(|master|, bs) == |master| - blocks * bs
    ensures TailMatches(master, image, bs, v) <==> FollowedBy(image, (v + 1) * bs, master[blocks * bs..])
    ensures Offset(v + 1, bs) == (v + 1) * bs
  {
    assert Offset(v + 1, bs) == (v + 1) * bs;
    hide Offset, Extra;
  }

  /** The image has these bytes at an offset. */
  predicate FollowedBy(image: seq<byte>, at: int, bytes: seq<byte>) {
    0 <= at && at + |bytes| <= |image| && image[at..at + |bytes|] == bytes
  }

  // ---------------------------------------------------------------- soundness

  /** A run names equal bytes of master and image. */
  ghost predicate RunMatches(r: Run, master: seq<byte>, image: seq<byte>) {
    && r.fileOffset + r.len <= |master| && r.imgOffset + r.len <= |image|
    && master[r.fileOffset..r.fileOffset + r.len] == image[r.imgOffset..r.imgOffset + r.len]
  }

  /** Block `i` of the master and block `v` of the image hold the same bytes. */
  ghost predicate SameBlock(master: seq<byte>, i: nat, image: seq<byte>, v: nat, bs: nat) {
    RunMatches(Run(Offset(i, bs), Offset(v, bs), bs), master, image)
  }

  /** Every location of the filemap holds the bytes of its master block. */
  ghost predicate LocationsMatch(m: seq<Blocklist>, master: seq<byte>, image: seq<byte>, bs: nat) {
    forall i: nat, k | i < |m| && 0 <= k < |m[i]| :: SameBlock(master, i, image, m[i][k], bs)
  }

  lemma RunsJoin(master: seq<byte>, image: seq<byte>, f: nat, g: nat, len: nat, len': nat)
    requires RunMatches(Run(f, g, len), master, image) && RunMatches(Run(f + len, g + len, len'), master, image)
    ensures RunMatches(Run(f, g, len + len'), master, image)
  {
    assert master[f..f + (len + len')] == master[f..f + len] + master[f + len..f + len + len'];
    assert image[g..g + (len + len')] == image[g..g + len] + image[g + len..g + len + len'];
  }

  /** A longer run matches when each of its blocks does. */
  lemma {:induction false} BlocksMakeRun(m: seq<Blocklist>, master: seq<byte>, image: seq<byte>, bs: nat, i: nat,
                                         v: nat, len: nat)
    requires i < |m| && Contains(m[i], v) && Continues(m, i, v, len) && LocationsMatch(m, master, image, bs)
    ensures RunMatches(Run(Offset(i, bs), Offset(v, bs), Offset(len, bs)), master, image)
  {
    hide RunMatches, Offset;
    var j := i + len - 1;
    assert Contains(m[j], v + (j - i));
    var k :| 0 <= k < |m[j]| && m[j][k] == v + (j - i);
    assert SameBlock(master, j, image, m[j][k], bs);
    OffsetAdd(i, len - 1, bs);
    OffsetAdd(v, len - 1, bs);
    OffsetAdd(len - 1, 1, bs);
    OffsetUnit(bs);
    if len > 1 {
      BlocksMakeRun(m, master, image, bs, i, v, len - 1);
      RunsJoin(master, image, Offset(i, bs), Offset(v, bs), Offset(len - 1, bs), bs);
    }
  }

  lemma RowRunsMatch(m: seq<Blocklist>, r: Row, master: seq<byte>, image: seq<byte>, bs: nat)
    requires IsRow(m, r) && LocationsMatch(m, master, image, bs)
    ensures forall k | 0 <= k < |RowRuns(m, r, bs)| :: RunMatches(RowRuns(m, r, bs)[k], master, image)
  {
    hide Offset, RunMatches;
    if r.count > 1 {
      BlocksMakeRun(m, master, image, bs, r.first, r.imageBlock, r.count);
    } else {
      forall k | 0 <= k < |m[r.first]| ensures RunMatches(RowRuns(m, r, bs)[k], master, image) {
        assert SameBlock(master, r.first, image, m[r.first][k], bs);
      }
    }
  }

  /** Every emitted run of a row names equal bytes of master and image. */
  lemma {:induction false} RunsMatch(m: seq<Blocklist>, rows: seq<Row>, master: seq<byte>, image: seq<byte>, bs: nat)
    requires AllRows(m, rows) && LocationsMatch(m, master, image, bs)
    ensures forall k | 0 <= k < |RunsOf(m, rows, bs)| :: RunMatches(RunsOf(m, rows, bs)[k], master, image)
  {
    if |rows| > 0 {
      hide RunMatches, RowRuns, LocationsMatch, IsRow;
      RunsMatch(m, rows[..|rows| - 1], master, image, bs);
      RowRunsMatch(m, rows[|rows| - 1], master, image, bs);
    }
  }

  /** The run of the partial last block needs no digest: its bytes were compared. */
  lemma TailMatchesBytes(m: seq<Blocklist>, master: seq<byte>, image: seq<byte>, bs: nat, tail: seq<Run>)
    requires FullMap(m, master, bs) && IsTail(m, master, image, bs, tail)
    ensures forall k | 0 <= k < |tail| :: RunMatches(tail[k], master, image)
  {
    hide Offset, Blocks, Extra;
    SplitBytes(|master|, bs);
  }

  // ---------------------------------------------------------------- coverage

  ghost predicate Covers(r: Run, x: int) {
    r.fileOffset <= x < r.fileOffset + r.len
  }

  ghost predicate Covered(runs: seq<Run>, x: int) {
    exists k :: 0 <= k < |runs| && Covers(runs[k], x)
  }

  lemma CoveredAppend(a: seq<Run>, b: seq<Run>, x: int)
    ensures Covered(a + b, x) <==> Covered(a, x) || Covered(b, x)
  {
    if Covered(a, x) {
      var k :| 0 <= k < |a| && Covers(a[k], x);
      assert (a + b)[k] == a[k];
    }
    if Covered(b, x) {
      var k :| 0 <= k < |b| && Covers(b[k], x);
      assert (a + b)[|a| + k] == b[k];
    }
  }

  lemma RowRunsCover(m: seq<Blocklist>, r: Row, bs: nat, x: nat)
    requires bs > 0 && IsRow(m, r)
    ensures Covered(RowRuns(m, r, bs), x) <==> r.first <= Blocks(x, bs) < r.End()
  {
    hide Offset, Blocks;
    BlockHolds(x, bs, r.first);
    BlockHolds(x, bs, r.End());
    OffsetAdd(r.first, r.count, bs);
    OffsetUnit(bs);
    var runs := RowRuns(m, r, bs);
    assert |runs| > 0;
    assert forall k | 0 <= k < |runs| :: Covers(runs[k], x) <==> Offset(r.first, bs) <= x < Offset(r.End(), bs);
    if Offset(r.first, bs) <= x < Offset(r.End(), bs) { assert Covers(runs[0], x); }
  }

  lemma {:induction false} RunsCoverRows(m: seq<Blocklist>, rows: seq<Row>, bs: nat, x: nat)
    requires bs > 0 && AllRows(m, rows)
    ensures Covered(RunsOf(m, rows, bs), x) <==> InRows(rows, Blocks(x, bs))
  {
    if |rows| > 0 {
      var init, last := rows[..|rows| - 1], rows[|rows| - 1];
      assert rows == init + [last];
      assert RunsOf(m, rows, bs) == RunsOf(m, init, bs) + RowRuns(m, last, bs);
      RunsCoverRows(m, init, bs, x);
      RowRunsCover(m, last, bs, x);
      hide *;
      CoveredAppend(RunsOf(m, init, bs), RowRuns(m, last, bs), x);
      InRowsAppend(init, last, Blocks(x, bs));
    }
  }

  lemma TailCovers(m: seq<Blocklist>, master: seq<byte>, image: seq<byte>, bs: nat, tail: seq<Run>, x: nat)
    requires FullMap(m, master, bs) && x < |master|
    requires IsTail(m, master, image, bs, tail)
    ensures Offset(|m|, bs) == |master| - Extra(|master|, bs)
    ensures Covered(tail, x) <==> |tail| > 0 && Offset(|m|, bs) <= x
  {
    hide Offset, Blocks, Extra, TailMatches;
    SplitBytes(|master|, bs);
    if |tail| > 0 { assert Covered(tail, x) <==> Covers(tail[0], x); }
  }

  /** A byte of the master is covered exactly when its block was found, or it lies in a found partial last block. */
  lemma CoveredExactly(m: seq<Blocklist>, rows: seq<Row>, master: seq<byte>, image: seq<byte>, bs: nat, tail: seq<Run>,
                       x: nat)
    requires FullMap(m, master, bs) && x < |master|
    requires Describes(m, rows, 0, |m|) && IsTail(m, master, image, bs, tail)
    ensures Covered(RunsOf(m, rows, bs) + tail, x)
       <==> if Blocks(x, bs) < |m| then |m[Blocks(x, bs)]| > 0 else |tail| > 0
  {
    hide Covered, InRows, IsRow, RunsOf, IsTail, Offset, Blocks, Extra;
    CoveredAppend(RunsOf(m, rows, bs), tail, x);
    RunsCoverRows(m, rows, bs, x);
    TailCovers(m, master, image, bs, tail, x);
    BlockHolds(x, bs, |m|);
    if Blocks(x, bs) < |m| {
      RowsCoverFound(m, rows, 0, |m|);
    } else if InRows(rows, Blocks(x, bs)) {
      RowsWithin(m, rows, Blocks(x, bs));
    }
  }

  lemma RowsWithin(m: seq<Blocklist>, rows: seq<Row>, b: int)
    requires Describes(m, rows, 0, |m|) && InRows(rows, b)
    ensures b < |m|
  {
  }

  ghost predicate AllCovered(runs: seq<Run>, n: nat) {
    forall x | 0 <= x < n :: Covered(runs, x)
  }

  ghost predicate AllFound(m: seq<Blocklist>, hi: int)
    requires 0 <= hi <= |m|
  {
    forall b | 0 <= b < hi :: |m[b]| > 0
  }

  lemma CoveredMeansFound(m: seq<Blocklist>, rows: seq<Row>, master: seq<byte>, image: seq<byte>, bs: nat,
                          tail: seq<Run>)
    requires FullMap(m, master, bs) && Describes(m, rows, 0, |m|) && IsTail(m, master, image, bs, tail)
    requires AllCovered(RunsOf(m, rows, bs) + tail, |master|)
    ensures AllFound(m, |m|) && (Extra(|master|, bs) == 0 || |tail| > 0)
  {
    hide Covered, InRows, IsRow, RunsOf, IsTail, Offset, Blocks, Extra;
    forall b | 0 <= b < |m| ensures |m[b]| > 0 {
      FirstByte(master, b, bs);
      CoveredExactly(m, rows, master, image, bs, tail, Offset(b, bs));
    }
    if Extra(|master|, bs) != 0 {
      FirstByte(master, |m|, bs);
      CoveredExactly(m, rows, master, image, bs, tail, Offset(|m|, bs));
    }
  }

  lemma FoundMeansCovered(m: seq<Blocklist>, rows: seq<Row>, master: seq<byte>, image: seq<byte>, bs: nat,
                          tail: seq<Run>)
    requires FullMap(m, master, bs) && Describes(m, rows, 0, |m|) && IsTail(m, master, image, bs, tail)
    requires AllFound(m, |m|) && (Extra(|master|, bs) == 0 || |tail| > 0)
    ensures AllCovered(RunsOf(m, rows, bs) + tail, |master|)
  {
    hide Covered, InRows, IsRow, RunsOf, IsTail, Offset, Blocks, Extra;
    forall x | 0 <= x < |master| ensures Covered(RunsOf(m, rows, bs) + tail, x) {
      if Extra(|master|, bs) == 0 { LastBlock(master, x, bs); }
      CoveredExactly(m, rows, master, image, bs, tail, x);
    }
  }

  /** The emitted runs cover the whole master exactly when every full block was found and, if there is a
      partial last block, it was found too. */
  lemma WholeMasterCovered(m: seq<Blocklist>, rows: seq<Row>, master: seq<byte>, image: seq<byte>, bs: nat,
                           tail: seq<Run>)
    requires FullMap(m, master, bs) && Describes(m, rows, 0, |m|) && IsTail(m, master, image, bs, tail)
    ensures AllCovered(RunsOf(m, rows, bs) + tail, |master|)
       <==> AllFound(m, |m|) && (Extra(|master|, bs) == 0 || |tail| > 0)
  {
    hide AllCovered, AllFound, Extra, IsTail, RunsOf;
    if AllCovered(RunsOf(m, rows, bs) + tail, |master|) {
      CoveredMeansFound(m, rows, master, image, bs, tail);
    }
    if AllFound(m, |m|) && (Extra(|master|, bs) == 0 || |tail| > 0) {
      FoundMeansCovered(m, rows, master, image, bs, tail);
    }
  }

  lemma FirstByte(master: seq<byte>, b: nat, bs: nat)
    requires bs > 0 && (b < Blocks(|master|, bs) || (b == Blocks(|master|, bs) && Extra(|master|, bs) != 0))
    ensures Offset(b, bs) < |master| && Blocks(Offset(b, bs), bs) == b
  {
    hide Offset, Blocks, Extra;
    OffsetIsWhole(b, bs);
    SplitBytes(|master|, bs);
    OffsetMonotonic(b, Blocks(|master|, bs), bs);
  }

  lemma LastBlock(master: seq<byte>, x: nat, bs: nat)
    requires bs > 0 && x < |master| && Extra(|master|, bs) == 0
    ensures Blocks(x, bs) < Blocks(|master|, bs)
  {
    hide Offset, Blocks, Extra;
    SplitBytes(|master|, bs);
    BlockHolds(x, bs, Blocks(|master|, bs));
  }

  // ---------------------------------------------------------------- reassembly

  /** The runs, in the order they are emitted, follow one another without gap or overlap from 0 to `hi`. */
  ghost predicate Tiles(runs: seq<Run>, hi: int) {
    if |runs| == 0 then hi == 0
    else
      var last := runs[|runs| - 1];
      last.fileOffset + last.len == hi && Tiles(runs[..|runs| - 1], last.fileOffset)
  }

  ghost predicate InImage(runs: seq<Run>, image: seq<byte>) {
    forall k | 0 <= k < |runs| :: runs[k].imgOffset + runs[k].len <= |image|
  }

  ghost predicate AllMatch(runs: seq<Run>, master: seq<byte>, image: seq<byte>) {
    forall k | 0 <= k < |runs| :: RunMatches(runs[k], master, image)
  }

  /** The image bytes of the runs, one run after the other. */
  ghost function Reassembled(runs: seq<Run>, image: seq<byte>): seq<byte>
    requires InImage(runs, image)
  {
    if |runs| == 0 then []
    else
      var last := runs[|runs| - 1];
      Reassembled(runs[..|runs| - 1], image) + image[last.imgOffset..last.imgOffset + last.len]
  }

  /** Runs that tile a master and match it reassemble it from the image. */
  lemma {:induction false} TilesReassemble(runs: seq<Run>, master: seq<byte>, image: seq<byte>, hi: int)
    requires Tiles(runs, hi) && AllMatch(runs, master, image)
    ensures InImage(runs, image) && 0 <= hi <= |master| && Reassembled(runs, image) == master[..hi]
  {
    if |runs| > 0 {
      var init, last := runs[..|runs| - 1], runs[|runs| - 1];
      assert RunMatches(last, master, image) && last.fileOffset + last.len == hi;
      assert Tiles(init, last.fileOffset) && AllMatch(init, master, image);
      hide *;
      TilesReassemble(init, master, image, last.fileOffset);
      OneMoreTile(init, last, master, image);
      LastIsSplit(runs);
    }
  }

  lemma LastIsSplit(runs: seq<Run>)
    requires |runs| > 0
    ensures runs == runs[..|runs| - 1] + [runs[|runs| - 1]]
  {
  }

  lemma OneMoreTile(init: seq<Run>, last: Run, master: seq<byte>, image: seq<byte>)
    requires InImage(init, image) && RunMatches(last, master, image)
    requires Reassembled(init, image) == master[..last.fileOffset]
    ensures InImage(init + [last], image)
    ensures Reassembled(init + [last], image) == master[..last.fileOffset + last.len]
  {
    LastRunFits(init, last, image);
    PrefixGrows(master, last.fileOffset, last.fileOffset + last.len);
    hide InImage, Reassembled;
  }

  lemma PrefixGrows(s: seq<byte>, i: nat, j: nat)
    requires i <= j <= |s|
    ensures s[..i] + s[i..j] == s[..j]
  {
  }

  lemma LastRunFits(init: seq<Run>, last: Run, image: seq<byte>)
    requires InImage(init, image) && last.imgOffset + last.len <= |image|
    ensures InImage(init + [last], image)
    ensures Reassembled(init + [last], image)
         == Reassembled(init, image) + image[last.imgOffset..last.imgOffset + last.len]
  {
    var all := init + [last];
    assert all[..|init|] == init && all[|init|] == last;
    forall k | 0 <= k < |init| ensures all[k].imgOffset + all[k].len <= |image| {
      assert all[k] == init[k];
    }
  }

  /** No lone block of the report has more than one location. */
  ghost predicate Unambiguous(m: seq<Blocklist>, rows: seq<Row>)
    requires AllRows(m, rows)
  {
    forall i | 0 <= i < |rows| :: rows[i].count > 1 || |m[rows[i].first]| == 1
  }

  lemma TilesAppend(runs: seq<Run>, r: Run, hi: int)
    ensures Tiles(runs + [r], hi) <==> r.fileOffset + r.len == hi && Tiles(runs, r.fileOffset)
  {
    assert (runs + [r])[..|runs|] == runs;
  }

  /** Appending the runs of one row keeps a tiling exactly when the row has one run. */
  lemma TilesAppendRow(m: seq<Blocklist>, runs: seq<Run>, r: Row, bs: nat, hi: int)
    requires bs > 0 && IsRow(m, r)
    ensures Tiles(runs + RowRuns(m, r, bs), hi)
       <==> (r.count > 1 || |m[r.first]| == 1) && Offset(r.End(), bs) == hi && Tiles(runs, Offset(r.first, bs))
  {
    var added := RowRuns(m, r, bs);
    var last := added[|added| - 1];
    OffsetAdd(r.first, r.count, bs);
    OffsetUnit(bs);
    hide Offset;
    assert runs + added == (runs + added[..|added| - 1]) + [last];
    TilesAppend(runs + added[..|added| - 1], last, hi);
    if |added| == 1 {
      assert runs + added[..0] == runs;
    } else {
      var prev := added[|added| - 2];
      assert runs + added[..|added| - 1] == (runs + added[..|added| - 2]) + [prev];
      TilesAppend(runs + added[..|added| - 2], prev, Offset(r.first, bs));
    }
  }

  lemma DescribesInit(m: seq<Blocklist>, rows: seq<Row>, hi: int)
    requires Describes(m, rows, 0, hi) && |rows| > 0
    ensures Describes(m, rows[..|rows| - 1], 0, rows[|rows| - 1].first)
    ensures forall b | rows[|rows| - 1].End() <= b < hi :: |m[b]| == 0
    ensures forall b | rows[|rows| - 1].first <= b < rows[|rows| - 1].End() :: |m[b]| > 0
  {
    var init, last := rows[..|rows| - 1], rows[|rows| - 1];
    RowIsFound(m, last);
    assert rows == init + [last];
    hide IsRow;
    forall b | 0 <= b < last.first && |m[b]| > 0 ensures InRows(init, b) { InRowsAppend(init, last, b); }
    forall b | last.End() <= b < hi ensures |m[b]| == 0 {
      var covered := InRows(rows, b);
    }
  }

  /** The runs of the rows tile the full blocks exactly when all are found and none is ambiguous. */
  lemma {:induction false} RowsTile(m: seq<Blocklist>, rows: seq<Row>, bs: nat, hi: int)
    requires bs > 0 && Describes(m, rows, 0, hi)
    ensures Tiles(RunsOf(m, rows, bs), Offset(hi, bs)) <==> AllFound(m, hi) && Unambiguous(m, rows)
    decreases |rows|
  {
    OffsetUnit(bs);
    OffsetMonotonic(0, hi, bs);
    hide Offset;
    if |rows| == 0 {
      assert hi > 0 ==> !InRows(rows, 0);
    } else {
      var init, last := rows[..|rows| - 1], rows[|rows| - 1];
      DescribesInit(m, rows, hi);
      FoundSplits(m, rows, hi);
      hide Describes, IsRow, RowRuns, AllFound, Unambiguous, Tiles;
      RowsTile(m, init, bs, last.first);
      TilesAppendRow(m, RunsOf(m, init, bs), last, bs, Offset(hi, bs));
      OffsetMonotonic(last.End(), hi, bs);
    }
  }

  lemma FoundSplits(m: seq<Blocklist>, rows: seq<Row>, hi: int)
    requires Describes(m, rows, 0, hi) && |rows| > 0
    ensures
      var init, last := rows[..|rows| - 1], rows[|rows| - 1];
      AllRows(m, init) && (AllFound(m, hi) && Unambiguous(m, rows)
        <==> AllFound(m, last.first) && Unambiguous(m, init) && last.End() == hi
             && (last.count > 1 || |m[last.first]| == 1))
  {
    var init, last := rows[..|rows| - 1], rows[|rows| - 1];
    DescribesInit(m, rows, hi);
    assert rows == init + [last];
    assert AllFound(m, hi) <==> AllFound(m, last.first) && last.End() == hi;
    if Unambiguous(m, rows) {
      forall i | 0 <= i < |init| ensures init[i].count > 1 || |m[init[i].first]| == 1 { assert init[i] == rows[i]; }
    }
  }

  /** Runs of rows end at the end of a block. */
  lemma RowsEndAtBlock(m: seq<Blocklist>, rows: seq<Row>, bs: nat, hi: int)
    requires bs > 0 && AllRows(m, rows) && Tiles(RunsOf(m, rows, bs), hi)
    ensures hi == 0 || (|rows| > 0 && hi == Offset(rows[|rows| - 1].End(), bs))
  {
    hide Offset, RowRuns;
    if |rows| > 0 {
      TilesAppendRow(m, RunsOf(m, rows[..|rows| - 1], bs), rows[|rows| - 1], bs, hi);
    }
  }

  /** The emitted runs tile the master exactly when every full block was found, no lone block has several
      locations, and a partial last block, if there is one, was found. */
  lemma ReportTiles(m: seq<Blocklist>, rows: seq<Row>, master: seq<byte>, image: seq<byte>, bs: nat, tail: seq<Run>)
    requires FullMap(m, master, bs)
    requires Describes(m, rows, 0, |m|) && IsTail(m, master, image, bs, tail)
    ensures Tiles(RunsOf(m, rows, bs) + tail, |master|)
       <==> AllFound(m, |m|) && Unambiguous(m, rows) && (Extra(|master|, bs) == 0 || |tail| > 0)
  {
    var runs := RunsOf(m, rows, bs);
    var whole := Offset(|m|, bs);
    SplitBytes(|master|, bs);
    RowsTile(m, rows, bs, |m|);
    hide AllFound, Unambiguous, Tiles, RunsOf, Offset, Blocks, Extra;
    if |tail| > 0 {
      TilesAppend(runs, tail[0], |master|);
      assert tail == [tail[0]] && tail[0].fileOffset == whole && whole + tail[0].len == |master|;
    } else {
      assert runs + tail == runs;
      if Tiles(runs, |master|) && |master| > 0 {
        RowsEndAtBlock(m, rows, bs, |master|);
        OffsetIsWhole(rows[|rows| - 1].End(), bs);
      }
    }
  }

  /** Under the conditions of `ReportTiles` the report reassembles the master from the image. */
  lemma ReportReassembles(m: seq<Blocklist>, rows: seq<Row>, master: seq<byte>, image: seq<byte>, bs: nat,
                          tail: seq<Run>)
    requires FullMap(m, master, bs)
    requires Describes(m, rows, 0, |m|) && IsTail(m, master, image, bs, tail) && LocationsMatch(m, master, image, bs)
    requires AllFound(m, |m|) && Unambiguous(m, rows) && (Extra(|master|, bs) == 0 || |tail| > 0)
    ensures
      var runs := RunsOf(m, rows, bs) + tail;
      AllMatch(runs, master, image) && InImage(runs, image) && Reassembled(runs, image) == master
  {
    RunsMatch(m, rows, master, image, bs);
    TailMatchesBytes(m, master, image, bs, tail);
    ReportTiles(m, rows, master, image, bs, tail);
    TilesReassemble(RunsOf(m, rows, bs) + tail, master, image, |master|);
    assert master[..|master|] == master;
  }
}
