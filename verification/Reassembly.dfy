/** When the runs of a report, joined in order, are the master: exactly which reports put a file together again. */
module Reassembly {
  import opened Bits
  import opened Filemaps
  import opened Offsets
  import opened Reports
  import opened ScanSpec

  // ---------------------------------------------------------------- a file as its blocks

  ghost function Joined(parts: seq<seq<byte>>): seq<byte> {
    if |parts| == 0 then [] else Joined(parts[..|parts| - 1]) + parts[|parts| - 1]
  }

  ghost predicate AllOfSize(parts: seq<seq<byte>>, bs: nat) {
    forall i | 0 <= i < |parts| :: |parts[i]| == bs
  }

  lemma {:induction false} JoinedMore(a: seq<seq<byte>>, b: seq<seq<byte>>)
    ensures Joined(a + b) == Joined(a) + Joined(b)
  {
    if |b| == 0 {
      assert a + b == a;
    } else {
      var ab := a + b;
      assert ab[..|ab| - 1] == a + b[..|b| - 1];
      assert ab[|ab| - 1] == b[|b| - 1];
      JoinedMore(a, b[..|b| - 1]);
    }
  }

  lemma {:induction false} JoinedLength(parts: seq<seq<byte>>, bs: nat)
    requires AllOfSize(parts, bs)
    ensures |Joined(parts)| == Offset(|parts|, bs)
  {
    OffsetUnit(bs);
    hide Offset;
    if |parts| > 0 {
      JoinedLength(parts[..|parts| - 1], bs);
      OffsetAdd(|parts| - 1, 1, bs);
    }
  }

  /** Parts of one size can be told apart in what they make up. */
  lemma {:induction false} JoinedUnique(a: seq<seq<byte>>, b: seq<seq<byte>>, bs: nat)
    requires AllOfSize(a, bs) && AllOfSize(b, bs) && |a| == |b| && Joined(a) == Joined(b)
    ensures a == b
  {
    if |a| > 0 {
      var a', b' := a[..|a| - 1], b[..|b| - 1];
      var n := |Joined(a)|;
      assert Joined(a)[n - bs..] == a[|a| - 1] && Joined(b)[n - bs..] == b[|b| - 1];
      assert Joined(a)[..n - bs] == Joined(a') && Joined(b)[..n - bs] == Joined(b');
      JoinedUnique(a', b', bs);
      assert a == a' + [a[|a| - 1]] && b == b' + [b[|b| - 1]];
    }
  }

  /** `count` blocks of a file from block `first` on. */
  ghost function BlocksFrom(data: seq<byte>, first: nat, count: nat, bs: nat): (parts: seq<seq<byte>>)
    requires bs > 0 && first + count <= Blocks(|data|, bs)
    ensures |parts| == count && forall i | 0 <= i < count :: parts[i] == Block(data, first + i, bs)
  {
    seq(count, i requires 0 <= i < count => Block(data, first + i, bs))
  }

  lemma BlocksHaveSize(data: seq<byte>, first: nat, count: nat, bs: nat)
    requires bs > 0 && first + count <= Blocks(|data|, bs)
    ensures AllOfSize(BlocksFrom(data, first, count, bs), bs)
  {
    hide Blocks, Offset;
    var parts := BlocksFrom(data, first, count, bs);
    forall i | 0 <= i < count ensures |parts[i]| == bs {
      BlockInData(data, first + i, bs);
    }
  }

  lemma EndInData(data: seq<byte>, b: nat, bs: nat)
    requires bs > 0 && b <= Blocks(|data|, bs)
    ensures Offset(b, bs) <= |data|
  {
    hide Blocks, Offset;
    BlockHolds(|data|, bs, b);
  }

  lemma {:induction false} JoinedBlocks(data: seq<byte>, first: nat, count: nat, bs: nat)
    requires bs > 0 && first + count <= Blocks(|data|, bs)
    ensures Offset(first, bs) <= Offset(first + count, bs) <= |data|
    ensures Joined(BlocksFrom(data, first, count, bs)) == data[Offset(first, bs)..Offset(first + count, bs)]
    decreases count
  {
    OffsetUnit(bs);
    hide Blocks, Offset;
    EndInData(data, first + count, bs);
    OffsetAdd(first, count, bs);
    if count > 0 {
      JoinedBlocks(data, first, count - 1, bs);
      OffsetAdd(first + count - 1, 1, bs);
      OffsetAdd(first, count - 1, bs);
      var s, m, e := Offset(first, bs), Offset(first + count - 1, bs), Offset(first + count, bs);
      var parts := BlocksFrom(data, first, count, bs);
      assert parts[..count - 1] == BlocksFrom(data, first, count - 1, bs);
      assert parts[count - 1] == Block(data, first + count - 1, bs) == data[m..e];
      assert data[s..e] == data[s..m] + data[m..e];
    }
  }

  // ---------------------------------------------------------------- the blocks that a report emits

  /** The master blocks that the runs of one row hold: a lone block once for each location. */
  ghost function RowPieces(m: seq<Blocklist>, r: Row, master: seq<byte>, bs: nat): seq<seq<byte>>
    requires bs > 0 && IsRow(m, r) && |m| == Blocks(|master|, bs)
  {
    RowIsWithin(m, r);
    if r.count > 1 then BlocksFrom(master, r.first, r.count, bs)
    else seq(|m[r.first]|, _ => Block(master, r.first, bs))
  }

  ghost function Pieces(m: seq<Blocklist>, rows: seq<Row>, master: seq<byte>, bs: nat): seq<seq<byte>>
    requires bs > 0 && AllRows(m, rows) && |m| == Blocks(|master|, bs)
  {
    if |rows| == 0 then []
    else Pieces(m, rows[..|rows| - 1], master, bs) + RowPieces(m, rows[|rows| - 1], master, bs)
  }

  /** A part is a master block that was found. */
  ghost predicate IsFoundBlock(m: seq<Blocklist>, part: seq<byte>, master: seq<byte>, bs: nat)
    requires bs > 0 && |m| == Blocks(|master|, bs)
  {
    exists i: nat :: i < |m| && |m[i]| > 0 && part == Block(master, i, bs)
  }

  lemma RowPiecesAreFound(m: seq<Blocklist>, r: Row, master: seq<byte>, bs: nat)
    requires bs > 0 && IsRow(m, r) && |m| == Blocks(|master|, bs)
    ensures
      var parts := RowPieces(m, r, master, bs);
      && |parts| >= r.count && (|parts| == r.count <==> r.count > 1 || |m[r.first]| == 1)
      && AllOfSize(parts, bs) && forall part | part in parts :: IsFoundBlock(m, part, master, bs)
  {
    hide Blocks, Offset;
    var parts := RowPieces(m, r, master, bs);
    RowIsWithin(m, r);
    RowIsFound(m, r);
    BlocksHaveSize(master, r.first, r.count, bs);
    BlockInData(master, r.first, bs);
    forall k | 0 <= k < |parts| ensures IsFoundBlock(m, parts[k], master, bs) {
      var i: nat := if r.count > 1 then r.first + k else r.first;
      assert parts[k] == Block(master, i, bs);
    }
  }

  lemma {:induction false} CountOfInit(rows: seq<Row>)
    requires |rows| > 0
    ensures TotalCount(rows) == TotalCount(rows[..|rows| - 1]) + rows[|rows| - 1].count
  {
    if |rows| > 1 {
      CountOfInit(rows[1..]);
      assert rows[1..][..|rows| - 2] == rows[..|rows| - 1][1..];
    }
  }

  /** The rows emit at least as many blocks as they count, and just as many if no lone block is ambiguous. */
  lemma {:induction false} PiecesAreFound(m: seq<Blocklist>, rows: seq<Row>, master: seq<byte>, bs: nat)
    requires bs > 0 && AllRows(m, rows) && |m| == Blocks(|master|, bs)
    ensures
      var parts := Pieces(m, rows, master, bs);
      && |parts| >= TotalCount(rows) && (|parts| == TotalCount(rows) <==> Unambiguous(m, rows))
      && AllOfSize(parts, bs) && forall part | part in parts :: IsFoundBlock(m, part, master, bs)
  {
    if |rows| > 0 {
      var init, last := rows[..|rows| - 1], rows[|rows| - 1];
      PiecesAreFound(m, init, master, bs);
      RowPiecesAreFound(m, last, master, bs);
      CountOfInit(rows);
      UnambiguousInit(m, rows);
      hide Unambiguous, IsFoundBlock, RowPieces, Blocks, IsRow, TotalCount;
    }
  }

  lemma UnambiguousInit(m: seq<Blocklist>, rows: seq<Row>)
    requires AllRows(m, rows) && |rows| > 0
    ensures
      var init, last := rows[..|rows| - 1], rows[|rows| - 1];
      && AllRows(m, init) && IsRow(m, last)
      && (Unambiguous(m, rows) <==> Unambiguous(m, init) && (last.count > 1 || |m[last.first]| == 1))
  {
    hide IsRow;
    var init, last := rows[..|rows| - 1], rows[|rows| - 1];
    assert rows == init + [last];
    assert IsRow(m, rows[|rows| - 1]);
    RowUnique(m, last, last);
    forall i | 0 <= i < |init| ensures IsRow(m, init[i]) && init[i] == rows[i] {
      assert IsRow(m, rows[i]);
      RowUnique(m, rows[i], rows[i]);
    }
  }

  // ---------------------------------------------------------------- the bytes that a report gives

  lemma InImageParts(a: seq<Run>, b: seq<Run>, image: seq<byte>)
    requires InImage(a, image) && InImage(b, image)
    ensures InImage(a + b, image)
  {
  }

  lemma LastInImage(runs: seq<Run>, image: seq<byte>)
    requires InImage(runs, image) && |runs| > 0
    ensures InImage(runs[..|runs| - 1], image)
    ensures runs[|runs| - 1].imgOffset + runs[|runs| - 1].len <= |image|
  {
  }

  lemma {:induction false} ReassembledMore(a: seq<Run>, b: seq<Run>, image: seq<byte>)
    requires InImage(a, image) && InImage(b, image)
    ensures InImage(a + b, image) && Reassembled(a + b, image) == Reassembled(a, image) + Reassembled(b, image)
  {
    hide InImage;
    InImageParts(a, b, image);
    if |b| == 0 {
      assert a + b == a;
    } else {
      LastInImage(b, image);
      var init, last := b[..|b| - 1], b[|b| - 1];
      ReassembledMore(a, init, image);
      hide Reassembled;
      LastRunFits(init, last, image);
      LastRunFits(a + init, last, image);
      assert b == init + [last];
      Associative(a, init, [last]);
      Associative(Reassembled(a, image), Reassembled(init, image), Reassembled(b, image)[|Reassembled(init, image)|..]);
    }
  }

  lemma Associative<T>(a: seq<T>, b: seq<T>, c: seq<T>)
    ensures a + (b + c) == a + b + c
  {
  }

  lemma ReassembledOne(r: Run, image: seq<byte>)
    requires r.imgOffset + r.len <= |image|
    ensures InImage([r], image) && Reassembled([r], image) == image[r.imgOffset..r.imgOffset + r.len]
  {
    var runs := [r];
    assert InImage(runs, image);
    hide InImage;
    LastInImage(runs, image);
    assert runs[..|runs| - 1] == [];
    NoRunsNoBytes(image);
  }

  lemma NoRunsNoBytes(image: seq<byte>)
    ensures InImage([], image) && Reassembled([], image) == []
  {
  }

  /** Runs that all hold the same block give as many copies of it. */
  lemma {:induction false} CopiesAreJoined(runs: seq<Run>, part: seq<byte>, image: seq<byte>)
    requires InImage(runs, image)
    requires forall k | 0 <= k < |runs| :: image[runs[k].imgOffset..runs[k].imgOffset + runs[k].len] == part
    ensures Reassembled(runs, image) == Joined(seq(|runs|, _ => part))
  {
    if |runs| > 0 {
      CopiesAreJoined(runs[..|runs| - 1], part, image);
      assert seq(|runs|, _ => part)[..|runs| - 1] == seq(|runs| - 1, _ => part);
    }
  }

  lemma RowGivesPieces(m: seq<Blocklist>, r: Row, master: seq<byte>, image: seq<byte>, bs: nat)
    requires bs > 0 && IsRow(m, r) && |m| == Blocks(|master|, bs) && AllMatch(RowRuns(m, r, bs), master, image)
    ensures InImage(RowRuns(m, r, bs), image)
    ensures Reassembled(RowRuns(m, r, bs), image) == Joined(RowPieces(m, r, master, bs))
  {
    hide Blocks, Offset, IsRow;
    RowIsWithin(m, r);
    RowUnique(m, r, r);
    var runs := RowRuns(m, r, bs);
    if r.count > 1 {
      assert RunMatches(runs[0], master, image);
      ReassembledOne(runs[0], image);
      JoinedBlocks(master, r.first, r.count, bs);
      OffsetAdd(r.first, r.count, bs);
    } else {
      var part := Block(master, r.first, bs);
      forall k | 0 <= k < |runs| ensures image[runs[k].imgOffset..runs[k].imgOffset + runs[k].len] == part {
        assert RunMatches(runs[k], master, image);
      }
      CopiesAreJoined(runs, part, image);
    }
  }

  lemma {:induction false} RowsGivePieces(m: seq<Blocklist>, rows: seq<Row>, master: seq<byte>, image: seq<byte>,
                                          bs: nat)
    requires bs > 0 && AllRows(m, rows) && |m| == Blocks(|master|, bs) && AllMatch(RunsOf(m, rows, bs), master, image)
    ensures InImage(RunsOf(m, rows, bs), image)
    ensures Reassembled(RunsOf(m, rows, bs), image) == Joined(Pieces(m, rows, master, bs))
  {
    if |rows| > 0 {
      hide Blocks, Offset, IsRow, RowPieces, RowRuns, RunMatches;
      var init, last := rows[..|rows| - 1], rows[|rows| - 1];
      MatchesSplit(RunsOf(m, init, bs), RowRuns(m, last, bs), master, image);
      RowsGivePieces(m, init, master, image, bs);
      RowGivesPieces(m, last, master, image, bs);
      ReassembledMore(RunsOf(m, init, bs), RowRuns(m, last, bs), image);
      JoinedMore(Pieces(m, init, master, bs), RowPieces(m, last, master, bs));
    }
  }

  lemma MatchesSplit(a: seq<Run>, b: seq<Run>, master: seq<byte>, image: seq<byte>)
    requires AllMatch(a + b, master, image)
    ensures AllMatch(a, master, image) && AllMatch(b, master, image)
  {
    hide RunMatches;
    forall k | 0 <= k < |a| ensures RunMatches(a[k], master, image) { assert (a + b)[k] == a[k]; }
    forall k | 0 <= k < |b| ensures RunMatches(b[k], master, image) { assert (a + b)[|a| + k] == b[k]; }
  }

  // ---------------------------------------------------------------- complete reports

  /** Master blocks with the same bytes are found together. */
  ghost predicate EqualFoundTogether(m: seq<Blocklist>, master: seq<byte>, bs: nat)
    requires bs > 0 && |m| == Blocks(|master|, bs)
  {
    forall i: nat, j: nat | i < |m| && j < |m| && Block(master, i, bs) == Block(master, j, bs) ::
      |m[i]| > 0 <==> |m[j]| > 0
  }

  /** When a report is complete: all blocks and the tail were found, and no lone block is ambiguous. */
  ghost predicate Complete(m: seq<Blocklist>, rows: seq<Row>, master: seq<byte>, bs: nat, tail: seq<Run>)
    requires bs > 0 && AllRows(m, rows)
  {
    AllFound(m, |m|) && Unambiguous(m, rows) && (Extra(|master|, bs) == 0 || |tail| > 0)
  }

  lemma TailBytes(m: seq<Blocklist>, master: seq<byte>, image: seq<byte>, bs: nat, tail: seq<Run>)
    requires FullMap(m, master, bs) && IsTail(m, master, image, bs, tail)
    ensures InImage(tail, image)
    ensures |Reassembled(tail, image)| == if |tail| > 0 then Extra(|master|, bs) else 0
    ensures |tail| > 0 ==> Extra(|master|, bs) > 0
  {
    hide Offset, Blocks, Extra;
    TailMatchesBytes(m, master, image, bs, tail);
    if |tail| > 0 {
      assert RunMatches(tail[0], master, image) && tail == [tail[0]];
      ReassembledOne(tail[0], image);
    }
  }

  /** The lengths alone fix the number of emitted blocks, and that the tail was found. */
  lemma LengthsDecide(n: nat, pieces: nat, tailLength: nat, extra: nat, bs: nat)
    requires extra < bs && (tailLength == 0 || tailLength == extra)
    requires Offset(pieces, bs) + tailLength == Offset(n, bs) + extra
    ensures pieces == n && tailLength == extra
  {
    hide Offset;
    if pieces < n {
      OffsetGrows(pieces, n, bs);
    } else if n < pieces {
      OffsetGrows(n, pieces, bs);
    }
  }

  /** If the parts of a report are the blocks of the master, every block of the master was found. */
  lemma PartsAreAllFound(m: seq<Blocklist>, parts: seq<seq<byte>>, master: seq<byte>, bs: nat)
    requires bs > 0 && |m| == Blocks(|master|, bs) && EqualFoundTogether(m, master, bs)
    requires parts == BlocksFrom(master, 0, |m|, bs) && forall part | part in parts :: IsFoundBlock(m, part, master, bs)
    ensures AllFound(m, |m|)
  {
    hide Blocks, Block;
    forall b: nat | b < |m| ensures |m[b]| > 0 {
      assert parts[b] in parts;
      assert parts[b] == Block(master, 0 + b, bs);
      var i: nat :| i < |m| && |m[i]| > 0 && parts[b] == Block(master, i, bs);
    }
  }

  lemma AllFoundCounts(m: seq<Blocklist>, rows: seq<Row>)
    requires Describes(m, rows, 0, |m|) && AllFound(m, |m|)
    ensures TotalCount(rows) == |m|
  {
    RowsCountFound(m, rows, 0, |m|);
    FoundInRun(m, 0, |m|);
  }

  /** A report that gives the master back is complete. */
  lemma OnlyCompleteReassembles(m: seq<Blocklist>, rows: seq<Row>, master: seq<byte>, image: seq<byte>, bs: nat,
                                tail: seq<Run>)
    requires FullMap(m, master, bs) && EqualFoundTogether(m, master, bs)
    requires Describes(m, rows, 0, |m|) && IsTail(m, master, image, bs, tail) && LocationsMatch(m, master, image, bs)
    requires InImage(RunsOf(m, rows, bs) + tail, image) && Reassembled(RunsOf(m, rows, bs) + tail, image) == master
    ensures Complete(m, rows, master, bs, tail)
  {
    var runs, parts := RunsOf(m, rows, bs), Pieces(m, rows, master, bs);
    RunsMatch(m, rows, master, image, bs);
    hide Offset, Blocks, Extra, Reassembled, InImage, IsTail, IsFoundBlock, Unambiguous, AllFound, EqualFoundTogether;
    RowsGivePieces(m, rows, master, image, bs);
    TailBytes(m, master, image, bs, tail);
    ReassembledMore(runs, tail, image);
    PiecesAreFound(m, rows, master, bs);
    JoinedLength(parts, bs);
    SplitBytes(|master|, bs);
    LengthsDecide(|m|, |parts|, |Reassembled(tail, image)|, Extra(|master|, bs), bs);
    WholeBlocks(master, bs);
    BlocksHaveSize(master, 0, |m|, bs);
    assert Joined(parts) == master[..Offset(|m|, bs)];
    JoinedUnique(parts, BlocksFrom(master, 0, |m|, bs), bs);
    PartsAreAllFound(m, parts, master, bs);
    AllFoundCounts(m, rows);
  }

  lemma WholeBlocks(master: seq<byte>, bs: nat)
    requires bs > 0
    ensures
      var n := Blocks(|master|, bs);
      Offset(n, bs) <= |master| && Joined(BlocksFrom(master, 0, n, bs)) == master[..Offset(n, bs)]
  {
    hide Blocks;
    JoinedBlocks(master, 0, Blocks(|master|, bs), bs);
    OffsetUnit(bs);
  }

  /** A report gives the master back exactly when it is complete. */
  lemma ReassemblesExactlyComplete(m: seq<Blocklist>, rows: seq<Row>, master: seq<byte>, image: seq<byte>, bs: nat,
                                   tail: seq<Run>)
    requires FullMap(m, master, bs) && EqualFoundTogether(m, master, bs)
    requires Describes(m, rows, 0, |m|) && IsTail(m, master, image, bs, tail) && LocationsMatch(m, master, image, bs)
    ensures
      var runs := RunsOf(m, rows, bs) + tail;
      InImage(runs, image) && (Reassembled(runs, image) == master <==> Complete(m, rows, master, bs, tail))
  {
    hide EqualFoundTogether, IsTail, Reassembled;
    RunsMatch(m, rows, master, image, bs);
    TailMatchesBytes(m, master, image, bs, tail);
    if Complete(m, rows, master, bs, tail) {
      ReportReassembles(m, rows, master, image, bs, tail);
    }
    if Reassembled(RunsOf(m, rows, bs) + tail, image) == master {
      OnlyCompleteReassembles(m, rows, master, image, bs, tail);
    }
  }

  // ---------------------------------------------------------------- the same on the filemap alone

  /** Cutting the filemap from block `tb` on, the program never comes to a lone block with several locations. */
  ghost predicate CutsCleanly(m: seq<Blocklist>, tb: nat)
    decreases |m| - tb
  {
    if tb >= |m| then true
    else if |m[tb]| == 0 then CutsCleanly(m, tb + 1)
    else
      var n := RunLength(m, tb, Front(m[tb]), 1);
      (n > 1 || |m[tb]| == 1) && CutsCleanly(m, tb + n)
  }

  lemma DescribesAfterEmpty(m: seq<Blocklist>, rows: seq<Row>, tb: nat)
    requires Describes(m, rows, tb, |m|) && tb < |m| && |m[tb]| == 0
    ensures Describes(m, rows, tb + 1, |m|)
  {
    hide IsRun;
    forall i | 0 <= i < |rows| ensures tb + 1 <= rows[i].first {
      assert IsRow(m, rows[i]);
    }
  }

  lemma DescribesFromFound(m: seq<Blocklist>, rows: seq<Row>, tb: nat)
    requires Describes(m, rows, tb, |m|) && tb < |m| && |m[tb]| > 0
    ensures |rows| > 0 && rows[0].first == tb && rows[0].count == RunLength(m, tb, Front(m[tb]), 1)
  {
    assert InRows(rows, tb);
    var i :| 0 <= i < |rows| && rows[i].first <= tb < rows[i].End();
    assert IsRow(m, rows[0]);
    RunIsUnique(m, tb, Front(m[tb]), rows[i].count, RunLength(m, tb, Front(m[tb]), 1));
  }

  lemma UnambiguousRest(m: seq<Blocklist>, rows: seq<Row>)
    requires AllRows(m, rows) && |rows| > 0
    ensures AllRows(m, rows[1..]) && IsRow(m, rows[0])
    ensures Unambiguous(m, rows) <==> (rows[0].count > 1 || |m[rows[0].first]| == 1) && Unambiguous(m, rows[1..])
  {
    hide IsRun;
    assert IsRow(m, rows[0]);
    forall i | 0 <= i < |rows[1..]| ensures IsRow(m, rows[1..][i]) && rows[1..][i] == rows[i + 1] {
      assert IsRow(m, rows[i + 1]);
    }
    if (rows[0].count > 1 || |m[rows[0].first]| == 1) && Unambiguous(m, rows[1..]) {
      forall i | 0 <= i < |rows| ensures rows[i].count > 1 || |m[rows[i].first]| == 1 {
        if i > 0 { assert rows[i] == rows[1..][i - 1]; }
      }
    }
  }

  lemma NoRowsAtEnd(m: seq<Blocklist>, rows: seq<Row>)
    requires Describes(m, rows, |m|, |m|)
    ensures rows == [] && Unambiguous(m, rows)
  {
    var row := |rows| > 0 && IsRow(m, rows[0]);
  }

  lemma InBounds(m: seq<Blocklist>, rows: seq<Row>, lo: int, hi: int)
    requires Describes(m, rows, lo, hi)
    ensures 0 <= lo <= hi <= |m| && AllRows(m, rows)
  {
  }

  /** The rows are unambiguous exactly when the filemap cuts cleanly. */
  lemma {:induction false} UnambiguousIsCleanCut(m: seq<Blocklist>, rows: seq<Row>, tb: nat)
    requires Describes(m, rows, tb, |m|)
    ensures AllRows(m, rows) && (Unambiguous(m, rows) <==> CutsCleanly(m, tb))
    decreases |m| - tb
  {
    hide Unambiguous, Describes, IsRow, AllRows, IsRun, Continues;
    InBounds(m, rows, tb, |m|);
    if tb == |m| {
      NoRowsAtEnd(m, rows);
    } else if |m[tb]| == 0 {
      DescribesAfterEmpty(m, rows, tb);
      UnambiguousIsCleanCut(m, rows, tb + 1);
    } else {
      DescribesFromFound(m, rows, tb);
      DescribesRest(m, rows, tb, |m|);
      UnambiguousRest(m, rows);
      RowIsWithin(m, rows[0]);
      UnambiguousIsCleanCut(m, rows[1..], rows[0].End());
    }
  }

  /** A block has one location, or the cleaning leaves it only one. */
  ghost predicate Settled(m: seq<Blocklist>, b: int)
    requires 0 <= b < |m|
  {
    |m[b]| <= 1 || AnchoredBelow(m, b) || AnchoredAbove(m, b)
  }

  lemma {:induction false} FewLocationsCutCleanly(m: seq<Blocklist>, tb: nat)
    requires forall b | 0 <= b < |m| :: |m[b]| <= 1
    ensures CutsCleanly(m, tb)
    decreases |m| - tb
  {
    if tb < |m| {
      if |m[tb]| == 0 {
        FewLocationsCutCleanly(m, tb + 1);
      } else {
        FewLocationsCutCleanly(m, tb + RunLength(m, tb, Front(m[tb]), 1));
      }
    }
  }

  /** A filemap in which every block is settled cuts cleanly after cleaning. */
  lemma SettledCutsCleanly(m: seq<Blocklist>)
    requires forall b | 0 <= b < |m| :: Settled(m, b)
    ensures CutsCleanly(Cleaned(m), 0)
  {
    forall b | 0 <= b < |m| ensures |Cleaned(m)[b]| <= 1 {
      assert Settled(m, b);
      SettledIsCleaned(m, b);
    }
    FewLocationsCutCleanly(Cleaned(m), 0);
  }

  lemma SettledIsCleaned(m: seq<Blocklist>, b: int)
    requires 0 <= b < |m| && Settled(m, b)
    ensures |Cleaned(m)[b]| <= 1
  {
  }
}
