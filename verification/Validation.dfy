/** The program's own check of its reports, for all inputs: the runs of the XML report, read back, and the master. */
module Validation {
  import opened Bits
  import opened Decimals
  import opened Dfxml
  import opened DfxmlLegible
  import opened DfxmlReader
  import opened DfxmlReport
  import opened DfxmlRoundTrip
  import opened Digests
  import opened FragFind
  import opened Masterfiles
  import opened Offsets
  import opened Options
  import opened Reports
  import opened Rfc1321
  import opened ScanSpec
  import opened Soundness
  import opened XmlText

  /** The hash of the program. */
  const MD5: Hasher := (data: seq<byte>) => Md5(data)

  ghost predicate Lies(r: ByteRun, image: seq<byte>) {
    0 <= r.imgOffset && 0 <= r.len && r.imgOffset + r.len <= |image|
  }

  /** The contents of a file object: the image bytes of its runs, one run after the other. */
  ghost function Contents(runs: seq<ByteRun>, image: seq<byte>): seq<byte>
    requires forall i | 0 <= i < |runs| :: Lies(runs[i], image)
  {
    if runs == [] then []
    else
      var last := runs[|runs| - 1];
      assert Lies(last, image);
      Contents(runs[..|runs| - 1], image) + image[last.imgOffset..last.imgOffset + last.len]
  }

  lemma {:induction false} ContentsAreReassembled(runs: seq<Run>, image: seq<byte>)
    requires InImage(runs, image)
    ensures forall i | 0 <= i < |runs| :: Lies(ByteRunsOf(runs)[i], image)
    ensures Contents(ByteRunsOf(runs), image) == Reassembled(runs, image)
  {
    if runs != [] {
      ContentsAreReassembled(runs[..|runs| - 1], image);
      assert ByteRunsOf(runs)[..|runs| - 1] == ByteRunsOf(runs[..|runs| - 1]);
    }
  }

  /** Runs in the files have numbers that fit. */
  lemma RunsFit(f: FileEntry, master: seq<byte>, image: seq<byte>)
    requires forall i | 0 <= i < |f.runs| :: LiesInFiles(f.runs[i], master, image)
    requires |master| < 0x8000_0000_0000_0000 && |image| < 0x8000_0000_0000_0000
    ensures Readable(f)
  {
    forall i | 0 <= i < |f.runs| ensures Fits64(f.runs[i]) {
      assert LiesInFiles(f.runs[i], master, image);
    }
  }

  // ---------------------------------------------------------------- one master

  /** The check of the test: the digest of the contents and that of the master are the reported one. */
  ghost predicate Passes(o: FileObject, master: seq<byte>, image: seq<byte>)
    requires forall i | 0 <= i < |o.byteRuns| :: Lies(o.byteRuns[i], image)
  {
    "md5" in o.hashdigest && Md5(Contents(o.byteRuns, image)) == FromHexOf(o.hashdigest["md5"]) == Md5(master)
  }

  /** The object has the master as its contents exactly if it is recoverable. Then it passes; otherwise it passes only
      if the wrong contents have the digest of the master. */
  ghost predicate Validates(o: FileObject, master: seq<byte>, image: seq<byte>, bs: nat, start: nat, end: nat)
    requires bs > 0 && Scannable(BlockDigests(MD5, image, bs), start, end)
  {
    && (forall i | 0 <= i < |o.byteRuns| :: Lies(o.byteRuns[i], image))
    && (Contents(o.byteRuns, image) == master <==> Recoverable(MD5, master, image, bs, start, end))
    && (Passes(o, master, image) <==> Md5(Contents(o.byteRuns, image)) == Md5(master))
  }

  /** What is read back for a reported master is validated by image and master alone. */
  lemma ReportValidates(f: FileEntry, rep: FileReport, master: seq<byte>, image: seq<byte>, bs: nat, start: nat,
                        end: nat)
    requires bs > 0 && Scannable(BlockDigests(MD5, image, bs), start, end) && NoCollision(MD5, master, image, bs)
    requires NoWideBlockOccurs(BlockDigests(MD5, master, bs), BlockDigests(MD5, image, bs), start, end)
    requires Reported(rep, HitMap(BlockDigests(MD5, master, bs), BlockDigests(MD5, image, bs), start, end),
                     master, image, bs)
    requires f.runs == rep.runs && f.md5 == Md5(master)
    ensures Validates(FileObjectOf(f), master, image, bs, start, end)
  {
    hide Md5, Reported, Recoverable, HitMap, FromHexOf, Contents, Reassembled, NoCollision, NoWideBlockOccurs;
    ReportReassemblesMaster(rep, MD5, master, image, bs, start, end);
    ContentsAreReassembled(f.runs, image);
    FileObjectIsFile(f);
    assert FileObjectOf(f).byteRuns == ByteRunsOf(f.runs);
  }

  // ---------------------------------------------------------------- the whole program

  /** What the report says besides the files. */
  datatype About = About(version: string, build: seq<Element>, execution: seq<Element>, image: string)

  function EntryOf(name: string, file: seq<byte>, rep: FileReport, bs: nat): FileEntry
    requires bs > 0
  {
    FileEntry(name, Blocks(|file|, bs), |file|, MD5(file), rep.runs)
  }

  /** The name and the sizes that are read for one master: the numbers are those of its bytes and of its full blocks. */
  ghost predicate Labelled(o: FileObject, name: string, master: seq<byte>, bs: nat) {
    && "filename" in o.tags && o.tags["filename"] == PercentEncoded(name)
    && "filesize" in o.tags && Number(o.tags["filesize"], 0) == |master|
    && "blocks" in o.tags && Number(o.tags["blocks"], 0) * bs <= |master| < (Number(o.tags["blocks"], 0) + 1) * bs
  }

  lemma EntryIsLabelled(name: string, rep: FileReport, master: seq<byte>, bs: nat)
    requires bs > 0
    ensures Labelled(FileObjectOf(EntryOf(name, master, rep, bs)), name, master, bs)
  {
    var f := EntryOf(name, master, rep, bs);
    TagsAreFile(f);
    NumberOfDecimal(f.filesize, "");
    NumberOfDecimal(f.blocks, "");
    assert Decimal(f.filesize) + "" == Decimal(f.filesize) && Decimal(f.blocks) + "" == Decimal(f.blocks);
    hide Decimal, Number, PercentEncoded, FileObjectOf, Md5;
    SplitBytes(|master|, bs);
    OffsetAdd(f.blocks, 1, bs);
    OffsetUnit(bs);
  }

  /** The object that is read for one master: its digest and its runs in the two files, and what they give. */
  ghost predicate Delivered(o: FileObject, master: seq<byte>, image: seq<byte>, bs: nat, start: nat, end: nat)
    requires bs > 0 && Scannable(BlockDigests(MD5, image, bs), start, end)
  {
    && "md5" in o.hashdigest && FromHexOf(o.hashdigest["md5"]) == Md5(master)
    && (forall i | 0 <= i < |o.byteRuns| :: Lies(o.byteRuns[i], image))
    && (forall i | 0 <= i < |o.byteRuns| :: 0 <= o.byteRuns[i].fileOffset <= |master| - o.byteRuns[i].len)
    && (NoCollision(MD5, master, image, bs)
        && NoWideBlockOccurs(BlockDigests(MD5, master, bs), BlockDigests(MD5, image, bs), start, end)
        ==> Validates(o, master, image, bs, start, end))
  }

  /** The whole report has been read, and each master has its object. */
  ghost predicate AllDelivered(o: DfxmlReader.Outcome, names: seq<string>, files: seq<seq<byte>>, image: seq<byte>,
                               bs: nat, start: nat, end: nat)
    requires bs > 0 && |names| == |files|
  {
    && Scannable(BlockDigests(MD5, image, bs), start, end)
    && o.Reading? && o.reader.tagStack == [] && |o.reader.delivered| == |files|
    && forall i | 0 <= i < |files| ::
         && Labelled(o.reader.delivered[i], names[i], files[i], bs)
         && Delivered(o.reader.delivered[i], files[i], image, bs, start, end)
  }

  lemma EntryIsDelivered(name: string, rep: FileReport, master: seq<byte>, image: seq<byte>, bs: nat, start: nat,
                         end: nat)
    requires bs > 0 && |master| < 0x8000_0000_0000_0000 && |image| < 0x8000_0000_0000_0000
    requires Scannable(BlockDigests(MD5, image, bs), start, end)
    requires Reported(rep, HitMap(BlockDigests(MD5, master, bs), BlockDigests(MD5, image, bs), start, end),
                     master, image, bs)
    ensures
      var f := EntryOf(name, master, rep, bs);
      Readable(f) && Delivered(FileObjectOf(f), master, image, bs, start, end)
  {
    hide Md5, Reported, HitMap, FromHexOf, NoCollision, NoWideBlockOccurs, Validates;
    var f := EntryOf(name, master, rep, bs);
    ReportLiesInFiles(rep, MD5, master, image, bs, start, end);
    RunsFit(f, master, image);
    FileObjectIsFile(f);
    var runs := FileObjectOf(f).byteRuns;
    forall i | 0 <= i < |runs|
      ensures Lies(runs[i], image) && 0 <= runs[i].fileOffset <= |master| - runs[i].len
    {
      assert LiesInFiles(f.runs[i], master, image);
    }
    if NoCollision(MD5, master, image, bs)
      && NoWideBlockOccurs(BlockDigests(MD5, master, bs), BlockDigests(MD5, image, bs), start, end)
    {
      ReportValidates(f, rep, master, image, bs, start, end);
    }
  }

  /** The program writes the report of its search, and the report is read back: one object for each master, in order.
      The parser accepts all of it exactly if no text in it has a control character that XML does not allow. */
  method SearchAndRead(image: seq<byte>, files: seq<seq<byte>>, names: seq<string>, about: About,
                       start: nat, end: nat, optM: int, bs: nat)
    returns (r: FragFind.Outcome, ghost rep: Report, o: Option<DfxmlReader.Outcome>)
    requires |image| < 0x8000_0000_0000_0000 && |names| == |files|
    requires forall i | 0 <= i < |files| :: Reportable(files[i], bs)
    requires AllNeutral(about.build) && AllNeutral(about.execution)
    ensures r.Done? <==>
      && 5 <= optM <= 32 && 0 < |files| && 4 <= bs <= |image|
      && forall i | 0 <= i < |files| :: |files[i]| <= |image|
    ensures r.Done? ==> |rep.files| == |files| && forall i | 0 <= i < |files| :: rep.files[i].filename == names[i]
    ensures r.Done? ==> rep.blocks * bs <= |image| < (rep.blocks + 1) * bs
    ensures r.Done? ==> rep.blocksize == bs && rep.image == about.image && rep.version == about.version
    ensures r.Done? ==> rep.build == about.build && rep.execution == about.execution
    ensures r.Done? ==> o == Some(Feeds(Reading(NEW_READER), Parsed(ReportEvents(rep))))
    ensures Parsed(ReportEvents(rep)) == ReportEvents(rep) <==> Legible(rep)
    ensures r.Done? && Legible(rep) ==>
      AllDelivered(o.value, names, files, image, bs, start, Stop(Blocks(|image|, bs), end))
  {
    hide Reported, HitMap, Md5, Delivered, Labelled, Readable, FileObjectOf, Legible, MatchingBlocks, PassedBlocks;
    hide FilterAfter, AllNeutral, Blocks;
    hide ReportEvents, Feeds, Parsed;
    r := FragFind.Run(image, files, MD5, start, end, optM, bs);
    if !r.Done? {
      o := None;
      rep := Report("", [], [], "", 0, 0, []);
      ReportIsParsed(rep);
      return;
    }
    var entries := seq<FileEntry>(|files|,
                                  i requires 0 <= i < |files| => EntryOf(names[i], files[i], r.reports[i], bs));
    var report := Report(about.version, about.build, about.execution, about.image, Blocks(|image|, bs), bs, entries);
    rep := report;
    EntriesAreDelivered(entries, names, r.reports, files, image, bs, start, Stop(Blocks(|image|, bs), end));
    SizeOfImage(|image|, bs);
    ReportIsParsed(rep);
    var outcome := WriteAndRead(report);
    o := Some(outcome);
  }

  lemma SizeOfImage(n: nat, bs: nat)
    requires bs > 0
    ensures Blocks(n, bs) * bs <= n < (Blocks(n, bs) + 1) * bs
  {
    SplitBytes(n, bs);
    OffsetAdd(Blocks(n, bs), 1, bs);
    OffsetUnit(bs);
    hide Blocks;
  }

  lemma EntriesAreDelivered(entries: seq<FileEntry>, names: seq<string>, reports: seq<FileReport>,
                            files: seq<seq<byte>>, image: seq<byte>, bs: nat, start: nat, stop: nat)
    requires bs > 0 && |image| < 0x8000_0000_0000_0000 && Scannable(BlockDigests(MD5, image, bs), start, stop)
    requires |entries| == |names| == |reports| == |files|
    requires forall i | 0 <= i < |files| ::
               |files[i]| <= |image| && entries[i] == EntryOf(names[i], files[i], reports[i], bs)
    requires forall i | 0 <= i < |files| ::
               Reported(reports[i], HitMap(BlockDigests(MD5, files[i], bs), BlockDigests(MD5, image, bs), start, stop),
                        files[i], image, bs)
    ensures forall i | 0 <= i < |files| :: Readable(entries[i])
    ensures forall i | 0 <= i < |files| ::
              && Labelled(FileObjectOf(entries[i]), names[i], files[i], bs)
              && Delivered(FileObjectOf(entries[i]), files[i], image, bs, start, stop)
  {
    hide Reported, HitMap, Md5, Delivered, Labelled, Readable, FileObjectOf;
    forall i | 0 <= i < |files|
      ensures Readable(entries[i]) && Labelled(FileObjectOf(entries[i]), names[i], files[i], bs)
      ensures Delivered(FileObjectOf(entries[i]), files[i], image, bs, start, stop)
    {
      EntryIsLabelled(names[i], reports[i], files[i], bs);
      EntryIsDelivered(names[i], reports[i], files[i], image, bs, start, stop);
    }
  }

  /** A report that is written and read back. */
  method WriteAndRead(rep: Report) returns (o: DfxmlReader.Outcome)
    requires AllNeutral(rep.build) && AllNeutral(rep.execution)
    requires forall i | 0 <= i < |rep.files| :: Readable(rep.files[i])
    ensures o == Feeds(Reading(NEW_READER), Parsed(ReportEvents(rep)))
    ensures Legible(rep) ==> o.Reading? && o.reader.tagStack == [] && o.reader.delivered == FileObjectsOf(rep.files)
  {
    hide ReportEvents, Feeds, Parsed, AllNeutral, Readable, Legible, FileObjectsOf;
    var x := new XmlWriter();
    WriteReport(x, rep);
    assert x.output == [] + ReportEvents(rep) == ReportEvents(rep);
    ReportIsReadBack(rep);
    ReportIsParsed(rep);
    o := ReadDfxml(x.output);
  }
}
