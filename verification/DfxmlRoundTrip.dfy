/** Reading back the report that frag_find writes. */
module DfxmlRoundTrip {
  import opened Bits
  import opened Decimals
  import opened Dfxml
  import opened DfxmlReader
  import opened DfxmlReport
  import opened Digests
  import opened Options
  import opened XmlText

  import Reports

  // ---------------------------------------------------------------- single calls of the writer

  lemma BlankNewline()
    ensures WithoutNewlines("\n") == ""
  {
    assert WithoutNewlines("\n"[1..]) == "";
  }

  lemma PushIsRead(r: Reader, depth: nat, tag: string, attrs: Attributes)
    ensures Feeds(Reading(r), Pushed(depth, tag, attrs)) == Reading(Started(r, tag, attrs))
  {
    hide Started, Feeds, WithoutNewlines;
    var p := Pushed(depth, tag, attrs);
    assert p == [p[0]] + [p[1]] + [p[2]];
    FeedsParts(Reading(r), [p[0]] + [p[1]], [p[2]]);
    FeedsParts(Reading(r), [p[0]], [p[1]]);
    OneEvent(Reading(r), p[0]);
    var r' := r.(cdata := r.cdata + WithoutNewlines(Spaces(depth)));
    OneEvent(Reading(r'), p[1]);
    StartClears(r, r'.cdata, tag, attrs);
    OneEvent(Reading(Started(r, tag, attrs)), p[2]);
    BlankNewline();
  }

  lemma StartClears(r: Reader, cdata: string, tag: string, attrs: Attributes)
    ensures Started(r.(cdata := cdata), tag, attrs) == Started(r, tag, attrs)
    ensures Started(r, tag, attrs).cdata == ""
  {
  }

  lemma EndClears(r: Reader, tag: string)
    ensures Ended(r, tag).Reading? ==> Ended(r, tag).reader.cdata == ""
  {
    hide WithDigest, BlockSizeOf, Lower;
  }

  lemma PopIsRead(r: Reader, depth: nat, tag: string)
    ensures Feeds(Reading(r), Popped(depth, tag)) == Ended(r.(cdata := r.cdata + WithoutNewlines(Spaces(depth))), tag)
  {
    hide Ended, Feeds, WithoutNewlines;
    var p := Popped(depth, tag);
    assert p == [p[0]] + [p[1]] + [p[2]];
    FeedsParts(Reading(r), [p[0]] + [p[1]], [p[2]]);
    FeedsParts(Reading(r), [p[0]], [p[1]]);
    OneEvent(Reading(r), p[0]);
    var r' := r.(cdata := r.cdata + WithoutNewlines(Spaces(depth)));
    OneEvent(Reading(r'), p[1]);
    OneEvent(Ended(r', tag), p[2]);
    EndClears(r', tag);
    BlankNewline();
  }

  lemma LeafIsRead(r: Reader, depth: nat, tag: string, attrs: Attributes, text: string)
    requires '\n' !in text
    ensures Feeds(Reading(r), Leaf(depth, tag, attrs, text)) == Ended(Started(r, tag, attrs).(cdata := text), tag)
  {
    hide Ended, Started, Feeds, WithoutNewlines;
    var s, start, chars, end, nl := Chars(Spaces(depth)), StartTag(tag, attrs), Chars(text), EndTag(tag), Chars("\n");
    var r' := r.(cdata := r.cdata + WithoutNewlines(Spaces(depth)));
    var q := Started(r, tag, attrs);
    FeedsParts(Reading(r), [s], [start]);
    OneEvent(Reading(r), s);
    OneEvent(Reading(r'), start);
    StartClears(r, r'.cdata, tag, attrs);
    assert Feeds(Reading(r), [s] + [start]) == Reading(q);
    NothingRemoved(text);
    FeedsParts(Reading(r), [s] + [start], [chars]);
    OneEvent(Reading(q), chars);
    assert Feeds(Reading(r), [s] + [start] + [chars]) == Reading(q.(cdata := text));
    if text == "" {
      assert q.(cdata := text) == q;
      assert Leaf(depth, tag, attrs, text) == [s] + [start] + [end] + [nl];
      LeafEnds(r, q, [s] + [start], tag);
    } else {
      assert Leaf(depth, tag, attrs, text) == [s] + [start] + [chars] + [end] + [nl];
      LeafEnds(r, q.(cdata := text), [s] + [start] + [chars], tag);
    }
  }

  lemma LeafEnds(r: Reader, q: Reader, events: seq<Event>, tag: string)
    requires Feeds(Reading(r), events) == Reading(q)
    ensures Feeds(Reading(r), events + [EndTag(tag)] + [Chars("\n")]) == Ended(q, tag)
  {
    hide Ended, Feeds, WithoutNewlines;
    FeedsParts(Reading(r), events + [EndTag(tag)], [Chars("\n")]);
    FeedsParts(Reading(r), events, [EndTag(tag)]);
    OneEvent(Reading(q), EndTag(tag));
    OneEvent(Ended(q, tag), Chars("\n"));
    EndClears(q, tag);
    BlankNewline();
  }

  // ---------------------------------------------------------------- elements outside of file objects

  predicate Neutral(tag: string) {
    tag != "volume" && tag != "block_size" && tag != "fileobject" && tag != "hashdigest"
  }

  /** All tags but four are neutral. */
  lemma NeutralElements(elements: seq<Element>)
    ensures AllNeutral(elements)
       <==> forall i | 0 <= i < |elements| ::
              elements[i].tag !in {"volume", "block_size", "fileobject", "hashdigest"}
  {
  }

  lemma OtherPush(r: Reader, depth: nat, tag: string, attrs: Attributes)
    requires r.file.None? && r.cdata == "" && Neutral(tag)
    ensures Feeds(Reading(r), Pushed(depth, tag, attrs)) == Reading(r.(tagStack := r.tagStack + [tag]))
  {
    PushIsRead(r, depth, tag, attrs);
  }

  lemma OtherPop(r: Reader, depth: nat, tag: string, rest: seq<string>)
    requires r.file.None? && r.cdata == "" && Neutral(tag) && r.tagStack == rest + [tag]
    ensures Feeds(Reading(r), Popped(depth, tag)) == Reading(r.(tagStack := rest))
  {
    PopIsRead(r, depth, tag);
  }

  lemma OtherLeaf(r: Reader, depth: nat, tag: string, attrs: Attributes, text: string)
    requires r.file.None? && r.cdata == "" && Neutral(tag) && '\n' !in text
    ensures Feeds(Reading(r), Leaf(depth, tag, attrs, text)) == Reading(r)
  {
    LeafIsRead(r, depth, tag, attrs, text);
    assert (r.tagStack + [tag])[..|r.tagStack|] == r.tagStack;
  }

  /** The `blocksize` and the other numbers have no end of line, nor has encoded text. */
  lemma NoNewlines(n: nat, s: string, d: Digest)
    ensures '\n' !in Decimal(n) && '\n' !in PercentEncoded(s) && '\n' !in Hex(d)
  {
    NothingLeftEncoded(s);
    HexHasNoNewline(d);
  }

  lemma {:induction false} HexHasNoNewline(d: seq<byte>)
    ensures '\n' !in Hex(d)
  {
    hide HexByte;
    if d != [] {
      HexHasNoNewline(d[..|d| - 1]);
    }
  }

  ghost predicate AllNeutral(elements: seq<Element>) {
    forall i | 0 <= i < |elements| :: Neutral(elements[i].tag)
  }

  lemma {:induction false} OtherLeaves(r: Reader, depth: nat, elements: seq<Element>)
    requires r.file.None? && r.cdata == "" && AllNeutral(elements)
    ensures Feeds(Reading(r), Leaves(depth, elements)) == Reading(r)
  {
    hide Leaf, PercentEncoded, Neutral;
    if elements == [] {
      NothingFed(Reading(r));
    } else {
      var e, init := elements[|elements| - 1], elements[..|elements| - 1];
      OtherLeaves(r, depth, init);
      FeedsParts(Reading(r), Leaves(depth, init), Leaf(depth, e.tag, e.attrs, PercentEncoded(e.value)));
      NothingLeftEncoded(e.value);
      OtherLeaf(r, depth, e.tag, e.attrs, PercentEncoded(e.value));
    }
  }

  // ---------------------------------------------------------------- file objects

  /** Tags whose text a file object keeps under their name. */
  predicate Kept(tag: string) {
    Neutral(tag) && tag != "run" && tag != "byte_run"
  }

  lemma KeptLeaf(r: Reader, f: FileObject, depth: nat, tag: string, text: string)
    requires r.file == Some(f) && r.cdata == "" && Kept(tag) && '\n' !in text
    ensures Feeds(Reading(r), Leaf(depth, tag, [], text)) == Reading(r.(file := Some(f.(tags := f.tags[tag := text]))))
  {
    LeafIsRead(r, depth, tag, [], text);
    assert (r.tagStack + [tag])[..|r.tagStack|] == r.tagStack;
  }

  lemma DigestLeaf(r: Reader, f: FileObject, depth: nat, text: string)
    requires r.file == Some(f) && r.cdata == "" && r.tagStack != [] && Top(r.tagStack) == "fileobject" && '\n' !in text
    ensures Feeds(Reading(r), Leaf(depth, "hashdigest", [("type", "md5")], text))
         == Reading(r.(hashdigestType := "md5", file := Some(f.(hashdigest := f.hashdigest["md5" := text]))))
  {
    LeafIsRead(r, depth, "hashdigest", [("type", "md5")], text);
    assert (r.tagStack + ["hashdigest"])[..|r.tagStack|] == r.tagStack;
    assert Lower("md5") == "md5";
  }

  /** A run as it is read: no sector size, no digest. */
  function ByteRunOf(r: Reports.Run): ByteRun {
    ByteRun(r.imgOffset, r.fileOffset, r.len, 0, map[])
  }

  predicate Fits64(r: Reports.Run) {
    r.fileOffset < 0x8000_0000_0000_0000 && r.imgOffset < 0x8000_0000_0000_0000 && r.len < 0x8000_0000_0000_0000
  }

  lemma OffsetIsRead(n: nat)
    requires n < 0x8000_0000_0000_0000
    ensures Atoi64(Decimal(n)) == n
  {
    hide Decimal, SignedNumber;
    SignedOfDecimal(n);
  }

  lemma RunIsRead(r: Reports.Run)
    requires Fits64(r)
    ensures RunAttributes(EMPTY_RUN, RunAttrs(r)) == ByteRunOf(r)
  {
    hide Atoi64, Decimal;
    OffsetIsRead(r.fileOffset);
    OffsetIsRead(r.imgOffset);
    OffsetIsRead(r.len);
    var attrs := RunAttrs(r);
    var first := Attribute(EMPTY_RUN, "file_offset", Decimal(r.fileOffset));
    var second := Attribute(first, "img_offset", Decimal(r.imgOffset));
    assert attrs[1..][1..][1..] == [];
    assert RunAttributes(second, attrs[1..][1..]) == Attribute(second, "len", Decimal(r.len));
  }

  lemma RunLeaf(r: Reader, f: FileObject, depth: nat, run: Reports.Run)
    requires r.file == Some(f) && r.cdata == "" && Fits64(run)
    ensures Feeds(Reading(r), Leaf(depth, "run", RunAttrs(run), ""))
         == Reading(r.(file := Some(f.(tags := f.tags["run" := ""], byteRuns := f.byteRuns + [ByteRunOf(run)]))))
  {
    hide RunAttributes, RunAttrs;
    RunIsRead(run);
    LeafIsRead(r, depth, "run", RunAttrs(run), "");
    assert (r.tagStack + ["run"])[..|r.tagStack|] == r.tagStack;
  }

  function ByteRunsOf(runs: seq<Reports.Run>): (s: seq<ByteRun>)
    ensures |s| == |runs| && forall i | 0 <= i < |runs| :: s[i] == ByteRunOf(runs[i])
  {
    if runs == [] then [] else ByteRunsOf(runs[..|runs| - 1]) + [ByteRunOf(runs[|runs| - 1])]
  }

  function WithRuns(f: FileObject, runs: seq<Reports.Run>): FileObject {
    f.(tags := if runs == [] then f.tags else f.tags["run" := ""], byteRuns := f.byteRuns + ByteRunsOf(runs))
  }

  lemma NoRuns(f: FileObject)
    ensures WithRuns(f, []) == f
  {
    assert f.byteRuns + [] == f.byteRuns;
  }

  lemma OneMoreRun(f: FileObject, runs: seq<Reports.Run>)
    requires runs != []
    ensures
      var g := WithRuns(f, runs[..|runs| - 1]);
      WithRuns(f, runs) == g.(tags := g.tags["run" := ""], byteRuns := g.byteRuns + [ByteRunOf(runs[|runs| - 1])])
  {
    var init, run := runs[..|runs| - 1], runs[|runs| - 1];
    assert f.byteRuns + ByteRunsOf(init) + [ByteRunOf(run)] == f.byteRuns + ByteRunsOf(runs);
    assert f.tags["run" := ""]["run" := ""] == f.tags["run" := ""];
  }

  lemma {:induction false} RunsAreRead(r: Reader, f: FileObject, depth: nat, runs: seq<Reports.Run>)
    requires r.file == Some(f) && r.cdata == "" && forall i | 0 <= i < |runs| :: Fits64(runs[i])
    ensures Feeds(Reading(r), RunLeaves(depth, runs)) == Reading(r.(file := Some(WithRuns(f, runs))))
  {
    hide Leaf, RunAttrs, Fits64, WithRuns, ByteRunOf;
    if runs == [] {
      NothingFed(Reading(r));
      NoRuns(f);
    } else {
      var init, run := runs[..|runs| - 1], runs[|runs| - 1];
      RunsAreRead(r, f, depth, init);
      FeedsParts(Reading(r), RunLeaves(depth, init), Leaf(depth, "run", RunAttrs(run), ""));
      RunLeaf(r.(file := Some(WithRuns(f, init))), WithRuns(f, init), depth, run);
      OneMoreRun(f, runs);
    }
  }

  /** What is read for one master: its digest, its runs in order, and its name with the characters that were encoded. */
  function FileHeadOf(f: FileEntry): FileObject {
    var tags := map["filename" := PercentEncoded(f.filename)]["blocks" := Decimal(f.blocks)];
    FileObject(map["md5" := Hex(f.md5)], tags["filesize" := Decimal(f.filesize)], [])
  }

  function FileObjectOf(f: FileEntry): FileObject {
    WithRuns(FileHeadOf(f), f.runs)
  }

  lemma TagsAreFile(f: FileEntry)
    ensures
      var tags := FileObjectOf(f).tags;
      && "filename" in tags && tags["filename"] == PercentEncoded(f.filename)
      && "blocks" in tags && tags["blocks"] == Decimal(f.blocks)
      && "filesize" in tags && tags["filesize"] == Decimal(f.filesize)
  {
    hide PercentEncoded, Decimal;
  }

  lemma FileHeadIsRead(r: Reader, depth: nat, f: FileEntry)
    requires r.file == Some(EMPTY_FILE) && r.cdata == "" && r.tagStack != [] && Top(r.tagStack) == "fileobject"
    ensures Feeds(Reading(r), FileHead(depth, f)) == Reading(r.(hashdigestType := "md5", file := Some(FileHeadOf(f))))
  {
    hide Leaf, Feeds, Hex, Decimal, PercentEncoded;
    NoNewlines(f.blocks, f.filename, f.md5);
    NoNewlines(f.filesize, f.filename, f.md5);
    var l1 := Leaf(depth, "filename", [], PercentEncoded(f.filename));
    var l2 := Leaf(depth, "blocks", [], Decimal(f.blocks));
    var l3 := Leaf(depth, "filesize", [], Decimal(f.filesize));
    var l4 := Leaf(depth, "hashdigest", [("type", "md5")], Hex(f.md5));
    FeedsParts(Reading(r), l1 + l2 + l3, l4);
    FeedsParts(Reading(r), l1 + l2, l3);
    FeedsParts(Reading(r), l1, l2);
    var f1 := EMPTY_FILE.(tags := EMPTY_FILE.tags["filename" := PercentEncoded(f.filename)]);
    KeptLeaf(r, EMPTY_FILE, depth, "filename", PercentEncoded(f.filename));
    var f2 := f1.(tags := f1.tags["blocks" := Decimal(f.blocks)]);
    KeptLeaf(r.(file := Some(f1)), f1, depth, "blocks", Decimal(f.blocks));
    var f3 := f2.(tags := f2.tags["filesize" := Decimal(f.filesize)]);
    KeptLeaf(r.(file := Some(f2)), f2, depth, "filesize", Decimal(f.filesize));
    DigestLeaf(r.(file := Some(f3)), f3, depth, Hex(f.md5));
    assert f3.hashdigest["md5" := Hex(f.md5)] == map["md5" := Hex(f.md5)];
  }

  lemma FilePop(r: Reader, f: FileObject, depth: nat, rest: seq<string>)
    requires r.file == Some(f) && r.cdata == "" && r.tagStack == rest + ["fileobject"]
    ensures Feeds(Reading(r), Popped(depth, "fileobject"))
              == Reading(r.(tagStack := rest, file := None, delivered := r.delivered + [f]))
  {
    PopIsRead(r, depth, "fileobject");
  }

  ghost predicate Readable(f: FileEntry) {
    forall i | 0 <= i < |f.runs| :: Fits64(f.runs[i])
  }

  lemma FileIsRead(r: Reader, f: FileEntry)
    requires r.file.None? && r.cdata == "" && Readable(f)
    ensures Feeds(Reading(r), FileEvents(f))
              == Reading(r.(hashdigestType := "md5", delivered := r.delivered + [FileObjectOf(f)]))
  {
    hide Feeds, Pushed, FileHead, RunLeaves, Popped, FileHeadOf, WithRuns;
    var a, b, c, d := Pushed(2, "fileobject", []), FileHead(3, f), RunLeaves(3, f.runs), Popped(2, "fileobject");
    FeedsParts(Reading(r), a + b + c, d);
    FeedsParts(Reading(r), a + b, c);
    FeedsParts(Reading(r), a, b);
    var r1 := r.(tagStack := r.tagStack + ["fileobject"], file := Some(EMPTY_FILE));
    PushIsRead(r, 2, "fileobject", []);
    FileHeadIsRead(r1, 3, f);
    var r2 := r1.(hashdigestType := "md5", file := Some(FileHeadOf(f)));
    RunsAreRead(r2, FileHeadOf(f), 3, f.runs);
    FilePop(r2.(file := Some(FileObjectOf(f))), FileObjectOf(f), 2, r.tagStack);
  }

  function FileObjectsOf(files: seq<FileEntry>): (s: seq<FileObject>)
    ensures |s| == |files| && forall i | 0 <= i < |files| :: s[i] == FileObjectOf(files[i])
  {
    if files == [] then [] else FileObjectsOf(files[..|files| - 1]) + [FileObjectOf(files[|files| - 1])]
  }

  function AfterFiles(r: Reader, files: seq<FileEntry>): Reader {
    r.(hashdigestType := if files == [] then r.hashdigestType else "md5",
       delivered := r.delivered + FileObjectsOf(files))
  }

  lemma {:induction false} FilesAreRead(r: Reader, files: seq<FileEntry>)
    requires r.file.None? && r.cdata == "" && forall i | 0 <= i < |files| :: Readable(files[i])
    ensures Feeds(Reading(r), FilesEvents(files)) == Reading(AfterFiles(r, files))
  {
    hide FileEvents, FileObjectOf, Readable;
    if files == [] {
      NothingFed(Reading(r));
      assert r.delivered + [] == r.delivered;
    } else {
      var init, f := files[..|files| - 1], files[|files| - 1];
      FilesAreRead(r, init);
      FeedsParts(Reading(r), FilesEvents(init), FileEvents(f));
      FileIsRead(AfterFiles(r, init), f);
      assert r.delivered + FileObjectsOf(init) + [FileObjectOf(f)] == r.delivered + FileObjectsOf(files);
    }
  }

  // ---------------------------------------------------------------- the report

  lemma MetadataIsRead(r: Reader)
    requires r.file.None? && r.cdata == ""
    ensures Feeds(Reading(r), Metadata()) == Reading(r.(tagStack := r.tagStack + ["frag_find"]))
  {
    hide Feeds, Pushed, Leaf, Popped;
    var a, b := Pushed(0, "frag_find", [("xmloutputversion", "0.3")]), Pushed(1, "metadata", NAMESPACES);
    var c, d := Leaf(2, "dc:type", [], "Hash-Based Carving Report"), Popped(1, "metadata");
    FeedsParts(Reading(r), a + b + c, d);
    FeedsParts(Reading(r), a + b, c);
    FeedsParts(Reading(r), a, b);
    var s := r.tagStack + ["frag_find"];
    OtherPush(r, 0, "frag_find", [("xmloutputversion", "0.3")]);
    OtherPush(r.(tagStack := s), 1, "metadata", NAMESPACES);
    OtherLeaf(r.(tagStack := s + ["metadata"]), 2, "dc:type", [], "Hash-Based Carving Report");
    OtherPop(r.(tagStack := s + ["metadata"]), 1, "metadata", s);
  }

  /** A pushed element with leaves in it, and popped again. */
  lemma BranchIsRead(r: Reader, tag: string, elements: seq<Element>)
    requires r.file.None? && r.cdata == "" && Neutral(tag) && AllNeutral(elements)
    ensures Feeds(Reading(r), Branch(tag, elements)) == Reading(r)
  {
    hide Feeds, Pushed, Leaves, Popped, AllNeutral, Neutral;
    FeedsParts(Reading(r), Pushed(2, tag, []) + Leaves(3, elements), Popped(2, tag));
    FeedsParts(Reading(r), Pushed(2, tag, []), Leaves(3, elements));
    var r' := r.(tagStack := r.tagStack + [tag]);
    OtherPush(r, 2, tag, []);
    OtherLeaves(r', 3, elements);
    OtherPop(r', 2, tag, r.tagStack);
  }

  lemma CreatorIsRead(r: Reader, rep: Report)
    requires r.file.None? && r.cdata == "" && AllNeutral(rep.build) && AllNeutral(rep.execution)
    ensures Feeds(Reading(r), Creator(rep)) == Reading(r)
  {
    hide Feeds, Pushed, Leaf, Branch, Popped, AllNeutral, PercentEncoded;
    var a, b := Pushed(1, "creator", []), Leaf(2, "program", [], PercentEncoded("frag_find"));
    var c := Leaf(2, "version", [], PercentEncoded(rep.version));
    var d, e := Branch("build_environment", rep.build), Branch("execution_environment", rep.execution);
    var f := Popped(1, "creator");
    assert Creator(rep) == a + b + c + d + e + f;
    FeedsParts(Reading(r), a + b + c + d + e, f);
    FeedsParts(Reading(r), a + b + c + d, e);
    FeedsParts(Reading(r), a + b + c, d);
    FeedsParts(Reading(r), a + b, c);
    FeedsParts(Reading(r), a, b);
    var r' := r.(tagStack := r.tagStack + ["creator"]);
    OtherPush(r, 1, "creator", []);
    NothingLeftEncoded("frag_find");
    OtherLeaf(r', 2, "program", [], PercentEncoded("frag_find"));
    NothingLeftEncoded(rep.version);
    OtherLeaf(r', 2, "version", [], PercentEncoded(rep.version));
    BranchIsRead(r', "build_environment", rep.build);
    BranchIsRead(r', "execution_environment", rep.execution);
    OtherPop(r', 1, "creator", r.tagStack);
  }

  lemma SourceIsRead(r: Reader, rep: Report)
    requires r.file.None? && r.cdata == ""
    ensures Feeds(Reading(r), Source(rep)) == Reading(r.(tagStack := r.tagStack + ["source"]))
  {
    hide Feeds, Pushed, Leaf, PercentEncoded, Decimal, Hex;
    var a, b := Pushed(1, "source", []), Leaf(2, "image_filename", [], PercentEncoded(rep.image));
    var c, d := Leaf(2, "blocks", [], Decimal(rep.blocks)), Leaf(2, "blocksize", [], Decimal(rep.blocksize));
    FeedsParts(Reading(r), a + b + c, d);
    FeedsParts(Reading(r), a + b, c);
    FeedsParts(Reading(r), a, b);
    var r' := r.(tagStack := r.tagStack + ["source"]);
    OtherPush(r, 1, "source", []);
    NothingLeftEncoded(rep.image);
    OtherLeaf(r', 2, "image_filename", [], PercentEncoded(rep.image));
    OtherLeaf(r', 2, "blocks", [], Decimal(rep.blocks));
    OtherLeaf(r', 2, "blocksize", [], Decimal(rep.blocksize));
  }

  /** Reading the report back gives one object per master, in order, with its digest and its runs; all tags are closed,
      and the reader neither exits nor crashes. */
  lemma ReportIsReadBack(rep: Report)
    requires AllNeutral(rep.build) && AllNeutral(rep.execution)
    requires forall i | 0 <= i < |rep.files| :: Readable(rep.files[i])
    ensures
      var o := Feeds(Reading(NEW_READER), ReportEvents(rep));
      && o.Reading? && o.reader.tagStack == [] && o.reader.file.None?
      && o.reader.delivered == FileObjectsOf(rep.files)
  {
    hide Feeds, Metadata, Creator, Source, FilesEvents, Popped, AllNeutral, Readable, FileObjectsOf;
    var r0 := NEW_READER;
    var a, b, c, d := Metadata(), Creator(rep), Source(rep), FilesEvents(rep.files);
    var e, f := Popped(1, "source"), Popped(0, "frag_find");
    FeedsParts(Reading(r0), a + b + c + d + e, f);
    FeedsParts(Reading(r0), a + b + c + d, e);
    FeedsParts(Reading(r0), a + b + c, d);
    FeedsParts(Reading(r0), a + b, c);
    FeedsParts(Reading(r0), a, b);
    MetadataIsRead(r0);
    var r1 := r0.(tagStack := ["frag_find"]);
    CreatorIsRead(r1, rep);
    SourceIsRead(r1, rep);
    var r2 := r1.(tagStack := ["frag_find", "source"]);
    FilesAreRead(r2, rep.files);
    var r3 := AfterFiles(r2, rep.files);
    assert r3.tagStack == ["frag_find"] + ["source"];
    OtherPop(r3, 1, "source", ["frag_find"]);
    assert ["frag_find"] == [] + ["frag_find"];
    OtherPop(r3.(tagStack := ["frag_find"]), 0, "frag_find", []);
  }

  /** The digest of a file object, read from its text, is that of the master, and its runs are the reported ones. */
  lemma FileObjectIsFile(f: FileEntry)
    ensures
      var o := FileObjectOf(f);
      && "md5" in o.hashdigest && FromHexOf(o.hashdigest["md5"]) == f.md5
      && |o.byteRuns| == |f.runs|
      && (forall i | 0 <= i < |f.runs| :: o.byteRuns[i].fileOffset == f.runs[i].fileOffset
                                      && o.byteRuns[i].imgOffset == f.runs[i].imgOffset
                                      && o.byteRuns[i].len == f.runs[i].len)
      && "filename" in o.tags
      && (o.tags["filename"] == f.filename <==> forall c | c in f.filename :: !IsPercentEncoded(c))
  {
    hide Hex, FromHexOf, Decimal, PercentEncoded, ByteRunsOf, IsPercentEncoded;
    HexRoundTrip(f.md5);
    PercentEncodedGrows(f.filename);
    assert FileObjectOf(f).tags["filename"] == PercentEncoded(f.filename);
    assert FileObjectOf(f).byteRuns == ByteRunsOf(f.runs);
  }
}
