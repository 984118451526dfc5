/** The report of frag_find: written by `main` and `print_report`, and read back. */
module DfxmlReport {
  import opened Decimals
  import opened Dfxml
  import opened Digests
  import opened XmlText

  import Reports

  // ---------------------------------------------------------------- what is written

  /** One call of `xmlout` or `xmlprintf`. */
  datatype Element = Element(tag: string, attrs: Attributes, value: string)

  datatype FileEntry = FileEntry(filename: string, blocks: nat, filesize: nat, md5: Digest, runs: seq<Reports.Run>)

  datatype Report = Report(version: string, build: seq<Element>, execution: seq<Element>,
                           image: string, blocks: nat, blocksize: nat, files: seq<FileEntry>)

  const NAMESPACES: Attributes := [("xmlns", "http://afflib.org/frag_find/"),
                                  ("xmlns:xsi", "http://www.w3.org/2001/XMLSchema-instance"),
                                   ("xmlns:dc", "http://purl.org/dc/elements/1.1/")]

  function Leaves(depth: nat, elements: seq<Element>): seq<Event> {
    if elements == [] then []
    else
      var e := elements[|elements| - 1];
      Leaves(depth, elements[..|elements| - 1]) + Leaf(depth, e.tag, e.attrs, PercentEncoded(e.value))
  }

  function RunAttrs(r: Reports.Run): Attributes {
    [("file_offset", Decimal(r.fileOffset)), ("img_offset", Decimal(r.imgOffset)), ("len", Decimal(r.len))]
  }

  function RunLeaves(depth: nat, runs: seq<Reports.Run>): seq<Event> {
    if runs == [] then [] else RunLeaves(depth, runs[..|runs| - 1]) + Leaf(depth, "run", RunAttrs(runs[|runs| - 1]), "")
  }

  /** The elements of a file object before its runs. */
  function FileHead(depth: nat, f: FileEntry): seq<Event> {
    Leaf(depth, "filename", [], PercentEncoded(f.filename)) + Leaf(depth, "blocks", [], Decimal(f.blocks))
    + Leaf(depth, "filesize", [], Decimal(f.filesize)) + Leaf(depth, "hashdigest", [("type", "md5")], Hex(f.md5))
  }

  function FileEvents(f: FileEntry): seq<Event> {
    Pushed(2, "fileobject", []) + FileHead(3, f) + RunLeaves(3, f.runs) + Popped(2, "fileobject")
  }

  function FilesEvents(files: seq<FileEntry>): seq<Event> {
    if files == [] then [] else FilesEvents(files[..|files| - 1]) + FileEvents(files[|files| - 1])
  }

  function Metadata(): seq<Event> {
    Pushed(0, "frag_find", [("xmloutputversion", "0.3")]) + Pushed(1, "metadata", NAMESPACES)
    + Leaf(2, "dc:type", [], "Hash-Based Carving Report") + Popped(1, "metadata")
  }

  function Creator(rep: Report): seq<Event> {
    Pushed(1, "creator", []) + Leaf(2, "program", [], PercentEncoded("frag_find"))
      + Leaf(2, "version", [], PercentEncoded(rep.version))
    + Branch("build_environment", rep.build) + Branch("execution_environment", rep.execution) + Popped(1, "creator")
  }

  function Branch(tag: string, elements: seq<Element>): seq<Event> {
    Pushed(2, tag, []) + Leaves(3, elements) + Popped(2, tag)
  }

  /** The source element stays open until the end of the report. */
  function Source(rep: Report): seq<Event> {
    Pushed(1, "source", []) + Leaf(2, "image_filename", [], PercentEncoded(rep.image))
    + Leaf(2, "blocks", [], Decimal(rep.blocks)) + Leaf(2, "blocksize", [], Decimal(rep.blocksize))
  }

  function ReportEvents(rep: Report): seq<Event> {
    Metadata() + Creator(rep) + Source(rep) + FilesEvents(rep.files) + Popped(1, "source") + Popped(0, "frag_find")
  }

  // ---------------------------------------------------------------- writing it

  method WriteLeaves(x: XmlWriter, elements: seq<Element>)
    requires x.Valid()
    modifies x`output
    ensures x.Valid() && x.output == old(x.output) + Leaves(|x.tagStack|, elements)
  {
    hide Open, Leaf, PercentEncoded;
    for i := 0 to |elements|
      invariant x.Valid() && x.output == old(x.output) + Leaves(|x.tagStack|, elements[..i])
    {
      assert elements[..i + 1][..i] == elements[..i];
      x.XmlOut(elements[i].tag, elements[i].value, elements[i].attrs, true);
    }
    assert elements[..|elements|] == elements;
  }

  /** The `run` elements of `print_report`. */
  method WriteRuns(x: XmlWriter, runs: seq<Reports.Run>)
    requires x.Valid()
    modifies x`output
    ensures x.Valid() && x.output == old(x.output) + RunLeaves(|x.tagStack|, runs)
  {
    hide Open, Leaf, RunAttrs;
    for i := 0 to |runs|
      invariant x.Valid() && x.output == old(x.output) + RunLeaves(|x.tagStack|, runs[..i])
    {
      assert runs[..i + 1][..i] == runs[..i];
      x.XmlOut("run", "", RunAttrs(runs[i]), false);
    }
    assert runs[..|runs|] == runs;
  }

  method WriteFile(x: XmlWriter, f: FileEntry)
    requires x.Valid() && |x.tagStack| == 2
    modifies x
    ensures x.Valid() && x.tagStack == old(x.tagStack) && x.output == old(x.output) + FileEvents(f)
  {
    hide Open, FileHead, Pushed, Popped, RunLeaves;
    x.Push("fileobject", []);
    WriteFileHead(x, f);
    WriteRuns(x, f.runs);
    x.Pop();
    assert x.output == old(x.output) + FileEvents(f);
  }

  method WriteFileHead(x: XmlWriter, f: FileEntry)
    requires x.Valid()
    modifies x`output
    ensures x.Valid() && x.output == old(x.output) + FileHead(|x.tagStack|, f)
  {
    hide Open, Leaf, PercentEncoded, Decimal, Hex;
    x.XmlOut("filename", f.filename, [], true);
    x.XmlOut("blocks", Decimal(f.blocks), [], false);
    x.XmlOut("filesize", Decimal(f.filesize), [], false);
    var hex := HexDigest(f.md5, 33);
    assert f.md5[..16] == f.md5;
    x.XmlOut("hashdigest", hex, [("type", "md5")], false);
    assert x.output == old(x.output) + FileHead(|x.tagStack|, f);
  }

  method WriteReport(x: XmlWriter, rep: Report)
    requires x.Valid() && x.tagStack == []
    modifies x
    ensures x.Valid() && x.tagStack == [] && x.output == old(x.output) + ReportEvents(rep)
  {
    hide Open, Metadata, Creator, Source, FilesEvents, Popped;
    WriteMetadata(x);
    WriteCreator(x, rep);
    WriteSource(x, rep);
    WriteFiles(x, rep.files);
    x.Pop();
    x.Pop();
    assert x.output == old(x.output) + ReportEvents(rep);
  }

  method WriteFiles(x: XmlWriter, files: seq<FileEntry>)
    requires x.Valid() && |x.tagStack| == 2
    modifies x
    ensures x.Valid() && x.tagStack == old(x.tagStack) && x.output == old(x.output) + FilesEvents(files)
  {
    hide FileEvents, XmlWriter.Valid;
    for i := 0 to |files|
      invariant x.Valid() && x.tagStack == old(x.tagStack)
      invariant x.output == old(x.output) + FilesEvents(files[..i])
    {
      assert files[..i + 1][..i] == files[..i];
      WriteFile(x, files[i]);
    }
    assert files[..|files|] == files;
  }

  method WriteMetadata(x: XmlWriter)
    requires x.Valid() && x.tagStack == []
    modifies x
    ensures x.Valid() && x.tagStack == ["frag_find"] && x.output == old(x.output) + Metadata()
  {
    hide Open, Leaf, PercentEncoded, Pushed, Popped;
    x.Push("frag_find", [("xmloutputversion", "0.3")]);
    x.Push("metadata", NAMESPACES);
    x.XmlOut("dc:type", "Hash-Based Carving Report", [], false);
    x.Pop();
    assert x.output == old(x.output) + Metadata();
  }

  method WriteCreator(x: XmlWriter, rep: Report)
    requires x.Valid() && x.tagStack == ["frag_find"]
    modifies x
    ensures x.Valid() && x.tagStack == ["frag_find"] && x.output == old(x.output) + Creator(rep)
  {
    hide Open, Leaf, PercentEncoded, Pushed, Popped, Branch;
    x.Push("creator", []);
    x.XmlOut("program", "frag_find", [], true);
    x.XmlOut("version", rep.version, [], true);
    WriteBranch(x, "build_environment", rep.build);
    WriteBranch(x, "execution_environment", rep.execution);
    x.Pop();
    assert x.output == old(x.output) + Creator(rep);
  }

  /** `add_DFXML_build_environment` and `add_DFXML_execution_environment`. */
  method WriteBranch(x: XmlWriter, tag: string, elements: seq<Element>)
    requires x.Valid() && |x.tagStack| == 2
    modifies x
    ensures x.Valid() && x.tagStack == old(x.tagStack) && x.output == old(x.output) + Branch(tag, elements)
  {
    hide Open, Pushed, Popped, Leaves;
    x.Push(tag, []);
    WriteLeaves(x, elements);
    x.Pop();
    assert x.output == old(x.output) + Branch(tag, elements);
  }

  method WriteSource(x: XmlWriter, rep: Report)
    requires x.Valid() && x.tagStack == ["frag_find"]
    modifies x
    ensures x.Valid() && x.tagStack == ["frag_find", "source"] && x.output == old(x.output) + Source(rep)
  {
    hide Open, Leaf, PercentEncoded, Decimal, Pushed;
    x.Push("source", []);
    x.XmlOut("image_filename", rep.image, [], true);
    x.XmlOut("blocks", Decimal(rep.blocks), [], false);
    x.XmlOut("blocksize", Decimal(rep.blocksize), [], false);
    assert x.output == old(x.output) + Source(rep);
  }
}
