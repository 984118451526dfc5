/** What a report looks like: every tag, attribute and indentation of it, in order. */
module DfxmlText {
  import opened Decimals
  import opened Dfxml
  import opened DfxmlReport
  import opened Digests
  import opened XmlText

  import Reports

  lemma Indents()
    ensures Spaces(0) == "" && Spaces(1) == "  " && Spaces(2) == "    " && Spaces(3) == "      "
  {
  }

  lemma NothingWritten()
    ensures Leaves(3, []) == [] && RunLeaves(3, []) == [] && FilesEvents([]) == []
  {
  }

  lemma MetadataIsText()
    ensures Metadata() == [
      Chars(""), StartTag("frag_find", [("xmloutputversion", "0.3")]), Chars("\n"),
      Chars("  "), StartTag("metadata", [("xmlns", "http://afflib.org/frag_find/"),
                                         ("xmlns:xsi", "http://www.w3.org/2001/XMLSchema-instance"),
                                         ("xmlns:dc", "http://purl.org/dc/elements/1.1/")]), Chars("\n"),
      Chars("    "), StartTag("dc:type", []), Chars("Hash-Based Carving Report"), EndTag("dc:type"), Chars("\n"),
      Chars("  "), EndTag("metadata"), Chars("\n")]
  {
    Indents();
    hide Spaces;
  }

  lemma CreatorIsText(rep: Report)
    requires PercentEncoded(rep.version) != ""
    ensures Creator(rep) == [
      Chars("  "), StartTag("creator", []), Chars("\n"),
      Chars("    "), StartTag("program", []), Chars("frag_find"), EndTag("program"), Chars("\n"),
      Chars("    "), StartTag("version", []), Chars(PercentEncoded(rep.version)), EndTag("version"), Chars("\n"),
      Chars("    "), StartTag("build_environment", []), Chars("\n")] + Leaves(3, rep.build) + [
      Chars("    "), EndTag("build_environment"), Chars("\n"),
      Chars("    "), StartTag("execution_environment", []), Chars("\n")] + Leaves(3, rep.execution) + [
      Chars("    "), EndTag("execution_environment"), Chars("\n"),
      Chars("  "), EndTag("creator"), Chars("\n")]
  {
    Indents();
    ProgramName();
    hide Spaces, Leaves, PercentEncoded;
  }

  lemma ProgramName()
    ensures PercentEncoded("frag_find") == "frag_find"
  {
    PercentEncodedGrows("frag_find");
  }

  /** One element of an environment. */
  lemma LeafIsText(elements: seq<Element>, tag: string, attrs: Attributes, value: string)
    requires PercentEncoded(value) != ""
    ensures Leaves(3, elements + [Element(tag, attrs, value)]) == Leaves(3, elements) + [
      Chars("      "), StartTag(tag, attrs), Chars(PercentEncoded(value)), EndTag(tag), Chars("\n")]
  {
    Indents();
    hide Spaces, PercentEncoded;
    assert (elements + [Element(tag, attrs, value)])[..|elements|] == elements;
  }

  lemma SourceIsText(rep: Report)
    requires PercentEncoded(rep.image) != ""
    ensures Source(rep) == [
      Chars("  "), StartTag("source", []), Chars("\n"),
      Chars("    "), StartTag("image_filename", []), Chars(PercentEncoded(rep.image)), EndTag("image_filename"),
      Chars("\n"),
      Chars("    "), StartTag("blocks", []), Chars(Decimal(rep.blocks)), EndTag("blocks"), Chars("\n"),
      Chars("    "), StartTag("blocksize", []), Chars(Decimal(rep.blocksize)), EndTag("blocksize"), Chars("\n")]
  {
    Indents();
    hide Spaces, PercentEncoded, Decimal;
  }

  lemma FileIsText(f: FileEntry)
    requires PercentEncoded(f.filename) != ""
    ensures FileEvents(f) == [
      Chars("    "), StartTag("fileobject", []), Chars("\n"),
      Chars("      "), StartTag("filename", []), Chars(PercentEncoded(f.filename)), EndTag("filename"), Chars("\n"),
      Chars("      "), StartTag("blocks", []), Chars(Decimal(f.blocks)), EndTag("blocks"), Chars("\n"),
      Chars("      "), StartTag("filesize", []), Chars(Decimal(f.filesize)), EndTag("filesize"), Chars("\n"),
      Chars("      "), StartTag("hashdigest", [("type", "md5")]), Chars(Hex(f.md5)), EndTag("hashdigest"),
      Chars("\n")] + RunLeaves(3, f.runs) + [
      Chars("    "), EndTag("fileobject"), Chars("\n")]
  {
    Indents();
    assert |Hex(f.md5)| == 32;
    hide Spaces, PercentEncoded, Decimal, Hex, RunLeaves;
  }

  lemma RunIsText(runs: seq<Reports.Run>, r: Reports.Run)
    ensures RunLeaves(3, runs + [r]) == RunLeaves(3, runs) + [
      Chars("      "),
      StartTag("run", [("file_offset", Decimal(r.fileOffset)), ("img_offset", Decimal(r.imgOffset)),
                       ("len", Decimal(r.len))]),
      EndTag("run"), Chars("\n")]
  {
    Indents();
    hide Spaces, Decimal;
    assert (runs + [r])[..|runs|] == runs;
  }

  /** The parts of a report, in order; the files in order, too. */
  lemma ReportIsText(rep: Report, files: seq<FileEntry>, f: FileEntry)
    requires rep.files == files + [f]
    ensures ReportEvents(rep) == Metadata() + Creator(rep) + Source(rep) + FilesEvents(files) + FileEvents(f) + [
      Chars("  "), EndTag("source"), Chars("\n"),
      Chars(""), EndTag("frag_find"), Chars("\n")]
  {
    Indents();
    hide Spaces, Metadata, Creator, Source, FileEvents;
    assert rep.files[..|files|] == files;
  }
}
