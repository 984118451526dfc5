/** Which reports of frag_find an XML parser accepts. */
module DfxmlLegible {
  import opened Bits
  import opened Decimals
  import opened Dfxml
  import opened DfxmlReport
  import opened Digests
  import opened XmlText

  import Reports

  ghost predicate LegibleAttrs(attrs: Attributes) {
    forall a | a in attrs :: AllXml(a.1)
  }

  ghost predicate LegibleElements(elements: seq<Element>) {
    forall i | 0 <= i < |elements| :: LegibleAttrs(elements[i].attrs) && Encodable(elements[i].value)
  }

  ghost predicate LegibleNames(files: seq<FileEntry>) {
    forall i | 0 <= i < |files| :: Encodable(files[i].filename)
  }

  /** No text of the report has a control character that the escaping does not replace. */
  ghost predicate Legible(rep: Report) {
    && Encodable(rep.version) && LegibleElements(rep.build) && LegibleElements(rep.execution)
    && Encodable(rep.image) && LegibleNames(rep.files)
  }

  lemma BlanksAreXml(depth: nat)
    ensures AllXml(Spaces(depth)) && AllXml("\n") && AllXml("")
  {
  }

  lemma AcceptPush(depth: nat, tag: string, attrs: Attributes)
    ensures AllAcceptable(Pushed(depth, tag, attrs)) <==> LegibleAttrs(attrs)
  {
    hide AllXml;
    BlanksAreXml(depth);
    var p := Pushed(depth, tag, attrs);
    assert p[1] in p;
  }

  lemma AcceptPop(depth: nat, tag: string)
    ensures AllAcceptable(Popped(depth, tag))
  {
    hide AllXml;
    BlanksAreXml(depth);
  }

  lemma AcceptLeaf(depth: nat, tag: string, attrs: Attributes, text: string)
    ensures AllAcceptable(Leaf(depth, tag, attrs, text)) <==> LegibleAttrs(attrs) && AllXml(text)
  {
    hide AllXml;
    BlanksAreXml(depth);
    var p := Leaf(depth, tag, attrs, text);
    assert p[1] in p && p[2] in p;
  }

  lemma DecimalIsXml(n: nat)
    ensures AllXml(Decimal(n))
  {
  }

  lemma {:induction false} HexIsXml(d: seq<byte>)
    ensures AllXml(Hex(d))
  {
    hide HexByte, XmlChar;
    if d != [] {
      HexIsXml(d[..|d| - 1]);
      HexByteIsXml(d[|d| - 1]);
    }
  }

  lemma HexByteIsXml(b: byte)
    ensures AllXml(HexByte(b))
  {
    hide HexChar;
    HexCharIsXml(b as int / 16);
    HexCharIsXml(b as int % 16);
  }

  lemma HexCharIsXml(n: nat)
    requires n < 16
    ensures XmlChar(HexChar(n))
  {
  }

  lemma OneMoreLegible(init: seq<Element>, e: Element)
    ensures LegibleElements(init + [e]) <==> LegibleElements(init) && LegibleAttrs(e.attrs) && Encodable(e.value)
  {
    hide LegibleAttrs, Encodable;
    var all := init + [e];
    assert all[|init|] == e;
    if LegibleElements(all) {
      forall i | 0 <= i < |init| ensures LegibleAttrs(init[i].attrs) && Encodable(init[i].value) {
        assert all[i] == init[i];
      }
    }
  }

  lemma {:induction false} AcceptLeaves(depth: nat, elements: seq<Element>)
    ensures AllAcceptable(Leaves(depth, elements)) <==> LegibleElements(elements)
  {
    hide AllAcceptable, Leaf, AllXml, Encodable, LegibleAttrs, PercentEncoded;
    if elements == [] {
      NothingToAccept();
    } else {
      hide LegibleElements;
      var init, e := elements[..|elements| - 1], elements[|elements| - 1];
      OneMoreLegible(init, e);
      AcceptLeaves(depth, init);
      AcceptLeaf(depth, e.tag, e.attrs, PercentEncoded(e.value));
      EscapeIsXml(e.value);
      AcceptableParts(Leaves(depth, init), Leaf(depth, e.tag, e.attrs, PercentEncoded(e.value)));
      assert elements == init + [e];
    }
  }

  lemma NothingToAccept()
    ensures AllAcceptable([])
  {
  }

  lemma {:induction false} AcceptRuns(depth: nat, runs: seq<Reports.Run>)
    ensures AllAcceptable(RunLeaves(depth, runs))
  {
    hide AllAcceptable, Leaf, RunAttrs, AllXml, LegibleAttrs;
    if runs == [] {
      NothingToAccept();
    } else {
      var init, r := runs[..|runs| - 1], runs[|runs| - 1];
      AcceptRuns(depth, init);
      RunAttrsAreLegible(r);
      BlanksAreXml(0);
      AcceptLeaf(depth, "run", RunAttrs(r), "");
      AcceptableParts(RunLeaves(depth, init), Leaf(depth, "run", RunAttrs(r), ""));
    }
  }

  lemma RunAttrsAreLegible(r: Reports.Run)
    ensures LegibleAttrs(RunAttrs(r))
  {
    hide AllXml;
    DecimalIsXml(r.fileOffset);
    DecimalIsXml(r.imgOffset);
    DecimalIsXml(r.len);
  }

  lemma AcceptFileHead(depth: nat, f: FileEntry)
    ensures AllAcceptable(FileHead(depth, f)) <==> Encodable(f.filename)
  {
    hide AllAcceptable, Leaf, AllXml, Encodable, PercentEncoded, Decimal, Hex;
    var l1, l2 := Leaf(depth, "filename", [], PercentEncoded(f.filename)), Leaf(depth, "blocks", [], Decimal(f.blocks));
    var l3 := Leaf(depth, "filesize", [], Decimal(f.filesize));
    var l4 := Leaf(depth, "hashdigest", [("type", "md5")], Hex(f.md5));
    AcceptableParts(l1 + l2 + l3, l4);
    AcceptableParts(l1 + l2, l3);
    AcceptableParts(l1, l2);
    EscapeIsXml(f.filename);
    DecimalIsXml(f.blocks);
    DecimalIsXml(f.filesize);
    HexIsXml(f.md5);
    TypeIsXml();
    AcceptLeaf(depth, "filename", [], PercentEncoded(f.filename));
    AcceptLeaf(depth, "blocks", [], Decimal(f.blocks));
    AcceptLeaf(depth, "filesize", [], Decimal(f.filesize));
    AcceptLeaf(depth, "hashdigest", [("type", "md5")], Hex(f.md5));
  }

  lemma TypeIsXml()
    ensures AllXml("md5")
  {
  }

  lemma AcceptFile(f: FileEntry)
    ensures AllAcceptable(FileEvents(f)) <==> Encodable(f.filename)
  {
    hide AllAcceptable, Pushed, Popped, FileHead, RunLeaves, Encodable;
    AcceptableParts(Pushed(2, "fileobject", []) + FileHead(3, f) + RunLeaves(3, f.runs), Popped(2, "fileobject"));
    AcceptableParts(Pushed(2, "fileobject", []) + FileHead(3, f), RunLeaves(3, f.runs));
    AcceptableParts(Pushed(2, "fileobject", []), FileHead(3, f));
    AcceptPush(2, "fileobject", []);
    AcceptFileHead(3, f);
    AcceptRuns(3, f.runs);
    AcceptPop(2, "fileobject");
  }

  lemma {:induction false} AcceptFiles(files: seq<FileEntry>)
    ensures AllAcceptable(FilesEvents(files)) <==> LegibleNames(files)
  {
    hide AllAcceptable, FileEvents, Encodable;
    if files == [] {
      NothingToAccept();
    } else {
      var init, f := files[..|files| - 1], files[|files| - 1];
      AcceptFiles(init);
      AcceptFile(f);
      AcceptableParts(FilesEvents(init), FileEvents(f));
      assert files == init + [f];
    }
  }

  lemma AcceptBranch(tag: string, elements: seq<Element>)
    ensures AllAcceptable(Branch(tag, elements)) <==> LegibleElements(elements)
  {
    hide AllAcceptable, Pushed, Popped, Leaves, LegibleElements;
    AcceptableParts(Pushed(2, tag, []) + Leaves(3, elements), Popped(2, tag));
    AcceptableParts(Pushed(2, tag, []), Leaves(3, elements));
    AcceptPush(2, tag, []);
    AcceptLeaves(3, elements);
    AcceptPop(2, tag);
  }

  lemma FirstNamespaceIsXml()
    ensures AllXml("http://afflib.org/frag_find/")
  {
  }

  lemma SecondNamespaceIsXml()
    ensures AllXml("http://www.w3.org/2001/XMLSchema-instance")
  {
    hide AllXml;
    FirstHalfIsXml();
    SecondHalfIsXml();
    AllXmlParts("http://www.w3.org/2001/", "XMLSchema-instance");
    assert "http://www.w3.org/2001/XMLSchema-instance" == "http://www.w3.org/2001/" + "XMLSchema-instance";
  }

  lemma FirstHalfIsXml()
    ensures AllXml("http://www.w3.org/2001/")
  {
  }

  lemma SecondHalfIsXml()
    ensures AllXml("XMLSchema-instance")
  {
  }

  lemma ThirdNamespaceIsXml()
    ensures AllXml("http://purl.org/dc/elements/1.1/")
  {
  }

  lemma NamespacesAreXml()
    ensures LegibleAttrs(NAMESPACES)
  {
    hide AllXml;
    FirstNamespaceIsXml();
    SecondNamespaceIsXml();
    ThirdNamespaceIsXml();
  }

  lemma TitleIsXml()
    ensures AllXml("Hash-Based Carving Report")
  {
  }

  lemma ConstantsAreXml()
    ensures LegibleAttrs([("xmloutputversion", "0.3")]) && AllXml("Hash-Based Carving Report") && Encodable("frag_find")
  {
    TitleIsXml();
    hide AllXml;
    VersionIsXml();
  }

  lemma VersionIsXml()
    ensures AllXml("0.3")
  {
  }

  lemma AcceptMetadata()
    ensures AllAcceptable(Metadata())
  {
    hide AllAcceptable, Pushed, Leaf, Popped, LegibleAttrs, AllXml;
    var a, b := Pushed(0, "frag_find", [("xmloutputversion", "0.3")]), Pushed(1, "metadata", NAMESPACES);
    var c, d := Leaf(2, "dc:type", [], "Hash-Based Carving Report"), Popped(1, "metadata");
    ConstantsAreXml();
    NamespacesAreXml();
    NoAttrs();
    AcceptableParts(a + b + c, d);
    AcceptableParts(a + b, c);
    AcceptableParts(a, b);
    AcceptPush(0, "frag_find", [("xmloutputversion", "0.3")]);
    AcceptPush(1, "metadata", NAMESPACES);
    AcceptLeaf(2, "dc:type", [], "Hash-Based Carving Report");
    AcceptPop(1, "metadata");
  }

  lemma NoAttrs()
    ensures LegibleAttrs([])
  {
  }

  lemma AcceptCreator(rep: Report)
    ensures AllAcceptable(Creator(rep))
       <==> Encodable(rep.version) && LegibleElements(rep.build) && LegibleElements(rep.execution)
  {
    hide AllAcceptable, Pushed, Leaf, Popped, Branch, LegibleAttrs, LegibleElements, AllXml, Encodable, PercentEncoded;
    var a, b := Pushed(1, "creator", []), Leaf(2, "program", [], PercentEncoded("frag_find"));
    var c := Leaf(2, "version", [], PercentEncoded(rep.version));
    var d, e := Branch("build_environment", rep.build), Branch("execution_environment", rep.execution);
    var f := Popped(1, "creator");
    ConstantsAreXml();
    NoAttrs();
    assert Creator(rep) == a + b + c + d + e + f;
    AcceptableParts(a + b + c + d + e, f);
    AcceptableParts(a + b + c + d, e);
    AcceptableParts(a + b + c, d);
    AcceptableParts(a + b, c);
    AcceptableParts(a, b);
    AcceptPush(1, "creator", []);
    EscapeIsXml("frag_find");
    AcceptLeaf(2, "program", [], PercentEncoded("frag_find"));
    EscapeIsXml(rep.version);
    AcceptLeaf(2, "version", [], PercentEncoded(rep.version));
    AcceptBranch("build_environment", rep.build);
    AcceptBranch("execution_environment", rep.execution);
    AcceptPop(1, "creator");
  }

  lemma AcceptSource(rep: Report)
    ensures AllAcceptable(Source(rep)) <==> Encodable(rep.image)
  {
    hide AllAcceptable, Pushed, Leaf, LegibleAttrs, AllXml, Encodable, PercentEncoded, Decimal;
    var a, b := Pushed(1, "source", []), Leaf(2, "image_filename", [], PercentEncoded(rep.image));
    var c, d := Leaf(2, "blocks", [], Decimal(rep.blocks)), Leaf(2, "blocksize", [], Decimal(rep.blocksize));
    NoAttrs();
    AcceptableParts(a + b + c, d);
    AcceptableParts(a + b, c);
    AcceptableParts(a, b);
    AcceptPush(1, "source", []);
    EscapeIsXml(rep.image);
    AcceptLeaf(2, "image_filename", [], PercentEncoded(rep.image));
    DecimalIsXml(rep.blocks);
    AcceptLeaf(2, "blocks", [], Decimal(rep.blocks));
    DecimalIsXml(rep.blocksize);
    AcceptLeaf(2, "blocksize", [], Decimal(rep.blocksize));
  }

  /** The parser reports the whole report exactly if no text in it has such a control character. */
  lemma ReportIsParsed(rep: Report)
    ensures Parsed(ReportEvents(rep)) == ReportEvents(rep) <==> Legible(rep)
  {
    hide AllAcceptable, Metadata, Creator, Source, FilesEvents, Popped, LegibleElements, LegibleNames, Encodable;
    var a, b, c, d := Metadata(), Creator(rep), Source(rep), FilesEvents(rep.files);
    var e, f := Popped(1, "source"), Popped(0, "frag_find");
    AcceptableParts(a + b + c + d + e, f);
    AcceptableParts(a + b + c + d, e);
    AcceptableParts(a + b + c, d);
    AcceptableParts(a + b, c);
    AcceptableParts(a, b);
    AcceptMetadata();
    AcceptCreator(rep);
    AcceptSource(rep);
    AcceptFiles(rep.files);
    AcceptPop(1, "source");
    AcceptPop(0, "frag_find");
    AllIsParsed(ReportEvents(rep));
  }
}
