/** The SAX reader of DFXML files (`file_object_reader`) as a machine over the parser's events. */
module DfxmlReader {
  import opened Bits
  import opened Decimals
  import opened Dfxml
  import opened Options

  datatype ByteRun = ByteRun(imgOffset: int, fileOffset: int, len: int, sectorSize: int,
                             hashdigest: map<string, string>)

  const EMPTY_RUN := ByteRun(0, 0, 0, 0, map[])

  datatype FileObject = FileObject(hashdigest: map<string, string>, tags: map<string, string>, byteRuns: seq<ByteRun>)

  const EMPTY_FILE := FileObject(map[], map[], [])

  /** A block size as a number of 64 bits without sign; `atoi` does not define it for text that is not an int. */
  datatype BlockSize = Known(size: nat) | Undefined

  function BlockSizeOf(text: string): BlockSize {
    var n := SignedNumber(text);
    if -INT_MAX - 1 <= n <= INT_MAX then Known(n % TWO_TO_THE_64) else Undefined
  }

  /** The fields of a reader, and the objects given to the callback. `volume` is the block size of its volume. */
  datatype Reader = Reader(tagStack: seq<string>, cdata: string, volume: Option<BlockSize>, file: Option<FileObject>,
                           hashdigestType: string, delivered: seq<FileObject>)

  const NEW_READER := Reader([], "", None, None, "", [])

  /** A reader goes on, or exits because an end tag is not the expected one; a crash is a use of a null pointer or of
      the top of an empty container. */
  datatype Outcome = Reading(reader: Reader) | MismatchExit | Crash

  /** `atoi64`: a number of 64 bits without sign is read, and stored with sign. */
  function Atoi64(s: string): int {
    var n := SignedNumber(s);
    var u := if -TWO_TO_THE_64 < n < TWO_TO_THE_64 then n % TWO_TO_THE_64 else TWO_TO_THE_64 - 1;
    if u < 0x8000_0000_0000_0000 then u else u - TWO_TO_THE_64
  }

  function LowerChar(c: char): char {
    if 'A' <= c <= 'Z' then c - 'A' + 'a' else c
  }

  function Lower(s: string): (t: string)
    ensures |t| == |s|
  {
    seq(|s|, i requires 0 <= i < |s| => LowerChar(s[i]))
  }

  /** The value of the first attribute with a name. */
  function GetAttrs(attrs: Attributes, name: string): string {
    if attrs == [] then "" else if attrs[0].0 == name then attrs[0].1 else GetAttrs(attrs[1..], name)
  }

  function Attribute(run: ByteRun, name: string, value: string): ByteRun {
    if run.imgOffset == 0 && name == "img_offset" then run.(imgOffset := Atoi64(value))
    else if run.fileOffset == 0 && name == "file_offset" then run.(fileOffset := Atoi64(value))
    else if run.len == 0 && name == "len" then run.(len := Atoi64(value))
    else if run.sectorSize == 0 && name == "sector_size" then run.(sectorSize := Atoi64(value))
    else run
  }

  function RunAttributes(run: ByteRun, attrs: Attributes): ByteRun
    decreases |attrs|
  {
    if attrs == [] then run else RunAttributes(Attribute(run, attrs[0].0, attrs[0].1), attrs[1..])
  }

  /** The character data that reaches the parser: files are read line by line, without the newlines. */
  function WithoutNewlines(s: string): string {
    if s == "" then "" else (if s[0] == '\n' then "" else [s[0]]) + WithoutNewlines(s[1..])
  }

  /** Newlines are dropped from character data, and nothing else. */
  lemma {:induction false} NewlinesAreDropped(s: string)
    ensures '\n' !in WithoutNewlines(s) && ('\n' !in s ==> WithoutNewlines(s) == s)
  {
    if s != "" {
      NewlinesAreDropped(s[1..]);
      assert s == [s[0]] + s[1..];
    }
  }

  lemma OneCharIsFed(c: char, rest: string)
    ensures WithoutNewlines([c] + rest) == (if c == '\n' then "" else [c]) + WithoutNewlines(rest)
  {
    assert ([c] + rest)[1..] == rest;
  }

  function Started(r0: Reader, name: string, attrs: Attributes): Reader {
    var r := r0.(cdata := "", tagStack := r0.tagStack + [name]);
    if name == "volume" then r.(volume := Some(Known(512)))
    else if name == "fileobject" then r.(file := Some(EMPTY_FILE))
    else if name == "hashdigest" then r.(hashdigestType := GetAttrs(attrs, "type"))
    else if r.file.Some? && (name == "run" || name == "byte_run") then
      r.(file := Some(r.file.value.(byteRuns := r.file.value.byteRuns + [RunAttributes(EMPTY_RUN, attrs)])))
    else r
  }

  function Top(s: seq<string>): string
    requires s != []
  {
    s[|s| - 1]
  }

  function WithDigest(f: FileObject, stack: seq<string>, alg: string, value: string): Option<FileObject>
    requires stack != []
  {
    if Top(stack) == "byte_run" then
      if f.byteRuns == [] then None
      else
        var last := f.byteRuns[|f.byteRuns| - 1];
        Some(f.(byteRuns := f.byteRuns[|f.byteRuns| - 1 := last.(hashdigest := last.hashdigest[alg := value])]))
    else if Top(stack) == "fileobject" then Some(f.(hashdigest := f.hashdigest[alg := value]))
    else Some(f)
  }

  function Ended(r0: Reader, name: string): Outcome {
    if r0.tagStack == [] then Crash
    else if Top(r0.tagStack) != name then MismatchExit
    else
      var r, cdata := r0.(tagStack := r0.tagStack[..|r0.tagStack| - 1], cdata := ""), r0.cdata;
      if name == "volume" then Reading(r.(volume := None))
      else if name == "block_size" && |r.tagStack| > 1 then
        if Top(r.tagStack) == "volume" then
          if r.volume.None? then Crash else Reading(r.(volume := Some(BlockSizeOf(cdata))))
        else Reading(r)
      else if name == "fileobject" then
        if r.file.None? then Crash else Reading(r.(file := None, delivered := r.delivered + [r.file.value]))
      else if name == "hashdigest" && |r.tagStack| > 0 then
        if Top(r.tagStack) != "byte_run" && Top(r.tagStack) != "fileobject" then Reading(r)
        else if r.file.None? then Crash
        else
          var f := WithDigest(r.file.value, r.tagStack, Lower(r.hashdigestType), cdata);
          if f.None? then Crash else Reading(r.(file := f))
      else if r.file.Some? then Reading(r.(file := Some(r.file.value.(tags := r.file.value.tags[name := cdata]))))
      else Reading(r)
  }

  // ---------------------------------------------------------------- what the transitions do

  /** What a start tag does: to every reader, and for the tags that mean something. */
  lemma StartsAre(r: Reader, name: string, attrs: Attributes)
    ensures
      var s := Started(r, name, attrs);
      && s.tagStack == r.tagStack + [name] && s.cdata == "" && s.delivered == r.delivered
      && s.volume == (if name == "volume" then Some(Known(512)) else r.volume)
      && s.hashdigestType == (if name == "hashdigest" then GetAttrs(attrs, "type") else r.hashdigestType)
      && (name == "fileobject" ==> s.file == Some(FileObject(map[], map[], [])))
      && (name != "fileobject" && (r.file.None? || name !in {"run", "byte_run"}) ==> s.file == r.file)
      && (r.file.Some? && name in {"run", "byte_run"} ==>
            var run := RunAttributes(ByteRun(0, 0, 0, 0, map[]), attrs);
            s.file == Some(r.file.value.(byteRuns := r.file.value.byteRuns + [run])))
  {
    hide GetAttrs, RunAttributes;
  }

  /** The attributes of a run: of each name the first that is not zero counts. */
  lemma AttributesAre(run: ByteRun, name: string, value: string, rest: Attributes)
    ensures RunAttributes(run, []) == run
    ensures
      var first := ByteRun(if name == "img_offset" && run.imgOffset == 0 then Atoi64(value) else run.imgOffset,
                           if name == "file_offset" && run.fileOffset == 0 then Atoi64(value) else run.fileOffset,
                           if name == "len" && run.len == 0 then Atoi64(value) else run.len,
                           if name == "sector_size" && run.sectorSize == 0 then Atoi64(value) else run.sectorSize,
                           run.hashdigest);
      RunAttributes(run, [(name, value)] + rest) == RunAttributes(first, rest)
  {
    hide Atoi64;
    assert ([(name, value)] + rest)[1..] == rest;
  }

  /** The first attribute of a name counts; without one the value is empty. */
  lemma GetAttrsIs(name: string, other: string, value: string, rest: Attributes)
    ensures GetAttrs([], name) == ""
    ensures GetAttrs([(other, value)] + rest, name) == if other == name then value else GetAttrs(rest, name)
  {
    assert ([(other, value)] + rest)[1..] == rest;
  }

  /** What an end tag does if it is the expected one. */
  lemma EndsAre(r: Reader, name: string, outer: seq<string>)
    requires r.tagStack == outer + [name]
    ensures
      var o, e := Ended(r, name), r.(tagStack := outer, cdata := "");
      var parent := if outer == [] then "" else outer[|outer| - 1];
      && (name == "volume" ==> o == Reading(e.(volume := None)))
      && (name == "block_size" && |outer| >= 2 && parent == "volume" ==>
            o == if r.volume.None? then Crash else Reading(e.(volume := Some(BlockSizeOf(r.cdata)))))
      && (name == "block_size" && |outer| >= 2 && parent != "volume" ==> o == Reading(e))
      && (name == "fileobject" ==>
            o == if r.file.None? then Crash
                 else Reading(e.(file := None, delivered := r.delivered + [r.file.value])))
      && (name == "hashdigest" && outer != [] && parent !in {"byte_run", "fileobject"} ==> o == Reading(e))
      && (name == "hashdigest" && outer != [] && parent in {"byte_run", "fileobject"} && r.file.None? ==> o == Crash)
      && (name == "hashdigest" && outer != [] && parent == "fileobject" && r.file.Some? ==>
            var f := r.file.value;
            o == Reading(e.(file := Some(f.(hashdigest := f.hashdigest[Lower(r.hashdigestType) := r.cdata])))))
      && (name == "hashdigest" && outer != [] && parent == "byte_run" && r.file.Some? && r.file.value.byteRuns == [] ==>
            o == Crash)
      && (name == "hashdigest" && outer != [] && parent == "byte_run" && r.file.Some? && r.file.value.byteRuns != [] ==>
            var f := r.file.value;
            var init, last := f.byteRuns[..|f.byteRuns| - 1], f.byteRuns[|f.byteRuns| - 1];
            var run := last.(hashdigest := last.hashdigest[Lower(r.hashdigestType) := r.cdata]);
            o == Reading(e.(file := Some(f.(byteRuns := init + [run])))))
      && (IsTag(name, outer) ==>
            o == if r.file.None? then Reading(e)
                 else Reading(e.(file := Some(r.file.value.(tags := r.file.value.tags[name := r.cdata])))))
  {
    hide Lower, BlockSizeOf;
    assert r.tagStack[..|r.tagStack| - 1] == outer;
    if name == "hashdigest" && outer != [] && r.file.Some? && r.file.value.byteRuns != [] {
      var runs, n := r.file.value.byteRuns, |r.file.value.byteRuns|;
      assert forall run: ByteRun :: runs[n - 1 := run] == runs[..n - 1] + [run];
    }
  }

  /** The tags that are kept for the file object, or dropped outside of one. */
  predicate IsTag(name: string, outer: seq<string>) {
    && name !in {"volume", "fileobject"}
    && (name == "block_size" ==> |outer| <= 1) && (name == "hashdigest" ==> outer == [])
  }

  /** An end tag that is not the expected one exits, and one without a start crashes. */
  lemma WrongEnds(r: Reader, name: string)
    ensures r.tagStack == [] ==> Ended(r, name) == Crash
    ensures r.tagStack != [] && r.tagStack[|r.tagStack| - 1] != name ==> Ended(r, name) == MismatchExit
  {
  }

  /** The numbers of 64 bits that are read from decimal text. */
  lemma NumbersOf64Bits(n: nat)
    ensures n < 0x8000_0000_0000_0000 ==> Atoi64(Decimal(n)) == n
    ensures 0x8000_0000_0000_0000 <= n < 0x1_0000_0000_0000_0000 ==>
      Atoi64(Decimal(n)) == n - 0x1_0000_0000_0000_0000
    ensures n >= 0x1_0000_0000_0000_0000 ==> Atoi64(Decimal(n)) == -1
  {
    SignedOfDecimal(n);
    hide SignedNumber, Decimal;
    Wraps(n);
  }

  lemma NegativesOf64Bits(n: nat)
    ensures n <= 0x8000_0000_0000_0000 ==> Atoi64("-" + Decimal(n)) + n == 0
    ensures 0x8000_0000_0000_0000 < n < 0x1_0000_0000_0000_0000 ==>
      Atoi64("-" + Decimal(n)) == 0x1_0000_0000_0000_0000 - n
    ensures n >= 0x1_0000_0000_0000_0000 ==> Atoi64("-" + Decimal(n)) == -1
  {
    MinusIsRead(n);
    hide SignedNumber, Decimal;
    Wraps(n);
  }

  lemma BlockSizes(n: nat)
    ensures BlockSizeOf(Decimal(n)) == if n <= 2_147_483_647 then Known(n) else Undefined
    ensures 0 < n <= 2_147_483_648 ==> BlockSizeOf("-" + Decimal(n)) == Known(0x1_0000_0000_0000_0000 - n)
    ensures 2_147_483_648 < n ==> BlockSizeOf("-" + Decimal(n)) == Undefined
  {
    MinusIsRead(n);
    SignedOfDecimal(n);
    hide SignedNumber;
    Wraps(n);
  }

  lemma MinusIsRead(n: nat)
    ensures SignedNumber("-" + Decimal(n)) + n == 0
  {
    hide Decimal;
    SignedNumbers('-', Decimal(n));
    NumberOfDecimal(n, "");
    assert Decimal(n) + "" == Decimal(n);
    assert ['-'] + Decimal(n) == "-" + Decimal(n);
  }

  lemma Wraps(n: nat)
    ensures n < 0x1_0000_0000_0000_0000 ==> n % 0x1_0000_0000_0000_0000 == n
    ensures 0 < n < 0x1_0000_0000_0000_0000 ==>
      (0 - n) % 0x1_0000_0000_0000_0000 == 0x1_0000_0000_0000_0000 - n
  {
  }

  /** The algorithm of a digest is kept in lower case. */
  lemma LowerIs(s: string, i: nat)
    requires i < |s|
    ensures Lower(s)[i] as int == s[i] as int + if 'A' <= s[i] <= 'Z' then 32 else 0
  {
  }

  function Feed(o: Outcome, e: Event): Outcome {
    if !o.Reading? then o
    else match e
      case StartTag(name, attrs) => Reading(Started(o.reader, name, attrs))
      case EndTag(name) => Ended(o.reader, name)
      case Chars(text) => Reading(o.reader.(cdata := o.reader.cdata + WithoutNewlines(text)))
  }

  function Feeds(o: Outcome, events: seq<Event>): Outcome {
    if events == [] then o else Feed(Feeds(o, events[..|events| - 1]), events[|events| - 1])
  }

  lemma {:induction false} FeedsParts(o: Outcome, a: seq<Event>, b: seq<Event>)
    ensures Feeds(o, a + b) == Feeds(Feeds(o, a), b)
  {
    hide Feed;
    if b == [] {
      assert a + b == a;
    } else {
      assert (a + b)[..|a + b| - 1] == a + b[..|b| - 1];
      FeedsParts(o, a, b[..|b| - 1]);
    }
  }

  lemma {:induction false} NewlinesOfParts(s: string, t: string)
    ensures WithoutNewlines(s + t) == WithoutNewlines(s) + WithoutNewlines(t)
  {
    if s == "" {
      assert s + t == t;
    } else {
      assert (s + t)[1..] == s[1..] + t;
      NewlinesOfParts(s[1..], t);
    }
  }

  lemma {:induction false} NothingRemoved(s: string)
    requires '\n' !in s
    ensures WithoutNewlines(s) == s
  {
    if s != "" {
      NothingRemoved(s[1..]);
    }
  }

  lemma OneEvent(o: Outcome, e: Event)
    ensures Feeds(o, [e]) == Feed(o, e)
  {
    assert [e][..0] == [];
  }

  /** A parser may cut character data anywhere. */
  lemma ChunksDoNotMatter(o: Outcome, a: seq<Event>, s: string, t: string, b: seq<Event>)
    ensures Feeds(o, a + [Chars(s + t)] + b) == Feeds(o, a + [Chars(s)] + [Chars(t)] + b)
  {
    hide Feeds;
    FeedsParts(o, a + [Chars(s + t)], b);
    FeedsParts(o, a, [Chars(s + t)]);
    FeedsParts(o, a + [Chars(s)] + [Chars(t)], b);
    FeedsParts(o, a + [Chars(s)], [Chars(t)]);
    FeedsParts(o, a, [Chars(s)]);
    var m := Feeds(o, a);
    OneEvent(m, Chars(s + t));
    OneEvent(m, Chars(s));
    OneEvent(Feed(m, Chars(s)), Chars(t));
    NewlinesOfParts(s, t);
    if m.Reading? {
      var c := m.reader.cdata;
      assert c + (WithoutNewlines(s) + WithoutNewlines(t)) == c + WithoutNewlines(s) + WithoutNewlines(t);
    }
  }

  lemma StackOfTags(r: Reader, name: string, attrs: Attributes)
    ensures Started(r, name, attrs).tagStack == r.tagStack + [name]
    ensures Ended(r, name).Reading? ==> r.tagStack != [] && Top(r.tagStack) == name
    ensures Ended(r, name).Reading? ==> Ended(r, name).reader.tagStack == r.tagStack[..|r.tagStack| - 1]
    ensures Ended(r, name).MismatchExit? ==> r.tagStack != [] && Top(r.tagStack) != name
  {
    hide GetAttrs, RunAttributes, WithDigest, Lower, BlockSizeOf;
  }

  /** The reader exits on a mismatch only if the events are not well nested; its stack holds the tags that are open. */
  lemma {:induction false} StackIsOpenTags(events: seq<Event>)
    ensures
      var o := Feeds(Reading(NEW_READER), events);
      && (o.Reading? ==> Open(events) == Some(o.reader.tagStack))
      && (o.MismatchExit? ==> Open(events).None?)
  {
    hide Started, Ended, WithoutNewlines;
    if events != [] {
      StackIsOpenTags(events[..|events| - 1]);
      var o, e := Feeds(Reading(NEW_READER), events[..|events| - 1]), events[|events| - 1];
      if o.Reading? && !e.Chars? {
        StackOfTags(o.reader, e.name, if e.StartTag? then e.attrs else []);
      }
    }
  }

  // ---------------------------------------------------------------- the object

  datatype Status = Continues | ExitsOnMismatch | Crashes

  ghost predicate Agrees(status: Status, r: Reader, o: Outcome) {
    match status
    case Continues => o == Reading(r)
    case ExitsOnMismatch => o == MismatchExit
    case Crashes => o == Crash
  }

  class FileObjectReader {
    var tagStack: seq<string>
    var cdata: string
    var volume: Option<BlockSize>
    var file: Option<FileObject>
    var hashdigestType: string
    /** The objects that the callback has received. */
    var delivered: seq<FileObject>

    function Fields(): Reader
      reads this
    {
      Reader(tagStack, cdata, volume, file, hashdigestType, delivered)
    }

    constructor ()
      ensures Fields() == NEW_READER
    {
      tagStack, cdata, volume, file, hashdigestType, delivered := [], "", None, None, "", [];
    }

    method StartElement(name: string, attrs: Attributes)
      modifies this
      ensures Fields() == Started(old(Fields()), name, attrs)
    {
      hide RunAttributes, GetAttrs;
      cdata := "";
      tagStack := tagStack + [name];
      if name == "volume" {
        volume := Some(Known(512));
      }
      if name == "fileobject" {
        file := Some(EMPTY_FILE);
        return;
      }
      if name == "hashdigest" {
        hashdigestType := GetAttrs(attrs, "type");
        return;
      }
      if file.Some? && (name == "run" || name == "byte_run") {
        var run := ReadRun(attrs);
        file := Some(file.value.(byteRuns := file.value.byteRuns + [run]));
      }
    }

    /** The loop over the attributes of a run. */
    static method ReadRun(attrs: Attributes) returns (run: ByteRun)
      ensures run == RunAttributes(EMPTY_RUN, attrs)
    {
      hide Atoi64;
      run := EMPTY_RUN;
      var i := 0;
      assert attrs[0..] == attrs;
      while i < |attrs|
        invariant i <= |attrs| && RunAttributes(run, attrs[i..]) == RunAttributes(EMPTY_RUN, attrs)
      {
        assert attrs[i..][1..] == attrs[i + 1..];
        var name, value := attrs[i].0, attrs[i].1;
        i := i + 1;
        if run.imgOffset == 0 && name == "img_offset" { run := run.(imgOffset := Atoi64(value)); continue; }
        if run.fileOffset == 0 && name == "file_offset" { run := run.(fileOffset := Atoi64(value)); continue; }
        if run.len == 0 && name == "len" { run := run.(len := Atoi64(value)); continue; }
        if run.sectorSize == 0 && name == "sector_size" { run := run.(sectorSize := Atoi64(value)); continue; }
      }
    }

    method EndElement(name: string) returns (status: Status)
      modifies this
      ensures Agrees(status, Fields(), Ended(old(Fields()), name))
    {
      hide BlockSizeOf, Lower;
      if tagStack == [] { return Crashes; }
      if Top(tagStack) != name { return ExitsOnMismatch; }
      tagStack := tagStack[..|tagStack| - 1];
      var text := cdata;
      cdata := "";
      if name == "volume" {
        volume := None;
        return Continues;
      }
      if name == "block_size" && |tagStack| > 1 {
        if Top(tagStack) == "volume" {
          if volume.None? { return Crashes; }
          volume := Some(BlockSizeOf(text));
        }
        return Continues;
      }
      if name == "fileobject" {
        if file.None? { return Crashes; }
        delivered := delivered + [file.value];
        file := None;
        return Continues;
      }
      if name == "hashdigest" && |tagStack| > 0 {
        status := EndDigest(Lower(hashdigestType), text);
        return;
      }
      if file.Some? {
        file := Some(file.value.(tags := file.value.tags[name := text]));
      }
      return Continues;
    }

    /** A digest belongs to the run or to the file that it is in. */
    method EndDigest(alg: string, text: string) returns (status: Status)
      requires tagStack != []
      modifies `file
      ensures Agrees(status, Fields(),
                if Top(tagStack) != "byte_run" && Top(tagStack) != "fileobject" then Reading(old(Fields()))
                else if old(file).None? then Crash
                else
                  var f := WithDigest(old(file).value, tagStack, alg, text);
                  if f.None? then Crash else Reading(old(Fields()).(file := f)))
    {
      if Top(tagStack) == "byte_run" {
        if file.None? || file.value.byteRuns == [] { return Crashes; }
        var f, n := file.value, |file.value.byteRuns| - 1;
        var last := f.byteRuns[n];
        file := Some(f.(byteRuns := f.byteRuns[n := last.(hashdigest := last.hashdigest[alg := text])]));
      }
      if Top(tagStack) == "fileobject" {
        if file.None? { return Crashes; }
        file := Some(file.value.(hashdigest := file.value.hashdigest[alg := text]));
      }
      return Continues;
    }

    method CharacterData(text: string)
      modifies `cdata
      ensures Fields() == old(Fields()).(cdata := old(cdata) + WithoutNewlines(text))
    {
      cdata := cdata + WithoutNewlines(text);
    }
  }

  /** `read_dfxml`, from the events on that were written; it ends at the first text that the parser rejects. */
  method ReadDfxml(events: seq<Event>) returns (o: Outcome)
    ensures o == Feeds(Reading(NEW_READER), Parsed(events))
  {
    hide Started, Ended, Acceptable, Feeds;
    var r := new FileObjectReader();
    NothingFed(Reading(NEW_READER));
    var i := 0;
    while i < |events|
      invariant i <= |events| && fresh(r) && AllAcceptable(events[..i])
      invariant Reading(r.Fields()) == Feeds(Reading(NEW_READER), events[..i])
    {
      if !Acceptable(events[i]) {
        ParsedUpTo(events, i);
        return Reading(r.Fields());
      }
      assert events[..i + 1] == events[..i] + [events[i]];
      FedOneMore(Reading(NEW_READER), events[..i], events[i]);
      var status := Handle(r, events[i]);
      i := i + 1;
      if status != Continues {
        EndsEarly(Reading(NEW_READER), events, i);
        return if status == Crashes then Crash else MismatchExit;
      }
    }
    AllIsParsed(events);
    assert events[..i] == events;
    o := Reading(r.Fields());
  }

  /** One event is handled by its handler. */
  method Handle(r: FileObjectReader, e: Event) returns (status: Status)
    modifies r
    ensures Agrees(status, r.Fields(), Feed(Reading(old(r.Fields())), e))
  {
    hide Started, Ended;
    match e {
      case StartTag(name, attrs) => r.StartElement(name, attrs);
      case EndTag(name) =>
        status := r.EndElement(name);
        return;
      case Chars(text) => r.CharacterData(text);
    }
    status := Continues;
  }

  lemma NothingFed(o: Outcome)
    ensures Feeds(o, []) == o
  {
  }

  lemma FedOneMore(o: Outcome, events: seq<Event>, e: Event)
    ensures Feeds(o, events + [e]) == Feed(Feeds(o, events), e)
  {
    assert (events + [e])[..|events|] == events;
  }

  lemma EndsEarly(o: Outcome, events: seq<Event>, i: nat)
    requires i <= |events| && AllAcceptable(events[..i]) && !Feeds(o, events[..i]).Reading?
    ensures Feeds(o, Parsed(events)) == Feeds(o, events[..i])
  {
    hide Feeds, Acceptable;
    ParsedGoesOn(events, i);
    assert Parsed(events)[..i] == events[..i];
    NothingAfter(o, Parsed(events), i);
  }

  lemma {:induction false} ParsedGoesOn(events: seq<Event>, i: nat)
    requires i <= |events| && AllAcceptable(events[..i])
    ensures |Parsed(events)| >= i
  {
    if i < |events| {
      assert events[..|events| - 1][..i] == events[..i];
      ParsedGoesOn(events[..|events| - 1], i);
    } else {
      assert events[..i] == events;
      AllIsParsed(events);
    }
  }

  /** After an exit or a crash nothing more is read. */
  lemma {:induction false} NothingAfter(o: Outcome, events: seq<Event>, i: nat)
    requires i <= |events| && !Feeds(o, events[..i]).Reading?
    ensures Feeds(o, events) == Feeds(o, events[..i])
  {
    if i < |events| {
      assert events[..|events| - 1][..i] == events[..i];
      NothingAfter(o, events[..|events| - 1], i);
    } else {
      assert events[..i] == events;
    }
  }
}
