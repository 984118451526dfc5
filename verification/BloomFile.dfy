/** Filters in files: `nsrl_bloom_write` and `nsrl_bloom_open`. */
module BloomFile {
  import opened Bits
  import opened Bloom
  import opened BloomHeader
  import opened BloomSpec
  import opened Decimals
  import opened Offsets
  import opened Options

  // ---------------------------------------------------------------- what a file holds

  function ToByte(c: char): byte {
    (c as int % 256) as byte
  }

  function ToChar(b: byte): char {
    b as int as char
  }

  function Bytes(s: string): (b: seq<byte>)
    ensures |b| == |s|
  {
    seq(|s|, i requires 0 <= i < |s| => ToByte(s[i]))
  }

  function Chars(b: seq<byte>): (s: string)
    ensures |s| == |b|
  {
    seq(|b|, i requires 0 <= i < |b| => ToChar(b[i]))
  }

  lemma CharIsItsByte(c: char)
    requires c as int < 256
    ensures ToChar(ToByte(c)) == c
  {
    NumberIsItsByte(c as int);
  }

  lemma CharsOfBytes(s: string)
    requires forall c | c in s :: c as int < 256
    ensures Chars(Bytes(s)) == s
  {
    hide ToByte, ToChar;
    forall i | 0 <= i < |s| ensures ToChar(ToByte(s[i])) == s[i] {
      assert s[i] in s;
      CharIsItsByte(s[i]);
    }
  }

  /** The header page, then the vector. */
  function FileOf(p: Params, vector: seq<byte>): seq<byte> {
    Bytes(Page(p)) + vector
  }

  datatype OpenResult = Opened(header: Header, vector: seq<byte>) | Invalid | ExitUnknownDigest | BadMapping

  /** What `nsrl_bloom_open` makes of a file. A vector larger than the file, or a shift by a count that is out of
      range, is a bad mapping. */
  function OpenOf(data: seq<byte>, overflow: int -> int): OpenResult {
    if |data| < PAGE then Invalid
    else OpenParsed(data, Parse(CText(Chars(data[..PAGE])), CLEARED, overflow))
  }

  function OpenParsed(data: seq<byte>, h: Header): OpenResult
    requires |data| >= PAGE
  {
    if h.hashBytes !in {16, 20, 32} then OpenResult.ExitUnknownDigest
    else if h.version != 2 || h.hashBytes == 0 || h.M == 0 || h.k == 0 then Invalid
    else if h.M < 3 || h.M > 63 || |data| < PAGE + Pow2(h.M - 3) then BadMapping
    else Opened(h, data[PAGE..PAGE + Pow2(h.M - 3)])
  }

  /** Which files are opened: the header is their first 4096 bytes, and the vector what follows. */
  lemma OpenedExactly(data: seq<byte>, overflow: int -> int)
    ensures |data| < 4096 ==> OpenOf(data, overflow) == Invalid
    ensures |data| >= 4096 ==>
      var h := Parse(CText(Chars(data[..4096])), CLEARED, overflow);
      && (OpenOf(data, overflow) == OpenResult.ExitUnknownDigest <==> h.hashBytes !in {16, 20, 32})
      && (h.hashBytes in {16, 20, 32} ==>
            && (OpenOf(data, overflow) == Invalid <==> h.version != 2 || h.M == 0 || h.k == 0)
            && (OpenOf(data, overflow).Opened? <==>
                  h.version == 2 && 3 <= h.M <= 63 && h.k > 0 && |data| >= 4096 + Pow2(h.M - 3)))
      && (OpenOf(data, overflow).Opened? ==>
            OpenOf(data, overflow) == Opened(h, data[4096..4096 + Pow2(h.M - 3)]))
  {
    hide Parse, CText, Chars, Pow2;
  }

  /** The vector starts at byte 4096 of the file. */
  lemma VectorOffset(p: Params, vector: seq<byte>)
    ensures |FileOf(p, vector)| == 4096 + |vector| && FileOf(p, vector)[4096..] == vector
    ensures |Info(p)| < 4096 ==> FileOf(p, vector)[..|Info(p)|] == Bytes(Info(p))
    ensures |Info(p)| >= 4096 ==> FileOf(p, vector)[..4095] == Bytes(Info(p)[..4095])
    ensures forall i | |Info(p)| <= i < 4096 || i == 4095 :: FileOf(p, vector)[i] == 0
  {
    hide Info, ToByte;
    ZeroChar();
  }

  lemma ZeroChar()
    ensures ToByte('\0') == 0
  {
    assert '\0' as int == 0;
  }

  /** The header with every field of the filter. */
  function HeaderOf(p: Params): Header {
    Header(2, p.hashBytes, p.M, p.k, p.added, p.unique, p.aliased, Some(p.comment))
  }

  // ---------------------------------------------------------------- write, then open

  /** A filter as the program can hold it: fields of the C types, and parameters in range. */
  ghost predicate Proper(p: Params, vector: seq<byte>) {
    && 3 <= p.M <= 63 && |vector| == Pow2(p.M - 3)
    && p.hashBytes < TWO_TO_THE_32 && p.k < TWO_TO_THE_32
    && p.added < TWO_TO_THE_64 && p.unique < TWO_TO_THE_64 && p.aliased < TWO_TO_THE_64
    && Plain(p.comment)
  }

  lemma ProperIs(p: Params, vector: seq<byte>)
    ensures Proper(p, vector)
       <==> && 3 <= p.M <= 63 && |vector| == Pow2(p.M - 3)
            && p.hashBytes < 0x1_0000_0000 && p.k < 0x1_0000_0000
            && p.added < 0x1_0000_0000_0000_0000 && p.unique < 0x1_0000_0000_0000_0000
            && p.aliased < 0x1_0000_0000_0000_0000
            && forall c | c in p.comment :: 0 < c as int < 256
  {
  }

  /** Which filters are storable. */
  lemma StorableIs(p: Params)
    ensures Storable(p)
       <==> && p.hashBytes in {16, 20, 32} && 0 < p.k <= 2_147_483_647
            && p.added <= 2_147_483_647 && p.unique <= 2_147_483_647 && p.aliased <= 2_147_483_647
            && '\n' !in p.comment && |Info(p)| <= 4096
  {
    hide Info;
  }

  /** The numbers are ints for `atoi`, the comment is one line, and all but the last newline fits in the page. */
  predicate Storable(p: Params) {
    && p.hashBytes in {16, 20, 32}
    && 0 < p.k <= INT_MAX
    && p.added <= INT_MAX && p.unique <= INT_MAX && p.aliased <= INT_MAX
    && '\n' !in p.comment
    && |Info(p)| <= PAGE
  }

  lemma TwentyDigits()
    ensures Pow10(20) == 100_000_000_000_000_000_000
  {
    assert Pow10(10) == 10_000_000_000;
  }

  lemma WrittenPage(p: Params, vector: seq<byte>, overflow: int -> int)
    requires Plain(p.comment)
    ensures |FileOf(p, vector)| == PAGE + |vector|
    ensures OpenOf(FileOf(p, vector), overflow)
              == OpenParsed(FileOf(p, vector), Parse(CText(Page(p)), CLEARED, overflow))
  {
    hide Page, Parse, CText, OpenParsed, Bytes, Chars;
    assert FileOf(p, vector)[..PAGE] == Bytes(Page(p));
    PageIsPlain(p);
    CharsOfBytes(Page(p));
  }

  lemma PageIsPlain(p: Params)
    requires Plain(p.comment)
    ensures forall c | c in Page(p) :: c as int < 256
  {
    InfoIsPlain(p);
    hide Info;
    assert forall c | c in Cut(Info(p)) :: c in Info(p);
  }

  /** Whatever `atoi` makes of numbers that are no ints, the opened filter is the written one: exactly for
      the filters that are storable. */
  lemma ReopenedIsWritten(p: Params, vector: seq<byte>)
    requires Proper(p, vector)
    ensures Storable(p)
       <==> forall overflow: int -> int :: OpenOf(FileOf(p, vector), overflow) == Opened(HeaderOf(p), vector)
  {
    hide FileOf, OpenOf, HeaderOf, Storable;
    if Storable(p) {
      forall overflow: int -> int ensures OpenOf(FileOf(p, vector), overflow) == Opened(HeaderOf(p), vector) {
        StorableIsReopened(p, vector, overflow);
      }
    }
    if forall overflow: int -> int :: OpenOf(FileOf(p, vector), overflow) == Opened(HeaderOf(p), vector) {
      OnlyStorableIsReopened(p, vector);
    }
  }

  lemma StorableIsReopened(p: Params, vector: seq<byte>, overflow: int -> int)
    requires Proper(p, vector) && Storable(p)
    ensures OpenOf(FileOf(p, vector), overflow) == Opened(HeaderOf(p), vector)
  {
    hide FileOf, OpenOf, Parse, Page, Head, CText, Pow2, HeadRead, Kept, HeaderOf, Info;
    TwentyDigits();
    HeadLength(p);
    WrittenPage(p, vector, overflow);
    PageIsParsed(p, overflow);
    FieldsAreRead(p, overflow);
    VectorIsBehindPage(p, vector);
    HeaderFields(p);
  }

  lemma HeaderFields(p: Params)
    ensures HeaderOf(p).hashBytes == p.hashBytes && HeaderOf(p).M == p.M && HeaderOf(p).k == p.k
    ensures HeaderOf(p).version == 2
  {
  }

  lemma FieldsAreRead(p: Params, overflow: int -> int)
    requires Storable(p) && p.M <= 63
    ensures HeadRead(p, overflow).(comment := Some(Kept(Head(p), p.comment))) == HeaderOf(p)
  {
    hide Head, Info;
    InfoLength(p);
  }

  lemma InfoLength(p: Params)
    ensures |Info(p)| == |Head(p)| + 9 + |p.comment|
  {
    hide Head;
  }

  lemma VectorIsBehindPage(p: Params, vector: seq<byte>)
    ensures |FileOf(p, vector)| == PAGE + |vector| && FileOf(p, vector)[PAGE..PAGE + |vector|] == vector
  {
    hide Page;
  }

  lemma OnlyStorableIsReopened(p: Params, vector: seq<byte>)
    requires Proper(p, vector)
    requires forall overflow: int -> int :: OpenOf(FileOf(p, vector), overflow) == Opened(HeaderOf(p), vector)
    ensures Storable(p)
  {
    hide FileOf, OpenOf, Parse, Page, Head, CText, Pow2;
    var zero: int -> int := n => 0;
    assert OpenOf(FileOf(p, vector), zero) == Opened(HeaderOf(p), vector);
    WrittenPage(p, vector, zero);
    ParsedCommentIsOneLine(CText(Page(p)), CLEARED, zero);
    TwentyDigits();
    HeadLength(p);
    PageIsParsed(p, zero);
    InfoLength(p);
  }

  // ---------------------------------------------------------------- files

  /** The data of a file after `b` is written at an offset; a gap before the offset reads as zeros. */
  function Overwritten(d: seq<byte>, at: nat, b: seq<byte>): seq<byte> {
    (if at <= |d| then d[..at] else d + seq(at - |d|, _ => 0)) + b + (if at + |b| <= |d| then d[at + |b|..] else [])
  }

  /** An open file. */
  class DiskFile {
    var data: seq<byte>
    var position: nat

    constructor ()
      ensures data == [] && position == 0
    {
      data, position := [], 0;
    }

    method Lseek(offset: nat)
      modifies `position
      ensures position == offset
    {
      position := offset;
    }

    method Write(b: seq<byte>)
      modifies this
      ensures data == Overwritten(old(data), old(position), b) && position == old(position) + |b|
    {
      data := Overwritten(data, position, b);
      position := position + |b|;
    }
  }

  function ParamsOf(b: NSRLBloom): Params
    reads b
  {
    Params(b.hashBytes, b.M, b.k, b.addedItems, b.uniqueAddedItems, b.aliasedAdds, b.comment)
  }

  /** `nsrl_bloom_info_update`: the header page is written over the start of the file. */
  method InfoUpdate(b: NSRLBloom, file: DiskFile)
    modifies file
    ensures file.data == Overwritten(old(file.data), 0, Bytes(Page(ParamsOf(b)))) && file.position == PAGE
  {
    file.Lseek(0);
    file.Write(Bytes(Page(ParamsOf(b))));
  }

  const MEGABYTE: nat := 1024 * 1024

  /** `nsrl_bloom_write` to a file that it has just created: the header, then the vector, at most 1 MB at a time. */
  method BloomWrite(b: NSRLBloom, file: DiskFile)
    requires file.data == []
    modifies file
    ensures file.data == FileOf(ParamsOf(b), b.vector[..])
  {
    hide Page, Bytes;
    InfoUpdate(b, file);
    file.Lseek(PAGE);
    ghost var page := file.data;
    var written := 0;
    while written < b.vector.Length
      invariant written <= b.vector.Length
      invariant |page| == PAGE && file.data == page + b.vector[..written]
      invariant file.position == PAGE + written
    {
      var towrite := b.vector.Length - written;
      if towrite > MEGABYTE { towrite := MEGABYTE; }
      file.Write(b.vector[written..written + towrite]);
      assert b.vector[..written + towrite] == b.vector[..written] + b.vector[written..written + towrite];
      written := written + towrite;
    }
    assert b.vector[..b.vector.Length] == b.vector[..];
  }

  /** The header of an open file: lines are cut off the page until none is left. */
  method ReadHeader(page: string, overflow: int -> int) returns (h: Header)
    ensures h == Parse(CText(page), CLEARED, overflow)
  {
    hide ApplyLine;
    h := CLEARED;
    var buf := CText(page);
    var more := true;
    while more
      invariant (if more then Parse(buf, h, overflow) else h) == Parse(CText(page), CLEARED, overflow)
      decreases more, |buf|
    {
      var e := IndexOf(buf, '\n');
      h := ApplyLine(h, buf[..e], overflow);
      if e < |buf| {
        buf := buf[e + 1..];
      } else {
        assert buf[..e] == buf;
        more := false;
      }
    }
  }

  /** `nsrl_bloom_open`. */
  method BloomOpen(file: DiskFile, overflow: int -> int) returns (r: OpenResult)
    ensures r == OpenOf(file.data, overflow)
  {
    hide Parse;
    if |file.data| < PAGE { return Invalid; }
    var h := ReadHeader(Chars(file.data[..PAGE]), overflow);
    if h.hashBytes !in {16, 20, 32} { return OpenResult.ExitUnknownDigest; }
    if h.version != 2 { return Invalid; }
    if h.hashBytes == 0 || h.M == 0 || h.k == 0 { return Invalid; }
    if h.M < 3 || h.M > 63 || |file.data| < PAGE + Pow2(h.M - 3) { return BadMapping; }
    r := Opened(h, file.data[PAGE..PAGE + Pow2(h.M - 3)]);
  }

  /** A filter that is written and opened again has the same parameters and state, so it gives the same answers. */
  method WriteAndOpen(b: NSRLBloom, overflow: int -> int) returns (c: NSRLBloom)
    requires b.Valid() && Proper(ParamsOf(b), b.vector[..]) && Storable(ParamsOf(b))
    ensures c.hashBytes == b.hashBytes && c.M == b.M && c.k == b.k && c.comment == b.comment
    ensures c.Valid() && c.State() == b.State()
  {
    hide FileOf, OpenOf, Storable;
    var file := new DiskFile();
    BloomWrite(b, file);
    var r := BloomOpen(file, overflow);
    StorableIsReopened(ParamsOf(b), b.vector[..], overflow);
    var h := r.header;
    c := new NSRLBloom.Mapped(h.hashBytes, h.M, h.k, h.comment.value, (h.added, h.unique, h.aliased), r.vector);
    assert |c.vector[..]| == c.vector.Length;
  }

  // ---------------------------------------------------------------- adding to a filter in a file

  /** The header fields of a filter with these counters. */
  ghost function ParamsWith(b: NSRLBloom, f: Filter): Params {
    Params(b.hashBytes, b.M, b.k, f.added, f.unique, f.aliased, b.comment)
  }

  /** The vector is mapped, so what is written to it is in the file; the header is not. */
  method SyncVector(b: NSRLBloom, file: DiskFile, ghost p: Params)
    requires |file.data| >= PAGE && file.data[..PAGE] == Bytes(Page(p))
    modifies file
    ensures file.data == FileOf(p, b.vector[..])
  {
    file.data := file.data[..PAGE] + b.vector[..];
  }

  /** `nsrl_bloom_add` to a filter in a file: the header is written after every 1000 adds only. */
  method AddInFile(b: NSRLBloom, file: DiskFile, hash: Hash, ghost f: Filter)
    requires b.Valid() && |hash| == b.hashBytes && file.data == FileOf(ParamsWith(b, f), b.vector[..])
    modifies b`addedItems, b`uniqueAddedItems, b`aliasedAdds, b.vector, file
    ensures Sliceable(hash, b.M, b.k) && b.State() == Added(old(b.State()), Slices(hash, b.M, b.k), b.k)
    ensures file.data == FileOf(ParamsWith(b, if b.addedItems % 1000 == 0 then b.State() else f), b.vector[..])
  {
    hide Page, Bytes, Slices, Added, BitSet;
    PageIsFirst(ParamsWith(b, f), b.vector[..]);
    b.Add(hash);
    SyncVector(b, file, ParamsWith(b, f));
    if b.addedItems % 1000 == 0 {
      InfoUpdate(b, file);
      assert file.data == FileOf(ParamsOf(b), b.vector[..]);
    }
  }

  lemma PageIsFirst(p: Params, vector: seq<byte>)
    ensures |FileOf(p, vector)| >= PAGE && FileOf(p, vector)[..PAGE] == Bytes(Page(p))
  {
    hide Page;
  }

  /** The adds whose counters are in the header. */
  ghost function Counted(hashes: seq<Hash>): (h: seq<Hash>) {
    hashes[..|hashes| - |hashes| % 1000]
  }

  lemma OneMoreCounted(hashes: seq<Hash>, h: Hash)
    ensures Counted(hashes + [h]) == if (|hashes| + 1) % 1000 == 0 then hashes + [h] else Counted(hashes)
  {
    var n := |hashes|;
    if (n + 1) % 1000 != 0 {
      assert (n + 1) % 1000 == n % 1000 + 1;
    }
  }

  lemma CountedFits(hashes: seq<Hash>, bytes: nat, M: nat, k: nat)
    requires Fits(hashes, bytes, M, k)
    ensures Fits(Counted(hashes), bytes, M, k)
  {
    hide Offset;
  }

  lemma {:induction false} AddsAreCounted(hashes: seq<Hash>, bytes: nat, M: nat, k: nat)
    requires Fits(hashes, bytes, M, k)
    ensures AfterAdds(hashes, bytes, M, k).added == |hashes|
  {
    hide Slices, Offset;
    if |hashes| > 0 {
      AddsAreCounted(hashes[..|hashes| - 1], bytes, M, k);
    }
  }

  /** Filter and file after these hashes have been added to a new filter in the file. */
  ghost predicate HasAdded(b: NSRLBloom, file: DiskFile, hashes: seq<Hash>)
    reads b, b.vector, file
  {
    && Fits(hashes, b.hashBytes, b.M, b.k) && Fits(Counted(hashes), b.hashBytes, b.M, b.k)
    && b.State() == AfterAdds(hashes, b.hashBytes, b.M, b.k)
    && file.data == FileOf(ParamsWith(b, AfterAdds(Counted(hashes), b.hashBytes, b.M, b.k)), b.vector[..])
  }

  method AddNext(b: NSRLBloom, file: DiskFile, h: Hash, ghost hashes: seq<Hash>)
    requires b.Valid() && |h| == b.hashBytes && HasAdded(b, file, hashes)
    modifies b`addedItems, b`uniqueAddedItems, b`aliasedAdds, b.vector, file
    ensures HasAdded(b, file, hashes + [h])
  {
    hide FileOf, Slices, Added, NSRLBloom.State, Offset, AfterAdds, Counted;
    AfterOneMore(hashes, h, b.hashBytes, b.M, b.k);
    CountedFits(hashes + [h], b.hashBytes, b.M, b.k);
    OneMoreCounted(hashes, h);
    AddsAreCounted(hashes + [h], b.hashBytes, b.M, b.k);
    AddInFile(b, file, h, AfterAdds(Counted(hashes), b.hashBytes, b.M, b.k));
    AddedIsCounted(b);
  }

  /** A new filter is created in a file, and hashes are added. */
  method CreateAndAdd(b: NSRLBloom, hashes: seq<Hash>) returns (file: DiskFile)
    requires b.Valid() && b.State() == EMPTY && Fits(hashes, b.hashBytes, b.M, b.k)
    modifies b`addedItems, b`uniqueAddedItems, b`aliasedAdds, b.vector
    ensures fresh(file) && HasAdded(b, file, hashes)
  {
    hide HasAdded, FileOf, NSRLBloom.Valid, NSRLBloom.State, AfterAdds;
    file := new DiskFile();
    BloomWrite(b, file);
    NothingAdded(b, file);
    AddAll(b, file, hashes);
  }

  method AddAll(b: NSRLBloom, file: DiskFile, hashes: seq<Hash>)
    requires b.Valid() && HasAdded(b, file, []) && forall i | 0 <= i < |hashes| :: |hashes[i]| == b.hashBytes
    modifies b`addedItems, b`uniqueAddedItems, b`aliasedAdds, b.vector, file
    ensures HasAdded(b, file, hashes)
  {
    hide HasAdded, NSRLBloom.Valid;
    assert hashes[..0] == [];
    for i := 0 to |hashes|
      invariant HasAdded(b, file, hashes[..i])
    {
      assert hashes[..i + 1] == hashes[..i] + [hashes[i]];
      AddNext(b, file, hashes[i], hashes[..i]);
    }
    assert hashes[..|hashes|] == hashes;
  }

  lemma NothingAdded(b: NSRLBloom, file: DiskFile)
    requires b.Valid() && b.State() == EMPTY && file.data == FileOf(ParamsOf(b), b.vector[..])
    requires Fits([], b.hashBytes, b.M, b.k)
    ensures HasAdded(b, file, [])
  {
    hide FileOf, NSRLBloom.Valid;
    assert Counted([]) == [];
  }

  lemma AddedIsCounted(b: NSRLBloom)
    ensures b.State().added == b.addedItems
  {
  }

  /** Closing the filter does not write its header: the counters in the file are the current ones exactly after a
      multiple of 1000 adds. The bits are always the current ones. */
  lemma FileCountsThousands(b: NSRLBloom, hashes: seq<Hash>)
    requires Fits(hashes, b.hashBytes, b.M, b.k)
    ensures Fits(Counted(hashes), b.hashBytes, b.M, b.k)
    ensures ParamsWith(b, AfterAdds(Counted(hashes), b.hashBytes, b.M, b.k))
              == ParamsWith(b, AfterAdds(hashes, b.hashBytes, b.M, b.k))
       <==> |hashes| % 1000 == 0
  {
    hide AfterAdds, Offset;
    CountedFits(hashes, b.hashBytes, b.M, b.k);
    AddsAreCounted(hashes, b.hashBytes, b.M, b.k);
    AddsAreCounted(Counted(hashes), b.hashBytes, b.M, b.k);
    if |hashes| % 1000 == 0 { assert Counted(hashes) == hashes; }
  }
}
