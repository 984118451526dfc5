/** The textual header of a filter file: printing it (`nsrl_bloom_info`) and reading it back (`nsrl_bloom_open`). */
module BloomHeader {
  import opened Bits
  import opened Decimals
  import opened Options

  /** BLOOM_VECTOR_OFFSET, the size of the header page. */
  const PAGE: nat := 4096

  datatype Params = Params(hashBytes: nat, M: nat, k: nat, added: nat, unique: nat, aliased: nat, comment: string)

  // ---------------------------------------------------------------- text

  function IndexOf(s: string, c: char): (i: nat)
    ensures i <= |s| && c !in s[..i]
    ensures i < |s| ==> s[i] == c
  {
    if s == "" || s[0] == c then 0 else
      var i := 1 + IndexOf(s[1..], c);
      assert s[..i] == [s[0]] + s[1..][..i - 1];
      i
  }

  lemma {:induction false} IndexIs(s: string, rest: string, c: char)
    requires c !in s
    ensures IndexOf(s + [c] + rest, c) == |s| && IndexOf(s, c) == |s|
    ensures (s + [c] + rest)[..|s|] == s && (s + [c] + rest)[|s| + 1..] == rest
  {
    if s != "" {
      IndexIs(s[1..], rest, c);
      assert (s + [c] + rest)[1..] == s[1..] + [c] + rest;
    }
  }

  function Line(key: string, value: string): string {
    key + [':'] + value + ['\n']
  }

  /** The lines before the comment. */
  function Head(p: Params): string {
    Shape(p) + Counters(p)
  }

  function Shape(p: Params): string {
    Line("nsrl_bf_version", "2") + Line("hash_bits", Decimal(8 * p.hashBytes % TWO_TO_THE_32))
    + Line("bloom_bits", Decimal(p.M)) + Line("k", Decimal(p.k))
  }

  function Counters(p: Params): string {
    Line("added_items", Decimal(p.added)) + Line("unique_added_items", Decimal(p.unique))
      + Line("aliased_adds", Decimal(p.aliased))
  }

  /** `nsrl_bloom_info`, before it is cut. */
  function Info(p: Params): string {
    Head(p) + Line("comment", p.comment)
  }

  /** The whole text. */
  lemma InfoIsText(p: Params)
    ensures Info(p)
         == ("nsrl_bf_version:2\n" + ("hash_bits:" + Decimal(8 * p.hashBytes % 0x1_0000_0000) + "\n")
             + ("bloom_bits:" + Decimal(p.M) + "\n") + ("k:" + Decimal(p.k) + "\n"))
          + (("added_items:" + Decimal(p.added) + "\n") + ("unique_added_items:" + Decimal(p.unique) + "\n")
             + ("aliased_adds:" + Decimal(p.aliased) + "\n"))
          + ("comment:" + p.comment + "\n")
  {
    hide Decimal;
    LinesAre("2");
    LinesAre(Decimal(8 * p.hashBytes % TWO_TO_THE_32));
    LinesAre(Decimal(p.M));
    LinesAre(Decimal(p.k));
    LinesAre(Decimal(p.added));
    LinesAre(Decimal(p.unique));
    LinesAre(Decimal(p.aliased));
    LinesAre(p.comment);
    assert "nsrl_bf_version:" + "2" + "\n" == "nsrl_bf_version:2\n";
    hide Line;
  }

  lemma LinesAre(v: string)
    ensures Line("nsrl_bf_version", v) == "nsrl_bf_version:" + v + "\n"
    ensures Line("hash_bits", v) == "hash_bits:" + v + "\n" && Line("bloom_bits", v) == "bloom_bits:" + v + "\n"
    ensures Line("k", v) == "k:" + v + "\n" && Line("added_items", v) == "added_items:" + v + "\n"
    ensures Line("unique_added_items", v) == "unique_added_items:" + v + "\n"
    ensures Line("aliased_adds", v) == "aliased_adds:" + v + "\n" && Line("comment", v) == "comment:" + v + "\n"
  {
    LineIs("nsrl_bf_version", "nsrl_bf_version:", v);
    LineIs("hash_bits", "hash_bits:", v);
    LineIs("bloom_bits", "bloom_bits:", v);
    LineIs("k", "k:", v);
    LineIs("added_items", "added_items:", v);
    LineIs("unique_added_items", "unique_added_items:", v);
    LineIs("aliased_adds", "aliased_adds:", v);
    LineIs("comment", "comment:", v);
    hide Line;
  }

  lemma LineIs(key: string, start: string, v: string)
    requires start == key + ":"
    ensures Line(key, v) == start + v + "\n"
  {
  }

  /** What `snprintf` leaves in a page: at most 4095 characters, here followed by zeros. */
  function Page(p: Params): (page: string)
    ensures |page| == PAGE
  {
    var text := Cut(Info(p));
    text + seq(PAGE - |text|, _ => '\0')
  }

  function Cut(text: string): (t: string)
    ensures |t| < PAGE
  {
    if |text| < PAGE then text else text[..PAGE - 1]
  }

  // ---------------------------------------------------------------- reading

  datatype Header = Header(version: int, hashBytes: nat, M: nat, k: nat, added: nat, unique: nat, aliased: nat,
                           comment: Option<string>)

  /** A new filter has zeros everywhere. */
  const CLEARED := Header(0, 0, 0, 0, 0, 0, 0, None)

  /** `(unsigned)atoi(s)`. */
  function Unsigned(s: string, overflow: int -> int): nat {
    Atoi(s, overflow) % TWO_TO_THE_32
  }

  function Assign(h: Header, key: string, value: string, overflow: int -> int): Header {
    if key == "nsrl_bf_version" then h.(version := Atoi(value, overflow))
    else if key == "hash_bits" then h.(hashBytes := Unsigned(value, overflow) / 8)
    else if key == "bloom_bits" then h.(M := Unsigned(value, overflow))
    else if key == "k" then h.(k := Unsigned(value, overflow))
    else if key == "added_items" then h.(added := Unsigned(value, overflow))
    else if key == "unique_added_items" then h.(unique := Unsigned(value, overflow))
    else if key == "aliased_adds" then h.(aliased := Unsigned(value, overflow))
    else if key == "comment" then h.(comment := Some(value))
    else h
  }

  /** The keys, and what is done with the value of each. */
  lemma ValuesAreAssigned(h: Header, value: string, overflow: int -> int)
    ensures Assign(h, "nsrl_bf_version", value, overflow) == h.(version := Atoi(value, overflow))
    ensures Assign(h, "hash_bits", value, overflow) == h.(hashBytes := Atoi(value, overflow) % 0x1_0000_0000 / 8)
    ensures Assign(h, "bloom_bits", value, overflow) == h.(M := Atoi(value, overflow) % 0x1_0000_0000)
    ensures Assign(h, "k", value, overflow) == h.(k := Atoi(value, overflow) % 0x1_0000_0000)
    ensures Assign(h, "added_items", value, overflow) == h.(added := Atoi(value, overflow) % 0x1_0000_0000)
    ensures Assign(h, "unique_added_items", value, overflow) == h.(unique := Atoi(value, overflow) % 0x1_0000_0000)
    ensures Assign(h, "aliased_adds", value, overflow) == h.(aliased := Atoi(value, overflow) % 0x1_0000_0000)
    ensures Assign(h, "comment", value, overflow) == h.(comment := Some(value))
  {
    hide Atoi;
  }

  /** Any other line changes nothing. */
  lemma OtherKeysAreIgnored(h: Header, key: string, value: string, overflow: int -> int)
    requires key !in {"nsrl_bf_version", "hash_bits", "bloom_bits", "k", "added_items", "unique_added_items",
                      "aliased_adds", "comment"}
    ensures Assign(h, key, value, overflow) == h
  {
  }

  /** One line: the text before its first colon is the key. */
  function ApplyLine(h: Header, line: string, overflow: int -> int): Header {
    var colon := IndexOf(line, ':');
    if colon == |line| then h else Assign(h, line[..colon], line[colon + 1..], overflow)
  }

  /** The loop over the lines that `strsep` cuts off. */
  function Parse(text: string, h: Header, overflow: int -> int): Header
    decreases |text|
  {
    var e := IndexOf(text, '\n');
    if e == |text| then ApplyLine(h, text, overflow)
    else Parse(text[e + 1..], ApplyLine(h, text[..e], overflow), overflow)
  }

  /** The page as a C string: what is before the first zero. */
  function CText(page: string): string {
    page[..IndexOf(page, '\0')]
  }

  // ---------------------------------------------------------------- reading what was printed

  lemma LineIsApplied(key: string, value: string, h: Header, overflow: int -> int)
    requires ':' !in key
    ensures ApplyLine(h, key + [':'] + value, overflow) == Assign(h, key, value, overflow)
  {
    hide Assign;
    IndexIs(key, value, ':');
  }

  lemma LineIsParsed(key: string, value: string, rest: string, h: Header, overflow: int -> int)
    requires ':' !in key && '\n' !in key && '\n' !in value
    ensures Parse(Line(key, value) + rest, h, overflow) == Parse(rest, Assign(h, key, value, overflow), overflow)
  {
    hide Assign, ApplyLine;
    var line := key + [':'] + value;
    LineIsApplied(key, value, h, overflow);
    IndexIs(line, rest, '\n');
    assert Line(key, value) + rest == line + ['\n'] + rest;
  }

  function Read(n: nat, overflow: int -> int): nat {
    (if n <= INT_MAX then n else overflow(n)) % TWO_TO_THE_32
  }

  lemma DecimalIsRead(n: nat, overflow: int -> int)
    ensures Unsigned(Decimal(n), overflow) == Read(n, overflow)
    ensures '\n' !in Decimal(n) && '\0' !in Decimal(n)
  {
    AtoiOfDecimal(n, overflow);
  }

  function HeadRead(p: Params, overflow: int -> int): Header {
    Header(2, Read(8 * p.hashBytes % TWO_TO_THE_32, overflow) / 8, Read(p.M, overflow), Read(p.k, overflow),
           Read(p.added, overflow), Read(p.unique, overflow), Read(p.aliased, overflow), None)
  }

  lemma NumberIsParsed(key: string, n: nat, rest: string, h: Header, overflow: int -> int)
    requires ':' !in key && '\n' !in key
    ensures Parse(Line(key, Decimal(n)) + rest, h, overflow)
              == Parse(rest, Assign(h, key, Decimal(n), overflow), overflow)
    ensures Unsigned(Decimal(n), overflow) == Read(n, overflow)
  {
    hide Decimal, Assign, Parse, Line, Unsigned, Read;
    DecimalIsRead(n, overflow);
    LineIsParsed(key, Decimal(n), rest, h, overflow);
  }

  /** Each key names its field. */
  lemma KeysAre(h: Header, value: string, overflow: int -> int)
    ensures Assign(h, "nsrl_bf_version", value, overflow) == h.(version := Atoi(value, overflow))
    ensures Assign(h, "hash_bits", value, overflow) == h.(hashBytes := Unsigned(value, overflow) / 8)
    ensures Assign(h, "bloom_bits", value, overflow) == h.(M := Unsigned(value, overflow))
    ensures Assign(h, "k", value, overflow) == h.(k := Unsigned(value, overflow))
    ensures Assign(h, "comment", value, overflow) == h.(comment := Some(value))
  {
    hide Unsigned, Atoi;
  }

  lemma CounterKeysAre(h: Header, value: string, overflow: int -> int)
    ensures Assign(h, "added_items", value, overflow) == h.(added := Unsigned(value, overflow))
    ensures Assign(h, "unique_added_items", value, overflow) == h.(unique := Unsigned(value, overflow))
    ensures Assign(h, "aliased_adds", value, overflow) == h.(aliased := Unsigned(value, overflow))
  {
    hide Unsigned, Atoi;
  }

  lemma ShapeIsParsed(p: Params, rest: string, overflow: int -> int)
    ensures Parse(Shape(p) + rest, CLEARED, overflow)
         == Parse(rest, HeadRead(p, overflow).(added := 0, unique := 0, aliased := 0), overflow)
  {
    hide Decimal, Assign, Parse, Line, Unsigned, Read;
    var bits := 8 * p.hashBytes % TWO_TO_THE_32;
    var r1 := Line("k", Decimal(p.k)) + rest;
    var r2 := Line("bloom_bits", Decimal(p.M)) + r1;
    var r3 := Line("hash_bits", Decimal(bits)) + r2;
    assert Shape(p) + rest == Line("nsrl_bf_version", "2") + r3;
    VersionIsParsed(r3, overflow);
    var h := CLEARED.(version := 2);
    NumberIsParsed("hash_bits", bits, r2, h, overflow);
    KeysAre(h, Decimal(bits), overflow);
    h := h.(hashBytes := Read(bits, overflow) / 8);
    NumberIsParsed("bloom_bits", p.M, r1, h, overflow);
    KeysAre(h, Decimal(p.M), overflow);
    h := h.(M := Read(p.M, overflow));
    NumberIsParsed("k", p.k, rest, h, overflow);
    KeysAre(h, Decimal(p.k), overflow);
  }

  lemma CountersAreParsed(p: Params, rest: string, h0: Header, overflow: int -> int)
    ensures Parse(Counters(p) + rest, h0, overflow)
         == Parse(rest, h0.(added := Read(p.added, overflow), unique := Read(p.unique, overflow),
                              aliased := Read(p.aliased, overflow)), overflow)
  {
    hide Decimal, Assign, Parse, Line, Unsigned, Read;
    var r1 := Line("aliased_adds", Decimal(p.aliased)) + rest;
    var r2 := Line("unique_added_items", Decimal(p.unique)) + r1;
    assert Counters(p) + rest == Line("added_items", Decimal(p.added)) + r2;
    var h := h0;
    NumberIsParsed("added_items", p.added, r2, h, overflow);
    CounterKeysAre(h, Decimal(p.added), overflow);
    h := h.(added := Read(p.added, overflow));
    NumberIsParsed("unique_added_items", p.unique, r1, h, overflow);
    CounterKeysAre(h, Decimal(p.unique), overflow);
    h := h.(unique := Read(p.unique, overflow));
    NumberIsParsed("aliased_adds", p.aliased, rest, h, overflow);
    CounterKeysAre(h, Decimal(p.aliased), overflow);
  }

  lemma VersionIsParsed(rest: string, overflow: int -> int)
    ensures Parse(Line("nsrl_bf_version", "2") + rest, CLEARED, overflow)
              == Parse(rest, CLEARED.(version := 2), overflow)
  {
    hide Assign, Parse, Line;
    LineIsParsed("nsrl_bf_version", "2", rest, CLEARED, overflow);
    KeysAre(CLEARED, "2", overflow);
    assert Decimal(2) == "2" by { TwoIsTwo(); }
    AtoiOfDecimal(2, overflow);
  }

  lemma HeadIsParsed(p: Params, rest: string, overflow: int -> int)
    ensures Parse(Head(p) + rest, CLEARED, overflow) == Parse(rest, HeadRead(p, overflow), overflow)
  {
    hide Shape, Counters, Parse, Read;
    assert Head(p) + rest == Shape(p) + (Counters(p) + rest);
    ShapeIsParsed(p, Counters(p) + rest, overflow);
    CountersAreParsed(p, rest, HeadRead(p, overflow).(added := 0, unique := 0, aliased := 0), overflow);
  }

  lemma TwoIsTwo()
    ensures Decimal(2) == "2"
  {
  }

  lemma HeadLength(p: Params)
    requires p.M < TWO_TO_THE_32 && p.k < TWO_TO_THE_32
    requires p.added < Pow10(20) && p.unique < Pow10(20) && p.aliased < Pow10(20)
    ensures |Head(p)| < 200
  {
    hide Decimal, Pow10;
    TenDigits(8 * p.hashBytes % TWO_TO_THE_32);
    TenDigits(p.M);
    TenDigits(p.k);
    DecimalLength(p.added, 20);
    DecimalLength(p.unique, 20);
    DecimalLength(p.aliased, 20);
  }

  lemma TenDigits(n: nat)
    requires n < TWO_TO_THE_32
    ensures |Decimal(n)| <= 10
  {
    DecimalLength(n, 10);
  }

  // ---------------------------------------------------------------- the comment, which is last

  lemma CommentIsParsed(value: string, h: Header, overflow: int -> int)
    requires '\n' !in value
    ensures Parse("comment:" + value, h, overflow) == h.(comment := Some(value))
    ensures Parse(Line("comment", value), h, overflow) == h.(comment := Some(value))
  {
    hide Assign, ApplyLine;
    var line := "comment" + [':'] + value;
    assert "comment:" + value == line;
    LineIsApplied("comment", value, h, overflow);
    KeysAre(h, value, overflow);
    IndexIs(line, "", '\n');
    LineIsParsed("comment", value, "", h, overflow);
    assert Line("comment", value) + "" == Line("comment", value);
    assert ApplyLine(h.(comment := Some(value)), "", overflow) == h.(comment := Some(value)) by {
      NothingToApply(h.(comment := Some(value)), overflow);
    }
  }

  lemma NothingToApply(h: Header, overflow: int -> int)
    ensures ApplyLine(h, "", overflow) == h
  {
  }

  ghost predicate OneLine(h: Header) {
    h.comment.Some? ==> '\n' !in h.comment.value
  }

  /** A comment that was read is a part of one line. */
  lemma {:induction false} ParsedCommentIsOneLine(text: string, h: Header, overflow: int -> int)
    requires OneLine(h)
    ensures OneLine(Parse(text, h, overflow))
    decreases |text|
  {
    hide ApplyLine, OneLine, Parse;
    var e := IndexOf(text, '\n');
    AppliedCommentIsOneLine(h, text[..e], overflow);
    ParseNext(text, h, overflow);
    if e < |text| {
      ParsedCommentIsOneLine(text[e + 1..], ApplyLine(h, text[..e], overflow), overflow);
    }
  }

  lemma ParseNext(text: string, h: Header, overflow: int -> int)
    ensures
      var e := IndexOf(text, '\n');
      var h' := ApplyLine(h, text[..e], overflow);
      Parse(text, h, overflow) == if e == |text| then h' else Parse(text[e + 1..], h', overflow)
  {
    hide ApplyLine;
    var e := IndexOf(text, '\n');
    if e == |text| { assert text[..e] == text; }
  }

  lemma AppliedCommentIsOneLine(h: Header, line: string, overflow: int -> int)
    requires OneLine(h) && '\n' !in line
    ensures OneLine(ApplyLine(h, line, overflow))
  {
    hide Unsigned, Atoi;
  }

  // ---------------------------------------------------------------- the page

  /** The characters of a C string: bytes other than zero. */
  predicate Plain(s: string) {
    forall c | c in s :: 0 < c as int < 256
  }

  lemma LineIsPlain(key: string, n: nat)
    requires Plain(key)
    ensures Plain(Line(key, Decimal(n)))
  {
  }

  lemma InfoIsPlain(p: Params)
    requires Plain(p.comment)
    ensures Plain(Info(p))
  {
    hide Decimal, Line;
    LineIsPlain("hash_bits", 8 * p.hashBytes % TWO_TO_THE_32);
    LineIsPlain("bloom_bits", p.M);
    LineIsPlain("k", p.k);
    LineIsPlain("added_items", p.added);
    LineIsPlain("unique_added_items", p.unique);
    LineIsPlain("aliased_adds", p.aliased);
    TextLinesArePlain(p.comment);
  }

  lemma TextLinesArePlain(comment: string)
    requires Plain(comment)
    ensures Plain(Line("nsrl_bf_version", "2")) && Plain(Line("comment", comment))
  {
  }

  /** The page read as a C string is the text, as far as it fits. */
  lemma PageHoldsText(p: Params)
    requires Plain(p.comment)
    ensures CText(Page(p)) == Cut(Info(p))
  {
    InfoIsPlain(p);
    hide Info;
    var text := Cut(Info(p));
    assert forall c | c in text :: c in Info(p);
    assert Page(p) == text + ['\0'] + seq(PAGE - |text| - 1, _ => '\0');
    IndexIs(text, seq(PAGE - |text| - 1, _ => '\0'), '\0');
  }

  /** The part of a comment that fits behind a head. */
  function Kept(head: string, comment: string): string {
    if |head| + 8 + |comment| < PAGE then comment
    else if |head| + 8 < PAGE then comment[..PAGE - 1 - |head| - 8]
    else ""
  }

  lemma CutInComment(head: string, comment: string)
    requires |head| < 200 && |head + Line("comment", comment)| >= PAGE
    ensures (head + Line("comment", comment))[..PAGE - 1] == head + ("comment:" + Kept(head, comment))
  {
    var text, kept := head + Line("comment", comment), Kept(head, comment);
    assert text == head + "comment:" + comment + ['\n'];
    assert comment[..|kept|] == kept;
  }

  /** The page read back: the head's fields, and the comment as far as it fits. */
  lemma PageIsParsed(p: Params, overflow: int -> int)
    requires Plain(p.comment) && '\n' !in p.comment && |Head(p)| < 200
    ensures Parse(CText(Page(p)), CLEARED, overflow)
              == HeadRead(p, overflow).(comment := Some(Kept(Head(p), p.comment)))
  {
    PageHoldsText(p);
    hide Head, Parse, HeadRead, CText, Page;
    if |Info(p)| < PAGE {
      HeadIsParsed(p, Line("comment", p.comment), overflow);
      CommentIsParsed(p.comment, HeadRead(p, overflow), overflow);
    } else {
      var kept := Kept(Head(p), p.comment);
      CutInComment(Head(p), p.comment);
      HeadIsParsed(p, "comment:" + kept, overflow);
      CommentIsParsed(kept, HeadRead(p, overflow), overflow);
    }
  }
}
