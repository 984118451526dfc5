/** Text in the XML report: escaped values (`xml::xmlescape`) and digests in hexadecimal (`md5_t`). */
module XmlText {
  import opened Bits
  import opened Digests
  import opened Options

  // ---------------------------------------------------------------- escaping

  function EscapeChar(c: char): string {
    match c
    case '>' => "&gt;"
    case '<' => "&lt;"
    case '&' => "&amp;"
    case '\'' => "&apos;"
    case '\"' => "&quot;"
    case '\0' => "%00"
    case '\r' => "%0D"
    case '\n' => "%0A"
    case '\t' => "%09"
    case _ => [c]
  }

  function Escape(s: string): string {
    if s == "" then "" else EscapeChar(s[0]) + Escape(s[1..])
  }

  /** `xml::xmlescape`. */
  method XmlEscape(xml: string) returns (ret: string)
    ensures ret == Escape(xml)
    ensures ParseText(ret) == if Encodable(xml) then Some(PercentEncoded(xml)) else None
    ensures ParseText(ret) == Some(xml) <==> forall c | c in xml :: ' ' <= c
  {
    hide EscapeChar, ParseText, PercentEncoded, Encodable;
    ret := "";
    assert xml[0..] == xml && xml[|xml|..] == "";
    for i := 0 to |xml|
      invariant ret + Escape(xml[i..]) == Escape(xml)
    {
      assert xml[i..][1..] == xml[i + 1..];
      ret := ret + EscapeChar(xml[i]);
    }
    EscapeIsParsed(xml);
    SameWhenPlain(xml);
  }

  /** The replacements, and how they are put together. */
  lemma Replacements(c: char)
    ensures EscapeChar('<') == "&lt;" && EscapeChar('>') == "&gt;" && EscapeChar('&') == "&amp;"
    ensures EscapeChar('\'') == "&apos;" && EscapeChar('\"') == "&quot;"
    ensures EscapeChar('\0') == "%00" && EscapeChar('\t') == "%09"
    ensures EscapeChar('\n') == "%0A" && EscapeChar('\r') == "%0D"
    ensures c !in "<>&'\"\0\t\n\r" ==> EscapeChar(c) == [c]
  {
  }

  lemma EscapeOfMore(c: char, rest: string)
    ensures Escape("") == "" && Escape([c] + rest) == EscapeChar(c) + Escape(rest)
  {
    assert ([c] + rest)[1..] == rest;
  }

  /** The characters of XML (section 2.2 of XML 1.0): no control characters but these three. */
  predicate XmlChar(c: char) {
    c == '\t' || c == '\n' || c == '\r' || ' ' <= c
  }

  predicate AllXml(s: string) {
    forall c | c in s :: XmlChar(c)
  }

  /** What an XML parser makes of escaped text: it rejects other characters, and resolves the entities. */
  function ParseText(s: string): Option<string> {
    if AllXml(s) then Some(Unescape(s)) else None
  }

  /** The five entities become their characters. */
  function Unescape(s: string): string
    decreases |s|
  {
    if s == "" then ""
    else if "&gt;" <= s then ">" + Unescape(s[4..])
    else if "&lt;" <= s then "<" + Unescape(s[4..])
    else if "&amp;" <= s then "&" + Unescape(s[5..])
    else if "&apos;" <= s then "'" + Unescape(s[6..])
    else if "&quot;" <= s then "\"" + Unescape(s[6..])
    else [s[0]] + Unescape(s[1..])
  }

  predicate IsPercentEncoded(c: char) {
    c == '\0' || c == '\r' || c == '\n' || c == '\t'
  }

  /** No control character is left that the escaping does not replace. */
  predicate Encodable(s: string) {
    forall c | c in s :: ' ' <= c || IsPercentEncoded(c)
  }

  /** The characters that the escaping replaces for good. */
  function PercentEncoded(s: string): string {
    if s == "" then "" else (if IsPercentEncoded(s[0]) then EscapeChar(s[0]) else [s[0]]) + PercentEncoded(s[1..])
  }

  lemma PlainCharIsKept(c: char, rest: string)
    requires c != '&'
    ensures Unescape([c] + rest) == [c] + Unescape(rest)
  {
    assert ([c] + rest)[0] == c && ([c] + rest)[1..] == rest;
  }

  lemma Gt(rest: string)
    ensures Unescape("&gt;" + rest) == ">" + Unescape(rest)
  {
    assert ("&gt;" + rest)[4..] == rest;
  }

  lemma Lt(rest: string)
    ensures Unescape("&lt;" + rest) == "<" + Unescape(rest)
  {
    assert ("&lt;" + rest)[4..] == rest;
    assert ("&lt;" + rest)[1] == 'l';
  }

  lemma Amp(rest: string)
    ensures Unescape("&amp;" + rest) == "&" + Unescape(rest)
  {
    assert ("&amp;" + rest)[5..] == rest;
    assert ("&amp;" + rest)[1] == 'a';
  }

  lemma Apos(rest: string)
    ensures Unescape("&apos;" + rest) == "'" + Unescape(rest)
  {
    assert ("&apos;" + rest)[6..] == rest;
    assert ("&apos;" + rest)[1] == 'a' && ("&apos;" + rest)[2] == 'p';
  }

  lemma Quot(rest: string)
    ensures Unescape("&quot;" + rest) == "\"" + Unescape(rest)
  {
    assert ("&quot;" + rest)[6..] == rest;
    assert ("&quot;" + rest)[1] == 'q';
  }

  lemma EntityIsResolved(c: char, rest: string)
    requires !IsPercentEncoded(c)
    ensures Unescape(EscapeChar(c) + rest) == [c] + Unescape(rest)
  {
    hide Unescape;
    match c
    case '>' => Gt(rest);
    case '<' => Lt(rest);
    case '&' => Amp(rest);
    case '\'' => Apos(rest);
    case '\"' => Quot(rest);
    case _ => PlainCharIsKept(c, rest);
  }

  lemma ThreeAreKept(a: char, b: char, c: char, rest: string)
    requires a != '&' && b != '&' && c != '&'
    ensures Unescape([a, b, c] + rest) == [a, b, c] + Unescape(rest)
  {
    hide Unescape;
    assert [a, b, c] + rest == [a] + ([b] + ([c] + rest));
    PlainCharIsKept(c, rest);
    PlainCharIsKept(b, [c] + rest);
    PlainCharIsKept(a, [b] + ([c] + rest));
  }

  lemma EncodedIsKept(c: char, rest: string)
    requires IsPercentEncoded(c)
    ensures Unescape(EscapeChar(c) + rest) == EscapeChar(c) + Unescape(rest)
  {
    hide Unescape;
    var e := EscapeChar(c);
    ThreeAreKept(e[0], e[1], e[2], rest);
    assert e == [e[0], e[1], e[2]];
  }

  /** A parser gives the text back, but for the characters that are percent-encoded. */
  lemma {:induction false} EscapeIsUnescaped(s: string)
    ensures Unescape(Escape(s)) == PercentEncoded(s)
  {
    hide EscapeChar, Unescape;
    if s == "" {
      assert Unescape("") == "" by { NothingToUnescape(); }
    } else {
      EscapeIsUnescaped(s[1..]);
      if IsPercentEncoded(s[0]) {
        EncodedIsKept(s[0], Escape(s[1..]));
      } else {
        EntityIsResolved(s[0], Escape(s[1..]));
      }
    }
  }

  lemma NothingToUnescape()
    ensures Unescape("") == ""
  {
  }

  lemma {:induction false} PercentEncodedGrows(s: string)
    ensures |PercentEncoded(s)| >= |s|
    ensures PercentEncoded(s) == s <==> forall c | c in s :: !IsPercentEncoded(c)
  {
    if s != "" {
      PercentEncodedGrows(s[1..]);
      assert s == [s[0]] + s[1..];
    }
  }

  lemma AllXmlParts(s: string, t: string)
    ensures AllXml(s + t) <==> AllXml(s) && AllXml(t)
  {
    hide XmlChar;
    if AllXml(s + t) {
      forall c | c in s ensures XmlChar(c) { assert c in s + t; }
      forall c | c in t ensures XmlChar(c) { assert c in s + t; }
    }
  }

  lemma CharIsXml(c: char)
    ensures AllXml(EscapeChar(c)) <==> ' ' <= c || IsPercentEncoded(c)
    ensures AllXml(if IsPercentEncoded(c) then EscapeChar(c) else [c]) <==> ' ' <= c || IsPercentEncoded(c)
  {
    assert c in [c];
  }

  /** A parser accepts escaped text exactly if the text is readable. */
  lemma {:induction false} EscapeIsXml(s: string)
    ensures AllXml(Escape(s)) <==> Encodable(s)
    ensures AllXml(PercentEncoded(s)) <==> Encodable(s)
  {
    hide XmlChar, EscapeChar;
    if s != "" {
      hide AllXml;
      var c, rest := s[0], s[1..];
      assert s == [c] + rest;
      EscapeIsXml(rest);
      CharIsXml(c);
      AllXmlParts(EscapeChar(c), Escape(rest));
      AllXmlParts(if IsPercentEncoded(c) then EscapeChar(c) else [c], PercentEncoded(rest));
    }
  }

  /** For every text, what a parser makes of it. */
  lemma EscapeIsParsed(s: string)
    ensures ParseText(Escape(s)) == if Encodable(s) then Some(PercentEncoded(s)) else None
  {
    hide AllXml, Encodable;
    EscapeIsXml(s);
    EscapeIsUnescaped(s);
  }

  /** So text comes back unchanged exactly if it has no control characters. */
  lemma SameWhenPlain(s: string)
    ensures ParseText(Escape(s)) == Some(s) <==> forall c | c in s :: ' ' <= c
  {
    EscapeIsParsed(s);
    PercentEncodedGrows(s);
  }

  lemma {:induction false} NothingLeftEncoded(s: string)
    ensures forall c | c in PercentEncoded(s) :: !IsPercentEncoded(c)
  {
    if s != "" {
      NothingLeftEncoded(s[1..]);
    }
  }

  // ---------------------------------------------------------------- hexadecimal digests

  function HexChar(n: nat): (c: char)
    requires n < 16
    ensures ToHex(c) == n && c != '\n'
  {
    if n < 10 then '0' + n as char else 'a' + (n - 10) as char
  }

  /** `md5_t::tohex`: the value of a hexadecimal digit, and 0 for other characters. */
  function ToHex(c: char): (n: nat)
    ensures n < 16
  {
    if '0' <= c <= '9' then c as int - '0' as int
    else if 'a' <= c <= 'f' then c as int - 'a' as int + 10
    else if 'A' <= c <= 'F' then c as int - 'A' as int + 10
    else 0
  }

  /** `%02x`. */
  function HexByte(b: byte): (s: string)
    ensures |s| == 2 && '\n' !in s
  {
    [HexChar(b as int / 16), HexChar(b as int % 16)]
  }

  function Hex(d: seq<byte>): (s: string)
    ensures |s| == 2 * |d|
    ensures forall i | 0 <= i < |d| :: s[2 * i..2 * i + 2] == HexByte(d[i])
  {
    if d == [] then "" else Hex(d[..|d| - 1]) + HexByte(d[|d| - 1])
  }

  /** The digits, of either case. */
  lemma HexDigits(n: nat)
    requires n < 16
    ensures HexChar(n) == "0123456789abcdef"[n]
    ensures ToHex("0123456789abcdef"[n]) == ToHex("0123456789ABCDEF"[n]) == n
  {
  }

  lemma OtherHexDigits(c: char)
    requires c !in "0123456789abcdefABCDEF"
    ensures ToHex(c) == 0
  {
  }

  /** The high digit of a byte comes first. */
  lemma HexOfByte(b: byte)
    ensures HexByte(b) == ["0123456789abcdef"[b as int / 16], "0123456789abcdef"[b as int % 16]]
  {
    HexDigits(b as int / 16);
    HexDigits(b as int % 16);
    hide HexChar;
  }

  function PairValue(hi: char, lo: char): byte {
    (16 * ToHex(hi) + ToHex(lo)) as byte
  }

  /** `hexdigest(buf, bufsize)`: as many bytes as fit in front of the terminating zero. */
  method HexDigest(d: Digest, bufsize: nat) returns (hexbuf: string)
    ensures hexbuf == Hex(d[..if bufsize >= 33 then 16 else if bufsize == 0 then 0 else (bufsize - 1) / 2])
  {
    hexbuf := "";
    var i, left := 0, bufsize;
    assert Hex(d[..0]) == "";
    hide Hex, HexByte;
    while i < 16 && left >= 3
      invariant i <= 16 && left + 2 * i == bufsize && (i > 0 ==> left > 0) && hexbuf == Hex(d[..i])
    {
      NextHexByte(d, i);
      hexbuf := hexbuf + HexByte(d[i]);
      i := i + 1;
      left := left - 2;
    }
    assert i == if bufsize >= 33 then 16 else if bufsize == 0 then 0 else (bufsize - 1) / 2;
  }

  lemma NextHexByte(d: seq<byte>, i: nat)
    requires i < |d|
    ensures Hex(d[..i + 1]) == Hex(d[..i]) + HexByte(d[i])
  {
    hide HexByte;
    assert d[..i + 1][..i] == d[..i];
  }

  /** The residue that `fromhex` reads: pairs of digits, and zero bytes for the pairs that are missing. */
  function FromHexOf(s: string): Digest {
    seq<byte>(16, i requires 0 <= i < 16 => if 2 * i + 1 < |s| then PairValue(s[2 * i], s[2 * i + 1]) else 0)
  }

  method FromHex(s: string) returns (d: Digest)
    ensures d == FromHexOf(s)
  {
    hide PairValue;
    var digest := new byte[16](_ => 0);
    var i := 0;
    while i + 1 < |s| && i / 2 < 16
      invariant i % 2 == 0 && i / 2 <= 16 && i <= |s| + 1
      invariant forall j | 0 <= j < i / 2 :: 2 * j + 1 < |s| && digest[j] == PairValue(s[2 * j], s[2 * j + 1])
      invariant forall j | i / 2 <= j < 16 :: digest[j] == 0
    {
      digest[i / 2] := PairValue(s[i], s[i + 1]);
      i := i + 2;
    }
    d := digest[..];
    assert forall j | 0 <= j < 16 :: d[j] == FromHexOf(s)[j];
  }

  lemma PairOfByte(b: byte)
    ensures PairValue(HexByte(b)[0], HexByte(b)[1]) == b
  {
    ByteIsItsNumber(b);
  }

  /** Reading undoes printing. */
  lemma HexRoundTrip(d: Digest)
    ensures FromHexOf(Hex(d)) == d
  {
    hide PairValue, HexByte;
    var s := Hex(d);
    forall i | 0 <= i < 16 ensures FromHexOf(s)[i] == d[i] {
      PairOfByte(d[i]);
      assert s[2 * i] == s[2 * i..2 * i + 2][0] && s[2 * i + 1] == s[2 * i..2 * i + 2][1];
    }
  }
}
