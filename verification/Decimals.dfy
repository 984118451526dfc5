/** Numbers as decimal text: what `%u` prints and what `atoi` reads. */
module Decimals {
  predicate IsDigit(c: char) {
    '0' <= c <= '9'
  }

  function DigitChar(d: nat): (c: char)
    requires d < 10
    ensures IsDigit(c) && DigitValue(c) == d
  {
    d as char + '0'
  }

  function DigitValue(c: char): nat
    requires IsDigit(c)
  {
    c as int - '0' as int
  }

  /** The decimal digits of a number. */
  function Decimal(n: nat): (s: string)
    ensures s != "" && forall c | c in s :: IsDigit(c)
  {
    if n < 10 then [DigitChar(n)] else Decimal(n / 10) + [DigitChar(n % 10)]
  }

  /** The number read from the leading digits of a text, after `acc` was read. */
  function Number(s: string, acc: nat): nat {
    if s == "" || !IsDigit(s[0]) then acc else Number(s[1..], 10 * acc + DigitValue(s[0]))
  }

  /** The digits of a number are those of its tens, and then its unit. */
  lemma DigitsOf(n: nat, d: nat)
    requires d < 10
    ensures Decimal(d) == ["0123456789"[d]]
    ensures n > 0 ==> Decimal(10 * n + d) == Decimal(n) + ["0123456789"[d]]
  {
    assert DigitChar(d) == "0123456789"[d];
    if n > 0 { assert (10 * n + d) / 10 == n && (10 * n + d) % 10 == d; }
  }

  /** A number ends at the first character that is no digit. */
  lemma NumberStops(c: char, rest: string, acc: nat)
    ensures Number("", acc) == acc
    ensures Number([c] + rest, acc)
         == if c in "0123456789" then Number(rest, 10 * acc + (c as int - '0' as int)) else acc
  {
    assert ([c] + rest)[1..] == rest;
  }

  /** White space and one sign may precede the digits of a number. */
  lemma SignedNumbers(c: char, rest: string)
    ensures SignedNumber("") == 0
    ensures SignedNumber([c] + rest)
         == if c in " \t\n\U{000B}\U{000C}\r" then SignedNumber(rest)
            else if c == '-' then -(Number(rest, 0) as int)
            else if c == '+' then Number(rest, 0)
            else Number([c] + rest, 0)
  {
    assert ([c] + rest)[1..] == rest;
  }

  const INT_MAX: int := 0x7fff_ffff

  predicate IsSpace(c: char) {
    c == ' ' || '\t' <= c <= '\r'
  }

  /** The value that `atoi` computes: white space is skipped, then one sign may precede the digits. */
  function SignedNumber(s: string): int {
    if s == "" then 0
    else if IsSpace(s[0]) then SignedNumber(s[1..])
    else if s[0] == '-' then -(Number(s[1..], 0) as int)
    else if s[0] == '+' then Number(s[1..], 0)
    else Number(s, 0)
  }

  /** `atoi`; its result for a number that is no `int` is not defined, so it is any function of it. */
  function Atoi(s: string, overflow: int -> int): int {
    var n := SignedNumber(s);
    if -INT_MAX - 1 <= n <= INT_MAX then n else overflow(n)
  }

  /** The numbers that `atoi` defines. */
  lemma AtoiIs(s: string, overflow: int -> int)
    ensures Atoi(s, overflow)
         == if -2_147_483_648 <= SignedNumber(s) <= 2_147_483_647 then SignedNumber(s) else overflow(SignedNumber(s))
  {
    hide SignedNumber;
  }

  lemma {:induction false} NumberOfParts(s: string, t: string, acc: nat)
    requires forall c | c in s :: IsDigit(c)
    ensures Number(s + t, acc) == Number(t, Number(s, acc))
  {
    if s == "" {
      assert s + t == t;
    } else {
      assert (s + t)[1..] == s[1..] + t;
      NumberOfParts(s[1..], t, 10 * acc + DigitValue(s[0]));
    }
  }

  /** Reading undoes printing, whatever follows that is no digit. */
  lemma {:induction false} NumberOfDecimal(n: nat, rest: string)
    requires rest == "" || !IsDigit(rest[0])
    ensures Number(Decimal(n) + rest, 0) == n
  {
    if n < 10 {
      assert (Decimal(n) + rest)[1..] == rest;
    } else {
      var last := [DigitChar(n % 10)];
      NumberOfDecimal(n / 10, "");
      assert Decimal(n / 10) + "" == Decimal(n / 10);
      NumberOfParts(Decimal(n / 10), last + rest, 0);
      assert Decimal(n) + rest == Decimal(n / 10) + (last + rest);
      assert (last + rest)[1..] == rest;
    }
  }

  lemma SignedOfDecimal(n: nat)
    ensures SignedNumber(Decimal(n)) == n
  {
    hide Decimal;
    NumberOfDecimal(n, "");
    assert Decimal(n) + "" == Decimal(n);
    assert IsDigit(Decimal(n)[0]) by { assert Decimal(n)[0] in Decimal(n); }
  }

  lemma AtoiOfDecimal(n: nat, overflow: int -> int)
    ensures Atoi(Decimal(n), overflow) == if n <= 2_147_483_647 then n else overflow(n)
  {
    hide Decimal, SignedNumber;
    SignedOfDecimal(n);
  }

  function Pow10(d: nat): (p: nat)
    ensures p > 0
  {
    if d == 0 then 1 else 10 * Pow10(d - 1)
  }

  lemma {:induction false} DecimalLength(n: nat, d: nat)
    requires n < Pow10(d) && d > 0
    ensures |Decimal(n)| <= d
  {
    if n >= 10 {
      DecimalLength(n / 10, d - 1);
    }
  }
}
