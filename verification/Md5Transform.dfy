/** `MD5Transform`: the 64 unrolled steps with their optimised boolean functions. */
module Md5Transform {
  import opened Rfc1321

  // ---------------------------------------------------------------- the macros

  function F1(x: Word, y: Word, z: Word): Word {
    z ^ (x & (y ^ z))
  }

  function F2(x: Word, y: Word, z: Word): Word {
    F1(z, x, y)
  }

  function F3(x: Word, y: Word, z: Word): Word {
    x ^ y ^ z
  }

  function F4(x: Word, y: Word, z: Word): Word {
    y ^ (x | !z)
  }

  /** `w << s | w >> (32 - s)`. */
  function ShiftOr(w: Word, s: nat): Word
    requires 0 < s < 32
  {
    (w << s) | (w >> (32 - s))
  }

  function StepSum(w: Word, f: Word, k: Word, t: Constant): Word {
    w + (f + (k + t as Word))
  }

  /** `MD5STEP`, with the value `f` of the boolean function and the data word and constant it adds. */
  function Step(f: Word, w: Word, x: Word, k: Word, t: Constant, s: nat): Word
    requires 0 < s < 32
  {
    Plus(ShiftOr(StepSum(w, f, k, t), s), x)
  }

  // ---------------------------------------------------------------- the macros compute what the RFC says

  lemma Choose(x: Word, y: Word, z: Word)
    ensures z ^ (x & (y ^ z)) == (x & y) | (!x & z)
  {
  }

  lemma ChooseSwapped(x: Word, y: Word, z: Word)
    ensures (z & x) | (!z & y) == (x & z) | (y & !z)
  {
  }

  lemma F1IsF(x: Word, y: Word, z: Word)
    ensures F1(x, y, z) == F(x, y, z)
  {
    Choose(x, y, z);
  }

  lemma F2IsG(x: Word, y: Word, z: Word)
    ensures F2(x, y, z) == G(x, y, z)
  {
    Choose(z, x, y);
    ChooseSwapped(x, y, z);
  }

  lemma F4IsI(x: Word, y: Word, z: Word)
    ensures F4(x, y, z) == I(x, y, z)
  {
  }

  /** The optimised functions are the functions of the RFC. */
  lemma OptimisedFunctions(x: Word, y: Word, z: Word)
    ensures F1(x, y, z) == F(x, y, z) && F2(x, y, z) == G(x, y, z)
    ensures F3(x, y, z) == H(x, y, z) && F4(x, y, z) == I(x, y, z)
  {
    F1IsF(x, y, z);
    F2IsG(x, y, z);
    F4IsI(x, y, z);
    hide F1, F2, F4, F, G, I;
  }

  /** Shifting both ways is rotating. */
  lemma ShiftOrRotates(t: Word, s: nat)
    requires 0 < s < 32
    ensures ShiftOr(t, s) == RotateLeft(t, s)
  {
    hide ShiftOr, RotateLeft;
    if s <= 8 { Rotates1To8(t, s); }
    else if s <= 16 { Rotates9To16(t, s); }
    else if s <= 24 { Rotates17To24(t, s); }
    else { Rotates25To31(t, s); }
  }

  lemma Rotates1To8(t: Word, s: nat)
    requires 1 <= s <= 8
    ensures ShiftOr(t, s) == RotateLeft(t, s)
  {
    if
    case s == 1 => assert ((t << 1) | (t >> 31)) == t.RotateLeft(1);
    case s == 2 => assert ((t << 2) | (t >> 30)) == t.RotateLeft(2);
    case s == 3 => assert ((t << 3) | (t >> 29)) == t.RotateLeft(3);
    case s == 4 => assert ((t << 4) | (t >> 28)) == t.RotateLeft(4);
    case s == 5 => assert ((t << 5) | (t >> 27)) == t.RotateLeft(5);
    case s == 6 => assert ((t << 6) | (t >> 26)) == t.RotateLeft(6);
    case s == 7 => assert ((t << 7) | (t >> 25)) == t.RotateLeft(7);
    case s == 8 => assert ((t << 8) | (t >> 24)) == t.RotateLeft(8);
  }

  lemma Rotates9To16(t: Word, s: nat)
    requires 9 <= s <= 16
    ensures ShiftOr(t, s) == RotateLeft(t, s)
  {
    if
    case s == 9 => assert ((t << 9) | (t >> 23)) == t.RotateLeft(9);
    case s == 10 => assert ((t << 10) | (t >> 22)) == t.RotateLeft(10);
    case s == 11 => assert ((t << 11) | (t >> 21)) == t.RotateLeft(11);
    case s == 12 => assert ((t << 12) | (t >> 20)) == t.RotateLeft(12);
    case s == 13 => assert ((t << 13) | (t >> 19)) == t.RotateLeft(13);
    case s == 14 => assert ((t << 14) | (t >> 18)) == t.RotateLeft(14);
    case s == 15 => assert ((t << 15) | (t >> 17)) == t.RotateLeft(15);
    case s == 16 => assert ((t << 16) | (t >> 16)) == t.RotateLeft(16);
  }

  lemma Rotates17To24(t: Word, s: nat)
    requires 17 <= s <= 24
    ensures ShiftOr(t, s) == RotateLeft(t, s)
  {
    if
    case s == 17 => assert ((t << 17) | (t >> 15)) == t.RotateLeft(17);
    case s == 18 => assert ((t << 18) | (t >> 14)) == t.RotateLeft(18);
    case s == 19 => assert ((t << 19) | (t >> 13)) == t.RotateLeft(19);
    case s == 20 => assert ((t << 20) | (t >> 12)) == t.RotateLeft(20);
    case s == 21 => assert ((t << 21) | (t >> 11)) == t.RotateLeft(21);
    case s == 22 => assert ((t << 22) | (t >> 10)) == t.RotateLeft(22);
    case s == 23 => assert ((t << 23) | (t >> 9)) == t.RotateLeft(23);
    case s == 24 => assert ((t << 24) | (t >> 8)) == t.RotateLeft(24);
  }

  lemma Rotates25To31(t: Word, s: nat)
    requires 25 <= s <= 31
    ensures ShiftOr(t, s) == RotateLeft(t, s)
  {
    if
    case s == 25 => assert ((t << 25) | (t >> 7)) == t.RotateLeft(25);
    case s == 26 => assert ((t << 26) | (t >> 6)) == t.RotateLeft(26);
    case s == 27 => assert ((t << 27) | (t >> 5)) == t.RotateLeft(27);
    case s == 28 => assert ((t << 28) | (t >> 4)) == t.RotateLeft(28);
    case s == 29 => assert ((t << 29) | (t >> 3)) == t.RotateLeft(29);
    case s == 30 => assert ((t << 30) | (t >> 2)) == t.RotateLeft(30);
    case s == 31 => assert ((t << 31) | (t >> 1)) == t.RotateLeft(31);
  }

  lemma SumsAgree(w: Word, f: Word, k: Word, t: Constant)
    ensures StepSum(w, f, k, t) == Sum(w, f, k, t)
  {
  }

  lemma PlusCommutes(x: Word, y: Word)
    ensures Plus(x, y) == Plus(y, x)
  {
  }

  lemma StepIsNewWord(f: Word, w: Word, x: Word, k: Word, t: Constant, s: nat)
    requires 0 < s < 32
    ensures Step(f, w, x, k, t, s) == NewWord(w, x, f, k, t, s)
  {
    hide ShiftOr, RotateLeft, StepSum, Sum, Plus;
    SumsAgree(w, f, k, t);
    var sum := StepSum(w, f, k, t);
    ShiftOrRotates(sum, s);
    PlusCommutes(RotateLeft(sum, s), x);
  }

  // ---------------------------------------------------------------- the 64 steps, eight at a time

  function Step1(w: Word, x: Word, y: Word, z: Word, k: Word, t: Constant, s: nat): (r: Word)
    requires 0 < s < 32
    ensures r == NewWord(w, x, F(x, y, z), k, t, s)
  {
    OptimisedFunctions(x, y, z);
    StepIsNewWord(F1(x, y, z), w, x, k, t, s);
    Step(F1(x, y, z), w, x, k, t, s)
  }

  function Step2(w: Word, x: Word, y: Word, z: Word, k: Word, t: Constant, s: nat): (r: Word)
    requires 0 < s < 32
    ensures r == NewWord(w, x, G(x, y, z), k, t, s)
  {
    OptimisedFunctions(x, y, z);
    StepIsNewWord(F2(x, y, z), w, x, k, t, s);
    Step(F2(x, y, z), w, x, k, t, s)
  }

  function Step3(w: Word, x: Word, y: Word, z: Word, k: Word, t: Constant, s: nat): (r: Word)
    requires 0 < s < 32
    ensures r == NewWord(w, x, H(x, y, z), k, t, s)
  {
    OptimisedFunctions(x, y, z);
    StepIsNewWord(F3(x, y, z), w, x, k, t, s);
    Step(F3(x, y, z), w, x, k, t, s)
  }

  function Step4(w: Word, x: Word, y: Word, z: Word, k: Word, t: Constant, s: nat): (r: Word)
    requires 0 < s < 32
    ensures r == NewWord(w, x, I(x, y, z), k, t, s)
  {
    OptimisedFunctions(x, y, z);
    StepIsNewWord(F4(x, y, z), w, x, k, t, s);
    Step(F4(x, y, z), w, x, k, t, s)
  }

  method Steps0To7(input: seq<Word>, a0: Word, b0: Word, c0: Word, d0: Word)
    returns (a: Word, b: Word, c: Word, d: Word)
    requires |input| == 16
    ensures State(a, b, c, d) == Operations(0, 8, State(a0, b0, c0, d0), input)
  {
    hide Step1, Step2, Step3, Step4, NewWord, F, G, H, I;
    ghost var s := State(a0, b0, c0, d0);
    a, b, c, d := a0, b0, c0, d0;
    assert Operations(0, 0, s, input) == s;
    a := Step1(a, b, c, d, input[0], 0xd76aa478, 7);
    assert Operations(0, 1, s, input) == State(d, a, b, c);
    d := Step1(d, a, b, c, input[1], 0xe8c7b756, 12);
    assert Operations(0, 2, s, input) == State(c, d, a, b);
    c := Step1(c, d, a, b, input[2], 0x242070db, 17);
    assert Operations(0, 3, s, input) == State(b, c, d, a);
    b := Step1(b, c, d, a, input[3], 0xc1bdceee, 22);
    assert Operations(0, 4, s, input) == State(a, b, c, d);
    a := Step1(a, b, c, d, input[4], 0xf57c0faf, 7);
    assert Operations(0, 5, s, input) == State(d, a, b, c);
    d := Step1(d, a, b, c, input[5], 0x4787c62a, 12);
    assert Operations(0, 6, s, input) == State(c, d, a, b);
    c := Step1(c, d, a, b, input[6], 0xa8304613, 17);
    assert Operations(0, 7, s, input) == State(b, c, d, a);
    b := Step1(b, c, d, a, input[7], 0xfd469501, 22);
    assert Operations(0, 8, s, input) == State(a, b, c, d);
  }

  method Steps8To15(input: seq<Word>, a0: Word, b0: Word, c0: Word, d0: Word)
    returns (a: Word, b: Word, c: Word, d: Word)
    requires |input| == 16
    ensures State(a, b, c, d) == Operations(8, 8, State(a0, b0, c0, d0), input)
  {
    hide Step1, Step2, Step3, Step4, NewWord, F, G, H, I;
    ghost var s := State(a0, b0, c0, d0);
    a, b, c, d := a0, b0, c0, d0;
    assert Operations(8, 0, s, input) == s;
    a := Step1(a, b, c, d, input[8], 0x698098d8, 7);
    assert Operations(8, 1, s, input) == State(d, a, b, c);
    d := Step1(d, a, b, c, input[9], 0x8b44f7af, 12);
    assert Operations(8, 2, s, input) == State(c, d, a, b);
    c := Step1(c, d, a, b, input[10], 0xffff5bb1, 17);
    assert Operations(8, 3, s, input) == State(b, c, d, a);
    b := Step1(b, c, d, a, input[11], 0x895cd7be, 22);
    assert Operations(8, 4, s, input) == State(a, b, c, d);
    a := Step1(a, b, c, d, input[12], 0x6b901122, 7);
    assert Operations(8, 5, s, input) == State(d, a, b, c);
    d := Step1(d, a, b, c, input[13], 0xfd987193, 12);
    assert Operations(8, 6, s, input) == State(c, d, a, b);
    c := Step1(c, d, a, b, input[14], 0xa679438e, 17);
    assert Operations(8, 7, s, input) == State(b, c, d, a);
    b := Step1(b, c, d, a, input[15], 0x49b40821, 22);
    assert Operations(8, 8, s, input) == State(a, b, c, d);
  }

  method Steps16To23(input: seq<Word>, a0: Word, b0: Word, c0: Word, d0: Word)
    returns (a: Word, b: Word, c: Word, d: Word)
    requires |input| == 16
    ensures State(a, b, c, d) == Operations(16, 8, State(a0, b0, c0, d0), input)
  {
    hide Step1, Step2, Step3, Step4, NewWord, F, G, H, I;
    ghost var s := State(a0, b0, c0, d0);
    a, b, c, d := a0, b0, c0, d0;
    assert Operations(16, 0, s, input) == s;
    a := Step2(a, b, c, d, input[1], 0xf61e2562, 5);
    assert Operations(16, 1, s, input) == State(d, a, b, c);
    d := Step2(d, a, b, c, input[6], 0xc040b340, 9);
    assert Operations(16, 2, s, input) == State(c, d, a, b);
    c := Step2(c, d, a, b, input[11], 0x265e5a51, 14);
    assert Operations(16, 3, s, input) == State(b, c, d, a);
    b := Step2(b, c, d, a, input[0], 0xe9b6c7aa, 20);
    assert Operations(16, 4, s, input) == State(a, b, c, d);
    a := Step2(a, b, c, d, input[5], 0xd62f105d, 5);
    assert Operations(16, 5, s, input) == State(d, a, b, c);
    d := Step2(d, a, b, c, input[10], 0x02441453, 9);
    assert Operations(16, 6, s, input) == State(c, d, a, b);
    c := Step2(c, d, a, b, input[15], 0xd8a1e681, 14);
    assert Operations(16, 7, s, input) == State(b, c, d, a);
    b := Step2(b, c, d, a, input[4], 0xe7d3fbc8, 20);
    assert Operations(16, 8, s, input) == State(a, b, c, d);
  }

  method Steps24To31(input: seq<Word>, a0: Word, b0: Word, c0: Word, d0: Word)
    returns (a: Word, b: Word, c: Word, d: Word)
    requires |input| == 16
    ensures State(a, b, c, d) == Operations(24, 8, State(a0, b0, c0, d0), input)
  {
    hide Step1, Step2, Step3, Step4, NewWord, F, G, H, I;
    ghost var s := State(a0, b0, c0, d0);
    a, b, c, d := a0, b0, c0, d0;
    assert Operations(24, 0, s, input) == s;
    a := Step2(a, b, c, d, input[9], 0x21e1cde6, 5);
    assert Operations(24, 1, s, input) == State(d, a, b, c);
    d := Step2(d, a, b, c, input[14], 0xc33707d6, 9);
    assert Operations(24, 2, s, input) == State(c, d, a, b);
    c := Step2(c, d, a, b, input[3], 0xf4d50d87, 14);
    assert Operations(24, 3, s, input) == State(b, c, d, a);
    b := Step2(b, c, d, a, input[8], 0x455a14ed, 20);
    assert Operations(24, 4, s, input) == State(a, b, c, d);
    a := Step2(a, b, c, d, input[13], 0xa9e3e905, 5);
    assert Operations(24, 5, s, input) == State(d, a, b, c);
    d := Step2(d, a, b, c, input[2], 0xfcefa3f8, 9);
    assert Operations(24, 6, s, input) == State(c, d, a, b);
    c := Step2(c, d, a, b, input[7], 0x676f02d9, 14);
    assert Operations(24, 7, s, input) == State(b, c, d, a);
    b := Step2(b, c, d, a, input[12], 0x8d2a4c8a, 20);
    assert Operations(24, 8, s, input) == State(a, b, c, d);
  }

  method Steps32To39(input: seq<Word>, a0: Word, b0: Word, c0: Word, d0: Word)
    returns (a: Word, b: Word, c: Word, d: Word)
    requires |input| == 16
    ensures State(a, b, c, d) == Operations(32, 8, State(a0, b0, c0, d0), input)
  {
    hide Step1, Step2, Step3, Step4, NewWord, F, G, H, I;
    ghost var s := State(a0, b0, c0, d0);
    a, b, c, d := a0, b0, c0, d0;
    assert Operations(32, 0, s, input) == s;
    a := Step3(a, b, c, d, input[5], 0xfffa3942, 4);
    assert Operations(32, 1, s, input) == State(d, a, b, c);
    d := Step3(d, a, b, c, input[8], 0x8771f681, 11);
    assert Operations(32, 2, s, input) == State(c, d, a, b);
    c := Step3(c, d, a, b, input[11], 0x6d9d6122, 16);
    assert Operations(32, 3, s, input) == State(b, c, d, a);
    b := Step3(b, c, d, a, input[14], 0xfde5380c, 23);
    assert Operations(32, 4, s, input) == State(a, b, c, d);
    a := Step3(a, b, c, d, input[1], 0xa4beea44, 4);
    assert Operations(32, 5, s, input) == State(d, a, b, c);
    d := Step3(d, a, b, c, input[4], 0x4bdecfa9, 11);
    assert Operations(32, 6, s, input) == State(c, d, a, b);
    c := Step3(c, d, a, b, input[7], 0xf6bb4b60, 16);
    assert Operations(32, 7, s, input) == State(b, c, d, a);
    b := Step3(b, c, d, a, input[10], 0xbebfbc70, 23);
    assert Operations(32, 8, s, input) == State(a, b, c, d);
  }

  method Steps40To47(input: seq<Word>, a0: Word, b0: Word, c0: Word, d0: Word)
    returns (a: Word, b: Word, c: Word, d: Word)
    requires |input| == 16
    ensures State(a, b, c, d) == Operations(40, 8, State(a0, b0, c0, d0), input)
  {
    hide Step1, Step2, Step3, Step4, NewWord, F, G, H, I;
    ghost var s := State(a0, b0, c0, d0);
    a, b, c, d := a0, b0, c0, d0;
    assert Operations(40, 0, s, input) == s;
    a := Step3(a, b, c, d, input[13], 0x289b7ec6, 4);
    assert Operations(40, 1, s, input) == State(d, a, b, c);
    d := Step3(d, a, b, c, input[0], 0xeaa127fa, 11);
    assert Operations(40, 2, s, input) == State(c, d, a, b);
    c := Step3(c, d, a, b, input[3], 0xd4ef3085, 16);
    assert Operations(40, 3, s, input) == State(b, c, d, a);
    b := Step3(b, c, d, a, input[6], 0x04881d05, 23);
    assert Operations(40, 4, s, input) == State(a, b, c, d);
    a := Step3(a, b, c, d, input[9], 0xd9d4d039, 4);
    assert Operations(40, 5, s, input) == State(d, a, b, c);
    d := Step3(d, a, b, c, input[12], 0xe6db99e5, 11);
    assert Operations(40, 6, s, input) == State(c, d, a, b);
    c := Step3(c, d, a, b, input[15], 0x1fa27cf8, 16);
    assert Operations(40, 7, s, input) == State(b, c, d, a);
    b := Step3(b, c, d, a, input[2], 0xc4ac5665, 23);
    assert Operations(40, 8, s, input) == State(a, b, c, d);
  }

  method Steps48To55(input: seq<Word>, a0: Word, b0: Word, c0: Word, d0: Word)
    returns (a: Word, b: Word, c: Word, d: Word)
    requires |input| == 16
    ensures State(a, b, c, d) == Operations(48, 8, State(a0, b0, c0, d0), input)
  {
    hide Step1, Step2, Step3, Step4, NewWord, F, G, H, I;
    ghost var s := State(a0, b0, c0, d0);
    a, b, c, d := a0, b0, c0, d0;
    assert Operations(48, 0, s, input) == s;
    a := Step4(a, b, c, d, input[0], 0xf4292244, 6);
    assert Operations(48, 1, s, input) == State(d, a, b, c);
    d := Step4(d, a, b, c, input[7], 0x432aff97, 10);
    assert Operations(48, 2, s, input) == State(c, d, a, b);
    c := Step4(c, d, a, b, input[14], 0xab9423a7, 15);
    assert Operations(48, 3, s, input) == State(b, c, d, a);
    b := Step4(b, c, d, a, input[5], 0xfc93a039, 21);
    assert Operations(48, 4, s, input) == State(a, b, c, d);
    a := Step4(a, b, c, d, input[12], 0x655b59c3, 6);
    assert Operations(48, 5, s, input) == State(d, a, b, c);
    d := Step4(d, a, b, c, input[3], 0x8f0ccc92, 10);
    assert Operations(48, 6, s, input) == State(c, d, a, b);
    c := Step4(c, d, a, b, input[10], 0xffeff47d, 15);
    assert Operations(48, 7, s, input) == State(b, c, d, a);
    b := Step4(b, c, d, a, input[1], 0x85845dd1, 21);
    assert Operations(48, 8, s, input) == State(a, b, c, d);
  }

  method Steps56To63(input: seq<Word>, a0: Word, b0: Word, c0: Word, d0: Word)
    returns (a: Word, b: Word, c: Word, d: Word)
    requires |input| == 16
    ensures State(a, b, c, d) == Operations(56, 8, State(a0, b0, c0, d0), input)
  {
    hide Step1, Step2, Step3, Step4, NewWord, F, G, H, I;
    ghost var s := State(a0, b0, c0, d0);
    a, b, c, d := a0, b0, c0, d0;
    assert Operations(56, 0, s, input) == s;
    a := Step4(a, b, c, d, input[8], 0x6fa87e4f, 6);
    assert Operations(56, 1, s, input) == State(d, a, b, c);
    d := Step4(d, a, b, c, input[15], 0xfe2ce6e0, 10);
    assert Operations(56, 2, s, input) == State(c, d, a, b);
    c := Step4(c, d, a, b, input[6], 0xa3014314, 15);
    assert Operations(56, 3, s, input) == State(b, c, d, a);
    b := Step4(b, c, d, a, input[13], 0x4e0811a1, 21);
    assert Operations(56, 4, s, input) == State(a, b, c, d);
    a := Step4(a, b, c, d, input[4], 0xf7537e82, 6);
    assert Operations(56, 5, s, input) == State(d, a, b, c);
    d := Step4(d, a, b, c, input[11], 0xbd3af235, 10);
    assert Operations(56, 6, s, input) == State(c, d, a, b);
    c := Step4(c, d, a, b, input[2], 0x2ad7d2bb, 15);
    assert Operations(56, 7, s, input) == State(b, c, d, a);
    b := Step4(b, c, d, a, input[9], 0xeb86d391, 21);
    assert Operations(56, 8, s, input) == State(a, b, c, d);
  }

  lemma {:induction false} OperationsCompose(i: nat, n: nat, n': nat, s: State, x: seq<Word>)
    requires i + n + n' <= 64 && |x| == 16
    ensures Operations(i, n + n', s, x) == Operations(i + n, n', Operations(i, n, s, x), x)
  {
    hide Operation;
    if n' > 0 { OperationsCompose(i, n, n' - 1, s, x); }
  }

  ghost function Eight(i: nat, s: State, x: seq<Word>): State
    requires i <= 56 && |x| == 16
  {
    Operations(i, 8, s, x)
  }

  /** Eight times eight operations are the 64 operations. */
  lemma EightEights(s: State, x: seq<Word>)
    requires |x| == 16
    ensures Operations(0, 64, s, x) ==
      Eight(56, Eight(48, Eight(40, Eight(32, Eight(24, Eight(16, Eight(8, Eight(0, s, x), x), x), x), x), x), x), x)
  {
    hide Operations;
    OperationsCompose(0, 8, 8, s, x);
    OperationsCompose(0, 16, 8, s, x);
    OperationsCompose(0, 24, 8, s, x);
    OperationsCompose(0, 32, 8, s, x);
    OperationsCompose(0, 40, 8, s, x);
    OperationsCompose(0, 48, 8, s, x);
    OperationsCompose(0, 56, 8, s, x);
  }

  function StateOf(buf: array<Word>): State
    requires buf.Length == 4
    reads buf
  {
    State(buf[0], buf[1], buf[2], buf[3])
  }

  /** The transformation of one block is the RFC's. */
  method MD5Transform(buf: array<Word>, input: seq<Word>)
    requires buf.Length == 4 && |input| == 16
    modifies buf
    ensures StateOf(buf) == Compress(old(StateOf(buf)), input)
  {
    hide Operations, Plus;
    EightEights(StateOf(buf), input);
    var a, b, c, d := Steps0To7(input, buf[0], buf[1], buf[2], buf[3]);
    a, b, c, d := Steps8To15(input, a, b, c, d);
    a, b, c, d := Steps16To23(input, a, b, c, d);
    a, b, c, d := Steps24To31(input, a, b, c, d);
    a, b, c, d := Steps32To39(input, a, b, c, d);
    a, b, c, d := Steps40To47(input, a, b, c, d);
    a, b, c, d := Steps48To55(input, a, b, c, d);
    a, b, c, d := Steps56To63(input, a, b, c, d);
    AddTo(buf, a, b, c, d);
  }

  method AddTo(buf: array<Word>, a: Word, b: Word, c: Word, d: Word)
    requires buf.Length == 4
    modifies buf
    ensures StateOf(buf) == AddStates(old(StateOf(buf)), State(a, b, c, d))
  {
    hide Plus;
    buf[0] := Plus(buf[0], a);
    buf[1] := Plus(buf[1], b);
    buf[2] := Plus(buf[2], c);
    buf[3] := Plus(buf[3], d);
  }
}
