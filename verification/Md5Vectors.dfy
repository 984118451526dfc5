/** The digests of two messages of the test suite in RFC 1321, section A.5. */
module Md5Vectors {
  import opened Bits
  import opened Md5Counter
  import opened Md5Transform
  import opened Rfc1321

  /** One operation with its numbers: the mixed word, the word of the block, the constant, the rotation, and the new
      word. */
  lemma Next(i: nat, s: State, x: seq<Word>, mix: Word, k: Word, t: Constant, r: nat, new_: Word)
    requires i < 64 && |x| == 16 && x[WordIndex(i)] == k && T(i) == t && Shift(i) == r
    requires mix == if i < 16 then F(s.b, s.c, s.d) else if i < 32 then G(s.b, s.c, s.d)
                    else if i < 48 then H(s.b, s.c, s.d) else I(s.b, s.c, s.d)
    requires NewWord(s.a, s.b, mix, k, t, r) == new_
    ensures Operation(i, s, x) == State(s.d, new_, s.b, s.c)
  {
    hide WordIndex, T, Shift, F, G, H, I, NewWord;
  }

  // ---------------------------------------------------------------- the empty message

  /** The words of its one block. */
  const EMPTY: seq<Word> := [0x80, 0x0, 0x0, 0x0, 0x0, 0x0, 0x0, 0x0, 0x0, 0x0, 0x0, 0x0, 0x0, 0x0, 0x0, 0x0]

  lemma Empty0To3()
    ensures Operations(0, 4, State(0x67452301, 0xefcdab89, 0x98badcfe, 0x10325476), EMPTY)
         == State(0xa5202774, 0x1b163203, 0xe7f06b23, 0xf59592dd)
  {
    hide Operation;
    var s0 := State(0x67452301, 0xefcdab89, 0x98badcfe, 0x10325476);
    var s1 := State(0x10325476, 0xa5202774, 0xefcdab89, 0x98badcfe);
    assert Operation(0, s0, EMPTY) == s1 by { Next(0, s0, EMPTY, 0x98badcfe, 0x80, 0xd76aa478, 7, 0xa5202774); }
    var s2 := State(0x98badcfe, 0xf59592dd, 0xa5202774, 0xefcdab89);
    assert Operation(1, s1, EMPTY) == s2 by { Next(1, s1, EMPTY, 0xbd9afb8a, 0x0, 0xe8c7b756, 12, 0xf59592dd); }
    var s3 := State(0xefcdab89, 0xe7f06b23, 0xf59592dd, 0xa5202774);
    assert Operation(2, s2, EMPTY) == s3 by { Next(2, s2, EMPTY, 0xaf482b54, 0x0, 0x242070db, 17, 0xe7f06b23); }
    var s4 := State(0xa5202774, 0x1b163203, 0xe7f06b23, 0xf59592dd);
    assert Operation(3, s3, EMPTY) == s4 by { Next(3, s3, EMPTY, 0xe5900655, 0x0, 0xc1bdceee, 22, 0x1b163203); }
  }

  lemma Empty4To7()
    ensures Operations(4, 4, State(0xa5202774, 0x1b163203, 0xe7f06b23, 0xf59592dd), EMPTY)
         == State(0x32033344, 0x9bc13ce9, 0xf5b158db, 0x2f35d494)
  {
    hide Operation;
    var s0 := State(0xa5202774, 0x1b163203, 0xe7f06b23, 0xf59592dd);
    var s1 := State(0xf59592dd, 0x32033344, 0x1b163203, 0xe7f06b23);
    assert Operation(4, s0, EMPTY) == s1 by { Next(4, s0, EMPTY, 0xe791a2df, 0x0, 0xf57c0faf, 7, 0x32033344); }
    var s2 := State(0xe7f06b23, 0x2f35d494, 0x32033344, 0x1b163203);
    assert Operation(5, s1, EMPTY) == s2 by { Next(5, s1, EMPTY, 0xd7f27a23, 0x0, 0x4787c62a, 12, 0x2f35d494); }
    var s3 := State(0x1b163203, 0xf5b158db, 0x2f35d494, 0x32033344);
    assert Operation(6, s2, EMPTY) == s3 by { Next(6, s2, EMPTY, 0x32033207, 0x0, 0xa8304613, 17, 0xf5b158db); }
    var s4 := State(0x32033344, 0x9bc13ce9, 0xf5b158db, 0x2f35d494);
    assert Operation(7, s3, EMPTY) == s4 by { Next(7, s3, EMPTY, 0x27337394, 0x0, 0xfd469501, 22, 0x9bc13ce9); }
  }

  lemma Empty8To11()
    ensures Operations(8, 4, State(0x32033344, 0x9bc13ce9, 0xf5b158db, 0x2f35d494), EMPTY)
         == State(0x3893b991, 0x70768a29, 0xe1ef0576, 0xfce4a312)
  {
    hide Operation;
    var s0 := State(0x32033344, 0x9bc13ce9, 0xf5b158db, 0x2f35d494);
    var s1 := State(0x2f35d494, 0x3893b991, 0x9bc13ce9, 0xf5b158db);
    assert Operation(8, s0, EMPTY) == s1 by { Next(8, s0, EMPTY, 0xb5b5d8dd, 0x0, 0x698098d8, 7, 0x3893b991); }
    var s2 := State(0xf5b158db, 0xfce4a312, 0x3893b991, 0x9bc13ce9);
    assert Operation(9, s1, EMPTY) == s2 by { Next(9, s1, EMPTY, 0xdda178cb, 0x0, 0x8b44f7af, 12, 0xfce4a312); }
    var s3 := State(0x9bc13ce9, 0xe1ef0576, 0xfce4a312, 0x3893b991);
    assert Operation(10, s2, EMPTY) == s3 by { Next(10, s2, EMPTY, 0x3b81bdf9, 0x0, 0xffff5bb1, 17, 0xe1ef0576); }
    var s4 := State(0x3893b991, 0x70768a29, 0xe1ef0576, 0xfce4a312);
    assert Operation(11, s3, EMPTY) == s4 by { Next(11, s3, EMPTY, 0xf8f4b993, 0x0, 0x895cd7be, 22, 0x70768a29); }
  }

  lemma Empty12To15()
    ensures Operations(12, 4, State(0x3893b991, 0x70768a29, 0xe1ef0576, 0xfce4a312), EMPTY)
         == State(0xf56c7cf1, 0xd6819c6a, 0x5aa53f75, 0x374943a7)
  {
    hide Operation;
    var s0 := State(0x3893b991, 0x70768a29, 0xe1ef0576, 0xfce4a312);
    var s1 := State(0xfce4a312, 0xf56c7cf1, 0x70768a29, 0xe1ef0576);
    assert Operation(12, s0, EMPTY) == s1 by { Next(12, s0, EMPTY, 0xece62132, 0x0, 0x6b901122, 7, 0xf56c7cf1); }
    var s2 := State(0xe1ef0576, 0x374943a7, 0xf56c7cf1, 0x70768a29);
    assert Operation(13, s1, EMPTY) == s2 by { Next(13, s1, EMPTY, 0x70e70927, 0x0, 0xfd987193, 12, 0x374943a7); }
    var s3 := State(0x70768a29, 0x5aa53f75, 0x374943a7, 0xf56c7cf1);
    assert Operation(14, s2, EMPTY) == s3 by { Next(14, s2, EMPTY, 0x757ec8a9, 0x0, 0xa679438e, 17, 0x5aa53f75); }
    var s4 := State(0xf56c7cf1, 0xd6819c6a, 0x5aa53f75, 0x374943a7);
    assert Operation(15, s3, EMPTY) == s4 by { Next(15, s3, EMPTY, 0xb74943a5, 0x0, 0x49b40821, 22, 0xd6819c6a); }
  }

  lemma Empty16To19()
    ensures Operations(16, 4, State(0xf56c7cf1, 0xd6819c6a, 0x5aa53f75, 0x374943a7), EMPTY)
         == State(0x1c7d7513, 0xbd782e17, 0xc095f13a, 0x7bd57a3a)
  {
    hide Operation;
    var s0 := State(0xf56c7cf1, 0xd6819c6a, 0x5aa53f75, 0x374943a7);
    var s1 := State(0x374943a7, 0x1c7d7513, 0xd6819c6a, 0x5aa53f75);
    assert Operation(16, s0, EMPTY) == s1 by { Next(16, s0, EMPTY, 0x5ea53c72, 0x0, 0xf61e2562, 5, 0x1c7d7513); }
    var s2 := State(0x5aa53f75, 0x7bd57a3a, 0x1c7d7513, 0xd6819c6a);
    assert Operation(17, s1, EMPTY) == s2 by { Next(17, s1, EMPTY, 0x9c25b51b, 0x0, 0xc040b340, 9, 0x7bd57a3a); }
    var s3 := State(0xd6819c6a, 0xc095f13a, 0x7bd57a3a, 0x1c7d7513);
    assert Operation(18, s2, EMPTY) == s3 by { Next(18, s2, EMPTY, 0x5afd793b, 0x0, 0x265e5a51, 14, 0xc095f13a); }
    var s4 := State(0x1c7d7513, 0xbd782e17, 0xc095f13a, 0x7bd57a3a);
    assert Operation(19, s3, EMPTY) == s4 by { Next(19, s3, EMPTY, 0x63957b3a, 0x80, 0xe9b6c7aa, 20, 0xbd782e17); }
  }

  lemma Empty20To23()
    ensures Operations(20, 4, State(0x1c7d7513, 0xbd782e17, 0xc095f13a, 0x7bd57a3a), EMPTY)
         == State(0x3d1e3e6c, 0xe422531a, 0xeb41643e, 0x68b7b3e3)
  {
    hide Operation;
    var s0 := State(0x1c7d7513, 0xbd782e17, 0xc095f13a, 0x7bd57a3a);
    var s1 := State(0x7bd57a3a, 0x3d1e3e6c, 0xbd782e17, 0xc095f13a);
    assert Operation(20, s0, EMPTY) == s1 by { Next(20, s0, EMPTY, 0xb950ab12, 0x0, 0xd62f105d, 5, 0x3d1e3e6c); }
    var s2 := State(0xc095f13a, 0x68b7b3e3, 0x3d1e3e6c, 0xbd782e17);
    assert Operation(21, s1, EMPTY) == s2 by { Next(21, s1, EMPTY, 0x3d7c3e2d, 0x0, 0x02441453, 9, 0x68b7b3e3); }
    var s3 := State(0xbd782e17, 0xeb41643e, 0x68b7b3e3, 0x3d1e3e6c);
    assert Operation(22, s2, EMPTY) == s3 by { Next(22, s2, EMPTY, 0x2836326b, 0x0, 0xd8a1e681, 14, 0xeb41643e); }
    var s4 := State(0x3d1e3e6c, 0xe422531a, 0xeb41643e, 0x68b7b3e3);
    assert Operation(23, s3, EMPTY) == s4 by { Next(23, s3, EMPTY, 0x69a1a5af, 0x0, 0xe7d3fbc8, 20, 0xe422531a); }
  }

  lemma Empty24To27()
    ensures Operations(24, 4, State(0x3d1e3e6c, 0xe422531a, 0xeb41643e, 0x68b7b3e3), EMPTY)
         == State(0x306ec122, 0xa0572807, 0xa3c663da, 0xd28c77c2)
  {
    hide Operation;
    var s0 := State(0x3d1e3e6c, 0xe422531a, 0xeb41643e, 0x68b7b3e3);
    var s1 := State(0x68b7b3e3, 0x306ec122, 0xe422531a, 0xeb41643e);
    assert Operation(24, s0, EMPTY) == s1 by { Next(24, s0, EMPTY, 0xe362571e, 0x0, 0x21e1cde6, 5, 0x306ec122); }
    var s2 := State(0xeb41643e, 0xd28c77c2, 0x306ec122, 0xe422531a);
    assert Operation(25, s1, EMPTY) == s2 by { Next(25, s1, EMPTY, 0x24625322, 0x0, 0xc33707d6, 9, 0xd28c77c2); }
    var s3 := State(0xe422531a, 0xa3c663da, 0xd28c77c2, 0x306ec122);
    assert Operation(26, s2, EMPTY) == s3 by { Next(26, s2, EMPTY, 0xd04cd322, 0x0, 0xf4d50d87, 14, 0xa3c663da); }
    var s4 := State(0x306ec122, 0xa0572807, 0xa3c663da, 0xd28c77c2);
    assert Operation(27, s3, EMPTY) == s4 by { Next(27, s3, EMPTY, 0xe2c677c2, 0x0, 0x455a14ed, 20, 0xa0572807); }
  }

  lemma Empty28To31()
    ensures Operations(28, 4, State(0x306ec122, 0xa0572807, 0xa3c663da, 0xd28c77c2), EMPTY)
         == State(0x13707036, 0xa2205f1f, 0x1c31c384, 0xae7813db)
  {
    hide Operation;
    var s0 := State(0x306ec122, 0xa0572807, 0xa3c663da, 0xd28c77c2);
    var s1 := State(0xd28c77c2, 0x13707036, 0xa0572807, 0xa3c663da);
    assert Operation(28, s0, EMPTY) == s1 by { Next(28, s0, EMPTY, 0xa146201a, 0x0, 0xa9e3e905, 5, 0x13707036); }
    var s2 := State(0xa3c663da, 0xae7813db, 0x13707036, 0xa0572807);
    assert Operation(29, s1, EMPTY) == s2 by { Next(29, s1, EMPTY, 0x03516817, 0x0, 0xfcefa3f8, 9, 0xae7813db); }
    var s3 := State(0xa0572807, 0x1c31c384, 0xae7813db, 0x13707036);
    assert Operation(30, s2, EMPTY) == s3 by { Next(30, s2, EMPTY, 0xb3705033, 0x0, 0x676f02d9, 14, 0x1c31c384); }
    var s4 := State(0x13707036, 0xa2205f1f, 0x1c31c384, 0xae7813db);
    assert Operation(31, s3, EMPTY) == s4 by { Next(31, s3, EMPTY, 0xbc3843cd, 0x0, 0x8d2a4c8a, 20, 0xa2205f1f); }
  }

  lemma Empty32To35()
    ensures Operations(32, 4, State(0x13707036, 0xa2205f1f, 0x1c31c384, 0xae7813db), EMPTY)
         == State(0xdf63eaa1, 0x004b6669, 0x12f3e755, 0xc3689f5b)
  {
    hide Operation;
    var s0 := State(0x13707036, 0xa2205f1f, 0x1c31c384, 0xae7813db);
    var s1 := State(0xae7813db, 0xdf63eaa1, 0xa2205f1f, 0x1c31c384);
    assert Operation(32, s0, EMPTY) == s1 by { Next(32, s0, EMPTY, 0x10698f40, 0x0, 0xfffa3942, 4, 0xdf63eaa1); }
    var s2 := State(0x1c31c384, 0xc3689f5b, 0xdf63eaa1, 0xa2205f1f);
    assert Operation(33, s1, EMPTY) == s2 by { Next(33, s1, EMPTY, 0x6172763a, 0x0, 0x8771f681, 11, 0xc3689f5b); }
    var s3 := State(0xa2205f1f, 0x12f3e755, 0xc3689f5b, 0xdf63eaa1);
    assert Operation(34, s2, EMPTY) == s3 by { Next(34, s2, EMPTY, 0xbe2b2ae5, 0x0, 0x6d9d6122, 16, 0x12f3e755); }
    var s4 := State(0xdf63eaa1, 0x004b6669, 0x12f3e755, 0xc3689f5b);
    assert Operation(35, s3, EMPTY) == s4 by { Next(35, s3, EMPTY, 0x0ef892af, 0x0, 0xfde5380c, 23, 0x004b6669); }
  }

  lemma Empty36To39()
    ensures Operations(36, 4, State(0xdf63eaa1, 0x004b6669, 0x12f3e755, 0xc3689f5b), EMPTY)
         == State(0x5f7a9b2e, 0xc5dc8c15, 0x91ca4cb7, 0xabc34e16)
  {
    hide Operation;
    var s0 := State(0xdf63eaa1, 0x004b6669, 0x12f3e755, 0xc3689f5b);
    var s1 := State(0xc3689f5b, 0x5f7a9b2e, 0x004b6669, 0x12f3e755);
    assert Operation(36, s0, EMPTY) == s1 by { Next(36, s0, EMPTY, 0xd1d01e67, 0x0, 0xa4beea44, 4, 0x5f7a9b2e); }
    var s2 := State(0x12f3e755, 0xabc34e16, 0x5f7a9b2e, 0x004b6669);
    assert Operation(37, s1, EMPTY) == s2 by { Next(37, s1, EMPTY, 0x4dc21a12, 0x0, 0x4bdecfa9, 11, 0xabc34e16); }
    var s3 := State(0x004b6669, 0x91ca4cb7, 0xabc34e16, 0x5f7a9b2e);
    assert Operation(38, s2, EMPTY) == s3 by { Next(38, s2, EMPTY, 0xf4f2b351, 0x0, 0xf6bb4b60, 16, 0x91ca4cb7); }
    var s4 := State(0x5f7a9b2e, 0xc5dc8c15, 0x91ca4cb7, 0xabc34e16);
    assert Operation(39, s3, EMPTY) == s4 by { Next(39, s3, EMPTY, 0x6573998f, 0x0, 0xbebfbc70, 23, 0xc5dc8c15); }
  }

  lemma Empty40To43()
    ensures Operations(40, 4, State(0x5f7a9b2e, 0xc5dc8c15, 0x91ca4cb7, 0xabc34e16), EMPTY)
         == State(0x4497169d, 0x0fe32453, 0xfd95f243, 0x76fd93d4)
  {
    hide Operation;
    var s0 := State(0x5f7a9b2e, 0xc5dc8c15, 0x91ca4cb7, 0xabc34e16);
    var s1 := State(0xabc34e16, 0x4497169d, 0xc5dc8c15, 0x91ca4cb7);
    assert Operation(40, s0, EMPTY) == s1 by { Next(40, s0, EMPTY, 0xffd58eb4, 0x0, 0x289b7ec6, 4, 0x4497169d); }
    var s2 := State(0x91ca4cb7, 0x76fd93d4, 0x4497169d, 0xc5dc8c15);
    assert Operation(41, s1, EMPTY) == s2 by { Next(41, s1, EMPTY, 0x1081d63f, 0x80, 0xeaa127fa, 11, 0x76fd93d4); }
    var s3 := State(0xc5dc8c15, 0xfd95f243, 0x76fd93d4, 0x4497169d);
    assert Operation(42, s2, EMPTY) == s3 by { Next(42, s2, EMPTY, 0xf7b6095c, 0x0, 0xd4ef3085, 16, 0xfd95f243); }
    var s4 := State(0x4497169d, 0x0fe32453, 0xfd95f243, 0x76fd93d4);
    assert Operation(43, s3, EMPTY) == s4 by { Next(43, s3, EMPTY, 0xcfff770a, 0x0, 0x04881d05, 23, 0x0fe32453); }
  }

  lemma Empty44To47()
    ensures Operations(44, 4, State(0x4497169d, 0x0fe32453, 0xfd95f243, 0x76fd93d4), EMPTY)
         == State(0x3f55edfd, 0xca7d2dbd, 0x68d84ea2, 0x22a31f54)
  {
    hide Operation;
    var s0 := State(0x4497169d, 0x0fe32453, 0xfd95f243, 0x76fd93d4);
    var s1 := State(0x76fd93d4, 0x3f55edfd, 0x0fe32453, 0xfd95f243);
    assert Operation(44, s0, EMPTY) == s1 by { Next(44, s0, EMPTY, 0x848b45c4, 0x0, 0xd9d4d039, 4, 0x3f55edfd); }
    var s2 := State(0xfd95f243, 0x22a31f54, 0x3f55edfd, 0x0fe32453);
    assert Operation(45, s1, EMPTY) == s2 by { Next(45, s1, EMPTY, 0xcd233bed, 0x0, 0xe6db99e5, 11, 0x22a31f54); }
    var s3 := State(0x0fe32453, 0x68d84ea2, 0x22a31f54, 0x3f55edfd);
    assert Operation(46, s2, EMPTY) == s3 by { Next(46, s2, EMPTY, 0x1215d6fa, 0x0, 0x1fa27cf8, 16, 0x68d84ea2); }
    var s4 := State(0x3f55edfd, 0xca7d2dbd, 0x68d84ea2, 0x22a31f54);
    assert Operation(47, s3, EMPTY) == s4 by { Next(47, s3, EMPTY, 0x752ebc0b, 0x0, 0xc4ac5665, 23, 0xca7d2dbd); }
  }

  lemma Empty48To49()
    ensures Operations(48, 2, State(0x3f55edfd, 0xca7d2dbd, 0x68d84ea2, 0x22a31f54), EMPTY)
         == State(0x68d84ea2, 0x1688dc85, 0x93aa2577, 0xca7d2dbd)
  {
    hide Operation;
    var s0 := State(0x3f55edfd, 0xca7d2dbd, 0x68d84ea2, 0x22a31f54);
    var s1 := State(0x22a31f54, 0x93aa2577, 0xca7d2dbd, 0x68d84ea2);
    assert Operation(48, s0, EMPTY) == s1 by { Next(48, s0, EMPTY, 0xb7a5a31d, 0x80, 0xf4292244, 6, 0x93aa2577); }
    var s2 := State(0x68d84ea2, 0x1688dc85, 0x93aa2577, 0xca7d2dbd);
    assert Operation(49, s1, EMPTY) == s2 by { Next(49, s1, EMPTY, 0x5dd298c2, 0x0, 0x432aff97, 10, 0x1688dc85); }
  }

  lemma Empty50To51()
    ensures Operations(50, 2, State(0x68d84ea2, 0x1688dc85, 0x93aa2577, 0xca7d2dbd), EMPTY)
         == State(0x93aa2577, 0x561e0689, 0xcd85b8cb, 0x1688dc85)
  {
    hide Operation;
    var s0 := State(0x68d84ea2, 0x1688dc85, 0x93aa2577, 0xca7d2dbd);
    var s1 := State(0xca7d2dbd, 0xcd85b8cb, 0x1688dc85, 0x93aa2577);
    assert Operation(50, s0, EMPTY) == s1 by { Next(50, s0, EMPTY, 0xa420fbb0, 0x0, 0xab9423a7, 15, 0xcd85b8cb); }
    var s2 := State(0x93aa2577, 0x561e0689, 0xcd85b8cb, 0x1688dc85);
    assert Operation(51, s1, EMPTY) == s2 by { Next(51, s1, EMPTY, 0xfb5d264e, 0x0, 0xfc93a039, 21, 0x561e0689); }
  }

  lemma Empty52To55()
    ensures Operations(52, 4, State(0x93aa2577, 0x561e0689, 0xcd85b8cb, 0x1688dc85), EMPTY)
         == State(0x5625a114, 0x1e77fa61, 0x392ad0d0, 0x3450f42b)
  {
    hide Operation;
    var s0 := State(0x93aa2577, 0x561e0689, 0xcd85b8cb, 0x1688dc85);
    var s1 := State(0x1688dc85, 0x5625a114, 0x561e0689, 0xcd85b8cb);
    assert Operation(52, s0, EMPTY) == s1 by { Next(52, s0, EMPTY, 0x32fa9f30, 0x0, 0x655b59c3, 6, 0x5625a114); }
    var s2 := State(0xcd85b8cb, 0x3450f42b, 0x5625a114, 0x561e0689);
    assert Operation(53, s1, EMPTY) == s2 by { Next(53, s1, EMPTY, 0x2061e1bd, 0x0, 0x8f0ccc92, 10, 0x3450f42b); }
    var s3 := State(0x561e0689, 0x392ad0d0, 0x3450f42b, 0x5625a114);
    assert Operation(54, s2, EMPTY) == s3 by { Next(54, s2, EMPTY, 0xebd45c6b, 0x0, 0xffeff47d, 15, 0x392ad0d0); }
    var s4 := State(0x5625a114, 0x1e77fa61, 0x392ad0d0, 0x3450f42b);
    assert Operation(55, s3, EMPTY) == s4 by { Next(55, s3, EMPTY, 0x8daa2ad0, 0x0, 0x85845dd1, 21, 0x1e77fa61); }
  }

  lemma Empty56To59()
    ensures Operations(56, 4, State(0x5625a114, 0x1e77fa61, 0x392ad0d0, 0x3450f42b), EMPTY)
         == State(0x474a9c8c, 0x30130182, 0x36594b14, 0xdfce00bc)
  {
    hide Operation;
    var s0 := State(0x5625a114, 0x1e77fa61, 0x392ad0d0, 0x3450f42b);
    var s1 := State(0x3450f42b, 0x474a9c8c, 0x1e77fa61, 0x392ad0d0);
    assert Operation(56, s0, EMPTY) == s1 by { Next(56, s0, EMPTY, 0xe6d52b25, 0x0, 0x6fa87e4f, 6, 0x474a9c8c); }
    var s2 := State(0x392ad0d0, 0xdfce00bc, 0x474a9c8c, 0x1e77fa61);
    assert Operation(57, s1, EMPTY) == s2 by { Next(57, s1, EMPTY, 0xd9a845ce, 0x0, 0xfe2ce6e0, 10, 0xdfce00bc); }
    var s3 := State(0x1e77fa61, 0x36594b14, 0xdfce00bc, 0x474a9c8c);
    assert Operation(58, s2, EMPTY) == s3 by { Next(58, s2, EMPTY, 0xb8849932, 0x0, 0xa3014314, 15, 0x36594b14); }
    var s4 := State(0x474a9c8c, 0x30130182, 0x36594b14, 0xdfce00bc);
    assert Operation(59, s3, EMPTY) == s4 by { Next(59, s3, EMPTY, 0x61336bcb, 0x0, 0x4e0811a1, 21, 0x30130182); }
  }

  lemma Empty60To63()
    ensures Operations(60, 4, State(0x474a9c8c, 0x30130182, 0x36594b14, 0xdfce00bc), EMPTY)
         == State(0x7246fad3, 0x14e45506, 0xff4ea3eb, 0x6e10a476)
  {
    hide Operation;
    var s0 := State(0x474a9c8c, 0x30130182, 0x36594b14, 0xdfce00bc);
    var s1 := State(0xdfce00bc, 0x7246fad3, 0x30130182, 0x36594b14);
    assert Operation(60, s0, EMPTY) == s1 by { Next(60, s0, EMPTY, 0x066ab4d7, 0x0, 0xf7537e82, 6, 0x7246fad3); }
    var s2 := State(0x36594b14, 0x6e10a476, 0x7246fad3, 0x30130182);
    assert Operation(61, s1, EMPTY) == s2 by { Next(61, s1, EMPTY, 0xcbf5ff79, 0x0, 0xbd3af235, 10, 0x6e10a476); }
    var s3 := State(0x30130182, 0xff4ea3eb, 0x6e10a476, 0x7246fad3);
    assert Operation(62, s2, EMPTY) == s3 by { Next(62, s2, EMPTY, 0x9dba04ac, 0x0, 0x2ad7d2bb, 15, 0xff4ea3eb); }
    var s4 := State(0x7246fad3, 0x14e45506, 0xff4ea3eb, 0x6e10a476);
    assert Operation(63, s3, EMPTY) == s4 by { Next(63, s3, EMPTY, 0x91ef0399, 0x0, 0xeb86d391, 21, 0x14e45506); }
  }

  lemma EmptyOperations()
    ensures Operations(0, 64, INITIAL, EMPTY) == State(0x7246fad3, 0x14e45506, 0xff4ea3eb, 0x6e10a476)
  {
    hide Operations;
    Empty0To3();
    OperationsCompose(0, 4, 4, INITIAL, EMPTY);
    Empty4To7();
    OperationsCompose(0, 8, 4, INITIAL, EMPTY);
    Empty8To11();
    OperationsCompose(0, 12, 4, INITIAL, EMPTY);
    Empty12To15();
    OperationsCompose(0, 16, 4, INITIAL, EMPTY);
    Empty16To19();
    OperationsCompose(0, 20, 4, INITIAL, EMPTY);
    Empty20To23();
    OperationsCompose(0, 24, 4, INITIAL, EMPTY);
    Empty24To27();
    OperationsCompose(0, 28, 4, INITIAL, EMPTY);
    Empty28To31();
    OperationsCompose(0, 32, 4, INITIAL, EMPTY);
    Empty32To35();
    OperationsCompose(0, 36, 4, INITIAL, EMPTY);
    Empty36To39();
    OperationsCompose(0, 40, 4, INITIAL, EMPTY);
    Empty40To43();
    OperationsCompose(0, 44, 4, INITIAL, EMPTY);
    Empty44To47();
    OperationsCompose(0, 48, 2, INITIAL, EMPTY);
    Empty48To49();
    OperationsCompose(0, 50, 2, INITIAL, EMPTY);
    Empty50To51();
    OperationsCompose(0, 52, 4, INITIAL, EMPTY);
    Empty52To55();
    OperationsCompose(0, 56, 4, INITIAL, EMPTY);
    Empty56To59();
    OperationsCompose(0, 60, 4, INITIAL, EMPTY);
    Empty60To63();
  }

  lemma EmptyCompressed()
    ensures Compress(INITIAL, EMPTY) == State(0xd98c1dd4, 0x04b2008f, 0x980980e9, 0x7e42f8ec)
  {
    EmptyOperations();
    hide Operations;
  }

  lemma EmptyBlock()
    ensures |Padded([])| == 64 && Words(Padded([])) == EMPTY
  {
    var p := Padded([]);
    LengthOfFew([]);
    assert |p| == 64;
    forall j | 0 <= j < 64 ensures p[j] == if j == 0 then 0x80 else 0 {
    }
    hide Padded;
    ZeroWord();
    forall j: nat | j < 16 ensures WordAt(p, j) == EMPTY[j] {
    }
  }

  lemma EmptyWord0()
    ensures WordBytes(0xd98c1dd4) == [0xd4, 0x1d, 0x8c, 0xd9]
  {
    DigitsAre(0xd98c1dd4, 0xd4, 0x1d, 0x8c, 0xd9);
    hide Digit;
    assert ByteOf(0xd98c1dd4, 0) == 0xd4;
    assert ByteOf(0xd98c1dd4, 1) == 0x1d;
    assert ByteOf(0xd98c1dd4, 2) == 0x8c;
    assert ByteOf(0xd98c1dd4, 3) == 0xd9;
    hide ByteOf;
    BytesAre(0xd98c1dd4, 0xd98c1dd4, 0xd4, 0x1d, 0x8c, 0xd9);
  }

  lemma EmptyWord1()
    ensures WordBytes(0x04b2008f) == [0x8f, 0x00, 0xb2, 0x04]
  {
    DigitsAre(0x04b2008f, 0x8f, 0x00, 0xb2, 0x04);
    hide Digit;
    assert ByteOf(0x04b2008f, 0) == 0x8f;
    assert ByteOf(0x04b2008f, 1) == 0x00;
    assert ByteOf(0x04b2008f, 2) == 0xb2;
    assert ByteOf(0x04b2008f, 3) == 0x04;
    hide ByteOf;
    BytesAre(0x04b2008f, 0x04b2008f, 0x8f, 0x00, 0xb2, 0x04);
  }

  lemma EmptyWord2()
    ensures WordBytes(0x980980e9) == [0xe9, 0x80, 0x09, 0x98]
  {
    DigitsAre(0x980980e9, 0xe9, 0x80, 0x09, 0x98);
    hide Digit;
    assert ByteOf(0x980980e9, 0) == 0xe9;
    assert ByteOf(0x980980e9, 1) == 0x80;
    assert ByteOf(0x980980e9, 2) == 0x09;
    assert ByteOf(0x980980e9, 3) == 0x98;
    hide ByteOf;
    BytesAre(0x980980e9, 0x980980e9, 0xe9, 0x80, 0x09, 0x98);
  }

  lemma EmptyWord3()
    ensures WordBytes(0x7e42f8ec) == [0xec, 0xf8, 0x42, 0x7e]
  {
    DigitsAre(0x7e42f8ec, 0xec, 0xf8, 0x42, 0x7e);
    hide Digit;
    assert ByteOf(0x7e42f8ec, 0) == 0xec;
    assert ByteOf(0x7e42f8ec, 1) == 0xf8;
    assert ByteOf(0x7e42f8ec, 2) == 0x42;
    assert ByteOf(0x7e42f8ec, 3) == 0x7e;
    hide ByteOf;
    BytesAre(0x7e42f8ec, 0x7e42f8ec, 0xec, 0xf8, 0x42, 0x7e);
  }

  lemma EmptyDigest()
    ensures Md5([])
         == [0xd4, 0x1d, 0x8c, 0xd9, 0x8f, 0x00, 0xb2, 0x04,
             0xe9, 0x80, 0x09, 0x98, 0xec, 0xf8, 0x42, 0x7e]
  {
    EmptyBlock();
    EmptyCompressed();
    EmptyWord0();
    EmptyWord1();
    EmptyWord2();
    EmptyWord3();
    hide Padded, Words, Compress, WordBytes;
    OneBlock(Padded([]));
  }

  // ---------------------------------------------------------------- the message "a"

  /** The words of its one block. */
  const LETTER: seq<Word> := [0x8061, 0x0, 0x0, 0x0, 0x0, 0x0, 0x0, 0x0, 0x0, 0x0, 0x0, 0x0, 0x0, 0x0, 0x8, 0x0]

  lemma Letter0To3()
    ensures Operations(0, 4, State(0x67452301, 0xefcdab89, 0x98badcfe, 0x10325476), LETTER)
         == State(0xa56017f4, 0x607d9686, 0xe65857a7, 0xf2d58361)
  {
    hide Operation;
    var s0 := State(0x67452301, 0xefcdab89, 0x98badcfe, 0x10325476);
    var s1 := State(0x10325476, 0xa56017f4, 0xefcdab89, 0x98badcfe);
    assert Operation(0, s0, LETTER) == s1 by { Next(0, s0, LETTER, 0x98badcfe, 0x8061, 0xd76aa478, 7, 0xa56017f4); }
    var s2 := State(0x98badcfe, 0xf2d58361, 0xa56017f4, 0xefcdab89);
    assert Operation(1, s1, LETTER) == s2 by { Next(1, s1, LETTER, 0xbddacb8a, 0x0, 0xe8c7b756, 12, 0xf2d58361); }
    var s3 := State(0xefcdab89, 0xe65857a7, 0xf2d58361, 0xa56017f4);
    assert Operation(2, s2, LETTER) == s3 by { Next(2, s2, LETTER, 0xad482be8, 0x0, 0x242070db, 17, 0xe65857a7); }
    var s4 := State(0xa56017f4, 0x607d9686, 0xe65857a7, 0xf2d58361);
    assert Operation(3, s3, LETTER) == s4 by { Next(3, s3, LETTER, 0xe3700371, 0x0, 0xc1bdceee, 22, 0x607d9686); }
  }

  lemma Letter4To7()
    ensures Operations(4, 4, State(0xa56017f4, 0x607d9686, 0xe65857a7, 0xf2d58361), LETTER)
         == State(0x3a9d5bcc, 0xa8af6da5, 0xd31ddc83, 0xe0a07db7)
  {
    hide Operation;
    var s0 := State(0xa56017f4, 0x607d9686, 0xe65857a7, 0xf2d58361);
    var s1 := State(0xf2d58361, 0x3a9d5bcc, 0x607d9686, 0xe65857a7);
    assert Operation(4, s0, LETTER) == s1 by { Next(4, s0, LETTER, 0xf2d817e7, 0x0, 0xf57c0faf, 7, 0x3a9d5bcc); }
    var s2 := State(0xe65857a7, 0xe0a07db7, 0x3a9d5bcc, 0x607d9686);
    assert Operation(5, s1, LETTER) == s2 by { Next(5, s1, LETTER, 0xe45d16a7, 0x0, 0x4787c62a, 12, 0xe0a07db7); }
    var s3 := State(0x607d9686, 0xd31ddc83, 0xe0a07db7, 0x3a9d5bcc);
    assert Operation(6, s2, LETTER) == s3 by { Next(6, s2, LETTER, 0x20dddb84, 0x0, 0xa8304613, 17, 0xd31ddc83); }
    var s4 := State(0x3a9d5bcc, 0xa8af6da5, 0xd31ddc83, 0xe0a07db7);
    assert Operation(7, s3, LETTER) == s4 by { Next(7, s3, LETTER, 0xe8805fcf, 0x0, 0xfd469501, 22, 0xa8af6da5); }
  }

  lemma Letter8To11()
    ensures Operations(8, 4, State(0x3a9d5bcc, 0xa8af6da5, 0xd31ddc83, 0xe0a07db7), LETTER)
         == State(0xbe580957, 0x68493d6a, 0xf5fdd933, 0xf386bea6)
  {
    hide Operation;
    var s0 := State(0x3a9d5bcc, 0xa8af6da5, 0xd31ddc83, 0xe0a07db7);
    var s1 := State(0xe0a07db7, 0xbe580957, 0xa8af6da5, 0xd31ddc83);
    assert Operation(8, s0, LETTER) == s1 by { Next(8, s0, LETTER, 0xc00d5c93, 0x0, 0x698098d8, 7, 0xbe580957); }
    var s2 := State(0xd31ddc83, 0xf386bea6, 0xbe580957, 0xa8af6da5);
    assert Operation(9, s1, LETTER) == s2 by { Next(9, s1, LETTER, 0xe90ddd85, 0x0, 0x8b44f7af, 12, 0xf386bea6); }
    var s3 := State(0xa8af6da5, 0xf5fdd933, 0xf386bea6, 0xbe580957);
    assert Operation(10, s2, LETTER) == s3 by { Next(10, s2, LETTER, 0xba294907, 0x0, 0xffff5bb1, 17, 0xf5fdd933); }
    var s4 := State(0xbe580957, 0x68493d6a, 0xf5fdd933, 0xf386bea6);
    assert Operation(11, s3, LETTER) == s4 by { Next(11, s3, LETTER, 0xfb849866, 0x0, 0x895cd7be, 22, 0x68493d6a); }
  }

  lemma Letter12To15()
    ensures Operations(12, 4, State(0xbe580957, 0x68493d6a, 0xf5fdd933, 0xf386bea6), LETTER)
         == State(0x44244cf8, 0xf01e3ce2, 0x6360a45f, 0xd0fe9b27)
  {
    hide Operation;
    var s0 := State(0xbe580957, 0x68493d6a, 0xf5fdd933, 0xf386bea6);
    var s1 := State(0xf386bea6, 0x44244cf8, 0x68493d6a, 0xf5fdd933);
    assert Operation(12, s0, LETTER) == s1 by { Next(12, s0, LETTER, 0xf3cf9ba6, 0x0, 0x6b901122, 7, 0x44244cf8); }
    var s2 := State(0xf5fdd933, 0xd0fe9b27, 0x44244cf8, 0x68493d6a);
    assert Operation(13, s1, LETTER) == s2 by { Next(13, s1, LETTER, 0xf1d99d6b, 0x0, 0xfd987193, 12, 0xd0fe9b27); }
    var s3 := State(0x68493d6a, 0x6360a45f, 0xd0fe9b27, 0x44244cf8);
    assert Operation(14, s2, LETTER) == s3 by { Next(14, s2, LETTER, 0x68252c68, 0x8, 0xa679438e, 17, 0x6360a45f); }
    var s4 := State(0x44244cf8, 0xf01e3ce2, 0x6360a45f, 0xd0fe9b27);
    assert Operation(15, s3, LETTER) == s4 by { Next(15, s3, LETTER, 0x4464c8a7, 0x0, 0x49b40821, 22, 0xf01e3ce2); }
  }

  lemma Letter16To19()
    ensures Operations(16, 4, State(0x44244cf8, 0xf01e3ce2, 0x6360a45f, 0xd0fe9b27), LETTER)
         == State(0x9c341767, 0x8d25cc66, 0xe39ffd23, 0x970ab3a9)
  {
    hide Operation;
    var s0 := State(0x44244cf8, 0xf01e3ce2, 0x6360a45f, 0xd0fe9b27);
    var s1 := State(0xd0fe9b27, 0x9c341767, 0xf01e3ce2, 0x6360a45f);
    assert Operation(16, s0, LETTER) == s1 by { Next(16, s0, LETTER, 0xf31e3c7a, 0x0, 0xf61e2562, 5, 0x9c341767); }
    var s2 := State(0x6360a45f, 0x970ab3a9, 0x9c341767, 0xf01e3ce2);
    assert Operation(17, s1, LETTER) == s2 by { Next(17, s1, LETTER, 0x903e1ce7, 0x0, 0xc040b340, 9, 0x970ab3a9); }
    var s3 := State(0xf01e3ce2, 0xe39ffd23, 0x970ab3a9, 0x9c341767);
    assert Operation(18, s2, LETTER) == s3 by { Next(18, s2, LETTER, 0x9c2a33a5, 0x0, 0x265e5a51, 14, 0xe39ffd23); }
    var s4 := State(0x9c341767, 0x8d25cc66, 0xe39ffd23, 0x970ab3a9);
    assert Operation(19, s3, LETTER) == s4 by { Next(19, s3, LETTER, 0x831eb5ab, 0x8061, 0xe9b6c7aa, 20, 0x8d25cc66); }
  }

  lemma Letter20To23()
    ensures Operations(20, 4, State(0x9c341767, 0x8d25cc66, 0xe39ffd23, 0x970ab3a9), LETTER)
         == State(0x8c444930, 0x373beab0, 0x2dacb8a3, 0x7267097a)
  {
    hide Operation;
    var s0 := State(0x9c341767, 0x8d25cc66, 0xe39ffd23, 0x970ab3a9);
    var s1 := State(0x970ab3a9, 0x8c444930, 0x8d25cc66, 0xe39ffd23);
    assert Operation(20, s0, LETTER) == s1 by { Next(20, s0, LETTER, 0xe595cc22, 0x0, 0xd62f105d, 5, 0x8c444930); }
    var s2 := State(0xe39ffd23, 0x7267097a, 0x8c444930, 0x8d25cc66);
    assert Operation(21, s1, LETTER) == s2 by { Next(21, s1, LETTER, 0x8c244964, 0x0, 0x02441453, 9, 0x7267097a); }
    var s3 := State(0x8d25cc66, 0x2dacb8a3, 0x7267097a, 0x8c444930);
    assert Operation(22, s2, LETTER) == s3 by { Next(22, s2, LETTER, 0x00650972, 0x0, 0xd8a1e681, 14, 0x2dacb8a3); }
    var s4 := State(0x8c444930, 0x373beab0, 0x2dacb8a3, 0x7267097a);
    assert Operation(23, s3, LETTER) == s4 by { Next(23, s3, LETTER, 0x7e27086a, 0x0, 0xe7d3fbc8, 20, 0x373beab0); }
  }

  lemma Letter24To27()
    ensures Operations(24, 4, State(0x8c444930, 0x373beab0, 0x2dacb8a3, 0x7267097a), LETTER)
         == State(0xf175e3ad, 0xc8f891b4, 0x87b7f475, 0x9d5df67e)
  {
    hide Operation;
    var s0 := State(0x8c444930, 0x373beab0, 0x2dacb8a3, 0x7267097a);
    var s1 := State(0x7267097a, 0xf175e3ad, 0x373beab0, 0x2dacb8a3);
    assert Operation(24, s0, LETTER) == s1 by { Next(24, s0, LETTER, 0x3fabb8b1, 0x0, 0x21e1cde6, 5, 0xf175e3ad); }
    var s2 := State(0x2dacb8a3, 0x9d5df67e, 0xf175e3ad, 0x373beab0);
    assert Operation(25, s1, LETTER) == s2 by { Next(25, s1, LETTER, 0x3337e2b1, 0x8, 0xc33707d6, 9, 0x9d5df67e); }
    var s3 := State(0x373beab0, 0x87b7f475, 0x9d5df67e, 0xf175e3ad);
    assert Operation(26, s2, LETTER) == s3 by { Next(26, s2, LETTER, 0xd55de33d, 0x0, 0xf4d50d87, 14, 0x87b7f475); }
    var s4 := State(0xf175e3ad, 0xc8f891b4, 0x87b7f475, 0x9d5df67e);
    assert Operation(27, s3, LETTER) == s4 by { Next(27, s3, LETTER, 0x8d3df477, 0x0, 0x455a14ed, 20, 0xc8f891b4); }
  }

  lemma Letter28To31()
    ensures Operations(28, 4, State(0xf175e3ad, 0xc8f891b4, 0x87b7f475, 0x9d5df67e), LETTER)
         == State(0x93842e98, 0x3745961f, 0x94a2ebee, 0xc7043b64)
  {
    hide Operation;
    var s0 := State(0xf175e3ad, 0xc8f891b4, 0x87b7f475, 0x9d5df67e);
    var s1 := State(0x9d5df67e, 0x93842e98, 0xc8f891b4, 0x87b7f475);
    assert Operation(28, s0, LETTER) == s1 by { Next(28, s0, LETTER, 0x8afa9035, 0x0, 0xa9e3e905, 5, 0x93842e98); }
    var s2 := State(0x87b7f475, 0xc7043b64, 0x93842e98, 0xc8f891b4);
    assert Operation(29, s1, LETTER) == s2 by { Next(29, s1, LETTER, 0xcbcc2590, 0x0, 0xfcefa3f8, 9, 0xc7043b64); }
    var s3 := State(0xc8f891b4, 0x94a2ebee, 0xc7043b64, 0x93842e98);
    assert Operation(30, s2, LETTER) == s3 by { Next(30, s2, LETTER, 0xd3043f2c, 0x0, 0x676f02d9, 14, 0x94a2ebee); }
    var s4 := State(0x93842e98, 0x3745961f, 0x94a2ebee, 0xc7043b64);
    assert Operation(31, s3, LETTER) == s4 by { Next(31, s3, LETTER, 0xd4803bec, 0x0, 0x8d2a4c8a, 20, 0x3745961f); }
  }

  lemma Letter32To35()
    ensures Operations(32, 4, State(0x93842e98, 0x3745961f, 0x94a2ebee, 0xc7043b64), LETTER)
         == State(0xbd607d1e, 0xdaf7f308, 0xbf8b4f98, 0xa6f72085)
  {
    hide Operation;
    var s0 := State(0x93842e98, 0x3745961f, 0x94a2ebee, 0xc7043b64);
    var s1 := State(0xc7043b64, 0xbd607d1e, 0x3745961f, 0x94a2ebee);
    assert Operation(32, s0, LETTER) == s1 by { Next(32, s0, LETTER, 0x64e34695, 0x0, 0xfffa3942, 4, 0xbd607d1e); }
    var s2 := State(0x94a2ebee, 0xa6f72085, 0xbd607d1e, 0x3745961f);
    assert Operation(33, s1, LETTER) == s2 by { Next(33, s1, LETTER, 0x1e8700ef, 0x0, 0x8771f681, 11, 0xa6f72085); }
    var s3 := State(0x3745961f, 0xbf8b4f98, 0xa6f72085, 0xbd607d1e);
    assert Operation(34, s2, LETTER) == s3 by { Next(34, s2, LETTER, 0x2cd2cb84, 0x0, 0x6d9d6122, 16, 0xbf8b4f98); }
    var s4 := State(0xbd607d1e, 0xdaf7f308, 0xbf8b4f98, 0xa6f72085);
    assert Operation(35, s3, LETTER) == s4 by { Next(35, s3, LETTER, 0xa41c1203, 0x8, 0xfde5380c, 23, 0xdaf7f308); }
  }

  lemma Letter36To39()
    ensures Operations(36, 4, State(0xbd607d1e, 0xdaf7f308, 0xbf8b4f98, 0xa6f72085), LETTER)
         == State(0x35a82a7a, 0xcf7e60db, 0x5abe099c, 0x89e0ec97)
  {
    hide Operation;
    var s0 := State(0xbd607d1e, 0xdaf7f308, 0xbf8b4f98, 0xa6f72085);
    var s1 := State(0xa6f72085, 0x35a82a7a, 0xdaf7f308, 0xbf8b4f98);
    assert Operation(36, s0, LETTER) == s1 by { Next(36, s0, LETTER, 0xc38b9c15, 0x0, 0xa4beea44, 4, 0x35a82a7a); }
    var s2 := State(0xbf8b4f98, 0x89e0ec97, 0x35a82a7a, 0xdaf7f308);
    assert Operation(37, s1, LETTER) == s2 by { Next(37, s1, LETTER, 0x50d496ea, 0x0, 0x4bdecfa9, 11, 0x89e0ec97); }
    var s3 := State(0xdaf7f308, 0x5abe099c, 0x89e0ec97, 0x35a82a7a);
    assert Operation(38, s2, LETTER) == s3 by { Next(38, s2, LETTER, 0x66bf35e5, 0x0, 0xf6bb4b60, 16, 0x5abe099c); }
    var s4 := State(0x35a82a7a, 0xcf7e60db, 0x5abe099c, 0x89e0ec97);
    assert Operation(39, s3, LETTER) == s4 by { Next(39, s3, LETTER, 0xe6f6cf71, 0x0, 0xbebfbc70, 23, 0xcf7e60db); }
  }

  lemma Letter40To43()
    ensures Operations(40, 4, State(0x35a82a7a, 0xcf7e60db, 0x5abe099c, 0x89e0ec97), LETTER)
         == State(0x75c151e2, 0xcc6f5e9e, 0x0c0e6ac4, 0x942e0c86)
  {
    hide Operation;
    var s0 := State(0x35a82a7a, 0xcf7e60db, 0x5abe099c, 0x89e0ec97);
    var s1 := State(0x89e0ec97, 0x75c151e2, 0xcf7e60db, 0x5abe099c);
    assert Operation(40, s0, LETTER) == s1 by { Next(40, s0, LETTER, 0x1c2085d0, 0x0, 0x289b7ec6, 4, 0x75c151e2); }
    var s2 := State(0x5abe099c, 0x942e0c86, 0x75c151e2, 0xcf7e60db);
    assert Operation(41, s1, LETTER) == s2 by { Next(41, s1, LETTER, 0xe00138a5, 0x8061, 0xeaa127fa, 11, 0x942e0c86); }
    var s3 := State(0xcf7e60db, 0x0c0e6ac4, 0x942e0c86, 0x75c151e2);
    assert Operation(42, s2, LETTER) == s3 by { Next(42, s2, LETTER, 0x2e913dbf, 0x0, 0xd4ef3085, 16, 0x0c0e6ac4); }
    var s4 := State(0x75c151e2, 0xcc6f5e9e, 0x0c0e6ac4, 0x942e0c86);
    assert Operation(43, s3, LETTER) == s4 by { Next(43, s3, LETTER, 0xede137a0, 0x0, 0x04881d05, 23, 0xcc6f5e9e); }
  }

  lemma Letter44To47()
    ensures Operations(44, 4, State(0x75c151e2, 0xcc6f5e9e, 0x0c0e6ac4, 0x942e0c86), LETTER)
         == State(0x0ac50e18, 0x918f93bb, 0x8a4a6356, 0x79ca7845)
  {
    hide Operation;
    var s0 := State(0x75c151e2, 0xcc6f5e9e, 0x0c0e6ac4, 0x942e0c86);
    var s1 := State(0x942e0c86, 0x0ac50e18, 0xcc6f5e9e, 0x0c0e6ac4);
    assert Operation(44, s0, LETTER) == s1 by { Next(44, s0, LETTER, 0x544f38dc, 0x0, 0xd9d4d039, 4, 0x0ac50e18); }
    var s2 := State(0x0c0e6ac4, 0x79ca7845, 0x0ac50e18, 0xcc6f5e9e);
    assert Operation(45, s1, LETTER) == s2 by { Next(45, s1, LETTER, 0xcaa43a42, 0x0, 0xe6db99e5, 11, 0x79ca7845); }
    var s3 := State(0xcc6f5e9e, 0x8a4a6356, 0x79ca7845, 0x0ac50e18);
    assert Operation(46, s2, LETTER) == s3 by { Next(46, s2, LETTER, 0xbf6028c3, 0x0, 0x1fa27cf8, 16, 0x8a4a6356); }
    var s4 := State(0x0ac50e18, 0x918f93bb, 0x8a4a6356, 0x79ca7845);
    assert Operation(47, s3, LETTER) == s4 by { Next(47, s3, LETTER, 0xf945150b, 0x0, 0xc4ac5665, 23, 0x918f93bb); }
  }

  lemma Letter48To49()
    ensures Operations(48, 2, State(0x0ac50e18, 0x918f93bb, 0x8a4a6356, 0x79ca7845), LETTER)
         == State(0x8a4a6356, 0x6a4daeee, 0xcab8fe42, 0x918f93bb)
  {
    hide Operation;
    var s0 := State(0x0ac50e18, 0x918f93bb, 0x8a4a6356, 0x79ca7845);
    var s1 := State(0x79ca7845, 0xcab8fe42, 0x918f93bb, 0x8a4a6356);
    assert Operation(48, s0, LETTER) == s1 by { Next(48, s0, LETTER, 0x1df5f4ed, 0x8061, 0xf4292244, 6, 0xcab8fe42); }
    var s2 := State(0x8a4a6356, 0x6a4daeee, 0xcab8fe42, 0x918f93bb);
    assert Operation(49, s1, LETTER) == s2 by { Next(49, s1, LETTER, 0x6e326d50, 0x0, 0x432aff97, 10, 0x6a4daeee); }
  }

  lemma Letter50To51()
    ensures Operations(50, 2, State(0x8a4a6356, 0x6a4daeee, 0xcab8fe42, 0x918f93bb), LETTER)
         == State(0xcab8fe42, 0x1ee405eb, 0x36269c3f, 0x6a4daeee)
  {
    hide Operation;
    var s0 := State(0x8a4a6356, 0x6a4daeee, 0xcab8fe42, 0x918f93bb);
    var s1 := State(0x918f93bb, 0x36269c3f, 0x6a4daeee, 0xcab8fe42);
    assert Operation(50, s0, LETTER) == s1 by { Next(50, s0, LETTER, 0xa4c510ac, 0x8, 0xab9423a7, 15, 0x36269c3f); }
    var s2 := State(0xcab8fe42, 0x1ee405eb, 0x36269c3f, 0x6a4daeee);
    assert Operation(51, s1, LETTER) == s2 by { Next(51, s1, LETTER, 0x5d2a3351, 0x0, 0xfc93a039, 21, 0x1ee405eb); }
  }

  lemma Letter52To55()
    ensures Operations(52, 4, State(0xcab8fe42, 0x1ee405eb, 0x36269c3f, 0x6a4daeee), LETTER)
         == State(0x982c7861, 0x893501c0, 0x71fc7709, 0x6812a362)
  {
    hide Operation;
    var s0 := State(0xcab8fe42, 0x1ee405eb, 0x36269c3f, 0x6a4daeee);
    var s1 := State(0x6a4daeee, 0x982c7861, 0x1ee405eb, 0x36269c3f);
    assert Operation(52, s0, LETTER) == s1 by { Next(52, s0, LETTER, 0xa9d0c9c4, 0x0, 0x655b59c3, 6, 0x982c7861); }
    var s2 := State(0x36269c3f, 0x6812a362, 0x982c7861, 0x1ee405eb);
    assert Operation(53, s1, LETTER) == s2 by { Next(53, s1, LETTER, 0xc7197e0a, 0x0, 0x8f0ccc92, 10, 0x6812a362); }
    var s3 := State(0x1ee405eb, 0x71fc7709, 0x6812a362, 0x982c7861);
    assert Operation(54, s2, LETTER) == s3 by { Next(54, s2, LETTER, 0x71378317, 0x0, 0xffeff47d, 15, 0x71fc7709); }
    var s4 := State(0x982c7861, 0x893501c0, 0x71fc7709, 0x6812a362);
    assert Operation(55, s3, LETTER) == s4 by { Next(55, s3, LETTER, 0x1fed54fd, 0x0, 0x85845dd1, 21, 0x893501c0); }
  }

  lemma Letter56To59()
    ensures Operations(56, 4, State(0x982c7861, 0x893501c0, 0x71fc7709, 0x6812a362), LETTER)
         == State(0xfebd62fd, 0xaa4d8ae3, 0x53e33526, 0x28936a74)
  {
    hide Operation;
    var s0 := State(0x982c7861, 0x893501c0, 0x71fc7709, 0x6812a362);
    var s1 := State(0x6812a362, 0xfebd62fd, 0x893501c0, 0x71fc7709);
    assert Operation(56, s0, LETTER) == s1 by { Next(56, s0, LETTER, 0xee012ad4, 0x0, 0x6fa87e4f, 6, 0xfebd62fd); }
    var s2 := State(0x71fc7709, 0x28936a74, 0xfebd62fd, 0x893501c0);
    assert Operation(57, s1, LETTER) == s2 by { Next(57, s1, LETTER, 0x778aeb3f, 0x0, 0xfe2ce6e0, 10, 0x28936a74); }
    var s3 := State(0x893501c0, 0x53e33526, 0x28936a74, 0xfebd62fd);
    assert Operation(58, s2, LETTER) == s3 by { Next(58, s2, LETTER, 0x80669c82, 0x0, 0xa3014314, 15, 0x53e33526); }
    var s4 := State(0xfebd62fd, 0xaa4d8ae3, 0x53e33526, 0x28936a74);
    assert Operation(59, s3, LETTER) == s4 by { Next(59, s3, LETTER, 0x7b70d752, 0x0, 0x4e0811a1, 21, 0xaa4d8ae3); }
  }

  lemma Letter60To63()
    ensures Operations(60, 4, State(0xfebd62fd, 0xaa4d8ae3, 0x53e33526, 0x28936a74), LETTER)
         == State(0x52309e0b, 0xb8e94637, 0x49dee633, 0x50f422f3)
  {
    hide Operation;
    var s0 := State(0xfebd62fd, 0xaa4d8ae3, 0x53e33526, 0x28936a74);
    var s1 := State(0x28936a74, 0x52309e0b, 0xaa4d8ae3, 0x53e33526);
    assert Operation(60, s0, LETTER) == s1 by { Next(60, s0, LETTER, 0xac8eaacd, 0x0, 0xf7537e82, 6, 0x52309e0b); }
    var s2 := State(0x53e33526, 0x50f422f3, 0x52309e0b, 0xaa4d8ae3);
    assert Operation(61, s1, LETTER) == s2 by { Next(61, s1, LETTER, 0x54715438, 0x0, 0xbd3af235, 10, 0x50f422f3); }
    var s3 := State(0xaa4d8ae3, 0x49dee633, 0x50f422f3, 0x52309e0b);
    assert Operation(62, s2, LETTER) == s3 by { Next(62, s2, LETTER, 0x07c6e9f4, 0x0, 0x2ad7d2bb, 15, 0x49dee633); }
    var s4 := State(0x52309e0b, 0xb8e94637, 0x49dee633, 0x50f422f3);
    assert Operation(63, s3, LETTER) == s4 by { Next(63, s3, LETTER, 0xbd2bc504, 0x0, 0xeb86d391, 21, 0xb8e94637); }
  }

  lemma LetterOperations()
    ensures Operations(0, 64, INITIAL, LETTER) == State(0x52309e0b, 0xb8e94637, 0x49dee633, 0x50f422f3)
  {
    hide Operations;
    Letter0To3();
    OperationsCompose(0, 4, 4, INITIAL, LETTER);
    Letter4To7();
    OperationsCompose(0, 8, 4, INITIAL, LETTER);
    Letter8To11();
    OperationsCompose(0, 12, 4, INITIAL, LETTER);
    Letter12To15();
    OperationsCompose(0, 16, 4, INITIAL, LETTER);
    Letter16To19();
    OperationsCompose(0, 20, 4, INITIAL, LETTER);
    Letter20To23();
    OperationsCompose(0, 24, 4, INITIAL, LETTER);
    Letter24To27();
    OperationsCompose(0, 28, 4, INITIAL, LETTER);
    Letter28To31();
    OperationsCompose(0, 32, 4, INITIAL, LETTER);
    Letter32To35();
    OperationsCompose(0, 36, 4, INITIAL, LETTER);
    Letter36To39();
    OperationsCompose(0, 40, 4, INITIAL, LETTER);
    Letter40To43();
    OperationsCompose(0, 44, 4, INITIAL, LETTER);
    Letter44To47();
    OperationsCompose(0, 48, 2, INITIAL, LETTER);
    Letter48To49();
    OperationsCompose(0, 50, 2, INITIAL, LETTER);
    Letter50To51();
    OperationsCompose(0, 52, 4, INITIAL, LETTER);
    Letter52To55();
    OperationsCompose(0, 56, 4, INITIAL, LETTER);
    Letter56To59();
    OperationsCompose(0, 60, 4, INITIAL, LETTER);
    Letter60To63();
  }

  lemma LetterCompressed()
    ensures Compress(INITIAL, LETTER) == State(0xb975c10c, 0xa8b6f1c0, 0xe299c331, 0x61267769)
  {
    LetterOperations();
    hide Operations;
  }

  lemma LetterBlock()
    ensures |Padded([0x61])| == 64 && Words(Padded([0x61])) == LETTER
  {
    var p := Padded([0x61]);
    LengthOfFew([0x61]);
    assert |p| == 64;
    forall j | 0 <= j < 64 ensures p[j] == if j == 0 then 0x61 else if j == 1 then 0x80 else if j == 56 then 8 else 0 {
    }
    hide Padded;
    ZeroWord();
    forall j: nat | j < 16 ensures WordAt(p, j) == LETTER[j] {
    }
  }

  lemma LetterWord0()
    ensures WordBytes(0xb975c10c) == [0x0c, 0xc1, 0x75, 0xb9]
  {
    DigitsAre(0xb975c10c, 0x0c, 0xc1, 0x75, 0xb9);
    hide Digit;
    assert ByteOf(0xb975c10c, 0) == 0x0c;
    assert ByteOf(0xb975c10c, 1) == 0xc1;
    assert ByteOf(0xb975c10c, 2) == 0x75;
    assert ByteOf(0xb975c10c, 3) == 0xb9;
    hide ByteOf;
    BytesAre(0xb975c10c, 0xb975c10c, 0x0c, 0xc1, 0x75, 0xb9);
  }

  lemma LetterWord1()
    ensures WordBytes(0xa8b6f1c0) == [0xc0, 0xf1, 0xb6, 0xa8]
  {
    DigitsAre(0xa8b6f1c0, 0xc0, 0xf1, 0xb6, 0xa8);
    hide Digit;
    assert ByteOf(0xa8b6f1c0, 0) == 0xc0;
    assert ByteOf(0xa8b6f1c0, 1) == 0xf1;
    assert ByteOf(0xa8b6f1c0, 2) == 0xb6;
    assert ByteOf(0xa8b6f1c0, 3) == 0xa8;
    hide ByteOf;
    BytesAre(0xa8b6f1c0, 0xa8b6f1c0, 0xc0, 0xf1, 0xb6, 0xa8);
  }

  lemma LetterWord2()
    ensures WordBytes(0xe299c331) == [0x31, 0xc3, 0x99, 0xe2]
  {
    DigitsAre(0xe299c331, 0x31, 0xc3, 0x99, 0xe2);
    hide Digit;
    assert ByteOf(0xe299c331, 0) == 0x31;
    assert ByteOf(0xe299c331, 1) == 0xc3;
    assert ByteOf(0xe299c331, 2) == 0x99;
    assert ByteOf(0xe299c331, 3) == 0xe2;
    hide ByteOf;
    BytesAre(0xe299c331, 0xe299c331, 0x31, 0xc3, 0x99, 0xe2);
  }

  lemma LetterWord3()
    ensures WordBytes(0x61267769) == [0x69, 0x77, 0x26, 0x61]
  {
    DigitsAre(0x61267769, 0x69, 0x77, 0x26, 0x61);
    hide Digit;
    assert ByteOf(0x61267769, 0) == 0x69;
    assert ByteOf(0x61267769, 1) == 0x77;
    assert ByteOf(0x61267769, 2) == 0x26;
    assert ByteOf(0x61267769, 3) == 0x61;
    hide ByteOf;
    BytesAre(0x61267769, 0x61267769, 0x69, 0x77, 0x26, 0x61);
  }

  lemma LetterDigest()
    ensures Md5([0x61])
         == [0x0c, 0xc1, 0x75, 0xb9, 0xc0, 0xf1, 0xb6, 0xa8,
             0x31, 0xc3, 0x99, 0xe2, 0x69, 0x77, 0x26, 0x61]
  {
    LetterBlock();
    LetterCompressed();
    LetterWord0();
    LetterWord1();
    LetterWord2();
    LetterWord3();
    hide Padded, Words, Compress, WordBytes;
    OneBlock(Padded([0x61]));
  }

  // ---------------------------------------------------------------- one block, and its bytes

  lemma OneBlock(block: seq<byte>)
    requires |block| == 64
    ensures Fold(block) == Compress(INITIAL, Words(block))
  {
    hide Compress, Words;
    assert block[..0] == [] && block[0..] == block;
  }

  lemma BytesAre(w: Word, n: nat, b0: byte, b1: byte, b2: byte, b3: byte)
    requires w as nat == n && ByteOf(n, 0) == b0 && ByteOf(n, 1) == b1 && ByteOf(n, 2) == b2 && ByteOf(n, 3) == b3
    ensures WordBytes(w) == [b0, b1, b2, b3]
  {
    hide ByteOf;
  }

  lemma DigitsAre(n: nat, d0: nat, d1: nat, d2: nat, d3: nat)
    requires d0 < 256 && d1 < 256 && d2 < 256 && d3 < 256
    requires n == d0 + 0x100 * d1 + 0x1_0000 * d2 + 0x100_0000 * d3
    ensures Digit(n, 0) == d0 && Digit(n, 1) == d1 && Digit(n, 2) == d2 && Digit(n, 3) == d3
  {
    Powers();
    hide Pow2;
    DigitIs(n, 1, 0, d0, d1 + 0x100 * d2 + 0x1_0000 * d3);
    DigitIs(n, 0x100, d0, d1, d2 + 0x100 * d3);
    DigitIs(n, 0x1_0000, d0 + 0x100 * d1, d2, d3);
    DigitIs(n, 0x100_0000, d0 + 0x100 * d1 + 0x1_0000 * d2, d3, 0);
  }

  lemma DigitIs(n: nat, p: nat, low: nat, d: nat, high: nat)
    requires p in {1, 0x100, 0x1_0000, 0x100_0000}
    requires n == low + p * (d + 0x100 * high) && low < p && d < 0x100
    ensures n / p % 256 == d
  {
    if
    case p == 1 =>
    case p == 0x100 =>
    case p == 0x1_0000 =>
    case p == 0x100_0000 =>
  }

  lemma LengthOfFew(m: seq<byte>)
    requires |m| < 2
    ensures LengthBytes(m) == [if m == [] then 0 else 8, 0, 0, 0, 0, 0, 0, 0]
  {
    Powers();
    hide Pow2;
    var n := 8 * |m|;
    SmallNumber(n, 0x100);
    SmallNumber(n, 0x1_0000);
    SmallNumber(n, 0x100_0000);
    SmallNumber(n, 0x1_0000_0000);
    SmallNumber(n, 0x100_0000_0000);
    SmallNumber(n, 0x1_0000_0000_0000);
    SmallNumber(n, 0x100_0000_0000_0000);
    assert Digit(n, 0) == n;
    assert Digit(n, 1) == Digit(n, 2) == Digit(n, 3) == Digit(n, 4) == 0;
    assert Digit(n, 5) == Digit(n, 6) == Digit(n, 7) == 0;
    hide Digit;
  }

  lemma SmallNumber(n: nat, p: nat)
    requires n < p
    ensures n / p == 0
  {
  }

  lemma ZeroWord()
    ensures ((0 as byte) as Word) == 0
  {
  }
}
