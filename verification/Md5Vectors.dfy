/**
  The digests of two messages of section A.5 of RFC 1321, worked out operation by operation: what the tables of
  `Rfc1321` come to, in plain digits.
 */
module Md5Vectors {
  import opened BlockFold
  import opened Rounds
  import opened Rfc1321
  import opened Md5Bytes
  import opened Md5Rounds

  /** Operation `j` of a round writes `r`. */
  lemma Op(p: RoundPlan, round: nat, j: nat, a: Word, b: Word, c: Word, d: Word, xk: Word, r: Word)
    requires p.round == round && j < 16 && p.w[Index(round, j)] == xk
    requires Operation(a, b, Mix(round, b, c, d), xk, Shift(round, j), Sine(round, j)) == r
    ensures p.op(j, a, b, c, d) == r
  {
    Meets(p, j, a, b, c, d, Mix(round, b, c, d), xk, Shift(round, j), Sine(round, j), r);
  }

  lemma Block4(q: State, block: Block, x: seq<Word>, q1: State, q2: State, q3: State, q4: State)
    requires x == Words(block)
    requires q1 == Round(Operations(0, x), 16, q) && q2 == Round(Operations(1, x), 16, q1)
    requires q3 == Round(Operations(2, x), 16, q2) && q4 == Round(Operations(3, x), 16, q3)
    ensures Compress(q, block) == Add(q, q4)
  {}

  // ---------------------------------------------------------------- the block of the empty message

  predicate EmptyWords(x: seq<Word>) {
    && |x| == 16
    && x[0] == 0x80 && x[1] == 0x0 && x[2] == 0x0 && x[3] == 0x0
    && x[4] == 0x0 && x[5] == 0x0 && x[6] == 0x0 && x[7] == 0x0
    && x[8] == 0x0 && x[9] == 0x0 && x[10] == 0x0 && x[11] == 0x0
    && x[12] == 0x0 && x[13] == 0x0 && x[14] == 0x0 && x[15] == 0x0
  }

  lemma Empty1(p: RoundPlan)
    requires EmptyWords(p.w) && p.round == 0
    ensures Round(p.op, 16, Quad(0x67452301, 0xefcdab89, 0x98badcfe, 0x10325476))
         == Quad(0xf56c7cf1, 0xd6819c6a, 0x5aa53f75, 0x374943a7)
  {
    Op(p, 0, 0, 0x67452301, 0xefcdab89, 0x98badcfe, 0x10325476, 0x80, 0xa5202774);
    Op(p, 0, 1, 0x10325476, 0xa5202774, 0xefcdab89, 0x98badcfe, 0x0, 0xf59592dd);
    Op(p, 0, 2, 0x98badcfe, 0xf59592dd, 0xa5202774, 0xefcdab89, 0x0, 0xe7f06b23);
    Op(p, 0, 3, 0xefcdab89, 0xe7f06b23, 0xf59592dd, 0xa5202774, 0x0, 0x1b163203);
    Op(p, 0, 4, 0xa5202774, 0x1b163203, 0xe7f06b23, 0xf59592dd, 0x0, 0x32033344);
    Op(p, 0, 5, 0xf59592dd, 0x32033344, 0x1b163203, 0xe7f06b23, 0x0, 0x2f35d494);
    Op(p, 0, 6, 0xe7f06b23, 0x2f35d494, 0x32033344, 0x1b163203, 0x0, 0xf5b158db);
    Op(p, 0, 7, 0x1b163203, 0xf5b158db, 0x2f35d494, 0x32033344, 0x0, 0x9bc13ce9);
    Op(p, 0, 8, 0x32033344, 0x9bc13ce9, 0xf5b158db, 0x2f35d494, 0x0, 0x3893b991);
    Op(p, 0, 9, 0x2f35d494, 0x3893b991, 0x9bc13ce9, 0xf5b158db, 0x0, 0xfce4a312);
    Op(p, 0, 10, 0xf5b158db, 0xfce4a312, 0x3893b991, 0x9bc13ce9, 0x0, 0xe1ef0576);
    Op(p, 0, 11, 0x9bc13ce9, 0xe1ef0576, 0xfce4a312, 0x3893b991, 0x0, 0x70768a29);
    Op(p, 0, 12, 0x3893b991, 0x70768a29, 0xe1ef0576, 0xfce4a312, 0x0, 0xf56c7cf1);
    Op(p, 0, 13, 0xfce4a312, 0xf56c7cf1, 0x70768a29, 0xe1ef0576, 0x0, 0x374943a7);
    Op(p, 0, 14, 0xe1ef0576, 0x374943a7, 0xf56c7cf1, 0x70768a29, 0x0, 0x5aa53f75);
    Op(p, 0, 15, 0x70768a29, 0x5aa53f75, 0x374943a7, 0xf56c7cf1, 0x0, 0xd6819c6a);
    Sixteen(p.op, 0x67452301, 0xefcdab89, 0x98badcfe, 0x10325476, 0xa5202774, 0xf59592dd, 0xe7f06b23,
            0x1b163203, 0x32033344, 0x2f35d494, 0xf5b158db, 0x9bc13ce9, 0x3893b991, 0xfce4a312, 0xe1ef0576,
            0x70768a29, 0xf56c7cf1, 0x374943a7, 0x5aa53f75, 0xd6819c6a);
  }

  lemma Empty2(p: RoundPlan)
    requires EmptyWords(p.w) && p.round == 1
    ensures Round(p.op, 16, Quad(0xf56c7cf1, 0xd6819c6a, 0x5aa53f75, 0x374943a7))
         == Quad(0x13707036, 0xa2205f1f, 0x1c31c384, 0xae7813db)
  {
    Op(p, 1, 0, 0xf56c7cf1, 0xd6819c6a, 0x5aa53f75, 0x374943a7, 0x0, 0x1c7d7513);
    Op(p, 1, 1, 0x374943a7, 0x1c7d7513, 0xd6819c6a, 0x5aa53f75, 0x0, 0x7bd57a3a);
    Op(p, 1, 2, 0x5aa53f75, 0x7bd57a3a, 0x1c7d7513, 0xd6819c6a, 0x0, 0xc095f13a);
    Op(p, 1, 3, 0xd6819c6a, 0xc095f13a, 0x7bd57a3a, 0x1c7d7513, 0x80, 0xbd782e17);
    Op(p, 1, 4, 0x1c7d7513, 0xbd782e17, 0xc095f13a, 0x7bd57a3a, 0x0, 0x3d1e3e6c);
    Op(p, 1, 5, 0x7bd57a3a, 0x3d1e3e6c, 0xbd782e17, 0xc095f13a, 0x0, 0x68b7b3e3);
    Op(p, 1, 6, 0xc095f13a, 0x68b7b3e3, 0x3d1e3e6c, 0xbd782e17, 0x0, 0xeb41643e);
    Op(p, 1, 7, 0xbd782e17, 0xeb41643e, 0x68b7b3e3, 0x3d1e3e6c, 0x0, 0xe422531a);
    Op(p, 1, 8, 0x3d1e3e6c, 0xe422531a, 0xeb41643e, 0x68b7b3e3, 0x0, 0x306ec122);
    Op(p, 1, 9, 0x68b7b3e3, 0x306ec122, 0xe422531a, 0xeb41643e, 0x0, 0xd28c77c2);
    Op(p, 1, 10, 0xeb41643e, 0xd28c77c2, 0x306ec122, 0xe422531a, 0x0, 0xa3c663da);
    Op(p, 1, 11, 0xe422531a, 0xa3c663da, 0xd28c77c2, 0x306ec122, 0x0, 0xa0572807);
    Op(p, 1, 12, 0x306ec122, 0xa0572807, 0xa3c663da, 0xd28c77c2, 0x0, 0x13707036);
    Op(p, 1, 13, 0xd28c77c2, 0x13707036, 0xa0572807, 0xa3c663da, 0x0, 0xae7813db);
    Op(p, 1, 14, 0xa3c663da, 0xae7813db, 0x13707036, 0xa0572807, 0x0, 0x1c31c384);
    Op(p, 1, 15, 0xa0572807, 0x1c31c384, 0xae7813db, 0x13707036, 0x0, 0xa2205f1f);
    Sixteen(p.op, 0xf56c7cf1, 0xd6819c6a, 0x5aa53f75, 0x374943a7, 0x1c7d7513, 0x7bd57a3a, 0xc095f13a,
            0xbd782e17, 0x3d1e3e6c, 0x68b7b3e3, 0xeb41643e, 0xe422531a, 0x306ec122, 0xd28c77c2, 0xa3c663da,
            0xa0572807, 0x13707036, 0xae7813db, 0x1c31c384, 0xa2205f1f);
  }

  lemma Empty3(p: RoundPlan)
    requires EmptyWords(p.w) && p.round == 2
    ensures Round(p.op, 16, Quad(0x13707036, 0xa2205f1f, 0x1c31c384, 0xae7813db))
         == Quad(0x3f55edfd, 0xca7d2dbd, 0x68d84ea2, 0x22a31f54)
  {
    Op(p, 2, 0, 0x13707036, 0xa2205f1f, 0x1c31c384, 0xae7813db, 0x0, 0xdf63eaa1);
    Op(p, 2, 1, 0xae7813db, 0xdf63eaa1, 0xa2205f1f, 0x1c31c384, 0x0, 0xc3689f5b);
    Op(p, 2, 2, 0x1c31c384, 0xc3689f5b, 0xdf63eaa1, 0xa2205f1f, 0x0, 0x12f3e755);
    Op(p, 2, 3, 0xa2205f1f, 0x12f3e755, 0xc3689f5b, 0xdf63eaa1, 0x0, 0x4b6669);
    Op(p, 2, 4, 0xdf63eaa1, 0x4b6669, 0x12f3e755, 0xc3689f5b, 0x0, 0x5f7a9b2e);
    Op(p, 2, 5, 0xc3689f5b, 0x5f7a9b2e, 0x4b6669, 0x12f3e755, 0x0, 0xabc34e16);
    Op(p, 2, 6, 0x12f3e755, 0xabc34e16, 0x5f7a9b2e, 0x4b6669, 0x0, 0x91ca4cb7);
    Op(p, 2, 7, 0x4b6669, 0x91ca4cb7, 0xabc34e16, 0x5f7a9b2e, 0x0, 0xc5dc8c15);
    Op(p, 2, 8, 0x5f7a9b2e, 0xc5dc8c15, 0x91ca4cb7, 0xabc34e16, 0x0, 0x4497169d);
    Op(p, 2, 9, 0xabc34e16, 0x4497169d, 0xc5dc8c15, 0x91ca4cb7, 0x80, 0x76fd93d4);
    Op(p, 2, 10, 0x91ca4cb7, 0x76fd93d4, 0x4497169d, 0xc5dc8c15, 0x0, 0xfd95f243);
    Op(p, 2, 11, 0xc5dc8c15, 0xfd95f243, 0x76fd93d4, 0x4497169d, 0x0, 0xfe32453);
    Op(p, 2, 12, 0x4497169d, 0xfe32453, 0xfd95f243, 0x76fd93d4, 0x0, 0x3f55edfd);
    Op(p, 2, 13, 0x76fd93d4, 0x3f55edfd, 0xfe32453, 0xfd95f243, 0x0, 0x22a31f54);
    Op(p, 2, 14, 0xfd95f243, 0x22a31f54, 0x3f55edfd, 0xfe32453, 0x0, 0x68d84ea2);
    Op(p, 2, 15, 0xfe32453, 0x68d84ea2, 0x22a31f54, 0x3f55edfd, 0x0, 0xca7d2dbd);
    Sixteen(p.op, 0x13707036, 0xa2205f1f, 0x1c31c384, 0xae7813db, 0xdf63eaa1, 0xc3689f5b, 0x12f3e755, 0x4b6669,
            0x5f7a9b2e, 0xabc34e16, 0x91ca4cb7, 0xc5dc8c15, 0x4497169d, 0x76fd93d4, 0xfd95f243, 0xfe32453,
            0x3f55edfd, 0x22a31f54, 0x68d84ea2, 0xca7d2dbd);
  }

  lemma Empty4(p: RoundPlan)
    requires EmptyWords(p.w) && p.round == 3
    ensures Round(p.op, 16, Quad(0x3f55edfd, 0xca7d2dbd, 0x68d84ea2, 0x22a31f54))
         == Quad(0x7246fad3, 0x14e45506, 0xff4ea3eb, 0x6e10a476)
  {
    Op(p, 3, 0, 0x3f55edfd, 0xca7d2dbd, 0x68d84ea2, 0x22a31f54, 0x80, 0x93aa2577);
    Op(p, 3, 1, 0x22a31f54, 0x93aa2577, 0xca7d2dbd, 0x68d84ea2, 0x0, 0x1688dc85);
    Op(p, 3, 2, 0x68d84ea2, 0x1688dc85, 0x93aa2577, 0xca7d2dbd, 0x0, 0xcd85b8cb);
    Op(p, 3, 3, 0xca7d2dbd, 0xcd85b8cb, 0x1688dc85, 0x93aa2577, 0x0, 0x561e0689);
    Op(p, 3, 4, 0x93aa2577, 0x561e0689, 0xcd85b8cb, 0x1688dc85, 0x0, 0x5625a114);
    Op(p, 3, 5, 0x1688dc85, 0x5625a114, 0x561e0689, 0xcd85b8cb, 0x0, 0x3450f42b);
    Op(p, 3, 6, 0xcd85b8cb, 0x3450f42b, 0x5625a114, 0x561e0689, 0x0, 0x392ad0d0);
    Op(p, 3, 7, 0x561e0689, 0x392ad0d0, 0x3450f42b, 0x5625a114, 0x0, 0x1e77fa61);
    Op(p, 3, 8, 0x5625a114, 0x1e77fa61, 0x392ad0d0, 0x3450f42b, 0x0, 0x474a9c8c);
    Op(p, 3, 9, 0x3450f42b, 0x474a9c8c, 0x1e77fa61, 0x392ad0d0, 0x0, 0xdfce00bc);
    Op(p, 3, 10, 0x392ad0d0, 0xdfce00bc, 0x474a9c8c, 0x1e77fa61, 0x0, 0x36594b14);
    Op(p, 3, 11, 0x1e77fa61, 0x36594b14, 0xdfce00bc, 0x474a9c8c, 0x0, 0x30130182);
    Op(p, 3, 12, 0x474a9c8c, 0x30130182, 0x36594b14, 0xdfce00bc, 0x0, 0x7246fad3);
    Op(p, 3, 13, 0xdfce00bc, 0x7246fad3, 0x30130182, 0x36594b14, 0x0, 0x6e10a476);
    Op(p, 3, 14, 0x36594b14, 0x6e10a476, 0x7246fad3, 0x30130182, 0x0, 0xff4ea3eb);
    Op(p, 3, 15, 0x30130182, 0xff4ea3eb, 0x6e10a476, 0x7246fad3, 0x0, 0x14e45506);
    Sixteen(p.op, 0x3f55edfd, 0xca7d2dbd, 0x68d84ea2, 0x22a31f54, 0x93aa2577, 0x1688dc85, 0xcd85b8cb,
            0x561e0689, 0x5625a114, 0x3450f42b, 0x392ad0d0, 0x1e77fa61, 0x474a9c8c, 0xdfce00bc, 0x36594b14,
            0x30130182, 0x7246fad3, 0x6e10a476, 0xff4ea3eb, 0x14e45506);
  }

  lemma EmptyBlock(block: Block)
    requires EmptyWords(Words(block))
    ensures Compress(Quad(0x67452301, 0xefcdab89, 0x98badcfe, 0x10325476), block)
         == Quad(0xd98c1dd4, 0x4b2008f, 0x980980e9, 0x7e42f8ec)
  {
    var x := Words(block);
    Empty1(PlanOf(0, x));
    Empty2(PlanOf(1, x));
    Empty3(PlanOf(2, x));
    Empty4(PlanOf(3, x));
    Block4(Quad(0x67452301, 0xefcdab89, 0x98badcfe, 0x10325476), block, x,
           Quad(0xf56c7cf1, 0xd6819c6a, 0x5aa53f75, 0x374943a7),
           Quad(0x13707036, 0xa2205f1f, 0x1c31c384, 0xae7813db),
           Quad(0x3f55edfd, 0xca7d2dbd, 0x68d84ea2, 0x22a31f54),
           Quad(0x7246fad3, 0x14e45506, 0xff4ea3eb, 0x6e10a476));
  }

  // ---------------------------------------------------------------- the first block of the letters and digits

  predicate LettersWords(x: seq<Word>) {
    && |x| == 16
    && x[0] == 0x44434241 && x[1] == 0x48474645 && x[2] == 0x4c4b4a49 && x[3] == 0x504f4e4d
    && x[4] == 0x54535251 && x[5] == 0x58575655 && x[6] == 0x62615a59 && x[7] == 0x66656463
    && x[8] == 0x6a696867 && x[9] == 0x6e6d6c6b && x[10] == 0x7271706f && x[11] == 0x76757473
    && x[12] == 0x7a797877 && x[13] == 0x33323130 && x[14] == 0x37363534 && x[15] == 0x803938
  }

  lemma Letters1(p: RoundPlan)
    requires LettersWords(p.w) && p.round == 0
    ensures Round(p.op, 16, Quad(0x67452301, 0xefcdab89, 0x98badcfe, 0x10325476))
         == Quad(0x3cbdcd45, 0x5d38e690, 0xfa148c8a, 0xb8dec763)
  {
    Op(p, 0, 0, 0x67452301, 0xefcdab89, 0x98badcfe, 0x10325476, 0x44434241, 0xc6c10796);
    Op(p, 0, 1, 0x10325476, 0xc6c10796, 0xefcdab89, 0x98badcfe, 0x48474645, 0x99a09999);
    Op(p, 0, 2, 0x98badcfe, 0x99a09999, 0xc6c10796, 0xefcdab89, 0x4c4b4a49, 0x11067980);
    Op(p, 0, 3, 0xefcdab89, 0x11067980, 0x99a09999, 0xc6c10796, 0x504f4e4d, 0x27bce07a);
    Op(p, 0, 4, 0xc6c10796, 0x27bce07a, 0x11067980, 0x99a09999, 0x54535251, 0xf22e6c4e);
    Op(p, 0, 5, 0x99a09999, 0xf22e6c4e, 0x27bce07a, 0x11067980, 0x58575655, 0xb4ac9218);
    Op(p, 0, 6, 0x11067980, 0xb4ac9218, 0xf22e6c4e, 0x27bce07a, 0x62615a59, 0xa95a2fc0);
    Op(p, 0, 7, 0x27bce07a, 0xa95a2fc0, 0xb4ac9218, 0xf22e6c4e, 0x66656463, 0xa4799506);
    Op(p, 0, 8, 0xf22e6c4e, 0xa4799506, 0xa95a2fc0, 0xb4ac9218, 0x6a696867, 0x1eb3e7c1);
    Op(p, 0, 9, 0xb4ac9218, 0x1eb3e7c1, 0xa4799506, 0xa95a2fc0, 0x6e6d6c6b, 0xa6e70cfe);
    Op(p, 0, 10, 0xa95a2fc0, 0xa6e70cfe, 0x1eb3e7c1, 0xa4799506, 0x7271706f, 0xca27520b);
    Op(p, 0, 11, 0xa4799506, 0xca27520b, 0xa6e70cfe, 0x1eb3e7c1, 0x76757473, 0x8a7612ec);
    Op(p, 0, 12, 0x1eb3e7c1, 0x8a7612ec, 0xca27520b, 0xa6e70cfe, 0x7a797877, 0x3cbdcd45);
    Op(p, 0, 13, 0xa6e70cfe, 0x3cbdcd45, 0x8a7612ec, 0xca27520b, 0x33323130, 0xb8dec763);
    Op(p, 0, 14, 0xca27520b, 0xb8dec763, 0x3cbdcd45, 0x8a7612ec, 0x37363534, 0xfa148c8a);
    Op(p, 0, 15, 0x8a7612ec, 0xfa148c8a, 0xb8dec763, 0x3cbdcd45, 0x803938, 0x5d38e690);
    Sixteen(p.op, 0x67452301, 0xefcdab89, 0x98badcfe, 0x10325476, 0xc6c10796, 0x99a09999, 0x11067980,
            0x27bce07a, 0xf22e6c4e, 0xb4ac9218, 0xa95a2fc0, 0xa4799506, 0x1eb3e7c1, 0xa6e70cfe, 0xca27520b,
            0x8a7612ec, 0x3cbdcd45, 0xb8dec763, 0xfa148c8a, 0x5d38e690);
  }

  lemma Letters2(p: RoundPlan)
    requires LettersWords(p.w) && p.round == 1
    ensures Round(p.op, 16, Quad(0x3cbdcd45, 0x5d38e690, 0xfa148c8a, 0xb8dec763))
         == Quad(0x9b085fa9, 0xdd789ecc, 0x5993248f, 0x4400a9bd)
  {
    Op(p, 1, 0, 0x3cbdcd45, 0x5d38e690, 0xfa148c8a, 0xb8dec763, 0x48474645, 0x4b9d52a);
    Op(p, 1, 1, 0xb8dec763, 0x4b9d52a, 0x5d38e690, 0xfa148c8a, 0x62615a59, 0x783002eb);
    Op(p, 1, 2, 0xfa148c8a, 0x783002eb, 0x4b9d52a, 0x5d38e690, 0x76757473, 0xd3ee3ed1);
    Op(p, 1, 3, 0x5d38e690, 0xd3ee3ed1, 0x783002eb, 0x4b9d52a, 0x44434241, 0x47ae7c81);
    Op(p, 1, 4, 0x4b9d52a, 0x47ae7c81, 0xd3ee3ed1, 0x783002eb, 0x58575655, 0x2d7d8a3f);
    Op(p, 1, 5, 0x783002eb, 0x2d7d8a3f, 0x47ae7c81, 0xd3ee3ed1, 0x7271706f, 0xd1210823);
    Op(p, 1, 6, 0xd3ee3ed1, 0xd1210823, 0x2d7d8a3f, 0x47ae7c81, 0x803938, 0x4b534dc3);
    Op(p, 1, 7, 0x47ae7c81, 0x4b534dc3, 0xd1210823, 0x2d7d8a3f, 0x54535251, 0x75292030);
    Op(p, 1, 8, 0x2d7d8a3f, 0x75292030, 0x4b534dc3, 0xd1210823, 0x6e6d6c6b, 0x9d2a6e33);
    Op(p, 1, 9, 0xd1210823, 0x9d2a6e33, 0x75292030, 0x4b534dc3, 0x37363534, 0xe8d2e44);
    Op(p, 1, 10, 0x4b534dc3, 0xe8d2e44, 0x9d2a6e33, 0x75292030, 0x504f4e4d, 0xd473b564);
    Op(p, 1, 11, 0x75292030, 0xd473b564, 0xe8d2e44, 0x9d2a6e33, 0x6a696867, 0xf2ff6ea0);
    Op(p, 1, 12, 0x9d2a6e33, 0xf2ff6ea0, 0xd473b564, 0xe8d2e44, 0x33323130, 0x9b085fa9);
    Op(p, 1, 13, 0xe8d2e44, 0x9b085fa9, 0xf2ff6ea0, 0xd473b564, 0x4c4b4a49, 0x4400a9bd);
    Op(p, 1, 14, 0xd473b564, 0x4400a9bd, 0x9b085fa9, 0xf2ff6ea0, 0x66656463, 0x5993248f);
    Op(p, 1, 15, 0xf2ff6ea0, 0x5993248f, 0x4400a9bd, 0x9b085fa9, 0x7a797877, 0xdd789ecc);
    Sixteen(p.op, 0x3cbdcd45, 0x5d38e690, 0xfa148c8a, 0xb8dec763, 0x4b9d52a, 0x783002eb, 0xd3ee3ed1, 0x47ae7c81,
            0x2d7d8a3f, 0xd1210823, 0x4b534dc3, 0x75292030, 0x9d2a6e33, 0xe8d2e44, 0xd473b564, 0xf2ff6ea0,
            0x9b085fa9, 0x4400a9bd, 0x5993248f, 0xdd789ecc);
  }

  lemma Letters3(p: RoundPlan)
    requires LettersWords(p.w) && p.round == 2
    ensures Round(p.op, 16, Quad(0x9b085fa9, 0xdd789ecc, 0x5993248f, 0x4400a9bd))
         == Quad(0x2dbee21d, 0xf166f514, 0xee46e961, 0xe95c3a43)
  {
    Op(p, 2, 0, 0x9b085fa9, 0xdd789ecc, 0x5993248f, 0x4400a9bd, 0x58575655, 0x21c8d2b7);
    Op(p, 2, 1, 0x4400a9bd, 0x21c8d2b7, 0xdd789ecc, 0x5993248f, 0x6a696867, 0x1d55a18e);
    Op(p, 2, 2, 0x5993248f, 0x1d55a18e, 0x21c8d2b7, 0xdd789ecc, 0x76757473, 0x56ec119);
    Op(p, 2, 3, 0xdd789ecc, 0x56ec119, 0x1d55a18e, 0x21c8d2b7, 0x37363534, 0x1b9504f8);
    Op(p, 2, 4, 0x21c8d2b7, 0x1b9504f8, 0x56ec119, 0x1d55a18e, 0x48474645, 0x436b7fe9);
    Op(p, 2, 5, 0x1d55a18e, 0x436b7fe9, 0x1b9504f8, 0x56ec119, 0x54535251, 0x75800c1);
    Op(p, 2, 6, 0x56ec119, 0x75800c1, 0x436b7fe9, 0x1b9504f8, 0x66656463, 0xf404c2f6);
    Op(p, 2, 7, 0x1b9504f8, 0xf404c2f6, 0x75800c1, 0x436b7fe9, 0x7271706f, 0xcf0341ed);
    Op(p, 2, 8, 0x436b7fe9, 0xcf0341ed, 0xf404c2f6, 0x75800c1, 0x33323130, 0x888e7d8a);
    Op(p, 2, 9, 0x75800c1, 0x888e7d8a, 0xcf0341ed, 0xf404c2f6, 0x44434241, 0xbbdaecd8);
    Op(p, 2, 10, 0xf404c2f6, 0xbbdaecd8, 0x888e7d8a, 0xcf0341ed, 0x504f4e4d, 0xce620273);
    Op(p, 2, 11, 0xcf0341ed, 0xce620273, 0xbbdaecd8, 0x888e7d8a, 0x62615a59, 0x47b9419);
    Op(p, 2, 12, 0x888e7d8a, 0x47b9419, 0xce620273, 0xbbdaecd8, 0x6e6d6c6b, 0x2dbee21d);
    Op(p, 2, 13, 0xbbdaecd8, 0x2dbee21d, 0x47b9419, 0xce620273, 0x7a797877, 0xe95c3a43);
    Op(p, 2, 14, 0xce620273, 0xe95c3a43, 0x2dbee21d, 0x47b9419, 0x803938, 0xee46e961);
    Op(p, 2, 15, 0x47b9419, 0xee46e961, 0xe95c3a43, 0x2dbee21d, 0x4c4b4a49, 0xf166f514);
    Sixteen(p.op, 0x9b085fa9, 0xdd789ecc, 0x5993248f, 0x4400a9bd, 0x21c8d2b7, 0x1d55a18e, 0x56ec119, 0x1b9504f8,
            0x436b7fe9, 0x75800c1, 0xf404c2f6, 0xcf0341ed, 0x888e7d8a, 0xbbdaecd8, 0xce620273, 0x47b9419,
            0x2dbee21d, 0xe95c3a43, 0xee46e961, 0xf166f514);
  }

  lemma Letters4(p: RoundPlan)
    requires LettersWords(p.w) && p.round == 3
    ensures Round(p.op, 16, Quad(0x2dbee21d, 0xf166f514, 0xee46e961, 0xe95c3a43))
         == Quad(0x1cb80f0a, 0xef2e3a46, 0x10f68731, 0xea3d3eb4)
  {
    Op(p, 3, 0, 0x2dbee21d, 0xf166f514, 0xee46e961, 0xe95c3a43, 0x44434241, 0xe47fd4f3);
    Op(p, 3, 1, 0xe95c3a43, 0xe47fd4f3, 0xf166f514, 0xee46e961, 0x66656463, 0xfb887751);
    Op(p, 3, 2, 0xee46e961, 0xfb887751, 0xe47fd4f3, 0xf166f514, 0x37363534, 0xf22aedcc);
    Op(p, 3, 3, 0xf166f514, 0xf22aedcc, 0xfb887751, 0xe47fd4f3, 0x58575655, 0x7a13bc5c);
    Op(p, 3, 4, 0xe47fd4f3, 0x7a13bc5c, 0xf22aedcc, 0xfb887751, 0x7a797877, 0xa691d430);
    Op(p, 3, 5, 0xfb887751, 0xa691d430, 0x7a13bc5c, 0xf22aedcc, 0x504f4e4d, 0x528452f2);
    Op(p, 3, 6, 0xf22aedcc, 0x528452f2, 0xa691d430, 0x7a13bc5c, 0x7271706f, 0x3fc23df6);
    Op(p, 3, 7, 0x7a13bc5c, 0x3fc23df6, 0x528452f2, 0xa691d430, 0x48474645, 0xefb0e72f);
    Op(p, 3, 8, 0xa691d430, 0xefb0e72f, 0x3fc23df6, 0x528452f2, 0x6a696867, 0x27145703);
    Op(p, 3, 9, 0x528452f2, 0x27145703, 0xefb0e72f, 0x3fc23df6, 0x803938, 0x21a11069);
    Op(p, 3, 10, 0x3fc23df6, 0x21a11069, 0x27145703, 0xefb0e72f, 0x62615a59, 0x374fbe79);
    Op(p, 3, 11, 0xefb0e72f, 0x374fbe79, 0x21a11069, 0x27145703, 0x33323130, 0x49d9a5b4);
    Op(p, 3, 12, 0x27145703, 0x49d9a5b4, 0x374fbe79, 0x21a11069, 0x54535251, 0x1cb80f0a);
    Op(p, 3, 13, 0x21a11069, 0x1cb80f0a, 0x49d9a5b4, 0x374fbe79, 0x76757473, 0xea3d3eb4);
    Op(p, 3, 14, 0x374fbe79, 0xea3d3eb4, 0x1cb80f0a, 0x49d9a5b4, 0x4c4b4a49, 0x10f68731);
    Op(p, 3, 15, 0x49d9a5b4, 0x10f68731, 0xea3d3eb4, 0x1cb80f0a, 0x6e6d6c6b, 0xef2e3a46);
    Sixteen(p.op, 0x2dbee21d, 0xf166f514, 0xee46e961, 0xe95c3a43, 0xe47fd4f3, 0xfb887751, 0xf22aedcc,
            0x7a13bc5c, 0xa691d430, 0x528452f2, 0x3fc23df6, 0xefb0e72f, 0x27145703, 0x21a11069, 0x374fbe79,
            0x49d9a5b4, 0x1cb80f0a, 0xea3d3eb4, 0x10f68731, 0xef2e3a46);
  }

  lemma LettersBlock(block: Block)
    requires LettersWords(Words(block))
    ensures Compress(Quad(0x67452301, 0xefcdab89, 0x98badcfe, 0x10325476), block)
         == Quad(0x83fd320b, 0xdefbe5cf, 0xa9b1642f, 0xfa6f932a)
  {
    var x := Words(block);
    Letters1(PlanOf(0, x));
    Letters2(PlanOf(1, x));
    Letters3(PlanOf(2, x));
    Letters4(PlanOf(3, x));
    Block4(Quad(0x67452301, 0xefcdab89, 0x98badcfe, 0x10325476), block, x,
           Quad(0x3cbdcd45, 0x5d38e690, 0xfa148c8a, 0xb8dec763),
           Quad(0x9b085fa9, 0xdd789ecc, 0x5993248f, 0x4400a9bd),
           Quad(0x2dbee21d, 0xf166f514, 0xee46e961, 0xe95c3a43),
           Quad(0x1cb80f0a, 0xef2e3a46, 0x10f68731, 0xea3d3eb4));
  }

  // ---------------------------------------------------------------- their second block

  predicate TailWords(x: seq<Word>) {
    && |x| == 16
    && x[0] == 0x0 && x[1] == 0x0 && x[2] == 0x0 && x[3] == 0x0
    && x[4] == 0x0 && x[5] == 0x0 && x[6] == 0x0 && x[7] == 0x0
    && x[8] == 0x0 && x[9] == 0x0 && x[10] == 0x0 && x[11] == 0x0
    && x[12] == 0x0 && x[13] == 0x0 && x[14] == 0x1f0 && x[15] == 0x0
  }

  lemma Tail1(p: RoundPlan)
    requires TailWords(p.w) && p.round == 0
    ensures Round(p.op, 16, Quad(0x83fd320b, 0xdefbe5cf, 0xa9b1642f, 0xfa6f932a))
         == Quad(0xa70737da, 0xa36f556f, 0x96f6586e, 0x5473f8a7)
  {
    Op(p, 0, 0, 0x83fd320b, 0xdefbe5cf, 0xa9b1642f, 0xfa6f932a, 0x0, 0xeda23ed1);
    Op(p, 0, 1, 0xfa6f932a, 0xeda23ed1, 0xdefbe5cf, 0xa9b1642f, 0x0, 0x989939cf);
    Op(p, 0, 2, 0xa9b1642f, 0x989939cf, 0xeda23ed1, 0xdefbe5cf, 0x0, 0x3c307338);
    Op(p, 0, 3, 0xdefbe5cf, 0x3c307338, 0x989939cf, 0xeda23ed1, 0x0, 0xddcf0634);
    Op(p, 0, 4, 0xeda23ed1, 0xddcf0634, 0x3c307338, 0x989939cf, 0x0, 0x75144433);
    Op(p, 0, 5, 0x989939cf, 0x75144433, 0xddcf0634, 0x3c307338, 0x0, 0xc8875807);
    Op(p, 0, 6, 0x3c307338, 0xc8875807, 0x75144433, 0xddcf0634, 0x0, 0xc783cb60);
    Op(p, 0, 7, 0xddcf0634, 0xc783cb60, 0xc8875807, 0x75144433, 0x0, 0x99b6b699);
    Op(p, 0, 8, 0x75144433, 0x99b6b699, 0xc783cb60, 0xc8875807, 0x0, 0xa60a3f69);
    Op(p, 0, 9, 0xc8875807, 0xa60a3f69, 0x99b6b699, 0xc783cb60, 0x0, 0xaa6630be);
    Op(p, 0, 10, 0xc783cb60, 0xaa6630be, 0xa60a3f69, 0x99b6b699, 0x0, 0x64db26e9);
    Op(p, 0, 11, 0x99b6b699, 0x64db26e9, 0xaa6630be, 0xa60a3f69, 0x0, 0x64cc7c5a);
    Op(p, 0, 12, 0xa60a3f69, 0x64cc7c5a, 0x64db26e9, 0xaa6630be, 0x0, 0xa70737da);
    Op(p, 0, 13, 0xaa6630be, 0xa70737da, 0x64cc7c5a, 0x64db26e9, 0x0, 0x5473f8a7);
    Op(p, 0, 14, 0x64db26e9, 0x5473f8a7, 0xa70737da, 0x64cc7c5a, 0x1f0, 0x96f6586e);
    Op(p, 0, 15, 0x64cc7c5a, 0x96f6586e, 0x5473f8a7, 0xa70737da, 0x0, 0xa36f556f);
    Sixteen(p.op, 0x83fd320b, 0xdefbe5cf, 0xa9b1642f, 0xfa6f932a, 0xeda23ed1, 0x989939cf, 0x3c307338,
            0xddcf0634, 0x75144433, 0xc8875807, 0xc783cb60, 0x99b6b699, 0xa60a3f69, 0xaa6630be, 0x64db26e9,
            0x64cc7c5a, 0xa70737da, 0x5473f8a7, 0x96f6586e, 0xa36f556f);
  }

  lemma Tail2(p: RoundPlan)
    requires TailWords(p.w) && p.round == 1
    ensures Round(p.op, 16, Quad(0xa70737da, 0xa36f556f, 0x96f6586e, 0x5473f8a7))
         == Quad(0x24eba695, 0x9c03e2e8, 0x10c42a2f, 0x4bd0378b)
  {
    Op(p, 1, 0, 0xa70737da, 0xa36f556f, 0x96f6586e, 0x5473f8a7, 0x0, 0xa5050ad3);
    Op(p, 1, 1, 0x5473f8a7, 0xa5050ad3, 0xa36f556f, 0x96f6586e, 0x0, 0x28776046);
    Op(p, 1, 2, 0x96f6586e, 0x28776046, 0xa5050ad3, 0xa36f556f, 0x0, 0x27dcd8b4);
    Op(p, 1, 3, 0xa36f556f, 0x27dcd8b4, 0x28776046, 0xa5050ad3, 0x0, 0x82b8827c);
    Op(p, 1, 4, 0xa5050ad3, 0x82b8827c, 0x27dcd8b4, 0x28776046, 0x0, 0xe04f070c);
    Op(p, 1, 5, 0x28776046, 0xe04f070c, 0x82b8827c, 0x27dcd8b4, 0x0, 0x2f3cd2a2);
    Op(p, 1, 6, 0x27dcd8b4, 0x2f3cd2a2, 0xe04f070c, 0x82b8827c, 0x0, 0xc0d22b61);
    Op(p, 1, 7, 0x82b8827c, 0xc0d22b61, 0x2f3cd2a2, 0xe04f070c, 0x0, 0xdf35cb56);
    Op(p, 1, 8, 0xe04f070c, 0xdf35cb56, 0xc0d22b61, 0x2f3cd2a2, 0x0, 0x242dd210);
    Op(p, 1, 9, 0x2f3cd2a2, 0x242dd210, 0xdf35cb56, 0xc0d22b61, 0x1f0, 0x576ace33);
    Op(p, 1, 10, 0xc0d22b61, 0x576ace33, 0x242dd210, 0xdf35cb56, 0x0, 0x5c295967);
    Op(p, 1, 11, 0xdf35cb56, 0x5c295967, 0x576ace33, 0x242dd210, 0x0, 0x2291191a);
    Op(p, 1, 12, 0x242dd210, 0x2291191a, 0x5c295967, 0x576ace33, 0x0, 0x24eba695);
    Op(p, 1, 13, 0x576ace33, 0x24eba695, 0x2291191a, 0x5c295967, 0x0, 0x4bd0378b);
    Op(p, 1, 14, 0x5c295967, 0x4bd0378b, 0x24eba695, 0x2291191a, 0x0, 0x10c42a2f);
    Op(p, 1, 15, 0x2291191a, 0x10c42a2f, 0x4bd0378b, 0x24eba695, 0x0, 0x9c03e2e8);
    Sixteen(p.op, 0xa70737da, 0xa36f556f, 0x96f6586e, 0x5473f8a7, 0xa5050ad3, 0x28776046, 0x27dcd8b4,
            0x82b8827c, 0xe04f070c, 0x2f3cd2a2, 0xc0d22b61, 0xdf35cb56, 0x242dd210, 0x576ace33, 0x5c295967,
            0x2291191a, 0x24eba695, 0x4bd0378b, 0x10c42a2f, 0x9c03e2e8);
  }

  lemma Tail3(p: RoundPlan)
    requires TailWords(p.w) && p.round == 2
    ensures Round(p.op, 16, Quad(0x24eba695, 0x9c03e2e8, 0x10c42a2f, 0x4bd0378b))
         == Quad(0x54c9eb3a, 0x79c0710a, 0x2ec86f72, 0xd4d9c6ac)
  {
    Op(p, 2, 0, 0x24eba695, 0x9c03e2e8, 0x10c42a2f, 0x4bd0378b, 0x0, 0x5be1d526);
    Op(p, 2, 1, 0x4bd0378b, 0x5be1d526, 0x9c03e2e8, 0x10c42a2f, 0x0, 0x9e414279);
    Op(p, 2, 2, 0x10c42a2f, 0x9e414279, 0x5be1d526, 0x9c03e2e8, 0x0, 0x9f4a1a7e);
    Op(p, 2, 3, 0x9c03e2e8, 0x9f4a1a7e, 0x9e414279, 0x5be1d526, 0x1f0, 0xa2448453);
    Op(p, 2, 4, 0x5be1d526, 0xa2448453, 0x9f4a1a7e, 0x9e414279, 0x0, 0xe14e403d);
    Op(p, 2, 5, 0x9e414279, 0xe14e403d, 0xa2448453, 0x9f4a1a7e, 0x0, 0xe8cfd670);
    Op(p, 2, 6, 0x9f4a1a7e, 0xe8cfd670, 0xe14e403d, 0xa2448453, 0x0, 0x60cc183a);
    Op(p, 2, 7, 0xa2448453, 0x60cc183a, 0xe8cfd670, 0xe14e403d, 0x0, 0xfe314121);
    Op(p, 2, 8, 0xe14e403d, 0xfe314121, 0x60cc183a, 0xe8cfd670, 0x0, 0xfff62809);
    Op(p, 2, 9, 0xe8cfd670, 0xfff62809, 0xfe314121, 0x60cc183a, 0x0, 0xe37209ac);
    Op(p, 2, 10, 0x60cc183a, 0xe37209ac, 0xfff62809, 0xfe314121, 0x0, 0x8cb5221c);
    Op(p, 2, 11, 0xfe314121, 0x8cb5221c, 0xe37209ac, 0xfff62809, 0x0, 0x7c7e974c);
    Op(p, 2, 12, 0xfff62809, 0x7c7e974c, 0x8cb5221c, 0xe37209ac, 0x0, 0x54c9eb3a);
    Op(p, 2, 13, 0xe37209ac, 0x54c9eb3a, 0x7c7e974c, 0x8cb5221c, 0x0, 0xd4d9c6ac);
    Op(p, 2, 14, 0x8cb5221c, 0xd4d9c6ac, 0x54c9eb3a, 0x7c7e974c, 0x0, 0x2ec86f72);
    Op(p, 2, 15, 0x7c7e974c, 0x2ec86f72, 0xd4d9c6ac, 0x54c9eb3a, 0x0, 0x79c0710a);
    Sixteen(p.op, 0x24eba695, 0x9c03e2e8, 0x10c42a2f, 0x4bd0378b, 0x5be1d526, 0x9e414279, 0x9f4a1a7e,
            0xa2448453, 0xe14e403d, 0xe8cfd670, 0x60cc183a, 0xfe314121, 0xfff62809, 0xe37209ac, 0x8cb5221c,
            0x7c7e974c, 0x54c9eb3a, 0xd4d9c6ac, 0x2ec86f72, 0x79c0710a);
  }

  lemma Tail4(p: RoundPlan)
    requires TailWords(p.w) && p.round == 3
    ensures Round(p.op, 16, Quad(0x54c9eb3a, 0x79c0710a, 0x2ec86f72, 0xd4d9c6ac))
         == Quad(0x14ae42c6, 0x16dd9203, 0x826afd76, 0xa52dae75)
  {
    Op(p, 3, 0, 0x54c9eb3a, 0x79c0710a, 0x2ec86f72, 0xd4d9c6ac, 0x0, 0x2095af1);
    Op(p, 3, 1, 0xd4d9c6ac, 0x2095af1, 0x79c0710a, 0x2ec86f72, 0x0, 0x13d245fd);
    Op(p, 3, 2, 0x2ec86f72, 0x13d245fd, 0x2095af1, 0x79c0710a, 0x1f0, 0xa8dcfe26);
    Op(p, 3, 3, 0x79c0710a, 0xa8dcfe26, 0x13d245fd, 0x2095af1, 0x0, 0x2ba98e3f);
    Op(p, 3, 4, 0x2095af1, 0x2ba98e3f, 0xa8dcfe26, 0x13d245fd, 0x0, 0xe126c1aa);
    Op(p, 3, 5, 0x13d245fd, 0xe126c1aa, 0x2ba98e3f, 0xa8dcfe26, 0x0, 0x96b00fa7);
    Op(p, 3, 6, 0xa8dcfe26, 0x96b00fa7, 0xe126c1aa, 0x2ba98e3f, 0x0, 0x6f287ff5);
    Op(p, 3, 7, 0x2ba98e3f, 0x6f287ff5, 0x96b00fa7, 0xe126c1aa, 0x0, 0xfb7bcee0);
    Op(p, 3, 8, 0xe126c1aa, 0xfb7bcee0, 0x6f287ff5, 0x96b00fa7, 0x0, 0x452c1099);
    Op(p, 3, 9, 0x96b00fa7, 0x452c1099, 0xfb7bcee0, 0x6f287ff5, 0x0, 0xca801ba6);
    Op(p, 3, 10, 0x6f287ff5, 0xca801ba6, 0x452c1099, 0xfb7bcee0, 0x0, 0xc197ea8e);
    Op(p, 3, 11, 0xfb7bcee0, 0xc197ea8e, 0xca801ba6, 0x452c1099, 0x0, 0x5ac74608);
    Op(p, 3, 12, 0x452c1099, 0x5ac74608, 0xc197ea8e, 0xca801ba6, 0x0, 0x14ae42c6);
    Op(p, 3, 13, 0xca801ba6, 0x14ae42c6, 0x5ac74608, 0xc197ea8e, 0x0, 0xa52dae75);
    Op(p, 3, 14, 0xc197ea8e, 0xa52dae75, 0x14ae42c6, 0x5ac74608, 0x0, 0x826afd76);
    Op(p, 3, 15, 0x5ac74608, 0x826afd76, 0xa52dae75, 0x14ae42c6, 0x0, 0x16dd9203);
    Sixteen(p.op, 0x54c9eb3a, 0x79c0710a, 0x2ec86f72, 0xd4d9c6ac, 0x2095af1, 0x13d245fd, 0xa8dcfe26, 0x2ba98e3f,
            0xe126c1aa, 0x96b00fa7, 0x6f287ff5, 0xfb7bcee0, 0x452c1099, 0xca801ba6, 0xc197ea8e, 0x5ac74608,
            0x14ae42c6, 0xa52dae75, 0x826afd76, 0x16dd9203);
  }

  lemma TailBlock(block: Block)
    requires TailWords(Words(block))
    ensures Compress(Quad(0x83fd320b, 0xdefbe5cf, 0xa9b1642f, 0xfa6f932a), block)
         == Quad(0x98ab74d1, 0xf5d977d2, 0x2c1c61a5, 0x9f9d419f)
  {
    var x := Words(block);
    Tail1(PlanOf(0, x));
    Tail2(PlanOf(1, x));
    Tail3(PlanOf(2, x));
    Tail4(PlanOf(3, x));
    Block4(Quad(0x83fd320b, 0xdefbe5cf, 0xa9b1642f, 0xfa6f932a), block, x,
           Quad(0xa70737da, 0xa36f556f, 0x96f6586e, 0x5473f8a7),
           Quad(0x24eba695, 0x9c03e2e8, 0x10c42a2f, 0x4bd0378b),
           Quad(0x54c9eb3a, 0x79c0710a, 0x2ec86f72, 0xd4d9c6ac),
           Quad(0x14ae42c6, 0x16dd9203, 0x826afd76, 0xa52dae75));
  }

  // ---------------------------------------------------------------- the messages

  lemma Word(block: Block, k: nat, b0: Byte, b1: Byte, b2: Byte, b3: Byte, w: Rfc1321.Word)
    requires k < 16 && block[4 * k] == b0 && block[4 * k + 1] == b1 && block[4 * k + 2] == b2 && block[4 * k + 3] == b3
    requires WordOf(b0, b1, b2, b3) == w
    ensures Words(block)[k] == w
  {}

  lemma FourBytes(a: nat, b: nat, c: nat, d: nat)
    requires a < 256 && b < 256 && c < 256 && d < 256
    ensures ToBytes([a, b, c, d]) == [a as Byte, b as Byte, c as Byte, d as Byte]
  {}

  lemma FourDigits(v: nat, a: nat, b: nat)
    requires v == a + 256 * b && a < 256 && b < 256
    ensures Digits(v, 4) == [a, b, 0, 0]
  {
    assert v / 256 == b && v % 256 == a;
    assert Digits(0, 1) == [0];
    assert Digits(0, 2) == [0] + Digits(0, 1);
    assert Digits(b, 3) == [b] + Digits(0, 2);
    assert Digits(v, 4) == [a] + Digits(b, 3);
  }

  lemma ShortLength(n: nat, a: nat, b: nat)
    requires 8 * n == a + 256 * b && a < 256 && b < 256
    ensures LengthBytes(n) == [a as Byte, b as Byte, 0, 0] + [0, 0, 0, 0]
  {
    FourDigits(8 * n, a, b);
    FourDigits(0, 0, 0);
    FourBytes(a, b, 0, 0);
    FourBytes(0, 0, 0, 0);
    assert 8 * n % 0x1_0000_0000 == 8 * n && 8 * n / 0x1_0000_0000 % 0x1_0000_0000 == 0;
  }

  lemma EmptyIs(block: Block)
    requires block == [] + Padding(0) + LengthBytes(0)
    ensures EmptyWords(Words(block))
  {
    ShortLength(0, 0, 0);
    Word(block, 0, 0x80, 0, 0, 0, 0x80);
    ZeroWords(block, 1, 16);
  }

  lemma ZeroWords(block: Block, from: nat, to: nat)
    requires from <= to <= 16 && forall i :: 4 * from <= i < 4 * to ==> block[i] == 0
    ensures forall k :: from <= k < to ==> Words(block)[k] == 0
  {
    forall k | from <= k < to ensures Words(block)[k] == 0 {
      Word(block, k, 0, 0, 0, 0, 0);
    }
  }

  /** The message `ABCDEFGHIJKLMNOPQRSTUVWXYZabcdefghijklmnopqrstuvwxyz0123456789`, as bytes. */
  function LettersAndDigits(): (msg: seq<Byte>)
    ensures |msg| == 62
  {
    seq(62, i requires 0 <= i < 62 => LetterOrDigit(i))
  }

  /** The code of each of its characters. */
  function LetterOrDigit(i: nat): Byte {
    match i
    case 0 => 0x41 case 1 => 0x42 case 2 => 0x43 case 3 => 0x44 case 4 => 0x45 case 5 => 0x46
    case 6 => 0x47 case 7 => 0x48 case 8 => 0x49 case 9 => 0x4a case 10 => 0x4b case 11 => 0x4c
    case 12 => 0x4d case 13 => 0x4e case 14 => 0x4f case 15 => 0x50 case 16 => 0x51 case 17 => 0x52
    case 18 => 0x53 case 19 => 0x54 case 20 => 0x55 case 21 => 0x56 case 22 => 0x57 case 23 => 0x58
    case 24 => 0x59 case 25 => 0x5a case 26 => 0x61 case 27 => 0x62 case 28 => 0x63 case 29 => 0x64
    case 30 => 0x65 case 31 => 0x66 case 32 => 0x67 case 33 => 0x68 case 34 => 0x69 case 35 => 0x6a
    case 36 => 0x6b case 37 => 0x6c case 38 => 0x6d case 39 => 0x6e case 40 => 0x6f case 41 => 0x70
    case 42 => 0x71 case 43 => 0x72 case 44 => 0x73 case 45 => 0x74 case 46 => 0x75 case 47 => 0x76
    case 48 => 0x77 case 49 => 0x78 case 50 => 0x79 case 51 => 0x7a case 52 => 0x30 case 53 => 0x31
    case 54 => 0x32 case 55 => 0x33 case 56 => 0x34 case 57 => 0x35 case 58 => 0x36 case 59 => 0x37
    case 60 => 0x38 case _ => 0x39
  }

  lemma LetterWord(block: Block, k: nat, b0: Byte, b1: Byte, b2: Byte, b3: Byte, w: Rfc1321.Word)
    requires block[..62] == LettersAndDigits() && k < 15 && WordOf(b0, b1, b2, b3) == w
    requires LetterOrDigit(4 * k) == b0 && LetterOrDigit(4 * k + 1) == b1
    requires LetterOrDigit(4 * k + 2) == b2 && LetterOrDigit(4 * k + 3) == b3
    ensures Words(block)[k] == w
  {
    LetterAt(block, 4 * k);
    LetterAt(block, 4 * k + 1);
    LetterAt(block, 4 * k + 2);
    LetterAt(block, 4 * k + 3);
    Word(block, k, b0, b1, b2, b3, w);
  }

  lemma LetterAt(block: Block, i: nat)
    requires block[..62] == LettersAndDigits() && i < 62
    ensures block[i] == LetterOrDigit(i)
  {
    assert block[i] == block[..62][i];
  }

  lemma LettersIs(block: Block)
    requires block[..62] == LettersAndDigits() && block[62] == 0x80 && block[63] == 0
    ensures LettersWords(Words(block))
  {
    LetterAt(block, 60);
    LetterAt(block, 61);
    LetterWord(block, 0, 0x41, 0x42, 0x43, 0x44, 0x44434241);
    LetterWord(block, 1, 0x45, 0x46, 0x47, 0x48, 0x48474645);
    LetterWord(block, 2, 0x49, 0x4a, 0x4b, 0x4c, 0x4c4b4a49);
    LetterWord(block, 3, 0x4d, 0x4e, 0x4f, 0x50, 0x504f4e4d);
    LetterWord(block, 4, 0x51, 0x52, 0x53, 0x54, 0x54535251);
    LetterWord(block, 5, 0x55, 0x56, 0x57, 0x58, 0x58575655);
    LetterWord(block, 6, 0x59, 0x5a, 0x61, 0x62, 0x62615a59);
    LetterWord(block, 7, 0x63, 0x64, 0x65, 0x66, 0x66656463);
    LetterWord(block, 8, 0x67, 0x68, 0x69, 0x6a, 0x6a696867);
    LetterWord(block, 9, 0x6b, 0x6c, 0x6d, 0x6e, 0x6e6d6c6b);
    LetterWord(block, 10, 0x6f, 0x70, 0x71, 0x72, 0x7271706f);
    LetterWord(block, 11, 0x73, 0x74, 0x75, 0x76, 0x76757473);
    LetterWord(block, 12, 0x77, 0x78, 0x79, 0x7a, 0x7a797877);
    LetterWord(block, 13, 0x30, 0x31, 0x32, 0x33, 0x33323130);
    LetterWord(block, 14, 0x34, 0x35, 0x36, 0x37, 0x37363534);
    Word(block, 15, 0x38, 0x39, 0x80, 0, 0x803938);
  }

  lemma TailIs(block: Block)
    requires block == seq(56, _ => 0) + LengthBytes(62)
    ensures TailWords(Words(block))
  {
    ShortLength(62, 0xf0, 1);
    ZeroWords(block, 0, 14);
    Word(block, 14, 0xf0, 0x01, 0, 0, 0x1f0);
    ZeroWords(block, 15, 16);
  }

  // ---------------------------------------------------------------- rendering

  lemma {:induction false} HexConcat(s: seq<Byte>, t: seq<Byte>)
    ensures Hex(s + t) == Hex(s) + Hex(t)
    decreases |t|
  {
    if |t| == 0 {
      assert s + t == s;
    } else {
      HexConcat(s, t[..|t| - 1]);
      assert (s + t)[..|s + t| - 1] == s + t[..|t| - 1];
    }
  }

  lemma HexWord(b0: Byte, b1: Byte, b2: Byte, b3: Byte)
    ensures Hex([b0, b1, b2, b3]) == ByteHex(b0) + ByteHex(b1) + ByteHex(b2) + ByteHex(b3)
  {
    assert Hex([b0]) == ByteHex(b0) by {
      assert [b0][..0] == [];
    }
    assert Hex([b0, b1]) == ByteHex(b0) + ByteHex(b1) by {
      assert [b0, b1][..1] == [b0];
    }
    assert Hex([b0, b1, b2]) == ByteHex(b0) + ByteHex(b1) + ByteHex(b2) by {
      assert [b0, b1, b2][..2] == [b0, b1];
    }
    assert [b0, b1, b2, b3][..3] == [b0, b1, b2];
  }

  lemma HexState(q: State, a: string, b: string, c: string, d: string)
    requires Hex(WordBytes(q.a)) == a && Hex(WordBytes(q.b)) == b
    requires Hex(WordBytes(q.c)) == c && Hex(WordBytes(q.d)) == d
    ensures Hex(StateBytes(q)) == a + b + c + d
  {
    HexConcat(WordBytes(q.a), WordBytes(q.b));
    HexConcat(WordBytes(q.a) + WordBytes(q.b), WordBytes(q.c));
    HexConcat(WordBytes(q.a) + WordBytes(q.b) + WordBytes(q.c), WordBytes(q.d));
  }

  lemma HexOf(w: Rfc1321.Word, b0: Byte, b1: Byte, b2: Byte, b3: Byte, h: string)
    requires WordBytes(w) == [b0, b1, b2, b3] && ByteHex(b0) + ByteHex(b1) + ByteHex(b2) + ByteHex(b3) == h
    ensures Hex(WordBytes(w)) == h
  {
    HexWord(b0, b1, b2, b3);
  }

  lemma OneBlock(block: Block)
    ensures Absorb(INITIAL, block) == Compress(INITIAL, block)
  {
    FoldOne(Compress, INITIAL, [], block);
    assert [] + block == block;
  }

  lemma EmptyDigits()
    ensures "d41d8cd9" + "8f00b204" + "e9800998" + "ecf8427e" == "d41d8cd98f00b204e9800998ecf8427e"
  {}

  lemma LettersDigits()
    ensures "d174ab98" + "d277d9f5" + "a5611c2c" + "9f419d9f" == "d174ab98d277d9f5a5611c2c9f419d9f"
  {}

  lemma EmptyHex()
    ensures Hex(StateBytes(Quad(0xd98c1dd4, 0x4b2008f, 0x980980e9, 0x7e42f8ec))) == "d41d8cd98f00b204e9800998ecf8427e"
  {
    HexOf(0xd98c1dd4, 0xd4, 0x1d, 0x8c, 0xd9, "d41d8cd9");
    HexOf(0x4b2008f, 0x8f, 0x0, 0xb2, 0x4, "8f00b204");
    HexOf(0x980980e9, 0xe9, 0x80, 0x9, 0x98, "e9800998");
    HexOf(0x7e42f8ec, 0xec, 0xf8, 0x42, 0x7e, "ecf8427e");
    HexState(Quad(0xd98c1dd4, 0x4b2008f, 0x980980e9, 0x7e42f8ec), "d41d8cd9", "8f00b204", "e9800998", "ecf8427e");
    EmptyDigits();
  }

  lemma LettersHex()
    ensures Hex(StateBytes(Quad(0x98ab74d1, 0xf5d977d2, 0x2c1c61a5, 0x9f9d419f))) == "d174ab98d277d9f5a5611c2c9f419d9f"
  {
    HexOf(0x98ab74d1, 0xd1, 0x74, 0xab, 0x98, "d174ab98");
    HexOf(0xf5d977d2, 0xd2, 0x77, 0xd9, 0xf5, "d277d9f5");
    HexOf(0x2c1c61a5, 0xa5, 0x61, 0x1c, 0x2c, "a5611c2c");
    HexOf(0x9f9d419f, 0x9f, 0x41, 0x9d, 0x9f, "9f419d9f");
    HexState(Quad(0x98ab74d1, 0xf5d977d2, 0x2c1c61a5, 0x9f9d419f), "d174ab98", "d277d9f5", "a5611c2c", "9f419d9f");
    LettersDigits();
  }

  /** The digest of the empty message. */
  lemma EmptyMessage()
    ensures Hex(Digest([])) == "d41d8cd98f00b204e9800998ecf8427e"
  {
    var block := [] + Padding(0) + LengthBytes(0);
    EmptyIs(block);
    EmptyBlock(block);
    OneBlock(block);
    EmptyHex();
  }

  lemma TwoBlocks(first: Block, second: Block, all: seq<Byte>)
    requires all == first + second
    ensures |all| % 64 == 0 && Absorb(INITIAL, all) == Compress(Compress(INITIAL, first), second)
  {
    OneBlock(first);
    FoldOne(Compress, INITIAL, first, second);
  }

  lemma LettersPadded(first: Block, second: Block)
    requires first == LettersAndDigits() + [0x80, 0] && second == seq(56, _ => 0) + LengthBytes(62)
    ensures LettersAndDigits() + Padding(62) + LengthBytes(62) == first + second
  {
    assert Padding(62) == [0x80, 0] + seq(56, _ => 0);
  }

  /** The digest of the letters and digits, 62 characters, which takes two blocks. */
  lemma LettersMessage()
    ensures Hex(Digest(LettersAndDigits())) == "d174ab98d277d9f5a5611c2c9f419d9f"
  {
    var first, second := LettersAndDigits() + [0x80, 0], seq(56, _ => 0) + LengthBytes(62);
    LettersPadded(first, second);
    assert first[..62] == LettersAndDigits();
    LettersIs(first);
    LettersBlock(first);
    TailIs(second);
    TailBlock(second);
    TwoBlocks(first, second, first + second);
    LettersHex();
  }
}
