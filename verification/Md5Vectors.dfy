/** Three of the values in section A.5 of RFC 1321, worked out step by step: a message without a block of its own, one
    that ends in its first word, and one of two blocks. They fix what the specification of the digest shares with the
    object: the auxiliary functions, the constants, the order of the words and the text form. */
module Md5Vectors {
  import opened Md5Spec
  import opened Md5

  // ----- sixteen statements after each other

  lemma Chain1(
    r: Registers, x: seq<Word>,
    x0: bv32, x1: bv32, x2: bv32, x3: bv32, x4: bv32, x5: bv32, x6: bv32, x7: bv32, x8: bv32, x9: bv32, x10: bv32,
    x11: bv32, x12: bv32, x13: bv32, x14: bv32, x15: bv32,
    w0: bv32, w1: bv32, w2: bv32, w3: bv32, w4: bv32, w5: bv32, w6: bv32, w7: bv32, w8: bv32, w9: bv32, w10: bv32,
    w11: bv32, w12: bv32, w13: bv32, w14: bv32, w15: bv32, w16: bv32, w17: bv32, w18: bv32, w19: bv32)
    requires x == [Word(x0), Word(x1), Word(x2), Word(x3), Word(x4), Word(x5), Word(x6), Word(x7), Word(x8),
                  Word(x9), Word(x10), Word(x11), Word(x12), Word(x13), Word(x14), Word(x15)]
    requires Steps(0, r, x) == Registers(Word(w0), Word(w3), Word(w2), Word(w1))
    requires FF(Word(w0), Word(w3), Word(w2), Word(w1), Word(x0), 7, 0xd76aa478) == Word(w4)
    requires FF(Word(w1), Word(w4), Word(w3), Word(w2), Word(x1), 12, 0xe8c7b756) == Word(w5)
    requires FF(Word(w2), Word(w5), Word(w4), Word(w3), Word(x2), 17, 0x242070db) == Word(w6)
    requires FF(Word(w3), Word(w6), Word(w5), Word(w4), Word(x3), 22, 0xc1bdceee) == Word(w7)
    requires FF(Word(w4), Word(w7), Word(w6), Word(w5), Word(x4), 7, 0xf57c0faf) == Word(w8)
    requires FF(Word(w5), Word(w8), Word(w7), Word(w6), Word(x5), 12, 0x4787c62a) == Word(w9)
    requires FF(Word(w6), Word(w9), Word(w8), Word(w7), Word(x6), 17, 0xa8304613) == Word(w10)
    requires FF(Word(w7), Word(w10), Word(w9), Word(w8), Word(x7), 22, 0xfd469501) == Word(w11)
    requires FF(Word(w8), Word(w11), Word(w10), Word(w9), Word(x8), 7, 0x698098d8) == Word(w12)
    requires FF(Word(w9), Word(w12), Word(w11), Word(w10), Word(x9), 12, 0x8b44f7af) == Word(w13)
    requires FF(Word(w10), Word(w13), Word(w12), Word(w11), Word(x10), 17, 0xffff5bb1) == Word(w14)
    requires FF(Word(w11), Word(w14), Word(w13), Word(w12), Word(x11), 22, 0x895cd7be) == Word(w15)
    requires FF(Word(w12), Word(w15), Word(w14), Word(w13), Word(x12), 7, 0x6b901122) == Word(w16)
    requires FF(Word(w13), Word(w16), Word(w15), Word(w14), Word(x13), 12, 0xfd987193) == Word(w17)
    requires FF(Word(w14), Word(w17), Word(w16), Word(w15), Word(x14), 17, 0xa679438e) == Word(w18)
    requires FF(Word(w15), Word(w18), Word(w17), Word(w16), Word(x15), 22, 0x49b40821) == Word(w19)
    ensures Steps(16, r, x) == Registers(Word(w16), Word(w19), Word(w18), Word(w17))
  {
    MessageOrder();
    hide FF, Steps, MessageIndex;
    FourSteps(0, r, x);
    FourSteps(4, r, x);
    FourSteps(8, r, x);
    FourSteps(12, r, x);
  }

  lemma Chain2(
    r: Registers, x: seq<Word>,
    x0: bv32, x1: bv32, x2: bv32, x3: bv32, x4: bv32, x5: bv32, x6: bv32, x7: bv32, x8: bv32, x9: bv32, x10: bv32,
    x11: bv32, x12: bv32, x13: bv32, x14: bv32, x15: bv32,
    w0: bv32, w1: bv32, w2: bv32, w3: bv32, w4: bv32, w5: bv32, w6: bv32, w7: bv32, w8: bv32, w9: bv32, w10: bv32,
    w11: bv32, w12: bv32, w13: bv32, w14: bv32, w15: bv32, w16: bv32, w17: bv32, w18: bv32, w19: bv32)
    requires x == [Word(x0), Word(x1), Word(x2), Word(x3), Word(x4), Word(x5), Word(x6), Word(x7), Word(x8),
                  Word(x9), Word(x10), Word(x11), Word(x12), Word(x13), Word(x14), Word(x15)]
    requires Steps(16, r, x) == Registers(Word(w0), Word(w3), Word(w2), Word(w1))
    requires GG(Word(w0), Word(w3), Word(w2), Word(w1), Word(x1), 5, 0xf61e2562) == Word(w4)
    requires GG(Word(w1), Word(w4), Word(w3), Word(w2), Word(x6), 9, 0xc040b340) == Word(w5)
    requires GG(Word(w2), Word(w5), Word(w4), Word(w3), Word(x11), 14, 0x265e5a51) == Word(w6)
    requires GG(Word(w3), Word(w6), Word(w5), Word(w4), Word(x0), 20, 0xe9b6c7aa) == Word(w7)
    requires GG(Word(w4), Word(w7), Word(w6), Word(w5), Word(x5), 5, 0xd62f105d) == Word(w8)
    requires GG(Word(w5), Word(w8), Word(w7), Word(w6), Word(x10), 9, 0x02441453) == Word(w9)
    requires GG(Word(w6), Word(w9), Word(w8), Word(w7), Word(x15), 14, 0xd8a1e681) == Word(w10)
    requires GG(Word(w7), Word(w10), Word(w9), Word(w8), Word(x4), 20, 0xe7d3fbc8) == Word(w11)
    requires GG(Word(w8), Word(w11), Word(w10), Word(w9), Word(x9), 5, 0x21e1cde6) == Word(w12)
    requires GG(Word(w9), Word(w12), Word(w11), Word(w10), Word(x14), 9, 0xc33707d6) == Word(w13)
    requires GG(Word(w10), Word(w13), Word(w12), Word(w11), Word(x3), 14, 0xf4d50d87) == Word(w14)
    requires GG(Word(w11), Word(w14), Word(w13), Word(w12), Word(x8), 20, 0x455a14ed) == Word(w15)
    requires GG(Word(w12), Word(w15), Word(w14), Word(w13), Word(x13), 5, 0xa9e3e905) == Word(w16)
    requires GG(Word(w13), Word(w16), Word(w15), Word(w14), Word(x2), 9, 0xfcefa3f8) == Word(w17)
    requires GG(Word(w14), Word(w17), Word(w16), Word(w15), Word(x7), 14, 0x676f02d9) == Word(w18)
    requires GG(Word(w15), Word(w18), Word(w17), Word(w16), Word(x12), 20, 0x8d2a4c8a) == Word(w19)
    ensures Steps(32, r, x) == Registers(Word(w16), Word(w19), Word(w18), Word(w17))
  {
    MessageOrder();
    hide GG, Steps, MessageIndex;
    FourSteps(16, r, x);
    FourSteps(20, r, x);
    FourSteps(24, r, x);
    FourSteps(28, r, x);
  }

  lemma Chain3(
    r: Registers, x: seq<Word>,
    x0: bv32, x1: bv32, x2: bv32, x3: bv32, x4: bv32, x5: bv32, x6: bv32, x7: bv32, x8: bv32, x9: bv32, x10: bv32,
    x11: bv32, x12: bv32, x13: bv32, x14: bv32, x15: bv32,
    w0: bv32, w1: bv32, w2: bv32, w3: bv32, w4: bv32, w5: bv32, w6: bv32, w7: bv32, w8: bv32, w9: bv32, w10: bv32,
    w11: bv32, w12: bv32, w13: bv32, w14: bv32, w15: bv32, w16: bv32, w17: bv32, w18: bv32, w19: bv32)
    requires x == [Word(x0), Word(x1), Word(x2), Word(x3), Word(x4), Word(x5), Word(x6), Word(x7), Word(x8),
                  Word(x9), Word(x10), Word(x11), Word(x12), Word(x13), Word(x14), Word(x15)]
    requires Steps(32, r, x) == Registers(Word(w0), Word(w3), Word(w2), Word(w1))
    requires HH(Word(w0), Word(w3), Word(w2), Word(w1), Word(x5), 4, 0xfffa3942) == Word(w4)
    requires HH(Word(w1), Word(w4), Word(w3), Word(w2), Word(x8), 11, 0x8771f681) == Word(w5)
    requires HH(Word(w2), Word(w5), Word(w4), Word(w3), Word(x11), 16, 0x6d9d6122) == Word(w6)
    requires HH(Word(w3), Word(w6), Word(w5), Word(w4), Word(x14), 23, 0xfde5380c) == Word(w7)
    requires HH(Word(w4), Word(w7), Word(w6), Word(w5), Word(x1), 4, 0xa4beea44) == Word(w8)
    requires HH(Word(w5), Word(w8), Word(w7), Word(w6), Word(x4), 11, 0x4bdecfa9) == Word(w9)
    requires HH(Word(w6), Word(w9), Word(w8), Word(w7), Word(x7), 16, 0xf6bb4b60) == Word(w10)
    requires HH(Word(w7), Word(w10), Word(w9), Word(w8), Word(x10), 23, 0xbebfbc70) == Word(w11)
    requires HH(Word(w8), Word(w11), Word(w10), Word(w9), Word(x13), 4, 0x289b7ec6) == Word(w12)
    requires HH(Word(w9), Word(w12), Word(w11), Word(w10), Word(x0), 11, 0xeaa127fa) == Word(w13)
    requires HH(Word(w10), Word(w13), Word(w12), Word(w11), Word(x3), 16, 0xd4ef3085) == Word(w14)
    requires HH(Word(w11), Word(w14), Word(w13), Word(w12), Word(x6), 23, 0x04881d05) == Word(w15)
    requires HH(Word(w12), Word(w15), Word(w14), Word(w13), Word(x9), 4, 0xd9d4d039) == Word(w16)
    requires HH(Word(w13), Word(w16), Word(w15), Word(w14), Word(x12), 11, 0xe6db99e5) == Word(w17)
    requires HH(Word(w14), Word(w17), Word(w16), Word(w15), Word(x15), 16, 0x1fa27cf8) == Word(w18)
    requires HH(Word(w15), Word(w18), Word(w17), Word(w16), Word(x2), 23, 0xc4ac5665) == Word(w19)
    ensures Steps(48, r, x) == Registers(Word(w16), Word(w19), Word(w18), Word(w17))
  {
    MessageOrder();
    hide HH, Steps, MessageIndex;
    FourSteps(32, r, x);
    FourSteps(36, r, x);
    FourSteps(40, r, x);
    FourSteps(44, r, x);
  }

  lemma Chain4(
    r: Registers, x: seq<Word>,
    x0: bv32, x1: bv32, x2: bv32, x3: bv32, x4: bv32, x5: bv32, x6: bv32, x7: bv32, x8: bv32, x9: bv32, x10: bv32,
    x11: bv32, x12: bv32, x13: bv32, x14: bv32, x15: bv32,
    w0: bv32, w1: bv32, w2: bv32, w3: bv32, w4: bv32, w5: bv32, w6: bv32, w7: bv32, w8: bv32, w9: bv32, w10: bv32,
    w11: bv32, w12: bv32, w13: bv32, w14: bv32, w15: bv32, w16: bv32, w17: bv32, w18: bv32, w19: bv32)
    requires x == [Word(x0), Word(x1), Word(x2), Word(x3), Word(x4), Word(x5), Word(x6), Word(x7), Word(x8),
                  Word(x9), Word(x10), Word(x11), Word(x12), Word(x13), Word(x14), Word(x15)]
    requires Steps(48, r, x) == Registers(Word(w0), Word(w3), Word(w2), Word(w1))
    requires II(Word(w0), Word(w3), Word(w2), Word(w1), Word(x0), 6, 0xf4292244) == Word(w4)
    requires II(Word(w1), Word(w4), Word(w3), Word(w2), Word(x7), 10, 0x432aff97) == Word(w5)
    requires II(Word(w2), Word(w5), Word(w4), Word(w3), Word(x14), 15, 0xab9423a7) == Word(w6)
    requires II(Word(w3), Word(w6), Word(w5), Word(w4), Word(x5), 21, 0xfc93a039) == Word(w7)
    requires II(Word(w4), Word(w7), Word(w6), Word(w5), Word(x12), 6, 0x655b59c3) == Word(w8)
    requires II(Word(w5), Word(w8), Word(w7), Word(w6), Word(x3), 10, 0x8f0ccc92) == Word(w9)
    requires II(Word(w6), Word(w9), Word(w8), Word(w7), Word(x10), 15, 0xffeff47d) == Word(w10)
    requires II(Word(w7), Word(w10), Word(w9), Word(w8), Word(x1), 21, 0x85845dd1) == Word(w11)
    requires II(Word(w8), Word(w11), Word(w10), Word(w9), Word(x8), 6, 0x6fa87e4f) == Word(w12)
    requires II(Word(w9), Word(w12), Word(w11), Word(w10), Word(x15), 10, 0xfe2ce6e0) == Word(w13)
    requires II(Word(w10), Word(w13), Word(w12), Word(w11), Word(x6), 15, 0xa3014314) == Word(w14)
    requires II(Word(w11), Word(w14), Word(w13), Word(w12), Word(x13), 21, 0x4e0811a1) == Word(w15)
    requires II(Word(w12), Word(w15), Word(w14), Word(w13), Word(x4), 6, 0xf7537e82) == Word(w16)
    requires II(Word(w13), Word(w16), Word(w15), Word(w14), Word(x11), 10, 0xbd3af235) == Word(w17)
    requires II(Word(w14), Word(w17), Word(w16), Word(w15), Word(x2), 15, 0x2ad7d2bb) == Word(w18)
    requires II(Word(w15), Word(w18), Word(w17), Word(w16), Word(x9), 21, 0xeb86d391) == Word(w19)
    ensures Steps(64, r, x) == Registers(Word(w16), Word(w19), Word(w18), Word(w17))
  {
    MessageOrder();
    hide II, Steps, MessageIndex;
    FourSteps(48, r, x);
    FourSteps(52, r, x);
    FourSteps(56, r, x);
    FourSteps(60, r, x);
  }

  /** The only block of the empty message. */
  lemma EmptyBlock(block: seq<Byte>)
    requires |block| == 64
    requires Words(block) == [Word(0x00000080), Word(0x00000000), Word(0x00000000), Word(0x00000000),
      Word(0x00000000), Word(0x00000000), Word(0x00000000), Word(0x00000000), Word(0x00000000), Word(0x00000000),
      Word(0x00000000), Word(0x00000000), Word(0x00000000), Word(0x00000000), Word(0x00000000), Word(0x00000000)]
    ensures Compress(INITIAL, block)
         == Registers(Word(0xd98c1dd4), Word(0x04b2008f), Word(0x980980e9), Word(0x7e42f8ec))
  {
    var x := Words(block);
    NoSteps(INITIAL, x);
    hide Steps;
    Chain1(INITIAL, x,
      0x00000080, 0x00000000, 0x00000000, 0x00000000, 0x00000000, 0x00000000, 0x00000000, 0x00000000, 0x00000000,
      0x00000000, 0x00000000, 0x00000000, 0x00000000, 0x00000000, 0x00000000, 0x00000000,
      0x67452301, 0x10325476, 0x98badcfe, 0xefcdab89, 0xa5202774, 0xf59592dd, 0xe7f06b23, 0x1b163203, 0x32033344,
      0x2f35d494, 0xf5b158db, 0x9bc13ce9, 0x3893b991, 0xfce4a312, 0xe1ef0576, 0x70768a29, 0xf56c7cf1, 0x374943a7,
      0x5aa53f75, 0xd6819c6a);
    Chain2(INITIAL, x,
      0x00000080, 0x00000000, 0x00000000, 0x00000000, 0x00000000, 0x00000000, 0x00000000, 0x00000000, 0x00000000,
      0x00000000, 0x00000000, 0x00000000, 0x00000000, 0x00000000, 0x00000000, 0x00000000,
      0xf56c7cf1, 0x374943a7, 0x5aa53f75, 0xd6819c6a, 0x1c7d7513, 0x7bd57a3a, 0xc095f13a, 0xbd782e17, 0x3d1e3e6c,
      0x68b7b3e3, 0xeb41643e, 0xe422531a, 0x306ec122, 0xd28c77c2, 0xa3c663da, 0xa0572807, 0x13707036, 0xae7813db,
      0x1c31c384, 0xa2205f1f);
    Chain3(INITIAL, x,
      0x00000080, 0x00000000, 0x00000000, 0x00000000, 0x00000000, 0x00000000, 0x00000000, 0x00000000, 0x00000000,
      0x00000000, 0x00000000, 0x00000000, 0x00000000, 0x00000000, 0x00000000, 0x00000000,
      0x13707036, 0xae7813db, 0x1c31c384, 0xa2205f1f, 0xdf63eaa1, 0xc3689f5b, 0x12f3e755, 0x004b6669, 0x5f7a9b2e,
      0xabc34e16, 0x91ca4cb7, 0xc5dc8c15, 0x4497169d, 0x76fd93d4, 0xfd95f243, 0x0fe32453, 0x3f55edfd, 0x22a31f54,
      0x68d84ea2, 0xca7d2dbd);
    Chain4(INITIAL, x,
      0x00000080, 0x00000000, 0x00000000, 0x00000000, 0x00000000, 0x00000000, 0x00000000, 0x00000000, 0x00000000,
      0x00000000, 0x00000000, 0x00000000, 0x00000000, 0x00000000, 0x00000000, 0x00000000,
      0x3f55edfd, 0x22a31f54, 0x68d84ea2, 0xca7d2dbd, 0x93aa2577, 0x1688dc85, 0xcd85b8cb, 0x561e0689, 0x5625a114,
      0x3450f42b, 0x392ad0d0, 0x1e77fa61, 0x474a9c8c, 0xdfce00bc, 0x36594b14, 0x30130182, 0x7246fad3, 0x6e10a476,
      0xff4ea3eb, 0x14e45506);
  }

  /** The only block of "abc". */
  lemma AbcBlock(block: seq<Byte>)
    requires |block| == 64
    requires Words(block) == [Word(0x80636261), Word(0x00000000), Word(0x00000000), Word(0x00000000),
      Word(0x00000000), Word(0x00000000), Word(0x00000000), Word(0x00000000), Word(0x00000000), Word(0x00000000),
      Word(0x00000000), Word(0x00000000), Word(0x00000000), Word(0x00000000), Word(0x00000018), Word(0x00000000)]
    ensures Compress(INITIAL, block)
         == Registers(Word(0x98500190), Word(0xb04fd23c), Word(0x7d3f96d6), Word(0x727fe128))
  {
    var x := Words(block);
    NoSteps(INITIAL, x);
    hide Steps;
    Chain1(INITIAL, x,
      0x80636261, 0x00000000, 0x00000000, 0x00000000, 0x00000000, 0x00000000, 0x00000000, 0x00000000, 0x00000000,
      0x00000000, 0x00000000, 0x00000000, 0x00000000, 0x00000000, 0x00000018, 0x00000000,
      0x67452301, 0x10325476, 0x98badcfe, 0xefcdab89, 0xd6d117b4, 0x344a8432, 0x2f6fbd72, 0x7ad956f2, 0xc73741ef,
      0x8bac3051, 0x207dc67b, 0x928d99f6, 0x854b3712, 0x74e2f284, 0x3020401c, 0x5ed49596, 0xdda9b9a6, 0xa1051895,
      0xe396856b, 0x72aff2e0);
    Chain2(INITIAL, x,
      0x80636261, 0x00000000, 0x00000000, 0x00000000, 0x00000000, 0x00000000, 0x00000000, 0x00000000, 0x00000000,
      0x00000000, 0x00000000, 0x00000000, 0x00000000, 0x00000000, 0x00000018, 0x00000000,
      0xdda9b9a6, 0xa1051895, 0xe396856b, 0x72aff2e0, 0x3e9e9126, 0x4a1d804e, 0xe25e1652, 0xb5b204e4, 0x59a8ffda,
      0x6d002f1e, 0xabfc7920, 0x47092c07, 0xb7f268cf, 0x09388eff, 0xfe1623b1, 0x786acb8f, 0x790a77fb, 0x9f47e4f8,
      0xa62884aa, 0x726342d3);
    Chain3(INITIAL, x,
      0x80636261, 0x00000000, 0x00000000, 0x00000000, 0x00000000, 0x00000000, 0x00000000, 0x00000000, 0x00000000,
      0x00000000, 0x00000000, 0x00000000, 0x00000000, 0x00000000, 0x00000018, 0x00000000,
      0x790a77fb, 0x9f47e4f8, 0xa62884aa, 0x726342d3, 0xb3707ebf, 0x60127b2e, 0x8d212ff5, 0x3b0875c7, 0x21b117b9,
      0x6e7429d5, 0x3575227e, 0x5a2f5ea5, 0x11de1779, 0xfadcaa38, 0x31c465ca, 0x4c6124f4, 0x7f2e507b, 0x99d9679d,
      0x8fae6399, 0x7beb9700);
    Chain4(INITIAL, x,
      0x80636261, 0x00000000, 0x00000000, 0x00000000, 0x00000000, 0x00000000, 0x00000000, 0x00000000, 0x00000000,
      0x00000000, 0x00000000, 0x00000000, 0x00000000, 0x00000000, 0x00000018, 0x00000000,
      0x7f2e507b, 0x99d9679d, 0x8fae6399, 0x7beb9700, 0x7b201df8, 0xf4e8e96e, 0xb298cefd, 0x8bf025c4, 0x06cc5e8a,
      0x5b0d97aa, 0x7d632dd0, 0x3bfa2c27, 0x7f81cc35, 0x094454ab, 0x4f9dbe3f, 0x7327d604, 0x310ade8f, 0x624d8cb2,
      0xe484b9d8, 0xc08226b3);
  }

  /** The first block of the message of 62 letters and digits, no two of its words equal. */
  lemma FirstBlock(block: seq<Byte>)
    requires |block| == 64
    requires Words(block) == [Word(0x44434241), Word(0x48474645), Word(0x4c4b4a49), Word(0x504f4e4d),
      Word(0x54535251), Word(0x58575655), Word(0x62615a59), Word(0x66656463), Word(0x6a696867), Word(0x6e6d6c6b),
      Word(0x7271706f), Word(0x76757473), Word(0x7a797877), Word(0x33323130), Word(0x37363534), Word(0x00803938)]
    ensures Compress(INITIAL, block)
         == Registers(Word(0x83fd320b), Word(0xdefbe5cf), Word(0xa9b1642f), Word(0xfa6f932a))
  {
    var x := Words(block);
    NoSteps(INITIAL, x);
    hide Steps;
    Chain1(INITIAL, x,
      0x44434241, 0x48474645, 0x4c4b4a49, 0x504f4e4d, 0x54535251, 0x58575655, 0x62615a59, 0x66656463, 0x6a696867,
      0x6e6d6c6b, 0x7271706f, 0x76757473, 0x7a797877, 0x33323130, 0x37363534, 0x00803938,
      0x67452301, 0x10325476, 0x98badcfe, 0xefcdab89, 0xc6c10796, 0x99a09999, 0x11067980, 0x27bce07a, 0xf22e6c4e,
      0xb4ac9218, 0xa95a2fc0, 0xa4799506, 0x1eb3e7c1, 0xa6e70cfe, 0xca27520b, 0x8a7612ec, 0x3cbdcd45, 0xb8dec763,
      0xfa148c8a, 0x5d38e690);
    Chain2(INITIAL, x,
      0x44434241, 0x48474645, 0x4c4b4a49, 0x504f4e4d, 0x54535251, 0x58575655, 0x62615a59, 0x66656463, 0x6a696867,
      0x6e6d6c6b, 0x7271706f, 0x76757473, 0x7a797877, 0x33323130, 0x37363534, 0x00803938,
      0x3cbdcd45, 0xb8dec763, 0xfa148c8a, 0x5d38e690, 0x04b9d52a, 0x783002eb, 0xd3ee3ed1, 0x47ae7c81, 0x2d7d8a3f,
      0xd1210823, 0x4b534dc3, 0x75292030, 0x9d2a6e33, 0x0e8d2e44, 0xd473b564, 0xf2ff6ea0, 0x9b085fa9, 0x4400a9bd,
      0x5993248f, 0xdd789ecc);
    Chain3(INITIAL, x,
      0x44434241, 0x48474645, 0x4c4b4a49, 0x504f4e4d, 0x54535251, 0x58575655, 0x62615a59, 0x66656463, 0x6a696867,
      0x6e6d6c6b, 0x7271706f, 0x76757473, 0x7a797877, 0x33323130, 0x37363534, 0x00803938,
      0x9b085fa9, 0x4400a9bd, 0x5993248f, 0xdd789ecc, 0x21c8d2b7, 0x1d55a18e, 0x056ec119, 0x1b9504f8, 0x436b7fe9,
      0x075800c1, 0xf404c2f6, 0xcf0341ed, 0x888e7d8a, 0xbbdaecd8, 0xce620273, 0x047b9419, 0x2dbee21d, 0xe95c3a43,
      0xee46e961, 0xf166f514);
    Chain4(INITIAL, x,
      0x44434241, 0x48474645, 0x4c4b4a49, 0x504f4e4d, 0x54535251, 0x58575655, 0x62615a59, 0x66656463, 0x6a696867,
      0x6e6d6c6b, 0x7271706f, 0x76757473, 0x7a797877, 0x33323130, 0x37363534, 0x00803938,
      0x2dbee21d, 0xe95c3a43, 0xee46e961, 0xf166f514, 0xe47fd4f3, 0xfb887751, 0xf22aedcc, 0x7a13bc5c, 0xa691d430,
      0x528452f2, 0x3fc23df6, 0xefb0e72f, 0x27145703, 0x21a11069, 0x374fbe79, 0x49d9a5b4, 0x1cb80f0a, 0xea3d3eb4,
      0x10f68731, 0xef2e3a46);
  }

  /** Its second block, which holds nothing but padding. */
  lemma SecondBlock(r: Registers, block: seq<Byte>)
    requires |block| == 64
    requires r == Registers(Word(0x83fd320b), Word(0xdefbe5cf), Word(0xa9b1642f), Word(0xfa6f932a))
    requires Words(block) == [Word(0x00000000), Word(0x00000000), Word(0x00000000), Word(0x00000000),
      Word(0x00000000), Word(0x00000000), Word(0x00000000), Word(0x00000000), Word(0x00000000), Word(0x00000000),
      Word(0x00000000), Word(0x00000000), Word(0x00000000), Word(0x00000000), Word(0x000001f0), Word(0x00000000)]
    ensures Compress(r, block)
         == Registers(Word(0x98ab74d1), Word(0xf5d977d2), Word(0x2c1c61a5), Word(0x9f9d419f))
  {
    var x := Words(block);
    NoSteps(r, x);
    hide Steps;
    Chain1(r, x,
      0x00000000, 0x00000000, 0x00000000, 0x00000000, 0x00000000, 0x00000000, 0x00000000, 0x00000000, 0x00000000,
      0x00000000, 0x00000000, 0x00000000, 0x00000000, 0x00000000, 0x000001f0, 0x00000000,
      0x83fd320b, 0xfa6f932a, 0xa9b1642f, 0xdefbe5cf, 0xeda23ed1, 0x989939cf, 0x3c307338, 0xddcf0634, 0x75144433,
      0xc8875807, 0xc783cb60, 0x99b6b699, 0xa60a3f69, 0xaa6630be, 0x64db26e9, 0x64cc7c5a, 0xa70737da, 0x5473f8a7,
      0x96f6586e, 0xa36f556f);
    Chain2(r, x,
      0x00000000, 0x00000000, 0x00000000, 0x00000000, 0x00000000, 0x00000000, 0x00000000, 0x00000000, 0x00000000,
      0x00000000, 0x00000000, 0x00000000, 0x00000000, 0x00000000, 0x000001f0, 0x00000000,
      0xa70737da, 0x5473f8a7, 0x96f6586e, 0xa36f556f, 0xa5050ad3, 0x28776046, 0x27dcd8b4, 0x82b8827c, 0xe04f070c,
      0x2f3cd2a2, 0xc0d22b61, 0xdf35cb56, 0x242dd210, 0x576ace33, 0x5c295967, 0x2291191a, 0x24eba695, 0x4bd0378b,
      0x10c42a2f, 0x9c03e2e8);
    Chain3(r, x,
      0x00000000, 0x00000000, 0x00000000, 0x00000000, 0x00000000, 0x00000000, 0x00000000, 0x00000000, 0x00000000,
      0x00000000, 0x00000000, 0x00000000, 0x00000000, 0x00000000, 0x000001f0, 0x00000000,
      0x24eba695, 0x4bd0378b, 0x10c42a2f, 0x9c03e2e8, 0x5be1d526, 0x9e414279, 0x9f4a1a7e, 0xa2448453, 0xe14e403d,
      0xe8cfd670, 0x60cc183a, 0xfe314121, 0xfff62809, 0xe37209ac, 0x8cb5221c, 0x7c7e974c, 0x54c9eb3a, 0xd4d9c6ac,
      0x2ec86f72, 0x79c0710a);
    Chain4(r, x,
      0x00000000, 0x00000000, 0x00000000, 0x00000000, 0x00000000, 0x00000000, 0x00000000, 0x00000000, 0x00000000,
      0x00000000, 0x00000000, 0x00000000, 0x00000000, 0x00000000, 0x000001f0, 0x00000000,
      0x54c9eb3a, 0xd4d9c6ac, 0x2ec86f72, 0x79c0710a, 0x02095af1, 0x13d245fd, 0xa8dcfe26, 0x2ba98e3f, 0xe126c1aa,
      0x96b00fa7, 0x6f287ff5, 0xfb7bcee0, 0x452c1099, 0xca801ba6, 0xc197ea8e, 0x5ac74608, 0x14ae42c6, 0xa52dae75,
      0x826afd76, 0x16dd9203);
  }

  // ----- the auxiliary functions, bit by bit

  /** Wherever the bits of a mask are set in x, F has those of y; wherever they are clear in x, it has those of z. */
  lemma FChooses(x: Word, y: Word, z: Word, mask: bv32)
    ensures x.bits & mask == mask ==> F(x, y, z).bits & mask == y.bits & mask
    ensures x.bits & mask == 0 ==> F(x, y, z).bits & mask == z.bits & mask
  {}

  /** G chooses between x and y by the bits of z. */
  lemma GChooses(x: Word, y: Word, z: Word)
    ensures G(x, y, z) == F(z, x, y)
  {
    assert (z.bits & x.bits) | (!z.bits & y.bits) == (x.bits & z.bits) | (y.bits & !z.bits);
  }

  /** H has the bits of z where x and y agree, and their complement where they differ. */
  lemma HFlips(x: Word, y: Word, z: Word, mask: bv32)
    ensures x.bits & mask == y.bits & mask ==> H(x, y, z).bits & mask == z.bits & mask
    ensures x.bits & mask == !y.bits & mask ==> H(x, y, z).bits & mask == !z.bits & mask
  {}

  /** I has the bits of y where x is clear and z is set, and their complement everywhere else. */
  lemma IFlips(x: Word, y: Word, z: Word, mask: bv32)
    ensures x.bits & mask == 0 && z.bits & mask == mask ==> I(x, y, z).bits & mask == y.bits & mask
    ensures x.bits & mask == mask || z.bits & mask == 0 ==> I(x, y, z).bits & mask == !y.bits & mask
  {}

  // ----- the length words

  /** The two words are the bit length modulo 2^64. */
  lemma LengthModulo(n: nat)
    ensures LowBits(n) + TWO32 * HighBits(n) == 8 * n % (TWO32 * TWO32)
  {
    var c := Carried(8 * n);
    assert 8 * n == TWO32 * c + LowBits(n) && c == TWO32 * Carried(c) + HighBits(n);
    DivMod(8 * n, Carried(c), TWO32 * HighBits(n) + LowBits(n), TWO32 * TWO32);
  }

  // ----- words of a padded text

  lemma {:induction false} WordsAt(bytes: seq<Byte>, k: nat)
    requires |bytes| % 4 == 0 && 4 * k < |bytes|
    ensures Words(bytes)[k] == Or(bytes[4 * k], bytes[4 * k + 1], bytes[4 * k + 2], bytes[4 * k + 3])
  {
    hide WordOf, Or;
    if k == 0 {
      assert bytes[..4] == [bytes[0], bytes[1], bytes[2], bytes[3]];
    } else {
      WordsAt(bytes[4..], k - 1);
    }
  }

  lemma {:induction false} WordsConcat(a: seq<Byte>, b: seq<Byte>)
    requires |a| % 4 == 0 && |b| % 4 == 0
    ensures Words(a + b) == Words(a) + Words(b)
  {
    hide WordOf;
    if a == [] {
      assert a + b == b;
    } else {
      assert (a + b)[..4] == a[..4] && (a + b)[4..] == a[4..] + b;
      WordsConcat(a[4..], b);
    }
  }

  /** A message up to the length in its padding. */
  function Front(m: seq<Byte>): (f: seq<Byte>)
    ensures |f| % 4 == 0 && |f| == |m| + 1 + Zeros(|m|)
  {
    WholeWords(|m| + 1 + Zeros(|m|));
    m + [Byte(0x80)] + seq(Zeros(|m|), _ => Byte(0))
  }

  lemma FrontBytes(m: seq<Byte>)
    ensures forall i :: 0 <= i < |Front(m)| ==>
      Front(m)[i] == if i < |m| then m[i] else if i == |m| then Byte(0x80) else Byte(0)
    ensures |Front(m)| == |m| + 1 + (55 - |m| % 64) % 64
  {}

  lemma PaddedWords(m: seq<Byte>)
    ensures Words(Padded(m)) == Words(Front(m)) + LengthWords(|m|) && |Padded(m)| == |Front(m)| + 8
  {
    hide Words, Bytes, LengthWords, Zeros;
    assert Padded(m) == Front(m) + Bytes(LengthWords(|m|));
    WordsConcat(Front(m), Bytes(LengthWords(|m|)));
    WordsOfBytes(LengthWords(|m|));
  }

  lemma ShortLengths()
    ensures LengthWords(0) == [Word(0), Word(0)]
    ensures LengthWords(3) == [Word(24), Word(0)]
    ensures LengthWords(62) == [Word(496), Word(0)]
  {
    ShortWords();
    hide ToWord;
  }

  lemma ShortWords()
    ensures ToWord(0) == Word(0) && ToWord(24) == Word(24) && ToWord(496) == Word(496)
  {}

  lemma ZeroOr()
    ensures Or(Byte(0), Byte(0), Byte(0), Byte(0)) == Word(0)
  {}

  lemma ZeroWords(m: seq<Byte>)
    ensures forall k :: |m| < 4 * k && 4 * k < |Front(m)| ==> Words(Front(m))[k] == Word(0)
  {
    hide Or, Words, Zeros;
    ZeroOr();
    forall k | |m| < 4 * k && 4 * k < |Front(m)| ensures Words(Front(m))[k] == Word(0) {
      WordsAt(Front(m), k);
    }
  }

  // ----- the digits of a digest

  lemma DigitUnhex(c: char)
    requires c in HEX
    ensures Unhex(c) < 16 && HexDigit(Unhex(c)) == c
  {
    assert forall k :: 0 <= k < 16 && HEX[k] == c ==> Unhex(c) as int == k;
  }

  lemma ByteOfPair(h: char, l: char)
    requires h in HEX && l in HEX
    ensures HexByte(PairValue(h, l)) == [h, l]
  {
    DigitUnhex(h);
    DigitUnhex(l);
    var x, y := Unhex(h), Unhex(l);
    hide Unhex, HexDigit;
    assert ((x << 4) | y) >> 4 == x && ((x << 4) | y) & 0xf == y;
  }

  /** The digits determine the text too. */
  lemma {:induction false} HexOfDigits(s: string)
    requires |s| % 2 == 0 && IsHex(s)
    ensures Hex(FromHex(s)) == s
  {
    if s != "" {
      ByteOfPair(s[0], s[1]);
      hide PairValue, HexByte;
      HexOfDigits(s[2..]);
    }
  }

  lemma {:induction false} FromHexConcat(s: string, t: string)
    requires |s| % 2 == 0 && |t| % 2 == 0
    ensures FromHex(s + t) == FromHex(s) + FromHex(t)
  {
    hide PairValue;
    if s == "" {
      assert s + t == t;
    } else {
      assert (s + t)[2..] == s[2..] + t;
      FromHexConcat(s[2..], t);
    }
  }

  /** The word whose bytes eight digits stand for. */
  function WordOfText(s: string): Word
    requires |s| == 8
  {
    WordOf([PairValue(s[0], s[1]), PairValue(s[2], s[3]), PairValue(s[4], s[5]), PairValue(s[6], s[7])])
  }

  lemma EightDigits(s: string)
    requires |s| == 8
    ensures FromHex(s) == BytesOf(WordOfText(s))
  {
    hide PairValue;
    var b := [PairValue(s[0], s[1]), PairValue(s[2], s[3]), PairValue(s[4], s[5]), PairValue(s[6], s[7])];
    BytesOfWordOf(b);
    hide WordOf, BytesOf;
    assert s[2..][2..] == s[4..] && s[4..][2..] == s[6..] && s[6..][2..] == "";
    assert FromHex(s[6..]) == [b[3]];
    assert FromHex(s[4..]) == [b[2], b[3]];
    assert FromHex(s[2..]) == [b[1], b[2], b[3]];
  }

  lemma FourWordsBytes(a: Word, b: Word, c: Word, d: Word)
    ensures Bytes([a, b, c, d]) == BytesOf(a) + BytesOf(b) + BytesOf(c) + BytesOf(d)
  {
    hide BytesOf;
    var ws := [a, b, c, d];
    assert ws[1..] == [b, c, d] && ws[2..] == [c, d] && ws[3..] == [d] && ws[4..] == [];
    assert [b, c, d][1..] == [c, d] && [c, d][1..] == [d] && [d][1..] == [];
    assert Bytes([d]) == BytesOf(d);
    assert Bytes([c, d]) == BytesOf(c) + BytesOf(d);
    assert Bytes([b, c, d]) == BytesOf(b) + BytesOf(c) + BytesOf(d);
  }

  lemma HexOfDigest(m: seq<Byte>, r: Registers, a: string, b: string, c: string, d: string)
    requires CompressAll(INITIAL, Padded(m)) == r
    requires |a| == |b| == |c| == |d| == 8 && IsHex(a + b + c + d)
    requires r == Registers(WordOfText(a), WordOfText(b), WordOfText(c), WordOfText(d))
    ensures Hex(Digest(m)) == a + b + c + d
  {
    hide CompressAll, Padded, BytesOf, IsHex, Hex, FromHex, Bytes, WordOfText;
    EightDigits(a);
    EightDigits(b);
    EightDigits(c);
    EightDigits(d);
    FromHexConcat(a + b + c, d);
    FromHexConcat(a + b, c);
    FromHexConcat(a, b);
    FourWordsBytes(r.a, r.b, r.c, r.d);
    HexOfDigits(a + b + c + d);
  }

  // ----- long texts, sixteen bytes at a time

  lemma Quarter(f: seq<Byte>, k: nat, b: seq<Byte>)
    requires |f| % 4 == 0 && 4 * k + 16 <= |f| && f[4 * k..4 * k + 16] == b
    ensures Words(f)[k..k + 4] == [Or(b[0], b[1], b[2], b[3]), Or(b[4], b[5], b[6], b[7]),
                                   Or(b[8], b[9], b[10], b[11]), Or(b[12], b[13], b[14], b[15])]
  {
    hide Words, Or;
    assert forall i :: 0 <= i < 16 ==> b[i] == f[4 * k + i];
    WordsAt(f, k);
    WordsAt(f, k + 1);
    WordsAt(f, k + 2);
    WordsAt(f, k + 3);
  }

  lemma OctetsConcat(s: string, t: string)
    ensures Octets(s + t) == Octets(s) + Octets(t)
  {}

  lemma EmptyDigits()
    ensures WordOfText("d41d8cd9") == Word(0xd98c1dd4)
    ensures WordOfText("8f00b204") == Word(0x04b2008f)
    ensures WordOfText("e9800998") == Word(0x980980e9)
    ensures WordOfText("ecf8427e") == Word(0x7e42f8ec)
    ensures IsHex("d41d8cd9" + "8f00b204" + "e9800998" + "ecf8427e")
  {}

  lemma EmptyBytes()
    ensures Octets("") == []
    ensures Or(Byte(0x80), Byte(0x00), Byte(0x00), Byte(0x00)) == Word(0x00000080)
  {}

  lemma EmptyWords(m: seq<Byte>)
    requires m == Octets("")
    ensures Words(Padded(m)) == [Word(0x00000080), Word(0x00000000), Word(0x00000000), Word(0x00000000),
      Word(0x00000000), Word(0x00000000), Word(0x00000000), Word(0x00000000), Word(0x00000000), Word(0x00000000),
      Word(0x00000000), Word(0x00000000), Word(0x00000000), Word(0x00000000), Word(0x00000000), Word(0x00000000)]
  {
    hide *;
    EmptyBytes();
    ShortLengths();
    PaddedWords(m);
    ZeroWords(m);
    FrontBytes(m);
    WordsAt(Front(m), 0);
  }

  lemma DigestOfEmpty()
    ensures Hex(Digest(Octets(""))) == "d41d8cd98f00b204e9800998ecf8427e"
  {
    EmptyDigits();
    hide *;
    var m := Octets("");
    EmptyWords(m);
    EmptyBlock(Padded(m));
    CompressOne(INITIAL, Padded(m));
    HexOfDigest(m, CompressAll(INITIAL, Padded(m)), "d41d8cd9", "8f00b204", "e9800998", "ecf8427e");
  }

  lemma AbcDigits()
    ensures WordOfText("90015098") == Word(0x98500190)
    ensures WordOfText("3cd24fb0") == Word(0xb04fd23c)
    ensures WordOfText("d6963f7d") == Word(0x7d3f96d6)
    ensures WordOfText("28e17f72") == Word(0x727fe128)
    ensures IsHex("90015098" + "3cd24fb0" + "d6963f7d" + "28e17f72")
  {}

  lemma AbcBytes()
    ensures Octets("abc") == [Byte(0x61), Byte(0x62), Byte(0x63)]
    ensures Or(Byte(0x61), Byte(0x62), Byte(0x63), Byte(0x80)) == Word(0x80636261)
  {}

  lemma AbcWords(m: seq<Byte>)
    requires m == Octets("abc")
    ensures Words(Padded(m)) == [Word(0x80636261), Word(0x00000000), Word(0x00000000), Word(0x00000000),
      Word(0x00000000), Word(0x00000000), Word(0x00000000), Word(0x00000000), Word(0x00000000), Word(0x00000000),
      Word(0x00000000), Word(0x00000000), Word(0x00000000), Word(0x00000000), Word(0x00000018), Word(0x00000000)]
  {
    hide *;
    AbcBytes();
    ShortLengths();
    PaddedWords(m);
    ZeroWords(m);
    FrontBytes(m);
    WordsAt(Front(m), 0);
  }

  lemma DigestOfAbc()
    ensures Hex(Digest(Octets("abc"))) == "900150983cd24fb0d6963f7d28e17f72"
  {
    AbcDigits();
    hide *;
    var m := Octets("abc");
    AbcWords(m);
    AbcBlock(Padded(m));
    CompressOne(INITIAL, Padded(m));
    HexOfDigest(m, CompressAll(INITIAL, Padded(m)), "90015098", "3cd24fb0", "d6963f7d", "28e17f72");
  }

  lemma LongDigits()
    ensures WordOfText("d174ab98") == Word(0x98ab74d1)
    ensures WordOfText("d277d9f5") == Word(0xf5d977d2)
    ensures WordOfText("a5611c2c") == Word(0x2c1c61a5)
    ensures WordOfText("9f419d9f") == Word(0x9f9d419f)
    ensures IsHex("d174ab98" + "d277d9f5" + "a5611c2c" + "9f419d9f")
  {}

  lemma Codes1()
    ensures ToByte(0x41) == Byte(0x41) && ToByte(0x42) == Byte(0x42) && ToByte(0x43) == Byte(0x43)
    ensures ToByte(0x44) == Byte(0x44) && ToByte(0x45) == Byte(0x45) && ToByte(0x46) == Byte(0x46)
    ensures ToByte(0x47) == Byte(0x47) && ToByte(0x48) == Byte(0x48) && ToByte(0x49) == Byte(0x49)
    ensures ToByte(0x4a) == Byte(0x4a) && ToByte(0x4b) == Byte(0x4b) && ToByte(0x4c) == Byte(0x4c)
    ensures ToByte(0x4d) == Byte(0x4d) && ToByte(0x4e) == Byte(0x4e) && ToByte(0x4f) == Byte(0x4f)
    ensures ToByte(0x50) == Byte(0x50)
  {}

  lemma LongText1()
    ensures Octets("ABCDEFGHIJKLMNOP") == [Byte(0x41), Byte(0x42), Byte(0x43), Byte(0x44), Byte(0x45), Byte(0x46),
      Byte(0x47), Byte(0x48), Byte(0x49), Byte(0x4a), Byte(0x4b), Byte(0x4c), Byte(0x4d), Byte(0x4e), Byte(0x4f),
      Byte(0x50)]
  {
    Codes1();
    hide ToByte;
  }

  lemma LongOrs1()
    ensures Or(Byte(0x41), Byte(0x42), Byte(0x43), Byte(0x44)) == Word(0x44434241)
    ensures Or(Byte(0x45), Byte(0x46), Byte(0x47), Byte(0x48)) == Word(0x48474645)
    ensures Or(Byte(0x49), Byte(0x4a), Byte(0x4b), Byte(0x4c)) == Word(0x4c4b4a49)
    ensures Or(Byte(0x4d), Byte(0x4e), Byte(0x4f), Byte(0x50)) == Word(0x504f4e4d)
  {}

  lemma Codes2()
    ensures ToByte(0x51) == Byte(0x51) && ToByte(0x52) == Byte(0x52) && ToByte(0x53) == Byte(0x53)
    ensures ToByte(0x54) == Byte(0x54) && ToByte(0x55) == Byte(0x55) && ToByte(0x56) == Byte(0x56)
    ensures ToByte(0x57) == Byte(0x57) && ToByte(0x58) == Byte(0x58) && ToByte(0x59) == Byte(0x59)
    ensures ToByte(0x5a) == Byte(0x5a) && ToByte(0x61) == Byte(0x61) && ToByte(0x62) == Byte(0x62)
    ensures ToByte(0x63) == Byte(0x63) && ToByte(0x64) == Byte(0x64) && ToByte(0x65) == Byte(0x65)
    ensures ToByte(0x66) == Byte(0x66)
  {}

  lemma LongText2()
    ensures Octets("QRSTUVWXYZabcdef") == [Byte(0x51), Byte(0x52), Byte(0x53), Byte(0x54), Byte(0x55), Byte(0x56),
      Byte(0x57), Byte(0x58), Byte(0x59), Byte(0x5a), Byte(0x61), Byte(0x62), Byte(0x63), Byte(0x64), Byte(0x65),
      Byte(0x66)]
  {
    Codes2();
    hide ToByte;
  }

  lemma LongOrs2()
    ensures Or(Byte(0x51), Byte(0x52), Byte(0x53), Byte(0x54)) == Word(0x54535251)
    ensures Or(Byte(0x55), Byte(0x56), Byte(0x57), Byte(0x58)) == Word(0x58575655)
    ensures Or(Byte(0x59), Byte(0x5a), Byte(0x61), Byte(0x62)) == Word(0x62615a59)
    ensures Or(Byte(0x63), Byte(0x64), Byte(0x65), Byte(0x66)) == Word(0x66656463)
  {}

  lemma Codes3()
    ensures ToByte(0x67) == Byte(0x67) && ToByte(0x68) == Byte(0x68) && ToByte(0x69) == Byte(0x69)
    ensures ToByte(0x6a) == Byte(0x6a) && ToByte(0x6b) == Byte(0x6b) && ToByte(0x6c) == Byte(0x6c)
    ensures ToByte(0x6d) == Byte(0x6d) && ToByte(0x6e) == Byte(0x6e) && ToByte(0x6f) == Byte(0x6f)
    ensures ToByte(0x70) == Byte(0x70) && ToByte(0x71) == Byte(0x71) && ToByte(0x72) == Byte(0x72)
    ensures ToByte(0x73) == Byte(0x73) && ToByte(0x74) == Byte(0x74) && ToByte(0x75) == Byte(0x75)
    ensures ToByte(0x76) == Byte(0x76)
  {}

  lemma LongText3()
    ensures Octets("ghijklmnopqrstuv") == [Byte(0x67), Byte(0x68), Byte(0x69), Byte(0x6a), Byte(0x6b), Byte(0x6c),
      Byte(0x6d), Byte(0x6e), Byte(0x6f), Byte(0x70), Byte(0x71), Byte(0x72), Byte(0x73), Byte(0x74), Byte(0x75),
      Byte(0x76)]
  {
    Codes3();
    hide ToByte;
  }

  lemma LongOrs3()
    ensures Or(Byte(0x67), Byte(0x68), Byte(0x69), Byte(0x6a)) == Word(0x6a696867)
    ensures Or(Byte(0x6b), Byte(0x6c), Byte(0x6d), Byte(0x6e)) == Word(0x6e6d6c6b)
    ensures Or(Byte(0x6f), Byte(0x70), Byte(0x71), Byte(0x72)) == Word(0x7271706f)
    ensures Or(Byte(0x73), Byte(0x74), Byte(0x75), Byte(0x76)) == Word(0x76757473)
  {}

  lemma Codes4()
    ensures ToByte(0x77) == Byte(0x77) && ToByte(0x78) == Byte(0x78) && ToByte(0x79) == Byte(0x79)
    ensures ToByte(0x7a) == Byte(0x7a) && ToByte(0x30) == Byte(0x30) && ToByte(0x31) == Byte(0x31)
    ensures ToByte(0x32) == Byte(0x32) && ToByte(0x33) == Byte(0x33) && ToByte(0x34) == Byte(0x34)
    ensures ToByte(0x35) == Byte(0x35) && ToByte(0x36) == Byte(0x36) && ToByte(0x37) == Byte(0x37)
    ensures ToByte(0x38) == Byte(0x38) && ToByte(0x39) == Byte(0x39)
  {}

  lemma LongText4()
    ensures Octets("wxyz0123456789") == [Byte(0x77), Byte(0x78), Byte(0x79), Byte(0x7a), Byte(0x30), Byte(0x31),
      Byte(0x32), Byte(0x33), Byte(0x34), Byte(0x35), Byte(0x36), Byte(0x37), Byte(0x38), Byte(0x39)]
  {
    Codes4();
    hide ToByte;
  }

  lemma LongOrs4()
    ensures Or(Byte(0x77), Byte(0x78), Byte(0x79), Byte(0x7a)) == Word(0x7a797877)
    ensures Or(Byte(0x30), Byte(0x31), Byte(0x32), Byte(0x33)) == Word(0x33323130)
    ensures Or(Byte(0x34), Byte(0x35), Byte(0x36), Byte(0x37)) == Word(0x37363534)
    ensures Or(Byte(0x38), Byte(0x39), Byte(0x80), Byte(0x00)) == Word(0x00803938)
  {}

  lemma LongParts(m: seq<Byte>)
    requires m == Octets("ABCDEFGHIJKLMNOP" + "QRSTUVWXYZabcdef" + "ghijklmnopqrstuv" + "wxyz0123456789")
    ensures Front(m)[0..16] == Octets("ABCDEFGHIJKLMNOP")
    ensures Front(m)[16..32] == Octets("QRSTUVWXYZabcdef")
    ensures Front(m)[32..48] == Octets("ghijklmnopqrstuv")
    ensures Front(m)[48..64] == Octets("wxyz0123456789") + [Byte(0x80), Byte(0x00)]
    ensures |m| == 62 && |Front(m)| == 120
  {
    FrontBytes(m);
    hide Octets, Front, Zeros;
    var a, b, c, d := "ABCDEFGHIJKLMNOP", "QRSTUVWXYZabcdef", "ghijklmnopqrstuv", "wxyz0123456789";
    OctetsConcat(a + b + c, d);
    OctetsConcat(a + b, c);
    OctetsConcat(a, b);
  }

  lemma LongWords(m: seq<Byte>)
    requires m == Octets("ABCDEFGHIJKLMNOP" + "QRSTUVWXYZabcdef" + "ghijklmnopqrstuv" + "wxyz0123456789")
    ensures Words(Front(m))[0..4] == [Word(0x44434241), Word(0x48474645), Word(0x4c4b4a49), Word(0x504f4e4d)]
    ensures Words(Front(m))[4..8] == [Word(0x54535251), Word(0x58575655), Word(0x62615a59), Word(0x66656463)]
    ensures Words(Front(m))[8..12] == [Word(0x6a696867), Word(0x6e6d6c6b), Word(0x7271706f), Word(0x76757473)]
    ensures Words(Front(m))[12..16] == [Word(0x7a797877), Word(0x33323130), Word(0x37363534), Word(0x00803938)]
    ensures |m| == 62 && |Front(m)| == 120
  {
    hide *;
    LongParts(m);
    LongText1();
    LongOrs1();
    Quarter(Front(m), 0, Octets("ABCDEFGHIJKLMNOP"));
    LongText2();
    LongOrs2();
    Quarter(Front(m), 4, Octets("QRSTUVWXYZabcdef"));
    LongText3();
    LongOrs3();
    Quarter(Front(m), 8, Octets("ghijklmnopqrstuv"));
    LongText4();
    LongOrs4();
    Quarter(Front(m), 12, Octets("wxyz0123456789") + [Byte(0x80), Byte(0x00)]);
  }

  lemma LongBlocks(m: seq<Byte>)
    requires m == Octets("ABCDEFGHIJKLMNOP" + "QRSTUVWXYZabcdef" + "ghijklmnopqrstuv" + "wxyz0123456789")
    ensures |Padded(m)| == 128
    ensures Words(Padded(m)[..64]) == [Word(0x44434241), Word(0x48474645), Word(0x4c4b4a49), Word(0x504f4e4d),
      Word(0x54535251), Word(0x58575655), Word(0x62615a59), Word(0x66656463), Word(0x6a696867), Word(0x6e6d6c6b),
      Word(0x7271706f), Word(0x76757473), Word(0x7a797877), Word(0x33323130), Word(0x37363534), Word(0x00803938)]
    ensures Words(Padded(m)[64..]) == [Word(0x00000000), Word(0x00000000), Word(0x00000000), Word(0x00000000),
      Word(0x00000000), Word(0x00000000), Word(0x00000000), Word(0x00000000), Word(0x00000000), Word(0x00000000),
      Word(0x00000000), Word(0x00000000), Word(0x00000000), Word(0x00000000), Word(0x000001f0), Word(0x00000000)]
  {
    hide *;
    LongWords(m);
    ShortLengths();
    PaddedWords(m);
    ZeroWords(m);
    var p := Padded(m);
    assert |p| == 128;
    var ws, us, vs := Words(Front(m)), Words(p[..64]), Words(p[64..]);
    assert |us| == 16 && |ws| == 30;
    assert p == p[..64] + p[64..];
    WordsConcat(p[..64], p[64..]);
    assert us + vs == ws + [Word(496), Word(0)];
    assert us == (us + vs)[..16] && vs == (us + vs)[16..];
    assert ws[..16] == ws[0..4] + ws[4..8] + ws[8..12] + ws[12..16];
  }

  lemma DigestOfLong()
    ensures Hex(Digest(Octets("ABCDEFGHIJKLMNOP" + "QRSTUVWXYZabcdef" + "ghijklmnopqrstuv" + "wxyz0123456789")))
         == "d174ab98d277d9f5a5611c2c9f419d9f"
  {
    LongDigits();
    hide *;
    var m := Octets("ABCDEFGHIJKLMNOP" + "QRSTUVWXYZabcdef" + "ghijklmnopqrstuv" + "wxyz0123456789");
    LongBlocks(m);
    var p := Padded(m);
    FirstBlock(p[..64]);
    CompressOne(INITIAL, p[..64]);
    SecondBlock(CompressAll(INITIAL, p[..64]), p[64..]);
    CompressAllAppend(INITIAL, p[..64], p[64..]);
    assert p == p[..64] + p[64..];
    HexOfDigest(m, CompressAll(INITIAL, p), "d174ab98", "d277d9f5", "a5611c2c", "9f419d9f");
  }

  // ----- the object gives these values

  method Md5OfAbc() returns (text: string)
    ensures text == "900150983cd24fb0d6963f7d28e17f72"
  {
    hide *;
    ShortTexts();
    DigestOfAbc();
    text := Md5Text(Octets("abc"));
  }

  /** The long message, cut in two away from the boundary of its blocks. */
  method Md5OfChunks() returns (text: string)
    ensures text == "d174ab98d277d9f5a5611c2c9f419d9f"
  {
    hide *;
    var a, b := "ABCDEFGHIJKLMNOP" + "QRSTUVWXYZabcdef" + "ghijklmnopqrstuv", "wxyz0123456789";
    ShortTexts();
    TwoChunks(Octets(a), Octets(b));
    OctetsConcat(a, b);
    DigestOfLong();
    text := DigestOfChunks([Octets(a), Octets(b)]);
  }

  lemma ShortTexts()
    ensures forall n: nat :: n <= 64 ==> UpdateFits(0, n)
  {}

  lemma TwoChunks(a: seq<Byte>, b: seq<Byte>)
    requires |a| <= 64 && |b| <= 64
    ensures Concat([a, b]) == a + b && ChunksFit([a, b])
  {
    assert [a, b][..1] == [a] && [a, b][..0] == [] && [a][..0] == [];
    assert Concat([a]) == a;
  }
}
