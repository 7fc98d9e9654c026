// The test vectors of RFC 8439 for the quarter round (section 2.1.1) and for the block function (section 2.3.2),
// computed on bit vectors. They fix constants, rotations, word order and the number of rounds.
module KnownAnswers {
  import opened Bits
  import opened Bytes
  import opened BitVectors
  import opened ChaCha20Spec
  import ChaCha20
  import Cutting
  import opened Sorting

  /** Four words of a quarter round. */
  datatype Q = Q(a: bv32, b: bv32, c: bv32, d: bv32)

  function PlusB(b: bv32, c: bv32): bv32 { b + c }

  function QuarterB(q: Q): Q
  {
    var a1 := PlusB(q.a, q.b);
    var d1 := Rotate16(XorB(q.d, a1));
    var c1 := PlusB(q.c, d1);
    var b1 := Rotate12(XorB(q.b, c1));
    var a2 := PlusB(a1, b1);
    var d2 := Rotate8(XorB(d1, a2));
    var c2 := PlusB(c1, d2);
    Q(a2, Rotate7(XorB(b1, c2)), c2, d2)
  }

  /** The four sums of a quarter round are what they should be. */
  predicate Sums(q: Q)
  {
    var a1 := PlusB(q.a, q.b);
    var d1 := Rotate16(XorB(q.d, a1));
    var c1 := PlusB(q.c, d1);
    var b1 := Rotate12(XorB(q.b, c1));
    var a2 := PlusB(a1, b1);
    var d2 := Rotate8(XorB(d1, a2));
    IsSum(q.a, q.b, a1) && IsSum(q.c, d1, c1) && IsSum(a1, b1, a2) && IsSum(c1, d2, PlusB(c1, d2))
  }

  lemma QuarterVal(q: Q)
    requires Sums(q)
    ensures var r := QuarterB(q);
      QuarterRound(Val(q.a), Val(q.b), Val(q.c), Val(q.d)) == (Val(r.a), Val(r.b), Val(r.c), Val(r.d))
  {
    var a1 := PlusB(q.a, q.b);
    var d1 := Rotate16(XorB(q.d, a1));
    var c1 := PlusB(q.c, d1);
    var b1 := Rotate12(XorB(q.b, c1));
    var a2 := PlusB(a1, b1);
    var d2 := Rotate8(XorB(d1, a2));
    var c2 := PlusB(c1, d2);
    hide Val, IsSum, PlusB, XorB, Rotate7, Rotate8, Rotate12, Rotate16, RotateLeft32, Xor32, Add32;
    AddVal(q.a, q.b, a1);
    XorRotate(q.d, a1);
    AddVal(q.c, d1, c1);
    XorRotate(q.b, c1);
    AddVal(a1, b1, a2);
    XorRotate(d1, a2);
    AddVal(c1, d2, c2);
    XorRotate(b1, c2);
  }

  lemma XorRotate(x: bv32, y: bv32)
    ensures var v, z := Xor32(Val(x), Val(y)), XorB(x, y);
      && RotateLeft32(v, 7) == Val(Rotate7(z)) && RotateLeft32(v, 8) == Val(Rotate8(z))
      && RotateLeft32(v, 12) == Val(Rotate12(z)) && RotateLeft32(v, 16) == Val(Rotate16(z))
  {
    hide Val, Rotate7, Rotate8, Rotate12, Rotate16, RotateLeft32, XorB, Xor32;
    XorVal(x, y);
    RotateVal(XorB(x, y));
  }

  /** Section 2.1.1. */
  lemma QuarterRoundAnswer()
    ensures QuarterRound(0x11111111, 0x01020304, 0x9b8d6f43, 0x01234567)
         == (0xea2a92f4, 0xcb1cf8ce, 0x4581472e, 0x5881c4bb)
  {
    var q, r := Q(0x11111111, 0x01020304, 0x9b8d6f43, 0x01234567), Q(0xea2a92f4, 0xcb1cf8ce, 0x4581472e, 0x5881c4bb);
    QuarterAnswerB();
    QuarterValues1();
    QuarterValues2();
    QuarterValues3();
    QuarterValues4();
    hide Val, QuarterB, Sums, QuarterRound;
    QuarterVal(q);
  }

  lemma QuarterAnswerB()
    ensures var q := Q(0x11111111, 0x01020304, 0x9b8d6f43, 0x01234567);
      Sums(q) && QuarterB(q) == Q(0xea2a92f4, 0xcb1cf8ce, 0x4581472e, 0x5881c4bb)
  {
  }

  lemma ValIs(b: bv32, v: u32)
    requires v == Octet(b) + 0x100 * Octet(b >> 8) + 0x1_0000 * Octet(b >> 16) + 0x100_0000 * Octet(b >> 24)
    ensures Val(b) == v
  {
    hide Val, Octet;
    OctetsVal(b);
  }

  lemma QuarterValues1()
    ensures Val(0x11111111) == 0x11111111 && Val(0x01020304) == 0x01020304
  {
    hide Val;
    ValIs(0x11111111, 0x11111111);
    ValIs(0x01020304, 0x01020304);
  }

  lemma QuarterValues2()
    ensures Val(0x9b8d6f43) == 0x9b8d6f43 && Val(0x01234567) == 0x01234567
  {
    hide Val;
    ValIs(0x9b8d6f43, 0x9b8d6f43);
    ValIs(0x01234567, 0x01234567);
  }

  lemma QuarterValues3()
    ensures Val(0xea2a92f4) == 0xea2a92f4 && Val(0xcb1cf8ce) == 0xcb1cf8ce
  {
    hide Val;
    ValIs(0xea2a92f4, 0xea2a92f4);
    ValIs(0xcb1cf8ce, 0xcb1cf8ce);
  }

  lemma QuarterValues4()
    ensures Val(0x4581472e) == 0x4581472e && Val(0x5881c4bb) == 0x5881c4bb
  {
    hide Val;
    ValIs(0x4581472e, 0x4581472e);
    ValIs(0x5881c4bb, 0x5881c4bb);
  }

  /** The sixteen words of a state. */
  datatype W = W(x0: bv32, x1: bv32, x2: bv32, x3: bv32, x4: bv32, x5: bv32, x6: bv32, x7: bv32,
                 x8: bv32, x9: bv32, x10: bv32, x11: bv32, x12: bv32, x13: bv32, x14: bv32, x15: bv32)

  function Vals4(a: bv32, b: bv32, c: bv32, d: bv32): (r: seq<u32>)
    ensures |r| == 4
  {
    [Val(a), Val(b), Val(c), Val(d)]
  }

  function Vals(s: W): State
  {
    Vals4(s.x0, s.x1, s.x2, s.x3) + Vals4(s.x4, s.x5, s.x6, s.x7)
    + Vals4(s.x8, s.x9, s.x10, s.x11) + Vals4(s.x12, s.x13, s.x14, s.x15)
  }

  lemma ValsWords(s: W)
    ensures Vals(s) == [Val(s.x0), Val(s.x1), Val(s.x2), Val(s.x3), Val(s.x4), Val(s.x5), Val(s.x6), Val(s.x7),
                        Val(s.x8), Val(s.x9), Val(s.x10), Val(s.x11), Val(s.x12), Val(s.x13), Val(s.x14), Val(s.x15)]
  {
    hide Val, Vals4;
    EightVals(s.x0, s.x1, s.x2, s.x3, s.x4, s.x5, s.x6, s.x7);
    EightVals(s.x8, s.x9, s.x10, s.x11, s.x12, s.x13, s.x14, s.x15);
    Cutting.Associative(Vals4(s.x0, s.x1, s.x2, s.x3) + Vals4(s.x4, s.x5, s.x6, s.x7),
                        Vals4(s.x8, s.x9, s.x10, s.x11), Vals4(s.x12, s.x13, s.x14, s.x15));
  }

  lemma EightVals(a: bv32, b: bv32, c: bv32, d: bv32, e: bv32, f: bv32, g: bv32, h: bv32)
    ensures Vals4(a, b, c, d) + Vals4(e, f, g, h) == [Val(a), Val(b), Val(c), Val(d), Val(e), Val(f), Val(g), Val(h)]
  {
    hide Val;
  }

  /** r is what the quarter round makes of q. */
  predicate Turns(q: Q, r: Q) { Sums(q) && QuarterB(q) == r }

  lemma TurnsVal(q: Q, r: Q)
    requires Turns(q, r)
    ensures QuarterRound(Val(q.a), Val(q.b), Val(q.c), Val(q.d)) == (Val(r.a), Val(r.b), Val(r.c), Val(r.d))
  {
    hide Val, Sums, QuarterB, QuarterRound;
    QuarterVal(q);
  }

  /** A column round takes s to t. */
  predicate Columns(s: W, t: W)
  {
    && Turns(Q(s.x0, s.x4, s.x8, s.x12), Q(t.x0, t.x4, t.x8, t.x12))
    && Turns(Q(s.x1, s.x5, s.x9, s.x13), Q(t.x1, t.x5, t.x9, t.x13))
    && Turns(Q(s.x2, s.x6, s.x10, s.x14), Q(t.x2, t.x6, t.x10, t.x14))
    && Turns(Q(s.x3, s.x7, s.x11, s.x15), Q(t.x3, t.x7, t.x11, t.x15))
  }

  /** A diagonal round takes s to t. */
  predicate Diagonals(s: W, t: W)
  {
    && Turns(Q(s.x0, s.x5, s.x10, s.x15), Q(t.x0, t.x5, t.x10, t.x15))
    && Turns(Q(s.x1, s.x6, s.x11, s.x12), Q(t.x1, t.x6, t.x11, t.x12))
    && Turns(Q(s.x2, s.x7, s.x8, s.x13), Q(t.x2, t.x7, t.x8, t.x13))
    && Turns(Q(s.x3, s.x4, s.x9, s.x14), Q(t.x3, t.x4, t.x9, t.x14))
  }

  lemma ColumnsVal(s: W, t: W)
    requires Columns(s, t)
    ensures ColumnRound(Vals(s)) == Vals(t)
  {
    hide Turns, Val, Vals, QuarterRound, ColumnRound;
    ValsWords(s);
    ValsWords(t);
    ChaCha20.ColumnRoundWords(Vals(s));
    TurnsVal(Q(s.x0, s.x4, s.x8, s.x12), Q(t.x0, t.x4, t.x8, t.x12));
    TurnsVal(Q(s.x1, s.x5, s.x9, s.x13), Q(t.x1, t.x5, t.x9, t.x13));
    TurnsVal(Q(s.x2, s.x6, s.x10, s.x14), Q(t.x2, t.x6, t.x10, t.x14));
    TurnsVal(Q(s.x3, s.x7, s.x11, s.x15), Q(t.x3, t.x7, t.x11, t.x15));
  }

  lemma DiagonalsVal(s: W, t: W)
    requires Diagonals(s, t)
    ensures DiagonalRound(Vals(s)) == Vals(t)
  {
    hide Turns, Val, Vals, QuarterRound, DiagonalRound;
    ValsWords(s);
    ValsWords(t);
    ChaCha20.DiagonalRoundWords(Vals(s));
    TurnsVal(Q(s.x0, s.x5, s.x10, s.x15), Q(t.x0, t.x5, t.x10, t.x15));
    TurnsVal(Q(s.x1, s.x6, s.x11, s.x12), Q(t.x1, t.x6, t.x11, t.x12));
    TurnsVal(Q(s.x2, s.x7, s.x8, s.x13), Q(t.x2, t.x7, t.x8, t.x13));
    TurnsVal(Q(s.x3, s.x4, s.x9, s.x14), Q(t.x3, t.x4, t.x9, t.x14));
  }

  // The state of section 2.3.2 after 0 to 10 double rounds, and after the column round of each (C1 to C10).

  const S0: W := W(0x61707865, 0x3320646e, 0x79622d32, 0x6b206574,
                 0x03020100, 0x07060504, 0x0b0a0908, 0x0f0e0d0c,
                 0x13121110, 0x17161514, 0x1b1a1918, 0x1f1e1d1c,
                 0x00000001, 0x09000000, 0x4a000000, 0x00000000)
  const S1: W := W(0xcd52e917, 0x85ab03b4, 0xb3457395, 0xf96de7dd,
                 0xc4b7cd22, 0x5c2e187a, 0xc95eb461, 0x316c801a,
                 0x7bf7d740, 0x7eddd644, 0xf1a1bdf5, 0x761246ca,
                 0x6b0d58a3, 0x6798471a, 0xd737f167, 0xf173888d)
  const S2: W := W(0xcf1a7584, 0x048927ec, 0x54051fda, 0xc244ff28,
                 0x901d2f40, 0x7974b81c, 0x378dcfb4, 0xcd47fd0e,
                 0x2dafb216, 0x27c89cd6, 0xcd3c9aa0, 0x79fc89c7,
                 0x10aef18d, 0x16218765, 0x68f76705, 0x04d6ee22)
  const S3: W := W(0x03a14032, 0x66b15927, 0x9d6b6b42, 0xb84c4109,
                 0xa7143ae0, 0xa09b33dd, 0xa5daaf88, 0x2fd91a73,
                 0xc90c6b18, 0x5a202413, 0xc20e01b6, 0x72cd6b74,
                 0xba35d777, 0xb360f1bf, 0x8178315b, 0x2cd11b1a)
  const S4: W := W(0x9a2d3589, 0x0b23fc4e, 0x40af3b6b, 0xceea8144,
                 0x0a1bffc6, 0x5e5993f7, 0x9904c2e7, 0x0d334718,
                 0xe46c6354, 0xc9503229, 0x04fef5aa, 0xf8933f72,
                 0x2687d476, 0x54e65231, 0x3594ffc5, 0x2b3bb2ca)
  const S5: W := W(0xc53318c5, 0xca325d96, 0x7e7d11cb, 0x3404e2ca,
                 0x26d7cf73, 0x6088d379, 0xc0f0e9bd, 0xe310cdb9,
                 0xae2ca8db, 0x42f67c72, 0x71669aca, 0x975c171d,
                 0x9e5ec228, 0x7d85a9f3, 0x201d0756, 0x63fa6953)
  const S6: W := W(0x04a3131a, 0x66176309, 0x0415bab1, 0x61b880a2,
                 0x36cc86c7, 0xbf8a4465, 0xf77dd720, 0xfc0bdc90,
                 0x07d13aca, 0xeb0be9af, 0x61599491, 0x918512dc,
                 0x33b6686d, 0x795cc671, 0xc0049972, 0xa0a81bde)
  const S7: W := W(0x9b70f51f, 0x7ea8ac11, 0x21e54da9, 0xca393b2f,
                 0x93b08686, 0x6a4c50ae, 0x19212a5a, 0x9b032958,
                 0xd839165e, 0x4c06e28a, 0xd3fde99e, 0x26acc13d,
                 0xa609f555, 0x2c246549, 0x95151853, 0x2c847a0d)
  const S8: W := W(0xca5c85dd, 0x93a4f90e, 0xd9f0df58, 0x26dd82dd,
                 0x982563f8, 0x712aa9ff, 0x279a61e8, 0x970f72bd,
                 0x1c25931a, 0x5180bb10, 0x779c27e7, 0x54077e08,
                 0xa9b751fb, 0x382f3ce2, 0x8db1757d, 0xcc38080b)
  const S9: W := W(0xb6b87de6, 0x9a016148, 0x93859815, 0x4915e6cc,
                 0xdc33c122, 0x98e18fa3, 0x5ffbe8fc, 0xf7154b8b,
                 0x28c1fcb3, 0xc4b38f9d, 0x83e2f5d7, 0x7d24b98b,
                 0x21078b22, 0xb193e7a3, 0xb2f49389, 0x6cde6026)
  const S10: W := W(0x837778ab, 0xe238d763, 0xa67ae21e, 0x5950bb2f,
                  0xc4f2d0c7, 0xfc62bb2f, 0x8fa018fc, 0x3f5ec7b7,
                  0x335271c2, 0xf29489f3, 0xeabda8fc, 0x82e46ebd,
                  0xd19c12b4, 0xb04e16de, 0x9e83d0cb, 0x4e3c50a2)

  const C1: W := W(0xabbaa25c, 0x1efa51ea, 0x7354fbdf, 0x83d2dc69,
                 0x3a465196, 0x1c7e64f6, 0xb12fb628, 0xf05b6976,
                 0x6b3ca454, 0x08eb14b1, 0xbf8a9ac9, 0xe444df3b,
                 0xdec62ed2, 0x8862cc77, 0x6e35b345, 0x52a647f1)
  const C2: W := W(0xe3e1111b, 0xa6291491, 0x5a82b80c, 0x4500fd45,
                 0xd65b5b5b, 0xf56af099, 0x4ccc8103, 0xc94d29e2,
                 0xe67aec54, 0xf7a52d82, 0xdb470914, 0xdfb40f1d,
                 0x7be81c0d, 0x1d92d0fd, 0x13139f8c, 0x7a26ecaa)
  const C3: W := W(0xa22695f2, 0xa908cf6c, 0xe6ae05b2, 0xfe0ff04b,
                 0x1ece4458, 0xe82b726f, 0x5a21ab90, 0x87698c64,
                 0xf2d36da6, 0xf4dab980, 0x7baf5573, 0xa78c270d,
                 0x6fda6bf7, 0x65a4b0ce, 0x25e6d76e, 0x1b7b11ec)
  const C4: W := W(0xfecd0838, 0x160ab468, 0x9a0ddf4e, 0xbac7154a,
                 0xcedf6624, 0xb11de6c4, 0xbd7810ef, 0xd22b5643,
                 0x1d8a33ea, 0x87dc1ca9, 0x89bd34a5, 0x5505ef62,
                 0xa818b852, 0xb100446a, 0x9c1d70b1, 0xa1d1befa)
  const C5: W := W(0x85e7824a, 0x4940cd9e, 0xfbe7684b, 0x7335d03d,
                 0x1c133ea1, 0xbba40b0f, 0x9413992a, 0xa4ab2040,
                 0xa3a66a86, 0xc0b4754f, 0x771b4ecb, 0x165151a1,
                 0xde008464, 0x34f0058b, 0x70846cfa, 0xa3271b09)
  const C6: W := W(0x9950b826, 0xcac7ccc6, 0x84a67673, 0xdb3109a6,
                 0x2121065a, 0xc12bdadb, 0xcae3acd1, 0x594616cb,
                 0x19078de2, 0x178ecc02, 0xe6adbdb2, 0x52a9d50e,
                 0x40ca72b3, 0x3b9bf852, 0x78690378, 0xe17d4902)
  const C7: W := W(0x57c5e6da, 0x35ce46a8, 0x0c041bb9, 0xfa91df79,
                 0x8e85d82f, 0xb4819d06, 0xb63be200, 0xacd221e4,
                 0x434b4749, 0x1d459c00, 0x111cfe2c, 0x55942604,
                 0x49ee03a6, 0xd11a5554, 0xa7202e04, 0x7d2215bc)
  const C8: W := W(0xc0b18aee, 0x087445ba, 0x36e52ad9, 0xa777426a,
                 0xdeb54e9c, 0x802c883b, 0x06e86889, 0x3c002680,
                 0xa82d65d4, 0x687f11eb, 0xe9d36207, 0x4242ddae,
                 0x4103c64e, 0x82816a91, 0xb584ca56, 0xfd0bd2b9)
  const C9: W := W(0x765c6e9c, 0x5ab09b11, 0x3ee7da04, 0x37c31203,
                 0x9046ecaa, 0x7b88d882, 0xb9b577dd, 0x156de7ed,
                 0x46fa091e, 0x5117e9b5, 0x862ff22b, 0xa3fcc7a6,
                 0x72a5aace, 0x5fa7f1c5, 0xda563e0a, 0x5263d7ca)
  const C10: W := W(0x8a07ff15, 0x0cadc51c, 0x017c8da9, 0x4afbe5df,
                  0x913768fe, 0x442a0c0c, 0x598fe3bb, 0x47d18828,
                  0x0a39aedc, 0xc1428029, 0x7b48135f, 0x5a5f1098,
                  0x2d4cfe3e, 0xe5466d1b, 0xe4ccdc13, 0x8ac92a18)

  lemma Columns1() ensures Columns(S0, C1) {}
  lemma Diagonals1() ensures Diagonals(C1, S1) {}
  lemma Columns2() ensures Columns(S1, C2) {}
  lemma Diagonals2() ensures Diagonals(C2, S2) {}
  lemma Columns3() ensures Columns(S2, C3) {}
  lemma Diagonals3() ensures Diagonals(C3, S3) {}
  lemma Columns4() ensures Columns(S3, C4) {}
  lemma Diagonals4() ensures Diagonals(C4, S4) {}
  lemma Columns5() ensures Columns(S4, C5) {}
  lemma Diagonals5() ensures Diagonals(C5, S5) {}
  lemma Columns6() ensures Columns(S5, C6) {}
  lemma Diagonals6() ensures Diagonals(C6, S6) {}
  lemma Columns7() ensures Columns(S6, C7) {}
  lemma Diagonals7() ensures Diagonals(C7, S7) {}
  lemma Columns8() ensures Columns(S7, C8) {}
  lemma Diagonals8() ensures Diagonals(C8, S8) {}
  lemma Columns9() ensures Columns(S8, C9) {}
  lemma Diagonals9() ensures Diagonals(C9, S9) {}
  lemma Columns10() ensures Columns(S9, C10) {}
  lemma Diagonals10() ensures Diagonals(C10, S10) {}

  lemma OneMore(n: nat, s: W, c: W, t: W)
    requires InnerBlocks(Vals(S0), n) == Vals(s) && Columns(s, c) && Diagonals(c, t)
    ensures InnerBlocks(Vals(S0), n + 1) == Vals(t)
  {
    hide Vals, Columns, Diagonals;
    ColumnsVal(s, c);
    DiagonalsVal(c, t);
  }

  lemma NoRounds(s: State)
    ensures InnerBlocks(s, 0) == s
  {
  }

  lemma TenDoubleRounds()
    ensures InnerBlocks(Vals(S0), 10) == Vals(S10)
  {
    hide *;
    NoRounds(Vals(S0));
    Columns1();
    Diagonals1();
    OneMore(0, S0, C1, S1);
    Columns2();
    Diagonals2();
    OneMore(1, S1, C2, S2);
    Columns3();
    Diagonals3();
    OneMore(2, S2, C3, S3);
    Columns4();
    Diagonals4();
    OneMore(3, S3, C4, S4);
    Columns5();
    Diagonals5();
    OneMore(4, S4, C5, S5);
    Columns6();
    Diagonals6();
    OneMore(5, S5, C6, S6);
    Columns7();
    Diagonals7();
    OneMore(6, S6, C7, S7);
    Columns8();
    Diagonals8();
    OneMore(7, S7, C8, S8);
    Columns9();
    Diagonals9();
    OneMore(8, S8, C9, S9);
    Columns10();
    Diagonals10();
    OneMore(9, S9, C10, S10);
  }

  // Words and bytes.

  lemma {:induction false} SerializeAppend(u: seq<u32>, v: seq<u32>)
    ensures Serialize(u + v) == Serialize(u) + Serialize(v)
  {
    hide ToLE;
    if u == [] {
      assert u + v == v;
    } else {
      SerializeAppend(u[1..], v);
      assert (u + v)[0] == u[0] && (u + v)[1..] == u[1..] + v;
    }
  }

  lemma SerializeFour(a: u32, b: u32, c: u32, d: u32)
    ensures Serialize([a, b, c, d]) == ToLE(a, 4) + ToLE(b, 4) + ToLE(c, 4) + ToLE(d, 4)
  {
    hide ToLE;
    assert [a, b, c, d][1..] == [b, c, d] && [b, c, d][1..] == [c, d] && [c, d][1..] == [d];
    assert Serialize([d]) == ToLE(d, 4) + [];
    assert Serialize([c, d]) == ToLE(c, 4) + Serialize([d]);
    assert Serialize([b, c, d]) == ToLE(b, 4) + Serialize([c, d]);
  }

  function Row(a: bv32, b: bv32, c: bv32, d: bv32): seq<byte> { Octets(a) + Octets(b) + Octets(c) + Octets(d) }

  lemma SerializeRow(a: bv32, b: bv32, c: bv32, d: bv32)
    ensures Serialize(Vals4(a, b, c, d)) == Row(a, b, c, d) && Words(Row(a, b, c, d)) == Vals4(a, b, c, d)
  {
    hide Val, Octets, ToLE, Words, Serialize;
    SerializeFour(Val(a), Val(b), Val(c), Val(d));
    OctetsVal(a);
    OctetsVal(b);
    OctetsVal(c);
    OctetsVal(d);
    WordsOfSerialize([Val(a), Val(b), Val(c), Val(d)]);
  }

  /** The constants spell their text, least significant byte first. */
  lemma ConstantsSpell()
    ensures Serialize([J0, J1, J2, J3]) == Ascii("expand 32-byte k")
  {
    hide ToLE, Serialize;
    SerializeFour(J0, J1, J2, J3);
    FourOctets(0x65, 0x78, 0x70, 0x61);
    FourOctets(0x6e, 0x64, 0x20, 0x33);
    FourOctets(0x32, 0x2d, 0x62, 0x79);
    FourOctets(0x74, 0x65, 0x20, 0x6b);
  }

  const KEY: seq<byte> :=
    [0x00, 0x01, 0x02, 0x03, 0x04, 0x05, 0x06, 0x07, 0x08, 0x09, 0x0a, 0x0b, 0x0c, 0x0d, 0x0e, 0x0f]
    + [0x10, 0x11, 0x12, 0x13, 0x14, 0x15, 0x16, 0x17, 0x18, 0x19, 0x1a, 0x1b, 0x1c, 0x1d, 0x1e, 0x1f]
  const NONCE: seq<byte> := [0x00, 0x00, 0x00, 0x09, 0x00, 0x00, 0x00, 0x4a, 0x00, 0x00, 0x00, 0x00]
  const BLOCK: seq<byte> :=
    [0x10, 0xf1, 0xe7, 0xe4, 0xd1, 0x3b, 0x59, 0x15, 0x50, 0x0f, 0xdd, 0x1f, 0xa3, 0x20, 0x71, 0xc4]
    + [0xc7, 0xd1, 0xf4, 0xc7, 0x33, 0xc0, 0x68, 0x03, 0x04, 0x22, 0xaa, 0x9a, 0xc3, 0xd4, 0x6c, 0x4e]
    + [0xd2, 0x82, 0x64, 0x46, 0x07, 0x9f, 0xaa, 0x09, 0x14, 0xc2, 0xd7, 0x05, 0xd9, 0x8b, 0x02, 0xa2]
    + [0xb5, 0x12, 0x9c, 0xd1, 0xde, 0x16, 0x4e, 0xb9, 0xcb, 0xd0, 0x83, 0xe8, 0xa2, 0x50, 0x3c, 0x4e]

  lemma RowNonce()
    ensures Row(0x00000001, 0x09000000, 0x4a000000, 0x00000000)
         == [0x01, 0x00, 0x00, 0x00, 0x00, 0x00, 0x00, 0x09, 0x00, 0x00, 0x00, 0x4a, 0x00, 0x00, 0x00, 0x00]
  {
  }

  lemma RowJ()
    ensures Row(0x61707865, 0x3320646e, 0x79622d32, 0x6b206574)
         == [0x65, 0x78, 0x70, 0x61, 0x6e, 0x64, 0x20, 0x33, 0x32, 0x2d, 0x62, 0x79, 0x74, 0x65, 0x20, 0x6b]
  {
  }

  lemma RowKey1()
    ensures Row(0x03020100, 0x07060504, 0x0b0a0908, 0x0f0e0d0c)
         == [0x00, 0x01, 0x02, 0x03, 0x04, 0x05, 0x06, 0x07, 0x08, 0x09, 0x0a, 0x0b, 0x0c, 0x0d, 0x0e, 0x0f]
  {
  }

  lemma RowKey2()
    ensures Row(0x13121110, 0x17161514, 0x1b1a1918, 0x1f1e1d1c)
         == [0x10, 0x11, 0x12, 0x13, 0x14, 0x15, 0x16, 0x17, 0x18, 0x19, 0x1a, 0x1b, 0x1c, 0x1d, 0x1e, 0x1f]
  {
  }

  lemma RowOut0()
    ensures Row(0xe4e7f110, 0x15593bd1, 0x1fdd0f50, 0xc47120a3)
         == [0x10, 0xf1, 0xe7, 0xe4, 0xd1, 0x3b, 0x59, 0x15, 0x50, 0x0f, 0xdd, 0x1f, 0xa3, 0x20, 0x71, 0xc4]
  {
  }

  lemma RowOut1()
    ensures Row(0xc7f4d1c7, 0x0368c033, 0x9aaa2204, 0x4e6cd4c3)
         == [0xc7, 0xd1, 0xf4, 0xc7, 0x33, 0xc0, 0x68, 0x03, 0x04, 0x22, 0xaa, 0x9a, 0xc3, 0xd4, 0x6c, 0x4e]
  {
  }

  lemma RowOut2()
    ensures Row(0x466482d2, 0x09aa9f07, 0x05d7c214, 0xa2028bd9)
         == [0xd2, 0x82, 0x64, 0x46, 0x07, 0x9f, 0xaa, 0x09, 0x14, 0xc2, 0xd7, 0x05, 0xd9, 0x8b, 0x02, 0xa2]
  {
  }

  lemma RowOut3()
    ensures Row(0xd19c12b5, 0xb94e16de, 0xe883d0cb, 0x4e3c50a2)
         == [0xb5, 0x12, 0x9c, 0xd1, 0xde, 0x16, 0x4e, 0xb9, 0xcb, 0xd0, 0x83, 0xe8, 0xa2, 0x50, 0x3c, 0x4e]
  {
  }

  lemma SerializeVals(s: W)
    ensures Serialize(Vals(s)) == Row(s.x0, s.x1, s.x2, s.x3) + Row(s.x4, s.x5, s.x6, s.x7)
                                + Row(s.x8, s.x9, s.x10, s.x11) + Row(s.x12, s.x13, s.x14, s.x15)
  {
    hide Vals4, Row, Serialize;
    var r0, r1 := Vals4(s.x0, s.x1, s.x2, s.x3), Vals4(s.x4, s.x5, s.x6, s.x7);
    var r2, r3 := Vals4(s.x8, s.x9, s.x10, s.x11), Vals4(s.x12, s.x13, s.x14, s.x15);
    SerializeRow(s.x0, s.x1, s.x2, s.x3);
    SerializeRow(s.x4, s.x5, s.x6, s.x7);
    SerializeRow(s.x8, s.x9, s.x10, s.x11);
    SerializeRow(s.x12, s.x13, s.x14, s.x15);
    SerializeAppend(r0, r1);
    SerializeAppend(r0 + r1, r2);
    SerializeAppend(r0 + r1 + r2, r3);
  }

  const OUT: W := W(0xe4e7f110, 0x15593bd1, 0x1fdd0f50, 0xc47120a3,
                 0xc7f4d1c7, 0x0368c033, 0x9aaa2204, 0x4e6cd4c3,
                 0x466482d2, 0x09aa9f07, 0x05d7c214, 0xa2028bd9,
                 0xd19c12b5, 0xb94e16de, 0xe883d0cb, 0x4e3c50a2)

  lemma BlockBytes()
    ensures Serialize(Vals(OUT)) == BLOCK
  {
    hide Row, Vals, Serialize;
    SerializeVals(OUT);
    RowOut0();
    RowOut1();
    RowOut2();
    RowOut3();
  }

  /** Each word of t is the sum of those of s and u. */
  predicate AllSums(s: W, u: W, t: W)
  {
    && IsSum(s.x0, u.x0, t.x0) && IsSum(s.x1, u.x1, t.x1) && IsSum(s.x2, u.x2, t.x2) && IsSum(s.x3, u.x3, t.x3)
    && IsSum(s.x4, u.x4, t.x4) && IsSum(s.x5, u.x5, t.x5) && IsSum(s.x6, u.x6, t.x6) && IsSum(s.x7, u.x7, t.x7)
    && IsSum(s.x8, u.x8, t.x8) && IsSum(s.x9, u.x9, t.x9) && IsSum(s.x10, u.x10, t.x10)
    && IsSum(s.x11, u.x11, t.x11) && IsSum(s.x12, u.x12, t.x12) && IsSum(s.x13, u.x13, t.x13)
    && IsSum(s.x14, u.x14, t.x14) && IsSum(s.x15, u.x15, t.x15)
  }

  lemma Added() ensures AllSums(S10, S0, OUT) {}

  function AddRows(x: seq<u32>, y: seq<u32>): seq<u32>
    requires |x| == |y|
  {
    seq(|x|, i requires 0 <= i < |x| => Add32(x[i], y[i]))
  }

  lemma AddRow(a: bv32, b: bv32, c: bv32, d: bv32, a': bv32, b': bv32, c': bv32, d': bv32,
               s: bv32, t: bv32, u: bv32, v: bv32)
    requires IsSum(a, a', s) && IsSum(b, b', t) && IsSum(c, c', u) && IsSum(d, d', v)
    ensures AddRows(Vals4(a, b, c, d), Vals4(a', b', c', d')) == Vals4(s, t, u, v)
  {
    hide Val, IsSum, Add32;
    AddVal(a, a', s);
    AddVal(b, b', t);
    AddVal(c, c', u);
    AddVal(d, d', v);
  }

  lemma AddRowsAppend(x: seq<u32>, y: seq<u32>, x': seq<u32>, y': seq<u32>)
    requires |x| == |y| && |x'| == |y'|
    ensures AddRows(x + x', y + y') == AddRows(x, y) + AddRows(x', y')
  {
  }

  lemma AddStatesVal(s: W, u: W, t: W)
    requires AllSums(s, u, t)
    ensures AddStates(Vals(s), Vals(u)) == Vals(t)
  {
    hide Vals4, IsSum, AddRows;
    AddRow(s.x0, s.x1, s.x2, s.x3, u.x0, u.x1, u.x2, u.x3, t.x0, t.x1, t.x2, t.x3);
    AddRow(s.x4, s.x5, s.x6, s.x7, u.x4, u.x5, u.x6, u.x7, t.x4, t.x5, t.x6, t.x7);
    AddRow(s.x8, s.x9, s.x10, s.x11, u.x8, u.x9, u.x10, u.x11, t.x8, t.x9, t.x10, t.x11);
    AddRow(s.x12, s.x13, s.x14, s.x15, u.x12, u.x13, u.x14, u.x15, t.x12, t.x13, t.x14, t.x15);
    var r0, r1 := Vals4(s.x0, s.x1, s.x2, s.x3), Vals4(s.x4, s.x5, s.x6, s.x7);
    var r2, r3 := Vals4(s.x8, s.x9, s.x10, s.x11), Vals4(s.x12, s.x13, s.x14, s.x15);
    var q0, q1 := Vals4(u.x0, u.x1, u.x2, u.x3), Vals4(u.x4, u.x5, u.x6, u.x7);
    var q2, q3 := Vals4(u.x8, u.x9, u.x10, u.x11), Vals4(u.x12, u.x13, u.x14, u.x15);
    AddRowsAppend(r0, q0, r1, q1);
    AddRowsAppend(r0 + r1, q0 + q1, r2, q2);
    AddRowsAppend(r0 + r1 + r2, q0 + q1 + q2, r3, q3);
    AddStatesRows(Vals(s), Vals(u));
  }

  lemma AddStatesRows(x: State, y: State)
    ensures AddStates(x, y) == AddRows(x, y)
  {
  }

  /** The key, counter and nonce of section 2.3.2 as words. */
  lemma StartOfAnswer()
    ensures InitialState(Words(KEY), 1, Words(NONCE)) == Vals(S0)
  {
    hide Vals4, Row, Words, Serialize;
    var r0, r1 := Vals4(S0.x0, S0.x1, S0.x2, S0.x3), Vals4(S0.x4, S0.x5, S0.x6, S0.x7);
    var r2, r3 := Vals4(S0.x8, S0.x9, S0.x10, S0.x11), Vals4(S0.x12, S0.x13, S0.x14, S0.x15);
    ConstantsSpell();
    SerializeRow(S0.x0, S0.x1, S0.x2, S0.x3);
    RowJ();
    TextBytes();
    WordsOfSerialize([J0, J1, J2, J3]);
    SerializeRow(S0.x4, S0.x5, S0.x6, S0.x7);
    SerializeRow(S0.x8, S0.x9, S0.x10, S0.x11);
    RowKey1();
    RowKey2();
    SerializeAppend(r1, r2);
    WordsOfSerialize(r1 + r2);
    SerializeRow(S0.x12, S0.x13, S0.x14, S0.x15);
    RowNonce();
    NonceBytes();
    FirstWord(NONCE);
    Joined(r0, r1, r2, Words(NONCE));
  }

  lemma NonceBytes()
    ensures [1, 0, 0, 0] + NONCE == [1, 0, 0, 0, 0, 0, 0, 9, 0, 0, 0, 0x4a, 0, 0, 0, 0]
  {
  }

  lemma Joined(a: seq<u32>, b: seq<u32>, c: seq<u32>, d: seq<u32>)
    ensures a + (b + c) + [1] + d == a + b + c + ([1] + d)
  {
  }

  lemma TextBytes()
    ensures Ascii("expand 32-byte k")
         == [0x65, 0x78, 0x70, 0x61, 0x6e, 0x64, 0x20, 0x33, 0x32, 0x2d, 0x62, 0x79, 0x74, 0x65, 0x20, 0x6b]
  {
  }

  lemma FirstWord(rest: seq<byte>)
    requires |rest| == 12
    ensures Words([1, 0, 0, 0] + rest) == [1] + Words(rest)
  {
    var s: seq<byte> := [1, 0, 0, 0];
    hide Uint32, Words;
    assert (s + rest)[..4] == s && (s + rest)[4..] == rest;
    WordsFirst(s + rest);
    OneWord();
  }

  lemma OneWord()
    ensures Uint32([1, 0, 0, 0]) == 1
  {
    hide LE, ToLE, Pow2;
    FourOctets(1, 0, 0, 0);
    PowersOfTwo();
    LEofToLE(1, 4);
  }

  lemma WordsFirst(s: seq<byte>)
    requires |s| % 4 == 0 && s != []
    ensures Words(s) == [Uint32(s[..4])] + Words(s[4..])
  {
    hide LE;
  }

  /** Section 2.3.2: the block of key 00 01 .. 1f, counter 1 and that nonce. */
  lemma BlockAnswer()
    ensures Block(Words(KEY), 1, Words(NONCE)) == BLOCK
  {
    hide Vals, InnerBlocks, Serialize, AddStates, Words, AllSums;
    StartOfAnswer();
    TenDoubleRounds();
    Added();
    AddStatesVal(S10, S0, OUT);
    BlockBytes();
  }

}
