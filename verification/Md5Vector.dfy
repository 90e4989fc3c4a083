/** The test value of RFC 1321 section A.5 for the empty message, computed operation by operation. */
module Md5Vector {
  import opened Bytes
  import opened Md5Spec
  import opened Md5Steps

  // The auxiliary functions: every bit of the result comes from that bit of the arguments.

  lemma FBitByBit(x: word, y: word, z: word, m: word)
    ensures F(x & m, y & m, z & m) & m == F(x, y, z) & m
  {
    calc {
      F(x & m, y & m, z & m) & m;
      (((x & m) & (y & m)) | (!(x & m) & (z & m))) & m;
      ((x & y) | (!x & z)) & m;
      F(x, y, z) & m;
    }
  }

  lemma GBitByBit(x: word, y: word, z: word, m: word)
    ensures G(x & m, y & m, z & m) & m == G(x, y, z) & m
  {
    calc {
      G(x & m, y & m, z & m) & m;
      (((x & m) & (z & m)) | ((y & m) & !(z & m))) & m;
      ((x & z) | (y & !z)) & m;
      G(x, y, z) & m;
    }
  }

  lemma IBitByBit(x: word, y: word, z: word, m: word)
    ensures I(x & m, y & m, z & m) & m == I(x, y, z) & m
  {
    calc {
      I(x & m, y & m, z & m) & m;
      ((y & m) ^ ((x & m) | !(z & m))) & m;
      (y ^ (x | !z)) & m;
      I(x, y, z) & m;
    }
  }

  /** F takes y or z by x, G takes y or x by z, and I is not y or x with y by z. */
  lemma ChoicesAre(x: word, y: word, z: word)
    ensures F(0, y, z) == z && F(0xffffffff, y, z) == y
    ensures G(x, y, 0) == y && G(x, y, 0xffffffff) == x
    ensures I(x, y, 0) == !y && I(x, y, 0xffffffff) == y ^ x
  {
  }

  /** A bit changed in any argument is changed in H, and H of nothing is nothing. */
  lemma HIsParity(x: word, y: word, z: word, m: word)
    ensures H(x ^ m, y, z) == H(x, y, z) ^ m
    ensures H(x, y ^ m, z) == H(x, y, z) ^ m
    ensures H(x, y, z ^ m) == H(x, y, z) ^ m
    ensures H(0, 0, 0) == 0
  {
    FirstBits(x, y, z, m);
    SecondBits(x, y, z, m);
    LastBits(x, y, z, m);
  }

  lemma FirstBits(x: word, y: word, z: word, m: word)
    ensures H(x ^ m, y, z) == H(x, y, z) ^ m
  {
    calc {
      H(x ^ m, y, z);
      (x ^ m) ^ y ^ z;
      (x ^ y ^ z) ^ m;
      H(x, y, z) ^ m;
    }
  }

  lemma SecondBits(x: word, y: word, z: word, m: word)
    ensures H(x, y ^ m, z) == H(x, y, z) ^ m
  {
    calc {
      H(x, y ^ m, z);
      x ^ (y ^ m) ^ z;
      (x ^ y ^ z) ^ m;
      H(x, y, z) ^ m;
    }
  }

  lemma LastBits(x: word, y: word, z: word, m: word)
    ensures H(x, y, z ^ m) == H(x, y, z) ^ m
  {
    calc {
      H(x, y, z ^ m);
      x ^ y ^ (z ^ m);
      (x ^ y ^ z) ^ m;
      H(x, y, z) ^ m;
    }
  }

  // The block that is the padded empty message.

  function EmptyBlock(): seq<byte> { [0x80] + Zeros(63) }

  lemma NothingPadded()
    ensures [] + Padding(0) == EmptyBlock()
  {
    assert LittleEndian(0, 4) == Zeros(4);
    assert LengthField(0) == Zeros(8);
  }

  lemma EmptyWords()
    ensures Words(EmptyBlock())[0] == 0x80
    ensures forall k :: 1 <= k < 16 ==> Words(EmptyBlock())[k] == 0
  {
    assert WordOf(0x80, 0, 0, 0) == 0x80 && WordOf(0, 0, 0, 0) == 0;
  }

  /** One operation on given values: sum by sum, turn, and last sum. */
  lemma Next(w: seq<word>, i: nat, r: Regs, mix: word, x: word, s1: word, s2: word, s3: word, turned: word, last: word)
    requires |w| == 16 && i < 64 && Operations(w, INITIAL, i) == r
    requires Mix(i, r.b, r.c, r.d) == mix && w[WordIndex(i)] == x
    requires Plus(r.a, mix) == s1 && Plus(s1, x) == s2 && Plus(s2, T(i)) == s3
    requires Rotate(s3, Amount(i)) == turned && Plus(r.b, turned) == last
    ensures Operations(w, INITIAL, i + 1) == Regs(r.d, last, r.b, r.c)
  {
    hide Mix, Plus, Rotate, T, Amount, WordIndex;
  }

  ghost predicate IsEmptyBlock(w: seq<word>) {
    |w| == 16 && w[0] == 0x80 && forall k :: 1 <= k < 16 ==> w[k] == 0
  }

  lemma Operations0(w: seq<word>)
    requires IsEmptyBlock(w)
    requires Operations(w, INITIAL, 0) == Regs(0x67452301, 0xefcdab89, 0x98badcfe, 0x10325476)
    ensures Operations(w, INITIAL, 8) == Regs(0x32033344, 0x9bc13ce9, 0xf5b158db, 0x2f35d494)
  {
    Constants1();
    Shape1();
    hide T, Amount, WordIndex, Operations;
    Next(w, 0, Regs(0x67452301, 0xefcdab89, 0x98badcfe, 0x10325476),
         0x98badcfe, 0x00000080, 0xffffffff, 0x0000007f, 0xd76aa4f7, 0xb5527beb, 0xa5202774);
    Next(w, 1, Regs(0x10325476, 0xa5202774, 0xefcdab89, 0x98badcfe),
         0xbd9afb8a, 0x00000000, 0xcdcd5000, 0xcdcd5000, 0xb6950756, 0x50756b69, 0xf59592dd);
    Next(w, 2, Regs(0x98badcfe, 0xf59592dd, 0xa5202774, 0xefcdab89),
         0xaf482b54, 0x00000000, 0x48030852, 0x48030852, 0x6c23792d, 0xf25ad846, 0xe7f06b23);
    Next(w, 3, Regs(0xefcdab89, 0xe7f06b23, 0xf59592dd, 0xa5202774),
         0xe5900655, 0x00000000, 0xd55db1de, 0xd55db1de, 0x971b80cc, 0x3325c6e0, 0x1b163203);
    Next(w, 4, Regs(0xa5202774, 0x1b163203, 0xe7f06b23, 0xf59592dd),
         0xe791a2df, 0x00000000, 0x8cb1ca53, 0x8cb1ca53, 0x822dda02, 0x16ed0141, 0x32033344);
    Next(w, 5, Regs(0xf59592dd, 0x32033344, 0x1b163203, 0xe7f06b23),
         0xd7f27a23, 0x00000000, 0xcd880d00, 0xcd880d00, 0x150fd32a, 0xfd32a150, 0x2f35d494);
    Next(w, 6, Regs(0xe7f06b23, 0x2f35d494, 0x32033344, 0x1b163203),
         0x32033207, 0x00000000, 0x19f39d2a, 0x19f39d2a, 0xc223e33d, 0xc67b8447, 0xf5b158db);
    Next(w, 7, Regs(0x1b163203, 0xf5b158db, 0x2f35d494, 0x32033344),
         0x27337394, 0x00000000, 0x4249a597, 0x4249a597, 0x3f903a98, 0xa60fe40e, 0x9bc13ce9);
  }

  lemma Operations8(w: seq<word>)
    requires IsEmptyBlock(w)
    requires Operations(w, INITIAL, 8) == Regs(0x32033344, 0x9bc13ce9, 0xf5b158db, 0x2f35d494)
    ensures Operations(w, INITIAL, 16) == Regs(0xf56c7cf1, 0xd6819c6a, 0x5aa53f75, 0x374943a7)
  {
    Constants1();
    Shape1();
    hide T, Amount, WordIndex, Operations;
    Next(w, 8, Regs(0x32033344, 0x9bc13ce9, 0xf5b158db, 0x2f35d494),
         0xb5b5d8dd, 0x00000000, 0xe7b90c21, 0xe7b90c21, 0x5139a4f9, 0x9cd27ca8, 0x3893b991);
    Next(w, 9, Regs(0x2f35d494, 0x3893b991, 0x9bc13ce9, 0xf5b158db),
         0xdda178cb, 0x00000000, 0x0cd74d5f, 0x0cd74d5f, 0x981c450e, 0xc450e981, 0xfce4a312);
    Next(w, 10, Regs(0xf5b158db, 0xfce4a312, 0x3893b991, 0x9bc13ce9),
         0x3b81bdf9, 0x00000000, 0x313316d4, 0x313316d4, 0x31327285, 0xe50a6264, 0xe1ef0576);
    Next(w, 11, Regs(0x9bc13ce9, 0xe1ef0576, 0xfce4a312, 0x3893b991),
         0xf8f4b993, 0x00000000, 0x94b5f67c, 0x94b5f67c, 0x1e12ce3a, 0x8e8784b3, 0x70768a29);
    Next(w, 12, Regs(0x3893b991, 0x70768a29, 0xe1ef0576, 0xfce4a312),
         0xece62132, 0x00000000, 0x2579dac3, 0x2579dac3, 0x9109ebe5, 0x84f5f2c8, 0xf56c7cf1);
    Next(w, 13, Regs(0xfce4a312, 0xf56c7cf1, 0x70768a29, 0xe1ef0576),
         0x70e70927, 0x00000000, 0x6dcbac39, 0x6dcbac39, 0x6b641dcc, 0x41dcc6b6, 0x374943a7);
    Next(w, 14, Regs(0xe1ef0576, 0x374943a7, 0xf56c7cf1, 0x70768a29),
         0x757ec8a9, 0x00000000, 0x576dce1f, 0x576dce1f, 0xfde711ad, 0x235bfbce, 0x5aa53f75);
    Next(w, 15, Regs(0x70768a29, 0x5aa53f75, 0x374943a7, 0xf56c7cf1),
         0xb74943a5, 0x00000000, 0x27bfcdce, 0x27bfcdce, 0x7173d5ef, 0x7bdc5cf5, 0xd6819c6a);
  }

  lemma Operations16(w: seq<word>)
    requires IsEmptyBlock(w)
    requires Operations(w, INITIAL, 16) == Regs(0xf56c7cf1, 0xd6819c6a, 0x5aa53f75, 0x374943a7)
    ensures Operations(w, INITIAL, 24) == Regs(0x3d1e3e6c, 0xe422531a, 0xeb41643e, 0x68b7b3e3)
  {
    Constants2();
    Shape2();
    hide T, Amount, WordIndex, Operations;
    Next(w, 16, Regs(0xf56c7cf1, 0xd6819c6a, 0x5aa53f75, 0x374943a7),
         0x5ea53c72, 0x00000000, 0x5411b963, 0x5411b963, 0x4a2fdec5, 0x45fbd8a9, 0x1c7d7513);
    Next(w, 17, Regs(0x374943a7, 0x1c7d7513, 0xd6819c6a, 0x5aa53f75),
         0x9c25b51b, 0x00000000, 0xd36ef8c2, 0xd36ef8c2, 0x93afac02, 0x5f580527, 0x7bd57a3a);
    Next(w, 18, Regs(0x5aa53f75, 0x7bd57a3a, 0x1c7d7513, 0xd6819c6a),
         0x5afd793b, 0x00000000, 0xb5a2b8b0, 0xb5a2b8b0, 0xdc011301, 0x44c07700, 0xc095f13a);
    Next(w, 19, Regs(0xd6819c6a, 0xc095f13a, 0x7bd57a3a, 0x1c7d7513),
         0x63957b3a, 0x00000080, 0x3a1717a4, 0x3a171824, 0x23cddfce, 0xfce23cdd, 0xbd782e17);
    Next(w, 20, Regs(0x1c7d7513, 0xbd782e17, 0xc095f13a, 0x7bd57a3a),
         0xb950ab12, 0x00000000, 0xd5ce2025, 0xd5ce2025, 0xabfd3082, 0x7fa61055, 0x3d1e3e6c);
    Next(w, 21, Regs(0x7bd57a3a, 0x3d1e3e6c, 0xbd782e17, 0xc095f13a),
         0x3d7c3e2d, 0x00000000, 0xb951b867, 0xb951b867, 0xbb95ccba, 0x2b997577, 0x68b7b3e3);
    Next(w, 22, Regs(0xc095f13a, 0x68b7b3e3, 0x3d1e3e6c, 0xbd782e17),
         0x2836326b, 0x00000000, 0xe8cc23a5, 0xe8cc23a5, 0xc16e0a26, 0x8289b05b, 0xeb41643e);
    Next(w, 23, Regs(0xbd782e17, 0xeb41643e, 0x68b7b3e3, 0x3d1e3e6c),
         0x69a1a5af, 0x00000000, 0x2719d3c6, 0x2719d3c6, 0x0eedcf8e, 0xf8e0eedc, 0xe422531a);
  }

  lemma Operations24(w: seq<word>)
    requires IsEmptyBlock(w)
    requires Operations(w, INITIAL, 24) == Regs(0x3d1e3e6c, 0xe422531a, 0xeb41643e, 0x68b7b3e3)
    ensures Operations(w, INITIAL, 32) == Regs(0x13707036, 0xa2205f1f, 0x1c31c384, 0xae7813db)
  {
    Constants2();
    Shape2();
    hide T, Amount, WordIndex, Operations;
    Next(w, 24, Regs(0x3d1e3e6c, 0xe422531a, 0xeb41643e, 0x68b7b3e3),
         0xe362571e, 0x00000000, 0x2080958a, 0x2080958a, 0x42626370, 0x4c4c6e08, 0x306ec122);
    Next(w, 25, Regs(0x68b7b3e3, 0x306ec122, 0xe422531a, 0xeb41643e),
         0x24625322, 0x00000000, 0x8d1a0705, 0x8d1a0705, 0x50510edb, 0xa21db6a0, 0xd28c77c2);
    Next(w, 26, Regs(0xeb41643e, 0xd28c77c2, 0x306ec122, 0xe422531a),
         0xd04cd322, 0x00000000, 0xbb8e3760, 0xbb8e3760, 0xb06344e7, 0xd139ec18, 0xa3c663da);
    Next(w, 27, Regs(0xe422531a, 0xa3c663da, 0xd28c77c2, 0x306ec122),
         0xe2c677c2, 0x00000000, 0xc6e8cadc, 0xc6e8cadc, 0x0c42dfc9, 0xfc90c42d, 0xa0572807);
    Next(w, 28, Regs(0x306ec122, 0xa0572807, 0xa3c663da, 0xd28c77c2),
         0xa146201a, 0x00000000, 0xd1b4e13c, 0xd1b4e13c, 0x7b98ca41, 0x7319482f, 0x13707036);
    Next(w, 29, Regs(0xd28c77c2, 0x13707036, 0xa0572807, 0xa3c663da),
         0x03516817, 0x00000000, 0xd5dddfd9, 0xd5dddfd9, 0xd2cd83d1, 0x9b07a3a5, 0xae7813db);
    Next(w, 30, Regs(0xa3c663da, 0xae7813db, 0x13707036, 0xa0572807),
         0xb3705033, 0x00000000, 0x5736b40d, 0x5736b40d, 0xbea5b6e6, 0x6db9afa9, 0x1c31c384);
    Next(w, 31, Regs(0xa0572807, 0x1c31c384, 0xae7813db, 0x13707036),
         0xbc3843cd, 0x00000000, 0x5c8f6bd4, 0x5c8f6bd4, 0xe9b9b85e, 0x85ee9b9b, 0xa2205f1f);
  }

  lemma Operations32(w: seq<word>)
    requires IsEmptyBlock(w)
    requires Operations(w, INITIAL, 32) == Regs(0x13707036, 0xa2205f1f, 0x1c31c384, 0xae7813db)
    ensures Operations(w, INITIAL, 40) == Regs(0x5f7a9b2e, 0xc5dc8c15, 0x91ca4cb7, 0xabc34e16)
  {
    Constants3();
    Shape3();
    hide T, Amount, WordIndex, Operations;
    Next(w, 32, Regs(0x13707036, 0xa2205f1f, 0x1c31c384, 0xae7813db),
         0x10698f40, 0x00000000, 0x23d9ff76, 0x23d9ff76, 0x23d438b8, 0x3d438b82, 0xdf63eaa1);
    Next(w, 33, Regs(0xae7813db, 0xdf63eaa1, 0xa2205f1f, 0x1c31c384),
         0x6172763a, 0x00000000, 0x0fea8a15, 0x0fea8a15, 0x975c8096, 0xe404b4ba, 0xc3689f5b);
    Next(w, 34, Regs(0x1c31c384, 0xc3689f5b, 0xdf63eaa1, 0xa2205f1f),
         0xbe2b2ae5, 0x00000000, 0xda5cee69, 0xda5cee69, 0x47fa4f8b, 0x4f8b47fa, 0x12f3e755);
    Next(w, 35, Regs(0xa2205f1f, 0x12f3e755, 0xc3689f5b, 0xdf63eaa1),
         0x0ef892af, 0x00000000, 0xb118f1ce, 0xb118f1ce, 0xaefe29da, 0xed577f14, 0x004b6669);
    Next(w, 36, Regs(0xdf63eaa1, 0x004b6669, 0x12f3e755, 0xc3689f5b),
         0xd1d01e67, 0x00000000, 0xb1340908, 0xb1340908, 0x55f2f34c, 0x5f2f34c5, 0x5f7a9b2e);
    Next(w, 37, Regs(0xc3689f5b, 0x5f7a9b2e, 0x004b6669, 0x12f3e755),
         0x4dc21a12, 0x00000000, 0x112ab96d, 0x112ab96d, 0x5d098916, 0x4c48b2e8, 0xabc34e16);
    Next(w, 38, Regs(0x12f3e755, 0xabc34e16, 0x5f7a9b2e, 0x004b6669),
         0xf4f2b351, 0x00000000, 0x07e69aa6, 0x07e69aa6, 0xfea1e606, 0xe606fea1, 0x91ca4cb7);
    Next(w, 39, Regs(0x004b6669, 0x91ca4cb7, 0xabc34e16, 0x5f7a9b2e),
         0x6573998f, 0x00000000, 0x65befff8, 0x65befff8, 0x247ebc68, 0x34123f5e, 0xc5dc8c15);
  }

  lemma Operations40(w: seq<word>)
    requires IsEmptyBlock(w)
    requires Operations(w, INITIAL, 40) == Regs(0x5f7a9b2e, 0xc5dc8c15, 0x91ca4cb7, 0xabc34e16)
    ensures Operations(w, INITIAL, 48) == Regs(0x3f55edfd, 0xca7d2dbd, 0x68d84ea2, 0x22a31f54)
  {
    Constants3();
    Shape3();
    hide T, Amount, WordIndex, Operations;
    Next(w, 40, Regs(0x5f7a9b2e, 0xc5dc8c15, 0x91ca4cb7, 0xabc34e16),
         0xffd58eb4, 0x00000000, 0x5f5029e2, 0x5f5029e2, 0x87eba8a8, 0x7eba8a88, 0x4497169d);
    Next(w, 41, Regs(0xabc34e16, 0x4497169d, 0xc5dc8c15, 0x91ca4cb7),
         0x1081d63f, 0x00000080, 0xbc452455, 0xbc4524d5, 0xa6e64ccf, 0x32667d37, 0x76fd93d4);
    Next(w, 42, Regs(0x91ca4cb7, 0x76fd93d4, 0x4497169d, 0xc5dc8c15),
         0xf7b6095c, 0x00000000, 0x89805613, 0x89805613, 0x5e6f8698, 0x86985e6f, 0xfd95f243);
    Next(w, 43, Regs(0xc5dc8c15, 0xfd95f243, 0x76fd93d4, 0x4497169d),
         0xcfff770a, 0x00000000, 0x95dc031f, 0x95dc031f, 0x9a642024, 0x124d3210, 0x0fe32453);
    Next(w, 44, Regs(0x4497169d, 0x0fe32453, 0xfd95f243, 0x76fd93d4),
         0x848b45c4, 0x00000000, 0xc9225c61, 0xc9225c61, 0xa2f72c9a, 0x2f72c9aa, 0x3f55edfd);
    Next(w, 45, Regs(0x76fd93d4, 0x3f55edfd, 0x0fe32453, 0xfd95f243),
         0xcd233bed, 0x00000000, 0x4420cfc1, 0x4420cfc1, 0x2afc69a6, 0xe34d3157, 0x22a31f54);
    Next(w, 46, Regs(0xfd95f243, 0x22a31f54, 0x3f55edfd, 0x0fe32453),
         0x1215d6fa, 0x00000000, 0x0fabc93d, 0x0fabc93d, 0x2f4e4635, 0x46352f4e, 0x68d84ea2);
    Next(w, 47, Regs(0x0fe32453, 0x68d84ea2, 0x22a31f54, 0x3f55edfd),
         0x752ebc0b, 0x00000000, 0x8511e05e, 0x8511e05e, 0x49be36c3, 0x61a4df1b, 0xca7d2dbd);
  }

  lemma Operations48(w: seq<word>)
    requires IsEmptyBlock(w)
    requires Operations(w, INITIAL, 48) == Regs(0x3f55edfd, 0xca7d2dbd, 0x68d84ea2, 0x22a31f54)
    ensures Operations(w, INITIAL, 56) == Regs(0x5625a114, 0x1e77fa61, 0x392ad0d0, 0x3450f42b)
  {
    Constants4();
    Shape4();
    hide T, Amount, WordIndex, Operations;
    Next(w, 48, Regs(0x3f55edfd, 0xca7d2dbd, 0x68d84ea2, 0x22a31f54),
         0xb7a5a31d, 0x00000080, 0xf6fb911a, 0xf6fb919a, 0xeb24b3de, 0xc92cf7ba, 0x93aa2577);
    Next(w, 49, Regs(0x22a31f54, 0x93aa2577, 0xca7d2dbd, 0x68d84ea2),
         0x5dd298c2, 0x00000000, 0x8075b816, 0x8075b816, 0xc3a0b7ad, 0x82deb70e, 0x1688dc85);
    Next(w, 50, Regs(0x68d84ea2, 0x1688dc85, 0x93aa2577, 0xca7d2dbd),
         0xa420fbb0, 0x00000000, 0x0cf94a52, 0x0cf94a52, 0xb88d6df9, 0xb6fcdc46, 0xcd85b8cb);
    Next(w, 51, Regs(0xca7d2dbd, 0xcd85b8cb, 0x1688dc85, 0x93aa2577),
         0xfb5d264e, 0x00000000, 0xc5da540b, 0xc5da540b, 0xc26df444, 0x88984dbe, 0x561e0689);
    Next(w, 52, Regs(0x93aa2577, 0x561e0689, 0xcd85b8cb, 0x1688dc85),
         0x32fa9f30, 0x00000000, 0xc6a4c4a7, 0xc6a4c4a7, 0x2c001e6a, 0x00079a8b, 0x5625a114);
    Next(w, 53, Regs(0x1688dc85, 0x5625a114, 0x561e0689, 0xcd85b8cb),
         0x2061e1bd, 0x00000000, 0x36eabe42, 0x36eabe42, 0xc5f78ad4, 0xde2b5317, 0x3450f42b);
    Next(w, 54, Regs(0xcd85b8cb, 0x3450f42b, 0x5625a114, 0x561e0689),
         0xebd45c6b, 0x00000000, 0xb95a1536, 0xb95a1536, 0xb94a09b3, 0x04d9dca5, 0x392ad0d0);
    Next(w, 55, Regs(0x561e0689, 0x392ad0d0, 0x3450f42b, 0x5625a114),
         0x8daa2ad0, 0x00000000, 0xe3c83159, 0xe3c83159, 0x694c8f2a, 0xe54d2991, 0x1e77fa61);
  }

  lemma Operations56(w: seq<word>)
    requires IsEmptyBlock(w)
    requires Operations(w, INITIAL, 56) == Regs(0x5625a114, 0x1e77fa61, 0x392ad0d0, 0x3450f42b)
    ensures Operations(w, INITIAL, 64) == Regs(0x7246fad3, 0x14e45506, 0xff4ea3eb, 0x6e10a476)
  {
    Constants4();
    Shape4();
    hide T, Amount, WordIndex, Operations;
    Next(w, 56, Regs(0x5625a114, 0x1e77fa61, 0x392ad0d0, 0x3450f42b),
         0xe6d52b25, 0x00000000, 0x3cfacc39, 0x3cfacc39, 0xaca34a88, 0x28d2a22b, 0x474a9c8c);
    Next(w, 57, Regs(0x3450f42b, 0x474a9c8c, 0x1e77fa61, 0x392ad0d0),
         0xd9a845ce, 0x00000000, 0x0df939f9, 0x0df939f9, 0x0c2620d9, 0x98836430, 0xdfce00bc);
    Next(w, 58, Regs(0x392ad0d0, 0xdfce00bc, 0x474a9c8c, 0x1e77fa61),
         0xb8849932, 0x00000000, 0xf1af6a02, 0xf1af6a02, 0x94b0ad16, 0x568b4a58, 0x36594b14);
    Next(w, 59, Regs(0x1e77fa61, 0x36594b14, 0xdfce00bc, 0x474a9c8c),
         0x61336bcb, 0x00000000, 0x7fab662c, 0x7fab662c, 0xcdb377cd, 0xf9b9b66e, 0x30130182);
    Next(w, 60, Regs(0x474a9c8c, 0x30130182, 0x36594b14, 0xdfce00bc),
         0x066ab4d7, 0x00000000, 0x4db55163, 0x4db55163, 0x4508cfe5, 0x4233f951, 0x7246fad3);
    Next(w, 61, Regs(0xdfce00bc, 0x7246fad3, 0x30130182, 0x36594b14),
         0xcbf5ff79, 0x00000000, 0xabc40035, 0xabc40035, 0x68fef26a, 0xfbc9a9a3, 0x6e10a476);
    Next(w, 62, Regs(0x36594b14, 0x6e10a476, 0x7246fad3, 0x30130182),
         0x9dba04ac, 0x00000000, 0xd4134fc0, 0xd4134fc0, 0xfeeb227b, 0x913dff75, 0xff4ea3eb);
    Next(w, 63, Regs(0x30130182, 0xff4ea3eb, 0x6e10a476, 0x7246fad3),
         0x91ef0399, 0x00000000, 0xc202051b, 0xc202051b, 0xad88d8ac, 0x1595b11b, 0x14e45506);
  }

  lemma EmptyCompressed()
    ensures Compress(INITIAL, EmptyBlock()) == Regs(0xd98c1dd4, 0x04b2008f, 0x980980e9, 0x7e42f8ec)
  {
    var w := Words(EmptyBlock());
    EmptyWords();
    NoneYet(w);
    hide Operations, Words, Zeros;
    Operations0(w);
    Operations8(w);
    Operations16(w);
    Operations24(w);
    Operations32(w);
    Operations40(w);
    Operations48(w);
    Operations56(w);
  }

  lemma NoneYet(w: seq<word>)
    requires |w| == 16
    ensures Operations(w, INITIAL, 0) == INITIAL
  {
  }

  lemma OutputBytes()
    ensures Output(Regs(0xd98c1dd4, 0x04b2008f, 0x980980e9, 0x7e42f8ec))
         == [0xd4, 0x1d, 0x8c, 0xd9, 0x8f, 0x00, 0xb2, 0x04,
             0xe9, 0x80, 0x09, 0x98, 0xec, 0xf8, 0x42, 0x7e]
  {
  }

  /** MD5 ("") = d41d8cd98f00b204e9800998ecf8427e */
  lemma EmptyMessage()
    ensures Md5Of([])
         == [0xd4, 0x1d, 0x8c, 0xd9, 0x8f, 0x00, 0xb2, 0x04,
             0xe9, 0x80, 0x09, 0x98, 0xec, 0xf8, 0x42, 0x7e]
  {
    hide Compress, Output;
    NothingPadded();
    OneBlock(INITIAL, EmptyBlock());
    EmptyCompressed();
    OutputBytes();
  }

  lemma OneBlock(r: Regs, block: seq<byte>)
    requires |block| == 64
    ensures CompressAll(r, block) == Compress(r, block)
  {
    hide Compress;
    assert block[..0] == [] && block[0..] == block;
  }
}
