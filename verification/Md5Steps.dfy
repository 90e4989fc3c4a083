/** The macros of src/md5.c: each STEP of the unrolled rounds is one operation of RFC 1321. */
module Md5Steps {
  import opened Bytes
  import opened Md5Spec

  // F and G in the forms that need no AND-NOT; H and I are the RFC's own.

  function FastF(x: word, y: word, z: word): word { z ^ (x & (y ^ z)) }

  function FastG(x: word, y: word, z: word): word { y ^ (z & (x ^ y)) }

  lemma FastFIsF(x: word, y: word, z: word)
    ensures FastF(x, y, z) == F(x, y, z)
  {
    calc {
      FastF(x, y, z);
      z ^ (x & (y ^ z));
      (x & y) | (!x & z);
      F(x, y, z);
    }
  }

  lemma FastGIsG(x: word, y: word, z: word)
    ensures FastG(x, y, z) == G(x, y, z)
  {
    calc {
      FastG(x, y, z);
      y ^ (z & (x ^ y));
      (x & z) | (y & !z);
      G(x, y, z);
    }
  }

  function MaskedRotate(x: word, s: word): word
    requires s <= 32
  {
    (x << s) | ((x & 0xffffffff) >> (32 - s))
  }

  lemma MaskedRotateIsRotate(x: word, s: word)
    requires s <= 32
    ensures MaskedRotate(x, s) == Rotate(x, s)
  {
    assert x & 0xffffffff == x;
  }

  lemma PlusIsAssociative(x: word, y: word, z: word)
    ensures Plus(x, Plus(y, z)) == Plus(Plus(x, y), z)
  {
    calc {
      Plus(x, Plus(y, z));
      Plus(x, y + z);
      x + (y + z);
      x + y + z;
      Plus(x + y, z);
      Plus(Plus(x, y), z);
    }
  }

  lemma PlusIsCommutative(x: word, y: word)
    ensures Plus(x, y) == Plus(y, x)
  {
  }

  /** STEP, with `mix` the value of f(b, c, d). The ghost arguments say where in the sixty-four
      operations on the block `w` the step stands: it takes the registers after `i` of them to
      the registers after `i + 1`, in whatever roles the caller's variables then have. */
  method Step(ghost w: seq<word>, ghost r: Regs, ghost i: nat,
              a: word, b: word, ghost c: word, ghost d: word, mix: word, x: word, t: word, s: word)
      returns (a': word)
    requires |w| == 16 && i < 64
    requires Operations(w, r, i) == Regs(a, b, c, d)
    requires mix == Mix(i, b, c, d) && x == w[WordIndex(i)] && t == T(i) && s == Amount(i)
    ensures Operations(w, r, i + 1) == Regs(d, a', b, c)
  {
    hide Plus, Rotate, MaskedRotate, Mix, T, Amount;
    a' := Plus(a, Plus(Plus(mix, x), t));
    PlusIsAssociative(a, Plus(mix, x), t);
    PlusIsAssociative(a, mix, x);
    MaskedRotateIsRotate(a', s);
    a' := MaskedRotate(a', s);
    PlusIsCommutative(a', b);
    a' := Plus(a', b);
  }

  method StepF(ghost w: seq<word>, ghost r: Regs, ghost i: nat,
               a: word, b: word, c: word, d: word, x: word, t: word, s: word)
      returns (a': word)
    requires |w| == 16 && 0 <= i < 16
    requires Operations(w, r, i) == Regs(a, b, c, d)
    requires x == w[WordIndex(i)] && t == T(i) && s == Amount(i)
    ensures Operations(w, r, i + 1) == Regs(d, a', b, c)
  {
    hide F, G, H, I, FastF, FastG, T, Amount, WordIndex, Operations;
    FastFIsF(b, c, d);
    a' := Step(w, r, i, a, b, c, d, FastF(b, c, d), x, t, s);
  }

  method StepG(ghost w: seq<word>, ghost r: Regs, ghost i: nat,
               a: word, b: word, c: word, d: word, x: word, t: word, s: word)
      returns (a': word)
    requires |w| == 16 && 16 <= i < 32
    requires Operations(w, r, i) == Regs(a, b, c, d)
    requires x == w[WordIndex(i)] && t == T(i) && s == Amount(i)
    ensures Operations(w, r, i + 1) == Regs(d, a', b, c)
  {
    hide F, G, H, I, FastF, FastG, T, Amount, WordIndex, Operations;
    FastGIsG(b, c, d);
    a' := Step(w, r, i, a, b, c, d, FastG(b, c, d), x, t, s);
  }

  method StepH(ghost w: seq<word>, ghost r: Regs, ghost i: nat,
               a: word, b: word, c: word, d: word, x: word, t: word, s: word)
      returns (a': word)
    requires |w| == 16 && 32 <= i < 48
    requires Operations(w, r, i) == Regs(a, b, c, d)
    requires x == w[WordIndex(i)] && t == T(i) && s == Amount(i)
    ensures Operations(w, r, i + 1) == Regs(d, a', b, c)
  {
    hide F, G, H, I, FastF, FastG, T, Amount, WordIndex, Operations;
    a' := Step(w, r, i, a, b, c, d, H(b, c, d), x, t, s);
  }

  method StepI(ghost w: seq<word>, ghost r: Regs, ghost i: nat,
               a: word, b: word, c: word, d: word, x: word, t: word, s: word)
      returns (a': word)
    requires |w| == 16 && 48 <= i < 64
    requires Operations(w, r, i) == Regs(a, b, c, d)
    requires x == w[WordIndex(i)] && t == T(i) && s == Amount(i)
    ensures Operations(w, r, i + 1) == Regs(d, a', b, c)
  {
    hide F, G, H, I, FastF, FastG, T, Amount, WordIndex, Operations;
    a' := Step(w, r, i, a, b, c, d, I(b, c, d), x, t, s);
  }

  // The constants written into round 1 are the tables' entries.
  lemma Constants1()
    ensures T(0) == 0xd76aa478 && T(1) == 0xe8c7b756 && T(2) == 0x242070db && T(3) == 0xc1bdceee
    ensures T(4) == 0xf57c0faf && T(5) == 0x4787c62a && T(6) == 0xa8304613 && T(7) == 0xfd469501
    ensures T(8) == 0x698098d8 && T(9) == 0x8b44f7af && T(10) == 0xffff5bb1 && T(11) == 0x895cd7be
    ensures T(12) == 0x6b901122 && T(13) == 0xfd987193 && T(14) == 0xa679438e && T(15) == 0x49b40821
  {
    hide T2, T3, T4;
  }

  lemma Shape1()
    ensures WordIndex(0) == 0 && WordIndex(1) == 1 && WordIndex(2) == 2 && WordIndex(3) == 3
    ensures WordIndex(4) == 4 && WordIndex(5) == 5 && WordIndex(6) == 6 && WordIndex(7) == 7
    ensures WordIndex(8) == 8 && WordIndex(9) == 9 && WordIndex(10) == 10 && WordIndex(11) == 11
    ensures WordIndex(12) == 12 && WordIndex(13) == 13 && WordIndex(14) == 14 && WordIndex(15) == 15
    ensures Amount(0) == 7 && Amount(1) == 12 && Amount(2) == 17 && Amount(3) == 22
    ensures Amount(4) == 7 && Amount(5) == 12 && Amount(6) == 17 && Amount(7) == 22
    ensures Amount(8) == 7 && Amount(9) == 12 && Amount(10) == 17 && Amount(11) == 22
    ensures Amount(12) == 7 && Amount(13) == 12 && Amount(14) == 17 && Amount(15) == 22
  {
  }

  // The constants written into round 2 are the tables' entries.
  lemma Constants2()
    ensures T(16) == 0xf61e2562 && T(17) == 0xc040b340 && T(18) == 0x265e5a51 && T(19) == 0xe9b6c7aa
    ensures T(20) == 0xd62f105d && T(21) == 0x02441453 && T(22) == 0xd8a1e681 && T(23) == 0xe7d3fbc8
    ensures T(24) == 0x21e1cde6 && T(25) == 0xc33707d6 && T(26) == 0xf4d50d87 && T(27) == 0x455a14ed
    ensures T(28) == 0xa9e3e905 && T(29) == 0xfcefa3f8 && T(30) == 0x676f02d9 && T(31) == 0x8d2a4c8a
  {
    hide T1, T3, T4;
  }

  lemma Shape2()
    ensures WordIndex(16) == 1 && WordIndex(17) == 6 && WordIndex(18) == 11 && WordIndex(19) == 0
    ensures WordIndex(20) == 5 && WordIndex(21) == 10 && WordIndex(22) == 15 && WordIndex(23) == 4
    ensures WordIndex(24) == 9 && WordIndex(25) == 14 && WordIndex(26) == 3 && WordIndex(27) == 8
    ensures WordIndex(28) == 13 && WordIndex(29) == 2 && WordIndex(30) == 7 && WordIndex(31) == 12
    ensures Amount(16) == 5 && Amount(17) == 9 && Amount(18) == 14 && Amount(19) == 20
    ensures Amount(20) == 5 && Amount(21) == 9 && Amount(22) == 14 && Amount(23) == 20
    ensures Amount(24) == 5 && Amount(25) == 9 && Amount(26) == 14 && Amount(27) == 20
    ensures Amount(28) == 5 && Amount(29) == 9 && Amount(30) == 14 && Amount(31) == 20
  {
  }

  // The constants written into round 3 are the tables' entries.
  lemma Constants3()
    ensures T(32) == 0xfffa3942 && T(33) == 0x8771f681 && T(34) == 0x6d9d6122 && T(35) == 0xfde5380c
    ensures T(36) == 0xa4beea44 && T(37) == 0x4bdecfa9 && T(38) == 0xf6bb4b60 && T(39) == 0xbebfbc70
    ensures T(40) == 0x289b7ec6 && T(41) == 0xeaa127fa && T(42) == 0xd4ef3085 && T(43) == 0x04881d05
    ensures T(44) == 0xd9d4d039 && T(45) == 0xe6db99e5 && T(46) == 0x1fa27cf8 && T(47) == 0xc4ac5665
  {
    hide T1, T2, T4;
  }

  lemma Shape3()
    ensures WordIndex(32) == 5 && WordIndex(33) == 8 && WordIndex(34) == 11 && WordIndex(35) == 14
    ensures WordIndex(36) == 1 && WordIndex(37) == 4 && WordIndex(38) == 7 && WordIndex(39) == 10
    ensures WordIndex(40) == 13 && WordIndex(41) == 0 && WordIndex(42) == 3 && WordIndex(43) == 6
    ensures WordIndex(44) == 9 && WordIndex(45) == 12 && WordIndex(46) == 15 && WordIndex(47) == 2
    ensures Amount(32) == 4 && Amount(33) == 11 && Amount(34) == 16 && Amount(35) == 23
    ensures Amount(36) == 4 && Amount(37) == 11 && Amount(38) == 16 && Amount(39) == 23
    ensures Amount(40) == 4 && Amount(41) == 11 && Amount(42) == 16 && Amount(43) == 23
    ensures Amount(44) == 4 && Amount(45) == 11 && Amount(46) == 16 && Amount(47) == 23
  {
  }

  // The constants written into round 4 are the tables' entries.
  lemma Constants4()
    ensures T(48) == 0xf4292244 && T(49) == 0x432aff97 && T(50) == 0xab9423a7 && T(51) == 0xfc93a039
    ensures T(52) == 0x655b59c3 && T(53) == 0x8f0ccc92 && T(54) == 0xffeff47d && T(55) == 0x85845dd1
    ensures T(56) == 0x6fa87e4f && T(57) == 0xfe2ce6e0 && T(58) == 0xa3014314 && T(59) == 0x4e0811a1
    ensures T(60) == 0xf7537e82 && T(61) == 0xbd3af235 && T(62) == 0x2ad7d2bb && T(63) == 0xeb86d391
  {
    hide T1, T2, T3;
  }

  lemma Shape4()
    ensures WordIndex(48) == 0 && WordIndex(49) == 7 && WordIndex(50) == 14 && WordIndex(51) == 5
    ensures WordIndex(52) == 12 && WordIndex(53) == 3 && WordIndex(54) == 10 && WordIndex(55) == 1
    ensures WordIndex(56) == 8 && WordIndex(57) == 15 && WordIndex(58) == 6 && WordIndex(59) == 13
    ensures WordIndex(60) == 4 && WordIndex(61) == 11 && WordIndex(62) == 2 && WordIndex(63) == 9
    ensures Amount(48) == 6 && Amount(49) == 10 && Amount(50) == 15 && Amount(51) == 21
    ensures Amount(52) == 6 && Amount(53) == 10 && Amount(54) == 15 && Amount(55) == 21
    ensures Amount(56) == 6 && Amount(57) == 10 && Amount(58) == 15 && Amount(59) == 21
    ensures Amount(60) == 6 && Amount(61) == 10 && Amount(62) == 15 && Amount(63) == 21
  {
  }
}
