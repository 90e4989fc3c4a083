/** MD5 as RFC 1321 sections 3.1 to 3.5 describe it: pad, cut into 64-byte blocks, fold a
    table-driven compression over the blocks, and output the four registers. Nothing here
    follows the layout of src/md5.c. */
module Md5Spec {
  import opened Bytes

  datatype Regs = Regs(a: word, b: word, c: word, d: word)

  const INITIAL := Regs(0x67452301, 0xefcdab89, 0x98badcfe, 0x10325476)

  // Section 3.4: the auxiliary functions, as the RFC writes them.

  function F(x: word, y: word, z: word): word { (x & y) | (!x & z) }

  function G(x: word, y: word, z: word): word { (x & z) | (y & !z) }

  function H(x: word, y: word, z: word): word { x ^ y ^ z }

  function I(x: word, y: word, z: word): word { y ^ (x | !z) }

  function Mix(i: nat, x: word, y: word, z: word): word {
    if i < 16 then F(x, y, z)
    else if i < 32 then G(x, y, z)
    else if i < 48 then H(x, y, z)
    else I(x, y, z)
  }

  /** Which of the sixteen words of the block operation `i` adds. */
  function WordIndex(i: nat): (k: nat)
    ensures k < 16
  {
    if i < 16 then i
    else if i < 32 then (5 * i + 1) % 16
    else if i < 48 then (3 * i + 5) % 16
    else 7 * i % 16
  }

  /** By how many bits operation `i` rotates: four amounts a round, used in turn. */
  function Amount(i: nat): (s: word)
    ensures s <= 32
  {
    var turn := i % 4;
    if i < 16 then (if turn == 0 then 7 else if turn == 1 then 12 else if turn == 2 then 17 else 22)
    else if i < 32 then (if turn == 0 then 5 else if turn == 1 then 9 else if turn == 2 then 14 else 20)
    else if i < 48 then (if turn == 0 then 4 else if turn == 1 then 11 else if turn == 2 then 16 else 23)
    else (if turn == 0 then 6 else if turn == 1 then 10 else if turn == 2 then 15 else 21)
  }

  // The sine table T, copied, sixteen entries a round.

  function T1(i: nat): word {
    match i
    case  0 => 0xd76aa478 case  1 => 0xe8c7b756 case  2 => 0x242070db case  3 => 0xc1bdceee
    case  4 => 0xf57c0faf case  5 => 0x4787c62a case  6 => 0xa8304613 case  7 => 0xfd469501
    case  8 => 0x698098d8 case  9 => 0x8b44f7af case 10 => 0xffff5bb1 case 11 => 0x895cd7be
    case 12 => 0x6b901122 case 13 => 0xfd987193 case 14 => 0xa679438e case _  => 0x49b40821
  }

  function T2(i: nat): word {
    match i
    case  0 => 0xf61e2562 case  1 => 0xc040b340 case  2 => 0x265e5a51 case  3 => 0xe9b6c7aa
    case  4 => 0xd62f105d case  5 => 0x02441453 case  6 => 0xd8a1e681 case  7 => 0xe7d3fbc8
    case  8 => 0x21e1cde6 case  9 => 0xc33707d6 case 10 => 0xf4d50d87 case 11 => 0x455a14ed
    case 12 => 0xa9e3e905 case 13 => 0xfcefa3f8 case 14 => 0x676f02d9 case _  => 0x8d2a4c8a
  }

  function T3(i: nat): word {
    match i
    case  0 => 0xfffa3942 case  1 => 0x8771f681 case  2 => 0x6d9d6122 case  3 => 0xfde5380c
    case  4 => 0xa4beea44 case  5 => 0x4bdecfa9 case  6 => 0xf6bb4b60 case  7 => 0xbebfbc70
    case  8 => 0x289b7ec6 case  9 => 0xeaa127fa case 10 => 0xd4ef3085 case 11 => 0x04881d05
    case 12 => 0xd9d4d039 case 13 => 0xe6db99e5 case 14 => 0x1fa27cf8 case _  => 0xc4ac5665
  }

  function T4(i: nat): word {
    match i
    case  0 => 0xf4292244 case  1 => 0x432aff97 case  2 => 0xab9423a7 case  3 => 0xfc93a039
    case  4 => 0x655b59c3 case  5 => 0x8f0ccc92 case  6 => 0xffeff47d case  7 => 0x85845dd1
    case  8 => 0x6fa87e4f case  9 => 0xfe2ce6e0 case 10 => 0xa3014314 case 11 => 0x4e0811a1
    case 12 => 0xf7537e82 case 13 => 0xbd3af235 case 14 => 0x2ad7d2bb case _  => 0xeb86d391
  }

  function T(i: nat): word {
    if i < 16 then T1(i) else if i < 32 then T2(i - 16) else if i < 48 then T3(i - 32) else T4(i - 48)
  }

  /** Addition of words modulo 2^32. */
  function Plus(x: word, y: word): word { x + y }

  function Rotate(x: word, s: word): word
    requires s <= 32
  {
    (x << s) | (x >> (32 - s))
  }

  /** b + ((a + mix + x + t) <<< s) */
  function Turned(a: word, b: word, mix: word, x: word, t: word, s: word): word
    requires s <= 32
  {
    Plus(b, Rotate(Plus(Plus(Plus(a, mix), x), t), s))
  }

  /** The value operation `i` gives the register `a`, when `x` is the word it adds. */
  function NewValue(i: nat, a: word, b: word, c: word, d: word, x: word): word
    requires i < 64
  {
    Turned(a, b, Mix(i, b, c, d), x, T(i), Amount(i))
  }

  /** One operation; the register it changes is always called `a`, and the roles of the four
      registers move on by one afterwards (ABCD, DABC, CDAB, BCDA in the RFC's lists). */
  function Operation(x: seq<word>, i: nat, r: Regs): Regs
    requires |x| == 16 && i < 64
  {
    Regs(r.d, NewValue(i, r.a, r.b, r.c, r.d, x[WordIndex(i)]), r.b, r.c)
  }

  /** The first `n` operations. */
  function Operations(x: seq<word>, r: Regs, n: nat): Regs
    requires |x| == 16 && n <= 64
  {
    if n == 0 then r else Operation(x, n - 1, Operations(x, r, n - 1))
  }

  function Add(r: Regs, s: Regs): Regs { Regs(Plus(r.a, s.a), Plus(r.b, s.b), Plus(r.c, s.c), Plus(r.d, s.d)) }

  function Compress(r: Regs, block: seq<byte>): Regs
    requires |block| == 64
  {
    Add(Operations(Words(block), r, 64), r)
  }

  /** The compression folded over the 64-byte blocks of `data`, first block first. */
  function CompressAll(r: Regs, data: seq<byte>): Regs
    requires |data| % 64 == 0
  {
    if data == [] then r else Compress(CompressAll(r, data[..|data| - 64]), data[|data| - 64..])
  }

  lemma {:induction false} CompressAllSplits(r: Regs, x: seq<byte>, y: seq<byte>)
    requires |x| % 64 == |y| % 64 == 0
    ensures CompressAll(r, x + y) == CompressAll(CompressAll(r, x), y)
    decreases |y|
  {
    hide Compress;
    if y == [] {
      assert x + y == x;
    } else {
      var front, block := y[..|y| - 64], y[|y| - 64..];
      assert (x + y)[..|x + y| - 64] == x + front;
      assert (x + y)[|x + y| - 64..] == block;
      CompressAllSplits(r, x, front);
    }
  }

  /** The length in bits modulo 2^64 of `n` bytes, in eight bytes, lowest first. */
  function LengthField(n: nat): (s: seq<byte>)
    ensures |s| == 8
  {
    LittleEndian(8 * n % 0x1_0000_0000_0000_0000, 8)
  }

  /** How many zero bytes bring `n` bytes and the marker to 56 modulo 64. */
  function ZeroCount(n: nat): (z: nat)
    ensures z < 64 && (n + 1 + z + 8) % 64 == 0
  {
    var used := n % 64;
    assert n == 64 * (n / 64) + used;
    if used < 56 then 55 - used else 119 - used
  }

  /** Sections 3.1 and 3.2: a one bit, zero bits up to 56 bytes modulo 64, and the length. */
  function Padding(n: nat): (p: seq<byte>)
    ensures (n + |p|) % 64 == 0
  {
    [0x80] + Zeros(ZeroCount(n)) + LengthField(n)
  }

  /** Section 3.5: A, B, C, D, each low-order byte first. */
  function Output(r: Regs): (s: seq<byte>)
    ensures |s| == 16
  {
    WordBytes(r.a) + WordBytes(r.b) + WordBytes(r.c) + WordBytes(r.d)
  }

  function Md5Of(message: seq<byte>): (digest: seq<byte>)
    ensures |digest| == 16
  {
    Output(CompressAll(INITIAL, message + Padding(|message|)))
  }

  /** The padding is the shortest that leaves room for the marker and the length: a message of
      `n` bytes takes ceil((n + 9) / 64) compressions. */
  lemma PaddingIsShortest(n: nat)
    ensures 9 <= |Padding(n)| < 9 + 64
    ensures (n + |Padding(n)|) / 64 == (n + 9 + 63) / 64
  {
  }

  /** Messages shorter than 2^61 bytes are told apart by their padded forms. */
  lemma PaddingIsInjective(x: seq<byte>, y: seq<byte>)
    requires |x| < 0x2000_0000_0000_0000 && |y| < 0x2000_0000_0000_0000
    requires x + Padding(|x|) == y + Padding(|y|)
    ensures x == y
  {
    hide LittleEndian, LengthField;
    var padded := x + Padding(|x|);
    assert padded[|padded| - 8..] == LengthField(|x|);
    assert (y + Padding(|y|))[|padded| - 8..] == LengthField(|y|);
    LengthFieldTells(|x|);
    LengthFieldTells(|y|);
    assert padded[..|x|] == x && (y + Padding(|y|))[..|y|] == y;
  }

  lemma EightBytes()
    ensures Power256(8) == 0x1_0000_0000_0000_0000
  {
    assert Power256(4) == 0x1_0000_0000;
  }

  lemma LengthFieldTells(n: nat)
    requires n < 0x2000_0000_0000_0000
    ensures FromLittleEndian(LengthField(n)) == 8 * n
  {
    hide LittleEndian;
    EightBytes();
    hide Power256;
    LittleEndianRoundTrip(8 * n, 8);
  }

  /** Rotate is the circular shift, for every amount the operations use. */
  lemma RotateIsCircular(x: word)
    ensures Rotate(x, 7) == x.RotateLeft(7) && Rotate(x, 12) == x.RotateLeft(12)
    ensures Rotate(x, 17) == x.RotateLeft(17) && Rotate(x, 22) == x.RotateLeft(22)
    ensures Rotate(x, 5) == x.RotateLeft(5) && Rotate(x, 9) == x.RotateLeft(9)
    ensures Rotate(x, 14) == x.RotateLeft(14) && Rotate(x, 20) == x.RotateLeft(20)
    ensures Rotate(x, 4) == x.RotateLeft(4) && Rotate(x, 11) == x.RotateLeft(11)
    ensures Rotate(x, 16) == x.RotateLeft(16) && Rotate(x, 23) == x.RotateLeft(23)
    ensures Rotate(x, 6) == x.RotateLeft(6) && Rotate(x, 10) == x.RotateLeft(10)
    ensures Rotate(x, 15) == x.RotateLeft(15) && Rotate(x, 21) == x.RotateLeft(21)
  {
  }
}
