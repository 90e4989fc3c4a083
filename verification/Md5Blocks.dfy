/** Arithmetic behind src/md5.c: whole blocks and leftovers, the split byte counter, the padding. */
module Md5Blocks {
  import opened Bytes
  import opened Md5Spec

  /** How many of `n` bytes lie in whole blocks. */
  function Whole(n: nat): (m: nat)
    ensures m % 64 == 0 && m <= n < m + 64
  {
    n / 64 * 64
  }

  lemma WholeCount(n: nat)
    ensures Whole(n) / 64 == n / 64 && n - Whole(n) == n % 64
  {
  }

  lemma NoBlocks(r: Regs, data: seq<byte>)
    ensures CompressAll(r, data[..0]) == r
  {
  }

  lemma OneMoreBlock(r: Regs, data: seq<byte>, n: nat)
    requires n % 64 == 0 && n + 64 <= |data|
    ensures CompressAll(r, data[..n + 64]) == Compress(CompressAll(r, data[..n]), data[n..n + 64])
  {
    hide Compress;
    assert data[..n + 64][..n] == data[..n] && data[..n + 64][n..] == data[n..n + 64];
  }

  lemma LowSixBits(q: nat, r: nat)
    ensures (q * 0x2000_0000 + r) % 64 == r % 64
  {
    assert q * 0x2000_0000 + r == (q * 0x80_0000) * 64 + r;
  }

  lemma ModuloAdds(x: nat, y: nat)
    ensures (x % 0x1_0000_0000 + y) % 0x1_0000_0000 == (x + y) % 0x1_0000_0000
  {
    var q := x / 0x1_0000_0000;
    assert x + y == x % 0x1_0000_0000 + y + q * 0x1_0000_0000;
  }

  lemma SplitAt29(q: nat, r: nat)
    requires r < 0x2000_0000
    ensures (q * 0x2000_0000 + r) / 0x2000_0000 == q
    ensures (q * 0x2000_0000 + r) % 0x2000_0000 == r
    ensures (q * 0x2000_0000 + r) % 0x1_0000_0000 % 0x2000_0000 == r
  {
    var x, low := q * 0x2000_0000 + r, q % 8 * 0x2000_0000 + r;
    assert x == q / 8 * 0x1_0000_0000 + low && low < 0x1_0000_0000;
    assert x % 0x1_0000_0000 == low;
    assert low % 0x2000_0000 == r;
  }

  /** The 29-bit/32-bit counter counts modulo 2^61 whatever the sizes: the sum wraps at 2^32 and is
      cut at 29 bits, a result below the old one marks the carry out of bit 29, and the bits of the
      size above it are added on their own. */
  lemma CounterStep(n: nat, size: nat)
    requires size < 0x1_0000_0000
    ensures var lo := n % 0x2000_0000;
            var hi := n / 0x2000_0000 % 0x1_0000_0000;
            var lo' := (lo + size) % 0x1_0000_0000 % 0x2000_0000;
            var hi' := if lo' < lo then (hi + 1) % 0x1_0000_0000 else hi;
            && lo' == (n + size) % 0x2000_0000
            && (hi' + size / 0x2000_0000) % 0x1_0000_0000 == (n + size) / 0x2000_0000 % 0x1_0000_0000
  {
    var q, lo := n / 0x2000_0000, n % 0x2000_0000;
    var p, s := size / 0x2000_0000, size % 0x2000_0000;
    var carry := if lo + s < 0x2000_0000 then 0 else 1;
    LowPart(lo, p, s);
    HighPart(q, p, carry);
    SumOfParts(q, lo, p, s);
  }

  /** The cut sum is below the old value exactly when bit 29 has carried. */
  lemma LowPart(lo: nat, p: nat, s: nat)
    requires lo < 0x2000_0000 && s < 0x2000_0000
    ensures var carry := if lo + s < 0x2000_0000 then 0 else 1;
            var lo' := (lo + (p * 0x2000_0000 + s)) % 0x1_0000_0000 % 0x2000_0000;
            lo' == lo + s - carry * 0x2000_0000 && (lo' < lo <==> carry == 1)
  {
    var carry := if lo + s < 0x2000_0000 then 0 else 1;
    SplitAt29(p + carry, lo + s - carry * 0x2000_0000);
  }

  lemma SumOfParts(q: nat, lo: nat, p: nat, s: nat)
    requires lo < 0x2000_0000 && s < 0x2000_0000
    ensures var carry := if lo + s < 0x2000_0000 then 0 else 1;
            var sum := (q * 0x2000_0000 + lo) + (p * 0x2000_0000 + s);
            sum / 0x2000_0000 == q + p + carry && sum % 0x2000_0000 == lo + s - carry * 0x2000_0000
  {
    var carry := if lo + s < 0x2000_0000 then 0 else 1;
    SplitAt29(q + p + carry, lo + s - carry * 0x2000_0000);
  }

  lemma HighPart(q: nat, p: nat, carry: nat)
    requires carry <= 1
    ensures var hi := q % 0x1_0000_0000;
            var hi' := if carry == 1 then (hi + 1) % 0x1_0000_0000 else hi;
            (hi' + p) % 0x1_0000_0000 == (q + p + carry) % 0x1_0000_0000
  {
    ModuloAdds(q, 1);
    ModuloAdds(q, p);
    ModuloAdds(q + 1, p);
  }

  /** A message is its whole blocks and the fewer than 64 bytes left over. */
  lemma WholeAndLeftover(all: seq<byte>, whole: seq<byte>, left: seq<byte>)
    requires all == whole + left && |whole| % 64 == 0 && |left| < 64
    ensures whole == all[..Whole(|all|)] && left == all[Whole(|all|)..] && |left| == |all| % 64
  {
    assert Whole(|all|) == |whole|;
  }

  /** The buffer began with `left`, and `data` has been copied behind it. */
  lemma FilledTo(before: seq<byte>, left: seq<byte>, data: seq<byte>, after: seq<byte>)
    requires left <= before && |left| + |data| <= |before| == 64
    requires after == before[..|left|] + data + before[|left| + |data|..]
    ensures left + data <= after
    ensures |left| + |data| == 64 ==> after == left + data
  {
  }

  lemma BlocksAdd(n: nat, size: nat)
    requires n % 64 == size % 64 == 0
    ensures (n + size) % 64 == 0 && (n + size) / 64 == n / 64 + size / 64
  {
  }

  lemma TopUp(whole: seq<byte>, left: seq<byte>, data: seq<byte>, free: nat)
    requires free <= |data|
    ensures whole + (left + data[..free]) + data[free..] == whole + left + data
  {
  }

  /** Padding after `left`, up to one block. */
  function LastBlock(left: seq<byte>, n: nat): (block: seq<byte>)
    requires |left| <= 56
    ensures |block| == 64
  {
    left + Zeros(56 - |left|) + LengthField(n)
  }

  /** The blocks `whole`, and `left` padded to one more block, with the length or without. */
  function WithLast(whole: seq<byte>, left: seq<byte>, n: nat): seq<byte>
    requires |left| <= 56
  {
    whole + LastBlock(left, n)
  }

  function WithSpare(whole: seq<byte>, left: seq<byte>): seq<byte>
    requires |left| <= 64
  {
    whole + (left + Zeros(64 - |left|))
  }

  function Padded(message: seq<byte>): seq<byte> { message + Padding(|message|) }

  /** What the first 56 bytes of the buffer are once zeros follow the `left` it began with. */
  lemma ZerosBehind(before: seq<byte>, left: seq<byte>, after: seq<byte>)
    requires |before| == 64 && |left| <= 56 && left <= before
    requires after == before[..|left|] + seq(56 - |left|, _ => 0) + before[56..]
    ensures after[..56] == left + Zeros(56 - |left|)
  {
  }

  function ByteAt(n: nat, shift: nat): byte
    requires shift > 0
  {
    (n / shift % 256) as byte
  }

  lemma FourBytes(n: nat)
    ensures LittleEndian(n, 4) == [ByteAt(n, 1), ByteAt(n, 0x100), ByteAt(n, 0x1_0000), ByteAt(n, 0x100_0000)]
  {
    var p := n / 0x100;
    var q := p / 0x100;
    var r := q / 0x100;
    assert q == n / 0x1_0000 && r == n / 0x100_0000;
    assert LittleEndian(r, 1) == [(r % 256) as byte];
    assert LittleEndian(q, 2) == [(q % 256) as byte] + LittleEndian(r, 1);
    assert LittleEndian(p, 3) == [(p % 256) as byte] + LittleEndian(q, 2);
  }

  lemma LowByteOfSum(lo: nat, power: nat, hi: nat)
    ensures (lo + 256 * power * hi) / 256 == lo / 256 + power * hi
    ensures (lo + 256 * power * hi) % 256 == lo % 256
  {
    var p := power * hi;
    assert 256 * power * hi == 256 * p;
    assert lo + 256 * p == 256 * (lo / 256 + p) + lo % 256;
  }

  lemma {:induction false} LittleEndianConcat(lo: nat, hi: nat, width: nat, width': nat)
    requires lo < Power256(width)
    ensures LittleEndian(lo + Power256(width) * hi, width + width')
         == LittleEndian(lo, width) + LittleEndian(hi, width')
  {
    if width > 0 {
      LowByteOfSum(lo, Power256(width - 1), hi);
      LittleEndianConcat(lo / 256, hi, width - 1, width');
    } else {
      assert Power256(0) * hi == hi;
    }
  }

  lemma LengthInBits(n: nat)
    ensures 8 * n % 0x1_0000_0000_0000_0000
         == n % 0x2000_0000 * 8 + 0x1_0000_0000 * (n / 0x2000_0000 % 0x1_0000_0000)
  {
    var lo, q := n % 0x2000_0000 * 8, n / 0x2000_0000;
    var p, hi := q / 0x1_0000_0000, q % 0x1_0000_0000;
    assert 8 * n == q * 0x1_0000_0000 + lo;
    assert q == p * 0x1_0000_0000 + hi;
    assert 8 * n == p * 0x1_0000_0000_0000_0000 + (hi * 0x1_0000_0000 + lo);
  }

  /** The two counters, `lo` shifted left by three, are the length in bits modulo 2^64. */
  lemma LengthBytes(n: nat)
    ensures var lo := n % 0x2000_0000 * 8 % 0x1_0000_0000;
            var hi := n / 0x2000_0000 % 0x1_0000_0000;
            LengthField(n) == LittleEndian(lo, 4) + LittleEndian(hi, 4)
  {
    hide LittleEndian;
    var lo, hi := n % 0x2000_0000 * 8, n / 0x2000_0000 % 0x1_0000_0000;
    assert lo % 0x1_0000_0000 == lo;
    LengthInBits(n);
    assert Power256(4) == 0x1_0000_0000;
    LittleEndianConcat(lo, hi, 4, 4);
  }

  lemma PaddingIsRest(message: seq<byte>, all: seq<byte>)
    requires message + [0x80] == all
    ensures Padded(message) == all + Zeros(ZeroCount(|message|)) + LengthField(|message|)
  {
    hide LengthField, Zeros;
  }

  lemma LeftoverOf(message: seq<byte>, whole: seq<byte>, left: seq<byte>)
    requires |whole| % 64 == 0 && 0 < |left| <= 64 && message + [0x80] == whole + left
    ensures |message| % 64 == |left| - 1
    ensures ZeroCount(|message|) == if |left| <= 56 then 56 - |left| else 120 - |left|
  {
    assert |message| == |whole| + (|left| - 1);
  }

  /** With `left` the bytes after the whole blocks and the marker, the padded message ends with one block
      if the length still fits. */
  lemma OneBlockEnds(message: seq<byte>, whole: seq<byte>, left: seq<byte>)
    requires |whole| % 64 == 0 && 0 < |left| <= 56 && message + [0x80] == whole + left
    ensures Padded(message) == WithLast(whole, left, |message|)
  {
    hide LengthField, Padded;
    LeftoverOf(message, whole, left);
    PaddingIsRest(message, whole + left);
    RegroupPadding(whole, left, Zeros(56 - |left|), LengthField(|message|));
  }

  /** Else it ends with two. */
  lemma TwoBlocksEnd(message: seq<byte>, whole: seq<byte>, left: seq<byte>)
    requires |whole| % 64 == 0 && 56 < |left| <= 64 && message + [0x80] == whole + left
    ensures Padded(message) == WithLast(WithSpare(whole, left), [], |message|)
  {
    hide LengthField, Padded;
    LeftoverOf(message, whole, left);
    PaddingIsRest(message, whole + left);
    assert Zeros(120 - |left|) == Zeros(64 - |left|) + Zeros(56);
    assert [] + Zeros(56) == Zeros(56);
    RegroupTwice(whole, left, Zeros(64 - |left|), Zeros(56), LengthField(|message|));
  }

  lemma RegroupPadding(w: seq<byte>, x: seq<byte>, y: seq<byte>, z: seq<byte>)
    ensures w + x + y + z == w + (x + y + z)
  {
  }

  lemma RegroupTwice(w: seq<byte>, x: seq<byte>, y: seq<byte>, y': seq<byte>, z: seq<byte>)
    ensures w + x + (y + y') + z == w + (x + y) + (y' + z)
  {
  }
}
