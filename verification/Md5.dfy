/** src/md5.c: the streaming context, its unrolled transform, and the calls on it. */
module Md5 {
  import opened Bytes
  import opened CLib
  import opened Md5Spec
  import opened Md5Steps
  import opened Md5Blocks

  class Md5Context {
    var lo: nat
    var hi: nat
    var a: word
    var b: word
    var c: word
    var d: word
    const buffer: array<byte>
    const block: array<word>
    /** Every byte fed so far. */
    ghost var message: seq<byte>
    /** How often the transform has run on a block. */
    ghost var compressions: nat

    ghost function Registers(): Regs
      reads this`a, this`b, this`c, this`d
    {
      Regs(a, b, c, d)
    }

    /** hi:lo, split at bit 29, is `n` modulo 2^61. */
    ghost predicate Counts(n: nat)
      reads this`lo, this`hi
    {
      lo == n % 0x2000_0000 && hi == n / 0x2000_0000 % 0x1_0000_0000
    }

    lemma UsedIs(n: nat)
      requires Counts(n)
      ensures lo % 64 == n % 64
    {
      LowSixBits(n / 0x2000_0000, lo);
    }

    /** The registers hold the compression of all whole blocks of the message, the buffer starts
        with the bytes left over, and the counter counts the bytes. */
    ghost predicate Valid()
      reads this, buffer
    {
      && buffer.Length == 64 && block.Length == 16
      && Counts(|message|) && compressions == |message| / 64
      && Registers() == CompressAll(INITIAL, message[..Whole(|message|)])
      && buffer[..|message| % 64] == message[Whole(|message|)..]
    }

    /** Md5Initialise */
    constructor ()
      ensures Valid() && message == [] && lo == 0
      ensures fresh(buffer) && fresh(block)
    {
      lo, hi := 0, 0;
      a, b, c, d := 0x67452301, 0xefcdab89, 0x98badcfe, 0x10325476;
      buffer := new byte[64];
      block := new word[16];
      message, compressions := [], 0;
    }

    /** The first `n` words of `w` are in `block`. */
    ghost predicate Loaded(w: seq<word>, n: nat)
      reads this, block
    {
      block.Length == 16 == |w| && n <= 16 && block[..n] == w[..n]
    }

    /** SET(n) */
    method Set(ghost w: seq<word>, n: nat, ptr: seq<byte>) returns (x: word)
      requires n < 16 && |ptr| == 64 && w == Words(ptr) && Loaded(w, n)
      modifies block
      ensures Loaded(w, n + 1)
      ensures x == w[n]
    {
      hide Widen;
      x := Widen(ptr[n * 4]) | (Widen(ptr[n * 4 + 1]) << 8)
           | (Widen(ptr[n * 4 + 2]) << 16) | (Widen(ptr[n * 4 + 3]) << 24);
      assert x == WordOf(ptr[4 * n], ptr[4 * n + 1], ptr[4 * n + 2], ptr[4 * n + 3]);
      hide Words, WordOf;
      block[n] := x;
    }

    /** STEP(F, ..., SET(n), ...) */
    method SetAndStep(ghost w: seq<word>, ghost r: Regs, n: nat, ptr: seq<byte>,
                      a: word, b: word, c: word, d: word, t: word, s: word)
        returns (a': word)
      requires n < 16 && |ptr| == 64 && w == Words(ptr) && Loaded(w, n)
      requires Operations(w, r, n) == Regs(a, b, c, d)
      requires t == T(n) && s == Amount(n)
      modifies block
      ensures Loaded(w, n + 1)
      ensures Operations(w, r, n + 1) == Regs(d, a', b, c)
    {
      hide Words, Loaded, Operations, T, Amount;
      var x := Set(w, n, ptr);
      a' := StepF(w, r, n, a, b, c, d, x, t, s);
    }

    method Round1(ghost w: seq<word>, ghost r: Regs, ptr: seq<byte>, a0: word, b0: word, c0: word, d0: word)
        returns (a: word, b: word, c: word, d: word)
      requires |ptr| == 64 && w == Words(ptr) && Loaded(w, 0)
      requires Operations(w, r, 0) == Regs(a0, b0, c0, d0)
      modifies block
      ensures Loaded(w, 16)
      ensures Operations(w, r, 16) == Regs(a, b, c, d)
    {
      hide *;
      Constants1();
      Shape1();
      a, b, c, d := a0, b0, c0, d0;
      a := SetAndStep(w, r, 0, ptr, a, b, c, d, 0xd76aa478, 7);
      d := SetAndStep(w, r, 1, ptr, d, a, b, c, 0xe8c7b756, 12);
      c := SetAndStep(w, r, 2, ptr, c, d, a, b, 0x242070db, 17);
      b := SetAndStep(w, r, 3, ptr, b, c, d, a, 0xc1bdceee, 22);
      a := SetAndStep(w, r, 4, ptr, a, b, c, d, 0xf57c0faf, 7);
      d := SetAndStep(w, r, 5, ptr, d, a, b, c, 0x4787c62a, 12);
      c := SetAndStep(w, r, 6, ptr, c, d, a, b, 0xa8304613, 17);
      b := SetAndStep(w, r, 7, ptr, b, c, d, a, 0xfd469501, 22);
      a := SetAndStep(w, r, 8, ptr, a, b, c, d, 0x698098d8, 7);
      d := SetAndStep(w, r, 9, ptr, d, a, b, c, 0x8b44f7af, 12);
      c := SetAndStep(w, r, 10, ptr, c, d, a, b, 0xffff5bb1, 17);
      b := SetAndStep(w, r, 11, ptr, b, c, d, a, 0x895cd7be, 22);
      a := SetAndStep(w, r, 12, ptr, a, b, c, d, 0x6b901122, 7);
      d := SetAndStep(w, r, 13, ptr, d, a, b, c, 0xfd987193, 12);
      c := SetAndStep(w, r, 14, ptr, c, d, a, b, 0xa679438e, 17);
      b := SetAndStep(w, r, 15, ptr, b, c, d, a, 0x49b40821, 22);
    }

    method Round2(ghost w: seq<word>, ghost r: Regs, a0: word, b0: word, c0: word, d0: word)
        returns (a: word, b: word, c: word, d: word)
      requires block.Length == 16 && block[..] == w
      requires Operations(w, r, 16) == Regs(a0, b0, c0, d0)
      ensures Operations(w, r, 32) == Regs(a, b, c, d)
    {
      hide *;
      Constants2();
      Shape2();
      a, b, c, d := a0, b0, c0, d0;
      a := StepG(w, r, 16, a, b, c, d, block[1], 0xf61e2562, 5);
      d := StepG(w, r, 17, d, a, b, c, block[6], 0xc040b340, 9);
      c := StepG(w, r, 18, c, d, a, b, block[11], 0x265e5a51, 14);
      b := StepG(w, r, 19, b, c, d, a, block[0], 0xe9b6c7aa, 20);
      a := StepG(w, r, 20, a, b, c, d, block[5], 0xd62f105d, 5);
      d := StepG(w, r, 21, d, a, b, c, block[10], 0x02441453, 9);
      c := StepG(w, r, 22, c, d, a, b, block[15], 0xd8a1e681, 14);
      b := StepG(w, r, 23, b, c, d, a, block[4], 0xe7d3fbc8, 20);
      a := StepG(w, r, 24, a, b, c, d, block[9], 0x21e1cde6, 5);
      d := StepG(w, r, 25, d, a, b, c, block[14], 0xc33707d6, 9);
      c := StepG(w, r, 26, c, d, a, b, block[3], 0xf4d50d87, 14);
      b := StepG(w, r, 27, b, c, d, a, block[8], 0x455a14ed, 20);
      a := StepG(w, r, 28, a, b, c, d, block[13], 0xa9e3e905, 5);
      d := StepG(w, r, 29, d, a, b, c, block[2], 0xfcefa3f8, 9);
      c := StepG(w, r, 30, c, d, a, b, block[7], 0x676f02d9, 14);
      b := StepG(w, r, 31, b, c, d, a, block[12], 0x8d2a4c8a, 20);
    }

    method Round3(ghost w: seq<word>, ghost r: Regs, a0: word, b0: word, c0: word, d0: word)
        returns (a: word, b: word, c: word, d: word)
      requires block.Length == 16 && block[..] == w
      requires Operations(w, r, 32) == Regs(a0, b0, c0, d0)
      ensures Operations(w, r, 48) == Regs(a, b, c, d)
    {
      hide *;
      Constants3();
      Shape3();
      a, b, c, d := a0, b0, c0, d0;
      a := StepH(w, r, 32, a, b, c, d, block[5], 0xfffa3942, 4);
      d := StepH(w, r, 33, d, a, b, c, block[8], 0x8771f681, 11);
      c := StepH(w, r, 34, c, d, a, b, block[11], 0x6d9d6122, 16);
      b := StepH(w, r, 35, b, c, d, a, block[14], 0xfde5380c, 23);
      a := StepH(w, r, 36, a, b, c, d, block[1], 0xa4beea44, 4);
      d := StepH(w, r, 37, d, a, b, c, block[4], 0x4bdecfa9, 11);
      c := StepH(w, r, 38, c, d, a, b, block[7], 0xf6bb4b60, 16);
      b := StepH(w, r, 39, b, c, d, a, block[10], 0xbebfbc70, 23);
      a := StepH(w, r, 40, a, b, c, d, block[13], 0x289b7ec6, 4);
      d := StepH(w, r, 41, d, a, b, c, block[0], 0xeaa127fa, 11);
      c := StepH(w, r, 42, c, d, a, b, block[3], 0xd4ef3085, 16);
      b := StepH(w, r, 43, b, c, d, a, block[6], 0x04881d05, 23);
      a := StepH(w, r, 44, a, b, c, d, block[9], 0xd9d4d039, 4);
      d := StepH(w, r, 45, d, a, b, c, block[12], 0xe6db99e5, 11);
      c := StepH(w, r, 46, c, d, a, b, block[15], 0x1fa27cf8, 16);
      b := StepH(w, r, 47, b, c, d, a, block[2], 0xc4ac5665, 23);
    }

    method Round4(ghost w: seq<word>, ghost r: Regs, a0: word, b0: word, c0: word, d0: word)
        returns (a: word, b: word, c: word, d: word)
      requires block.Length == 16 && block[..] == w
      requires Operations(w, r, 48) == Regs(a0, b0, c0, d0)
      ensures Operations(w, r, 64) == Regs(a, b, c, d)
    {
      hide *;
      Constants4();
      Shape4();
      a, b, c, d := a0, b0, c0, d0;
      a := StepI(w, r, 48, a, b, c, d, block[0], 0xf4292244, 6);
      d := StepI(w, r, 49, d, a, b, c, block[7], 0x432aff97, 10);
      c := StepI(w, r, 50, c, d, a, b, block[14], 0xab9423a7, 15);
      b := StepI(w, r, 51, b, c, d, a, block[5], 0xfc93a039, 21);
      a := StepI(w, r, 52, a, b, c, d, block[12], 0x655b59c3, 6);
      d := StepI(w, r, 53, d, a, b, c, block[3], 0x8f0ccc92, 10);
      c := StepI(w, r, 54, c, d, a, b, block[10], 0xffeff47d, 15);
      b := StepI(w, r, 55, b, c, d, a, block[1], 0x85845dd1, 21);
      a := StepI(w, r, 56, a, b, c, d, block[8], 0x6fa87e4f, 6);
      d := StepI(w, r, 57, d, a, b, c, block[15], 0xfe2ce6e0, 10);
      c := StepI(w, r, 58, c, d, a, b, block[6], 0xa3014314, 15);
      b := StepI(w, r, 59, b, c, d, a, block[13], 0x4e0811a1, 21);
      a := StepI(w, r, 60, a, b, c, d, block[4], 0xf7537e82, 6);
      d := StepI(w, r, 61, d, a, b, c, block[11], 0xbd3af235, 10);
      c := StepI(w, r, 62, c, d, a, b, block[2], 0x2ad7d2bb, 15);
      b := StepI(w, r, 63, b, c, d, a, block[9], 0xeb86d391, 21);
    }

    /** The body of TransformFunction's loop. */
    method CompressBlock(ptr: seq<byte>, a0: word, b0: word, c0: word, d0: word)
        returns (a: word, b: word, c: word, d: word)
      requires |ptr| == 64 && block.Length == 16
      modifies block, this`compressions
      ensures Regs(a, b, c, d) == Compress(Regs(a0, b0, c0, d0), ptr)
      ensures compressions == old(compressions) + 1
    {
      hide Words, Plus;
      ghost var w, r := Words(ptr), Regs(a0, b0, c0, d0);
      var saved_a, saved_b, saved_c, saved_d := a0, b0, c0, d0;
      a, b, c, d := Round1(w, r, ptr, a0, b0, c0, d0);
      a, b, c, d := Round2(w, r, a, b, c, d);
      a, b, c, d := Round3(w, r, a, b, c, d);
      a, b, c, d := Round4(w, r, a, b, c, d);
      a := Plus(a, saved_a);
      b := Plus(b, saved_b);
      c := Plus(c, saved_c);
      d := Plus(d, saved_d);
      compressions := compressions + 1;
    }

    /** Runs over one or more whole blocks of `data`; the caller keeps the counters. What comes
        back is the data after them, as the pointer the C function returns. */
    method TransformFunction(data: seq<byte>, size: nat) returns (rest: seq<byte>)
      requires 0 < size <= |data| && size % 64 == 0
      requires block.Length == 16
      modifies this`a, this`b, this`c, this`d, this`compressions, block
      ensures Registers() == CompressAll(old(Registers()), data[..size])
      ensures compressions == old(compressions) + size / 64
      ensures rest == data[size..]
    {
      hide Compress, CompressAll;
      ghost var start := Registers();
      NoBlocks(start, data);
      var ptr, left := 0, size;
      var a, b, c, d := this.a, this.b, this.c, this.d;
      while true
        invariant ptr + left == size && 0 < left && ptr % 64 == left % 64 == 0
        invariant Regs(a, b, c, d) == CompressAll(start, data[..ptr])
        invariant Registers() == start && compressions == old(compressions) + ptr / 64
        decreases left
      {
        OneMoreBlock(start, data, ptr);
        a, b, c, d := CompressBlock(data[ptr..ptr + 64], a, b, c, d);
        ptr := ptr + 64;
        left := left - 64;
        if left == 0 { break; }
      }
      this.a, this.b, this.c, this.d := a, b, c, d;
      rest := data[ptr..];
    }

    /** The update of hi:lo, on uint32 values that wrap. */
    method Count(size: nat)
      requires size < 0x1_0000_0000 && Counts(|message|)
      modifies this`lo, this`hi
      ensures Counts(|message| + size)
    {
      CounterStep(|message|, size);
      var saved_lo := lo;
      lo := (saved_lo + size) % 0x1_0000_0000 % 0x2000_0000;
      if lo < saved_lo {
        hi := (hi + 1) % 0x1_0000_0000;
      }
      hi := (hi + size / 0x2000_0000) % 0x1_0000_0000;
    }

    /** The whole blocks `whole` have been compressed, each once. */
    ghost predicate Absorbed(whole: seq<byte>)
      reads this`a, this`b, this`c, this`d, this`compressions
    {
      |whole| % 64 == 0 && Registers() == CompressAll(INITIAL, whole) && compressions == |whole| / 64
    }

    /** TransformFunction, after the blocks `whole`. */
    method TransformBlocks(ghost whole: seq<byte>, data: seq<byte>, size: nat) returns (rest: seq<byte>)
      requires block.Length == 16 && Absorbed(whole)
      requires 0 < size <= |data| && size % 64 == 0
      modifies this`a, this`b, this`c, this`d, this`compressions, block
      ensures Absorbed(whole + data[..size]) && rest == data[size..]
    {
      hide CompressAll;
      CompressAllSplits(INITIAL, whole, data[..size]);
      BlocksAdd(|whole|, size);
      rest := TransformFunction(data, size);
    }

    /** TransformFunction on the buffer. */
    method TransformBuffer(ghost whole: seq<byte>)
      requires buffer.Length == 64 && block.Length == 16 && Absorbed(whole)
      modifies this`a, this`b, this`c, this`d, this`compressions, block
      ensures Absorbed(whole + buffer[..])
    {
      hide Absorbed;
      assert buffer[..][..64] == buffer[..];
      var _ := TransformBlocks(whole, buffer[..], 64);
    }

    /** The end of Md5Update: whole blocks straight from `rest`, the remainder into the buffer. */
    method AbsorbBlocks(ghost whole: seq<byte>, rest: seq<byte>)
      requires buffer.Length == 64 && block.Length == 16 && Counts(|message|)
      requires message == whole + rest && Absorbed(whole)
      modifies this`a, this`b, this`c, this`d, this`compressions, buffer, block
      ensures Valid()
    {
      hide Absorbed, Counts, Valid;
      ghost var whole, data := whole, rest;
      var rest := rest;
      if |rest| >= 64 {
        var size := |rest| / 64 * 64;
        assert size == Whole(|rest|);
        rest := TransformBlocks(whole, rest, size);
        assert data == data[..size] + rest;
        Associate(whole, data[..size], rest);
        whole := whole + data[..size];
      }
      ghost var before := buffer[..];
      Memcpy(buffer, 0, rest);
      FilledTo(before, [], rest, buffer[..]);
      ValidIf(whole, rest);
    }

    lemma LeftoverLength()
      requires Valid()
      ensures lo % 64 == |message| % 64
    {
      UsedIs(|message|);
    }

    /** What Valid means, with the message cut into whole blocks and leftover. */
    lemma ValidIf(whole: seq<byte>, left: seq<byte>)
      requires buffer.Length == 64 && block.Length == 16 && Counts(|message|)
      requires Absorbed(whole) && message == whole + left && |left| < 64 && left <= buffer[..]
      ensures Valid()
    {
      hide CompressAll, Counts, Whole;
      WholeAndLeftover(message, whole, left);
      WholeCount(|message|);
    }

    lemma ValidMeans() returns (whole: seq<byte>, left: seq<byte>)
      requires Valid()
      ensures buffer.Length == 64 && block.Length == 16 && Counts(|message|)
      ensures Absorbed(whole) && message == whole + left && |left| == lo % 64 && left <= buffer[..]
    {
      LeftoverLength();
      hide CompressAll, Counts, Whole;
      WholeCount(|message|);
      whole, left := message[..Whole(|message|)], message[Whole(|message|)..];
    }

    /** Too few bytes to complete the block in the buffer: they are only copied. */
    method Keep(ghost whole: seq<byte>, ghost left: seq<byte>, used: nat, data: seq<byte>)
      requires buffer.Length == 64 && block.Length == 16 && Counts(|message|) && Absorbed(whole)
      requires |left| == used && left <= buffer[..] && used + |data| < 64 && message == whole + left + data
      modifies buffer
      ensures Valid()
    {
      hide Absorbed, Counts, Valid;
      ghost var before := buffer[..];
      Memcpy(buffer, used, data);
      FilledTo(before, left, data, buffer[..]);
      Associate(whole, left, data);
      ValidIf(whole, left + data);
    }

    /** The block in the buffer is completed from `data` and compressed; what is left of `data` comes back. */
    method CompleteBlock(ghost whole: seq<byte>, ghost left: seq<byte>, used: nat, data: seq<byte>)
        returns (rest: seq<byte>, ghost more: seq<byte>)
      requires buffer.Length == 64 && block.Length == 16 && Absorbed(whole)
      requires |left| == used <= 64 && left <= buffer[..] && used + |data| >= 64
      modifies this`a, this`b, this`c, this`d, this`compressions, buffer, block
      ensures Absorbed(more) && more + rest == whole + left + data
    {
      hide Absorbed;
      ghost var before := buffer[..];
      var free := 64 - used;
      Memcpy(buffer, used, data[..free]);
      FilledTo(before, left, data[..free], buffer[..]);
      TransformBuffer(whole);
      rest, more := data[free..], whole + buffer[..];
      TopUp(whole, left, data, free);
    }

    /** Md5Update from the counter on: `data` goes behind the `used` bytes of the buffer. */
    method Take(ghost whole: seq<byte>, ghost left: seq<byte>, used: nat, data: seq<byte>)
      requires buffer.Length == 64 && block.Length == 16 && Counts(|message|) && Absorbed(whole)
      requires |left| == used < 64 && left <= buffer[..] && message == whole + left + data
      modifies this`a, this`b, this`c, this`d, this`compressions, buffer, block
      ensures Valid()
    {
      hide Absorbed, Counts, Valid;
      ghost var whole := whole;
      var rest := data;
      if used != 0 {
        var free := 64 - used;
        if |data| < free {
          Keep(whole, left, used, data);
          return;
        }
        rest, whole := CompleteBlock(whole, left, used, data);
      }
      AbsorbBlocks(whole, rest);
    }

    /** The counter and the message with `data` appended. */
    method Append(data: seq<byte>)
      requires |data| < 0x1_0000_0000 && Counts(|message|)
      modifies this`lo, this`hi, this`message
      ensures Counts(|message|) && message == old(message) + data
    {
      hide Counts;
      Count(|data|);
      message := message + data;
    }

    /** Md5Update, with BufferSize the length of `data`. */
    method Update(data: seq<byte>)
      requires Valid() && |data| < 0x1_0000_0000
      modifies this, buffer, block
      ensures Valid() && message == old(message) + data
    {
      ghost var whole, left := ValidMeans();
      hide *;
      var used := lo % 64;
      Append(data);
      Take(whole, left, used, data);
    }

    /** The length in bits, in the last eight bytes of the buffer. */
    method StoreLength(ghost n: nat)
      requires Counts(n) && buffer.Length == 64
      modifies this`lo, buffer
      ensures buffer[..] == old(buffer[..56]) + LengthField(n)
    {
      LengthBytes(n);
      hide LittleEndian, LengthField;
      lo := lo * 8 % 0x1_0000_0000;
      FourBytes(lo);
      FourBytes(hi);
      buffer[56] := ByteAt(lo, 1);
      buffer[57] := ByteAt(lo, 0x100);
      buffer[58] := ByteAt(lo, 0x1_0000);
      buffer[59] := ByteAt(lo, 0x100_0000);
      buffer[60] := ByteAt(hi, 1);
      buffer[61] := ByteAt(hi, 0x100);
      buffer[62] := ByteAt(hi, 0x1_0000);
      buffer[63] := ByteAt(hi, 0x100_0000);
    }

    /** The last block: zeros after the `used` bytes of the buffer, then the length. */
    method FinalBlock(ghost whole: seq<byte>, ghost left: seq<byte>, used: nat, ghost n: nat)
      requires buffer.Length == 64 && block.Length == 16 && Counts(n)
      requires |left| == used <= 56 && left <= buffer[..] && Absorbed(whole)
      modifies this`a, this`b, this`c, this`d, this`lo, this`compressions, buffer, block
      ensures Absorbed(WithLast(whole, left, n))
    {
      hide Absorbed, Counts, LengthField;
      ghost var before := buffer[..];
      Memset(buffer, used, 0, 56 - used);
      ZerosBehind(before, left, buffer[..]);
      StoreLength(n);
      TransformBuffer(whole);
    }

    /** The block without a length, when the marker leaves fewer than eight bytes free. */
    method SpareBlock(ghost whole: seq<byte>, ghost left: seq<byte>, used: nat)
      requires buffer.Length == 64 && block.Length == 16
      requires |left| == used <= 64 && left <= buffer[..] && Absorbed(whole)
      modifies this`a, this`b, this`c, this`d, this`compressions, buffer, block
      ensures Absorbed(WithSpare(whole, left))
    {
      hide Absorbed;
      ghost var before := buffer[..];
      Memset(buffer, used, 0, 64 - used);
      FilledTo(before, left, Zeros(64 - used), buffer[..]);
      TransformBuffer(whole);
    }

    /** The marker bit and byte. */
    method PutMarker(ghost left: seq<byte>, used: nat)
      requires buffer.Length == 64 && |left| == used < 64 && left <= buffer[..]
      modifies buffer
      ensures left + [0x80] <= buffer[..]
    {
      ghost var before := buffer[..];
      buffer[used] := 0x80;
      FilledTo(before, left, [0x80], buffer[..]);
    }

    /** If the length does not fit behind the marker, a block without it goes first. */
    method MakeRoom(ghost whole: seq<byte>, ghost left: seq<byte>, used0: nat)
        returns (ghost done: seq<byte>, ghost rest: seq<byte>, used: nat)
      requires buffer.Length == 64 && block.Length == 16
      requires 0 < |left| == used0 <= 64 && left <= buffer[..] && Absorbed(whole)
      requires whole + left == message + [0x80]
      modifies this`a, this`b, this`c, this`d, this`compressions, buffer, block
      ensures |rest| == used <= 56 && rest <= buffer[..] && Absorbed(done)
      ensures Padded(message) == WithLast(done, rest, |message|)
    {
      WholeBlocks(whole);
      hide *;
      done, rest := whole, left;
      used := used0;
      var free := 64 - used;
      if free < 8 {
        TwoBlocksEnd(message, whole, left);
        SpareBlock(whole, left, used);
        done, rest := WithSpare(whole, left), [];
        used := 0;
        free := 64;
      } else {
        OneBlockEnds(message, whole, left);
      }
    }

    /** Zeros and the length behind the marker, in one block or in two. */
    method PadBlocks(ghost whole: seq<byte>, ghost left: seq<byte>, used0: nat)
      requires buffer.Length == 64 && block.Length == 16 && Counts(|message|)
      requires 0 < |left| == used0 <= 64 && left <= buffer[..] && Absorbed(whole)
      requires whole + left == message + [0x80]
      modifies this`a, this`b, this`c, this`d, this`lo, this`compressions, buffer, block
      ensures Absorbed(Padded(message))
    {
      hide *;
      ghost var done, rest;
      var used;
      done, rest, used := MakeRoom(whole, left, used0);
      FinalBlock(done, rest, used, |message|);
    }

    /** Md5Finalise. The context is spent afterwards. */
    method Finalise() returns (digest: seq<byte>)
      requires Valid()
      modifies this, buffer, block
      ensures digest == Md5Of(old(message))
      ensures compressions == (|old(message)| + 9 + 63) / 64
    {
      ghost var whole, left := ValidMeans();
      hide Absorbed, Counts, Valid, Padded;
      var used := lo % 64;
      PutMarker(left, used);
      Associate(whole, left, [0x80]);
      PadBlocks(whole, left + [0x80], used + 1);
      AllAbsorbed(message);
      digest := WordBytes(a) + WordBytes(b) + WordBytes(c) + WordBytes(d);
    }

    lemma WholeBlocks(whole: seq<byte>)
      requires Absorbed(whole)
      ensures |whole| % 64 == 0
    {
    }

    lemma AllAbsorbed(message: seq<byte>)
      requires Absorbed(Padded(message))
      ensures WordBytes(a) + WordBytes(b) + WordBytes(c) + WordBytes(d) == Md5Of(message)
      ensures compressions == (|message| + 9 + 63) / 64
    {
      hide CompressAll, LengthField, WordBytes;
      PaddingIsShortest(|message|);
    }
  }

  /** The state between calls depends on the bytes fed only, not on how they were cut into updates:
      registers, counters and the live part of the buffer are the same. */
  lemma SameMessageSameState(x: Md5Context, y: Md5Context)
    requires x.Valid() && y.Valid() && x.message == y.message
    ensures x.Registers() == y.Registers() && x.lo == y.lo && x.hi == y.hi
    ensures x.buffer[..x.lo % 64] == y.buffer[..y.lo % 64]
  {
    hide CompressAll, Whole;
    x.UsedIs(|x.message|);
    y.UsedIs(|y.message|);
  }

  /** Any run of updates on a fresh context, of any sizes uint32 can hold, ends in the MD5 of the bytes
      joined, and with n bytes in all it takes ceil((n + 9) / 64) compressions. */
  method HashInParts(parts: seq<seq<byte>>) returns (digest: seq<byte>, ghost compressions: nat)
    requires forall k :: 0 <= k < |parts| ==> |parts[k]| < 0x1_0000_0000
    ensures digest == Md5Of(Concat(parts))
    ensures compressions == (|Concat(parts)| + 9 + 63) / 64
  {
    hide CompressAll, Whole, Md5Of, Md5Context.Valid;
    var context := new Md5Context();
    for k := 0 to |parts|
      invariant fresh(context) && fresh(context.buffer) && fresh(context.block)
      invariant context.Valid() && context.message == Concat(parts[..k])
    {
      assert parts[..k + 1][..k] == parts[..k];
      context.Update(parts[k]);
    }
    assert parts[..|parts|] == parts;
    digest := context.Finalise();
    compressions := context.compressions;
  }

  /** Md5Calculate */
  method Calculate(buffer: seq<byte>) returns (digest: seq<byte>)
    requires |buffer| < 0x1_0000_0000
    ensures digest == Md5Of(buffer)
  {
    hide CompressAll, Whole, Md5Of, Md5Context.Valid;
    var context := new Md5Context();
    context.Update(buffer);
    assert [] + buffer == buffer;
    digest := context.Finalise();
  }
}
