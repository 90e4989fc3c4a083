/** Bytes, words and the little-endian encodings that MD5 and ELF share. */
module Bytes {
  newtype byte = x: int | 0 <= x < 256
  type word = bv32

  // Words, low-order byte first (RFC 1321 section 2).

  function Widen(p: byte): word { (p as bv8) as word }

  /** The low-order byte of `w`, as a cast to uint8_t takes it. */
  function Narrow(w: word): byte { ((w & 0xff) as bv8) as byte }

  function WordOf(p: byte, q: byte, r: byte, s: byte): word {
    Widen(p) | (Widen(q) << 8) | (Widen(r) << 16) | (Widen(s) << 24)
  }

  function Words(s: seq<byte>): (w: seq<word>)
    requires |s| % 4 == 0
    ensures |w| == |s| / 4
  {
    seq(|s| / 4, i requires 0 <= i < |s| / 4 => WordOf(s[4 * i], s[4 * i + 1], s[4 * i + 2], s[4 * i + 3]))
  }

  function WordBytes(w: word): (s: seq<byte>)
    ensures |s| == 4
  {
    [Narrow(w), Narrow(w >> 8), Narrow(w >> 16), Narrow(w >> 24)]
  }

  lemma BitsRoundTrip(b: bv8)
    ensures (b as byte) as bv8 == b
  {
  }

  lemma WidenNarrow(w: word)
    ensures Widen(Narrow(w)) == w & 0xff
  {
    calc {
      Widen(Narrow(w));
      Widen(((w & 0xff) as bv8) as byte);
      ((((w & 0xff) as bv8) as byte) as bv8) as word;
      { BitsRoundTrip((w & 0xff) as bv8); }
      ((w & 0xff) as bv8) as word;
      w & 0xff;
    }
  }

  /** No two words have the same four bytes. */
  lemma WordRoundTrip(w: word)
    ensures var s := WordBytes(w); WordOf(s[0], s[1], s[2], s[3]) == w
  {
    hide Widen, Narrow;
    WidenNarrow(w);
    WidenNarrow(w >> 8);
    WidenNarrow(w >> 16);
    WidenNarrow(w >> 24);
    Reassemble(w);
  }

  lemma Reassemble(w: word)
    ensures (w & 0xff) | (((w >> 8) & 0xff) << 8) | (((w >> 16) & 0xff) << 16) | (((w >> 24) & 0xff) << 24) == w
  {
  }

  // Numbers.

  /** The `width` low-order bytes of `n`, lowest first. */
  function LittleEndian(n: nat, width: nat): (s: seq<byte>)
    ensures |s| == width
  {
    if width == 0 then [] else [(n % 256) as byte] + LittleEndian(n / 256, width - 1)
  }

  function FromLittleEndian(s: seq<byte>): nat {
    if s == [] then 0 else s[0] as nat + 256 * FromLittleEndian(s[1..])
  }

  function Power256(width: nat): (p: nat)
    ensures p > 0
  {
    if width == 0 then 1 else 256 * Power256(width - 1)
  }

  lemma {:induction false} LittleEndianRoundTrip(n: nat, width: nat)
    requires n < Power256(width)
    ensures FromLittleEndian(LittleEndian(n, width)) == n
  {
    if width > 0 {
      LittleEndianRoundTrip(n / 256, width - 1);
      assert LittleEndian(n, width)[1..] == LittleEndian(n / 256, width - 1);
    }
  }

  function Concat(pieces: seq<seq<byte>>): seq<byte> {
    if pieces == [] then [] else Concat(pieces[..|pieces| - 1]) + pieces[|pieces| - 1]
  }

  lemma Associate(x: seq<byte>, y: seq<byte>, z: seq<byte>)
    ensures x + y + z == x + (y + z)
  {
  }

  /** The codes of the characters. */
  function Text(s: string): (t: seq<byte>)
    ensures |t| == |s| && forall i :: 0 <= i < |s| && s[i] as int < 256 ==> t[i] as int == s[i] as int
  {
    seq(|s|, i requires 0 <= i < |s| => if s[i] as int < 256 then s[i] as int as byte else 0)
  }

  function Zeros(n: nat): (s: seq<byte>)
    ensures |s| == n
  {
    seq(n, _ => 0)
  }
}
