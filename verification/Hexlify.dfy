/** src/hexlify.c: bytes as a hexadecimal string, appended digit pair by digit pair. */
module Hexlify {
  import opened Bytes
  import opened CLib

  function HexDigit(d: nat): byte
    requires d < 16
  {
    if d < 10 then 48 + d as byte else 87 + d as byte
  }

  function DigitValue(c: byte): (d: nat)
    ensures d < 16
  {
    if 48 <= c < 58 then c as nat - 48 else if 97 <= c < 103 then c as nat - 87 else 0
  }

  /** What sprintf writes for "%02x". */
  function HexPair(b: byte): (pair: seq<byte>)
    ensures |pair| == 2 && 0 !in pair
  {
    [HexDigit(b as nat / 16), HexDigit(b as nat % 16)]
  }

  function HexOf(bytes: seq<byte>): (hex: seq<byte>)
    ensures |hex| == 2 * |bytes| && 0 !in hex
  {
    if bytes == [] then [] else HexOf(bytes[..|bytes| - 1]) + HexPair(bytes[|bytes| - 1])
  }

  function ByteOf(high: byte, low: byte): byte {
    (16 * DigitValue(high) + DigitValue(low)) as byte
  }

  /** The bytes a string of digit pairs stands for. */
  function Unhex(hex: seq<byte>): seq<byte>
    requires |hex| % 2 == 0
  {
    if hex == [] then []
    else
      var n := |hex| - 2;
      Unhex(hex[..n]) + [ByteOf(hex[n], hex[n + 1])]
  }

  lemma DigitRoundTrip(d: nat)
    requires d < 16
    ensures DigitValue(HexDigit(d)) == d
  {
  }

  lemma PairRoundTrip(b: byte)
    ensures ByteOf(HexPair(b)[0], HexPair(b)[1]) == b
  {
    var n := b as nat;
    DigitRoundTrip(n / 16);
    DigitRoundTrip(n % 16);
    hide DigitValue, HexDigit;
    assert 16 * (n / 16) + n % 16 == n;
  }

  lemma UnhexAppends(hex: seq<byte>, pair: seq<byte>)
    requires |hex| % 2 == 0 && |pair| == 2
    ensures Unhex(hex + pair) == Unhex(hex) + [ByteOf(pair[0], pair[1])]
  {
    hide ByteOf;
    assert (hex + pair)[..|hex + pair| - 2] == hex;
  }

  lemma {:induction false} HexRoundTrip(bytes: seq<byte>)
    ensures Unhex(HexOf(bytes)) == bytes
  {
    hide Unhex, HexPair, ByteOf;
    if bytes == [] {
      UnhexNothing();
    } else {
      var front, last := bytes[..|bytes| - 1], bytes[|bytes| - 1];
      HexRoundTrip(front);
      UnhexAppends(HexOf(front), HexPair(last));
      PairRoundTrip(last);
    }
  }

  lemma UnhexNothing()
    ensures Unhex([]) == []
  {
  }

  /** Different bytes have different strings. */
  lemma HexIsInjective(x: seq<byte>, y: seq<byte>)
    requires HexOf(x) == HexOf(y)
    ensures x == y
  {
    HexRoundTrip(x);
    HexRoundTrip(y);
  }

  /** The two characters are the hexadecimal digits of the byte. */
  predicate IsHexPair(b: byte, high: byte, low: byte) {
    && high as int == "0123456789abcdef"[b as int / 16] as int
    && low as int == "0123456789abcdef"[b as int % 16] as int
  }

  /** Characters 2i and 2i + 1 are those of byte i. */
  predicate IsHexText(bytes: seq<byte>, hex: seq<byte>) {
    && |hex| == 2 * |bytes|
    && forall i :: 0 <= i < |bytes| ==> IsHexPair(bytes[i], hex[2 * i], hex[2 * i + 1])
  }

  lemma PairIsHex(b: byte)
    ensures IsHexPair(b, HexPair(b)[0], HexPair(b)[1])
  {
    DigitIsHex(b as nat / 16);
    DigitIsHex(b as nat % 16);
  }

  lemma DigitIsHex(d: nat)
    requires d < 16
    ensures HexDigit(d) as int == "0123456789abcdef"[d] as int
  {
  }

  lemma HexTextAppends(bytes: seq<byte>, hex: seq<byte>, b: byte, pair: seq<byte>)
    requires IsHexText(bytes, hex) && |pair| == 2 && IsHexPair(b, pair[0], pair[1])
    ensures IsHexText(bytes + [b], hex + pair)
  {
    hide IsHexPair;
    forall i | 0 <= i < |bytes + [b]|
      ensures IsHexPair((bytes + [b])[i], (hex + pair)[2 * i], (hex + pair)[2 * i + 1])
    {
      if i < |bytes| {
        assert IsHexPair(bytes[i], hex[2 * i], hex[2 * i + 1]);
      }
    }
  }

  lemma {:induction false} HexIsHexText(bytes: seq<byte>)
    ensures IsHexText(bytes, HexOf(bytes))
  {
    hide HexPair, IsHexPair;
    if bytes != [] {
      var front, last := bytes[..|bytes| - 1], bytes[|bytes| - 1];
      HexIsHexText(front);
      PairIsHex(last);
      hide IsHexText;
      assert bytes == front + [last];
      HexTextAppends(front, HexOf(front), last, HexPair(last));
    }
  }

  /** appimage_hexlify. Every strcat finds the first NUL where the digits so far end, and none writes
      outside the 2 * n + 1 bytes. */
  method HexlifyBytes(bytes: seq<byte>) returns (hexlified: array<byte>)
    ensures fresh(hexlified) && hexlified.Length == 2 * |bytes| + 1
    ensures hexlified[..] == HexOf(bytes) + [0]
    ensures CString(hexlified[..]) == HexOf(bytes)
    ensures IsHexText(bytes, hexlified[..2 * |bytes|])
  {
    hexlified := new byte[2 * |bytes| + 1](_ => 0);
    assert hexlified[..] == HexOf([]) + [0] + Zeros(2 * |bytes|);
    for i := 0 to |bytes|
      invariant hexlified[..] == HexOf(bytes[..i]) + [0] + Zeros(2 * (|bytes| - i))
    {
      CStringOf(HexOf(bytes[..i]), Zeros(2 * (|bytes| - i)));
      assert bytes[..i + 1][..i] == bytes[..i];
      Strcat(hexlified, HexPair(bytes[i]));
      assert hexlified[..] == HexOf(bytes[..i + 1]) + [0] + Zeros(2 * (|bytes| - i) - 2);
    }
    assert bytes[..|bytes|] == bytes;
    assert Zeros(0) == [];
    CStringOf(HexOf(bytes), []);
    assert hexlified[..] == HexOf(bytes) + [0] + [];
    HexIsHexText(bytes);
    assert hexlified[..2 * |bytes|] == HexOf(bytes);
  }
}
