/** src/appimagetool_sign.c: hashing the AppImage and embedding signature and key. The hash, the
    signature and the exported key are opaque functions and data. */
module Sign {
  import opened Bytes
  import opened CLib
  import opened Elf
  import opened Hexlify
  import opened Digest

  /** A gpgme data object: the size a seek to its end reports, and what successive reads from its
      start return until one returns nothing. Every read returns at most `size` bytes. */
  datatype DataObject = DataObject(size: nat, pieces: seq<seq<byte>>)

  /** What a buffer that is not initialised holds. */
  type Garbage = nat -> byte

  function Uninitialised(n: nat, garbage: Garbage): (buffer: seq<byte>)
    ensures |buffer| == n
  {
    seq(n, i requires 0 <= i => garbage(i))
  }

  predicate ReadsFit(data: DataObject) {
    forall k :: 0 <= k < |data.pieces| ==> 0 < |data.pieces[k]| <= data.size
  }

  /** The buffer after the pieces: each of them starts at its front again. */
  function Overlay(buffer: seq<byte>, pieces: seq<seq<byte>>): (r: seq<byte>)
    ensures |r| >= |buffer|
    ensures (forall k :: 0 <= k < |pieces| ==> |pieces[k]| <= |buffer|) ==> |r| == |buffer|
  {
    if pieces == [] then buffer else Overwrite(Overlay(buffer, pieces[..|pieces| - 1]), 0, pieces[|pieces| - 1])
  }

  /** The file with `data` embedded in the section found under `name`, if that succeeds. */
  ghost function Embedded(file: seq<byte>, name: seq<byte>, data: DataObject, garbage: Garbage): Option<seq<byte>>
    requires Readable(file)
  {
    var s := FindSection(file, name).GetOr(NOT_FOUND);
    if ClassOf(file).None? || s.offset == 0 || s.length == 0
       || data.size > s.length || |Concat(data.pieces)| != data.size
    then None
    else Some(Overwrite(file, s.offset, Overlay(Uninitialised(data.size, garbage), data.pieces)))
  }

  /** The read loop of embed_data_in_elf_section. */
  method ReadObject(data: DataObject, garbage: Garbage) returns (buffer: array<byte>, total: nat)
    requires ReadsFit(data)
    ensures fresh(buffer) && buffer[..] == Overlay(Uninitialised(data.size, garbage), data.pieces)
    ensures total == |Concat(data.pieces)|
  {
    hide Overlay, Concat;
    buffer := new byte[data.size](i requires 0 <= i => garbage(i));
    ghost var before := buffer[..];
    assert before == Uninitialised(data.size, garbage);
    NothingRead(before, data.pieces);
    total := 0;
    var k := 0;
    while k < |data.pieces|
      invariant k <= |data.pieces| && total == |Concat(data.pieces[..k])|
      invariant buffer[..] == Overlay(before, data.pieces[..k])
    {
      OneMoreRead(before, data.pieces, k);
      Memcpy(buffer, 0, data.pieces[k]);
      total := total + |data.pieces[k]|;
      k := k + 1;
    }
    assert data.pieces[..k] == data.pieces;
  }

  lemma NothingRead(buffer: seq<byte>, pieces: seq<seq<byte>>)
    ensures Overlay(buffer, pieces[..0]) == buffer && Concat(pieces[..0]) == []
  {
  }

  lemma OneMoreRead(buffer: seq<byte>, pieces: seq<seq<byte>>, k: nat)
    requires k < |pieces| && forall l :: 0 <= l < |pieces| ==> |pieces[l]| <= |buffer|
    ensures |Overlay(buffer, pieces[..k])| == |buffer|
    ensures Overlay(buffer, pieces[..k + 1]) == pieces[k] + Overlay(buffer, pieces[..k])[|pieces[k]|..]
    ensures Concat(pieces[..k + 1]) == Concat(pieces[..k]) + pieces[k]
  {
    hide Overwrite;
    assert pieces[..k + 1][..k] == pieces[..k];
    OverwriteAtFront(Overlay(buffer, pieces[..k]), pieces[k]);
  }

  lemma OverwriteAtFront(buffer: seq<byte>, piece: seq<byte>)
    requires |piece| <= |buffer|
    ensures Overwrite(buffer, 0, piece) == piece + buffer[|piece|..]
  {
  }

  /** embed_data_in_elf_section. When it fails the file is as it was. */
  method EmbedDataInElfSection(filename: DiskFile, name: seq<byte>, data: DataObject, garbage: Garbage)
      returns (ok: bool)
    requires Readable(filename.bytes) && ReadsFit(data)
    modifies filename
    ensures ok <==> Embedded(old(filename.bytes), name, data, garbage).Some?
    ensures filename.bytes == Embedded(old(filename.bytes), name, data, garbage).GetOr(old(filename.bytes))
  {
    hide Overwrite, Overlay, Concat;
    var offset, length;
    ok, offset, length := GetSectionOffsetAndLength(filename.bytes, name, 0, 0);
    if !ok || offset == 0 || length == 0 { return false; }
    if data.size > length { return false; }
    var buffer, total := ReadObject(data, garbage);
    if total != data.size { return false; }
    var fp := new Stream(filename);
    fp.SeekSet(offset);
    fp.Write(buffer[..]);
    return true;
  }

  // When the embedded bytes are the object's bytes.

  function Sum(sizes: seq<nat>): nat {
    if sizes == [] then 0 else Sum(sizes[..|sizes| - 1]) + sizes[|sizes| - 1]
  }

  /** `content` returned in reads of the given sizes. */
  function Split(content: seq<byte>, sizes: seq<nat>): (pieces: seq<seq<byte>>)
    requires Sum(sizes) == |content|
    ensures |pieces| == |sizes|
    ensures forall k :: 0 <= k < |pieces| ==> |pieces[k]| == sizes[k]
    decreases |sizes|
  {
    if sizes == [] then []
    else
      var n := Sum(sizes[..|sizes| - 1]);
      Split(content[..n], sizes[..|sizes| - 1]) + [content[n..]]
  }

  lemma {:induction false} SplitConcat(content: seq<byte>, sizes: seq<nat>)
    requires Sum(sizes) == |content|
    ensures Concat(Split(content, sizes)) == content
    decreases |sizes|
  {
    if sizes != [] {
      var n := Sum(sizes[..|sizes| - 1]);
      SplitConcat(content[..n], sizes[..|sizes| - 1]);
      var pieces := Split(content, sizes);
      assert pieces[..|pieces| - 1] == Split(content[..n], sizes[..|sizes| - 1]);
    }
  }

  /** One read, or none, puts exactly the contents into a buffer of their size. */
  lemma OneReadEmbedsAll(pieces: seq<seq<byte>>, buffer: seq<byte>)
    requires |pieces| <= 1 && |Concat(pieces)| == |buffer|
    ensures Overlay(buffer, pieces) == Concat(pieces)
  {
    if |pieces| == 1 {
      assert pieces[..0] == [] && Concat(pieces) == pieces[0];
      OverwriteAtFront(buffer, pieces[0]);
    }
  }

  lemma OneReadIsRight(content: seq<byte>, sizes: seq<nat>, garbage: seq<byte>)
    requires |garbage| == Sum(sizes) == |content| && |sizes| <= 1
    ensures Overlay(garbage, Split(content, sizes)) == content
  {
    SplitConcat(content, sizes);
    OneReadEmbedsAll(Split(content, sizes), garbage);
  }

  lemma SecondReadOverwrites(sizes: seq<nat>, garbage: seq<byte>) returns (content: seq<byte>)
    requires |garbage| == Sum(sizes) && |sizes| > 1
    requires forall k :: 0 <= k < |sizes| ==> 0 < sizes[k]
    ensures |content| == Sum(sizes) && Overlay(garbage, Split(content, sizes)) != content
  {
    content := seq(Sum(sizes), i => if i == 0 then 1 else 0);
    var front, pieces := sizes[..|sizes| - 1], Split(content, sizes);
    var n, last := Sum(front), |sizes| - 1;
    assert front[|front| - 1] > 0;
    assert pieces[last] == content[n..];
    var before := Overlay(garbage, pieces[..last]);
    assert Overwrite(before, 0, pieces[last])[0..|pieces[last]|] == pieces[last];
    assert Overlay(garbage, pieces)[0] == pieces[last][0];
  }

  /** The reads give the buffer the object's contents, whatever they are, exactly when there is one
      read at most: a second one starts at the front of the buffer again. */
  lemma OneReadIsExact(sizes: seq<nat>, garbage: seq<byte>)
    requires |garbage| == Sum(sizes) && forall k :: 0 <= k < |sizes| ==> 0 < sizes[k]
    ensures |sizes| <= 1
       <==> forall content: seq<byte> :: |content| == Sum(sizes) ==> Overlay(garbage, Split(content, sizes)) == content
  {
    hide Overlay, Split;
    if |sizes| <= 1 {
      forall content: seq<byte> | |content| == Sum(sizes)
        ensures Overlay(garbage, Split(content, sizes)) == content
      {
        OneReadIsRight(content, sizes, garbage);
      }
    } else {
      var content := SecondReadOverwrites(sizes, garbage);
    }
  }

  /** calculate_sha256_hex_digest: what the chunked reads feed to the hash is the whole file. */
  method CalculateSha256HexDigest(filename: DiskFile, sha256: seq<byte> -> seq<byte>) returns (hex: seq<byte>)
    ensures hex == HexOf(sha256(filename.bytes)) && IsHexText(sha256(filename.bytes), hex)
  {
    var file := new Stream(filename);
    var readBuffer := new byte[4096];
    var hashed := [];
    while true
      invariant file.file == filename && filename.bytes == old(filename.bytes) && !file.eof
      invariant fresh(file) && fresh(readBuffer) && readBuffer.Length == 4096
      invariant file.cursor == |hashed| <= |filename.bytes| && hashed == filename.bytes[..file.cursor]
      decreases |filename.bytes| - file.cursor
    {
      var bytesRead := file.Read(readBuffer, 0, 4096);
      hashed := hashed + readBuffer[..bytesRead];
      if file.eof { break; }
    }
    assert hashed == filename.bytes;
    var hexlified := HexlifyBytes(sha256(hashed));
    hex := hexlified[..hexlified.Length - 1];
  }

  /** What a signing run uses: the hash, the signature made from the hexadecimal digest, the exported
      key, and the contents of uninitialised buffers. */
  datatype Signer = Signer(sha256: seq<byte> -> seq<byte>, sign: seq<byte> -> DataObject, key: DataObject,
                           garbage: Garbage)

  ghost predicate SignerFits(signer: Signer) {
    ReadsFit(signer.key) && forall hex :: ReadsFit(signer.sign(hex))
  }

  function SignatureOf(signer: Signer, file: seq<byte>): DataObject {
    signer.sign(HexOf(signer.sha256(file)))
  }

  /** sign_appimage: hash the file as it is, embed the signature, embed the key. The two functions of
      the signer are asked only once the file is final but for its signature and key. */
  method SignAppImage(filename: DiskFile, signer: Signer) returns (ok: bool)
    requires Readable(filename.bytes) && SignerFits(signer)
    requires KeyIsReachable(filename.bytes, signer)
    modifies filename
    ensures var file := old(filename.bytes);
            var signed := Embedded(file, Sha256SigName(), SignatureOf(signer, file), signer.garbage);
            if signed.None? then !ok && filename.bytes == file
            else
              var keyed := Embedded(signed.value, SigKeyName(), signer.key, signer.garbage);
              ok == keyed.Some? && filename.bytes == keyed.GetOr(signed.value)
  {
    var hexDigest := CalculateSha256HexDigest(filename, signer.sha256);
    ok := EmbedDataInElfSection(filename, Sha256SigName(), signer.sign(hexDigest), signer.garbage);
    if !ok { return; }
    ok := EmbedDataInElfSection(filename, SigKeyName(), signer.key, signer.garbage);
  }

  /** After the signature the section table can still be read. */
  ghost predicate KeyIsReachable(file: seq<byte>, signer: Signer)
    requires Readable(file)
  {
    var signed := Embedded(file, Sha256SigName(), SignatureOf(signer, file), signer.garbage);
    signed.Some? ==> Readable(signed.value)
  }
}
