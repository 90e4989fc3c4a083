/** src/digest.c: the MD5 of an AppImage without its digest, signature and key sections. */
module Digest {
  import opened Bytes
  import opened CLib
  import opened DigestSpec
  import opened DigestProof
  import opened Md5Spec
  import opened Md5
  import opened Elf

  function DigestMd5Name(): seq<byte> { Text(".digest_md5") }

  function Sha256SigName(): seq<byte> { Text(".sha256_sig") }

  function SigKeyName(): seq<byte> { Text(".sig_key") }

  const NOT_FOUND := Section(0, 0)

  /** The three sections that do not count, found by name; (0, 0) stands for one that is missing. */
  ghost function MaskedSections(data: seq<byte>): (sections: seq<Section>)
    requires Readable(data)
    ensures |sections| == 3
  {
    [FindSection(data, DigestMd5Name()).GetOr(NOT_FOUND),
     FindSection(data, Sha256SigName()).GetOr(NOT_FOUND),
     FindSection(data, SigKeyName()).GetOr(NOT_FOUND)]
  }

  ghost function DigestOf(data: seq<byte>, fill: Fill): seq<byte>
    requires Readable(data)
  {
    Md5Of(Fed(MaskedSections(data), data, fill))
  }

  /** The block for one section. */
  method SkipSection(fp: Stream, buffer: array<byte>, s: Section, position: nat, left0: nat, carry0: nat)
      returns (left: nat, carry: nat)
    requires buffer.Length == CHUNK && left0 <= CHUNK
    modifies fp, buffer
    ensures Turn(buffer[..], fp.cursor, left, carry)
         == MaskSection(s, position, fp.file.bytes, old(Turn(buffer[..], fp.cursor, left0, carry0)))
  {
    left, carry := left0, carry0;
    if s.offset != 0 && s.length != 0 && position < s.offset < position + CHUNK {
      var begin := s.offset - position;
      var _ := fp.Read(buffer, 0, begin);
      var bytesLeft: int := left0 - begin;
      bytesLeft := bytesLeft - s.length;
      if bytesLeft < 0 {
        carry := -1 * bytesLeft;
        bytesLeft := 0;
      }
      left := bytesLeft;
      fp.SeekCur(CHUNK - left - begin);
    }
  }

  /** One turn of the loop up to the point where the buffer is complete. */
  method FillChunk(fp: Stream, buffer: array<byte>, md5: Section, signature: Section, key: Section, carry0: nat)
      returns (carry: nat)
    requires buffer.Length == CHUNK
    modifies fp, buffer
    ensures var t := ChunkTurn([md5, signature, key], fp.file.bytes, old(buffer[..]), old(fp.cursor), carry0);
            buffer[..] == t.buffer && fp.cursor == t.cursor && carry == t.carry
  {
    hide MaskSection, ReadInto;
    ghost var file, before := fp.file.bytes, buffer[..];
    var position := fp.cursor;
    var left: nat := CHUNK;
    carry := carry0;
    if carry > 0 {
      var skip := if carry % CHUNK == 0 then CHUNK else carry % CHUNK;
      left := left - skip;
      carry := carry - skip;
      fp.SeekCur(skip);
    }
    ghost var t := SkipCarry(position, carry0, before);
    assert Turn(buffer[..], fp.cursor, left, carry) == t;
    left, carry := SkipSection(fp, buffer, md5, position, left, carry);
    left, carry := SkipSection(fp, buffer, signature, position, left, carry);
    left, carry := SkipSection(fp, buffer, key, position, left, carry);
    ThreeBlocks(md5, signature, key, position, file, t);
    if left > 0 {
      var _ := fp.Read(buffer, CHUNK - left, left);
    }
  }

  /** appimage_type2_digest_md5. It fails only on an ELF class it does not know. */
  method Type2DigestMd5(path: DiskFile, fill: Fill) returns (ok: bool, digest: seq<byte>)
    requires Readable(path.bytes)
    ensures ok <==> ClassOf(path.bytes).Some?
    ensures ok ==> digest == DigestOf(path.bytes, fill)
  {
    digest := [];
    var md5Offset, md5Length;
    ok, md5Offset, md5Length := GetSectionOffsetAndLength(path.bytes, Text(".digest_md5"), 0, 0);
    if !ok { return; }
    var signatureOffset, signatureLength;
    ok, signatureOffset, signatureLength := GetSectionOffsetAndLength(path.bytes, Text(".sha256_sig"), 0, 0);
    if !ok { return; }
    var keyOffset, keyLength;
    ok, keyOffset, keyLength := GetSectionOffsetAndLength(path.bytes, Text(".sig_key"), 0, 0);
    if !ok { return; }
    digest := DigestWithout(path, fill, Section(md5Offset, md5Length),
                            Section(signatureOffset, signatureLength), Section(keyOffset, keyLength));
  }

  /** The body of the loop: fill a buffer of indeterminate contents and feed all of it. No update finds or
      leaves bytes in the buffer of the context. */
  method FeedChunk(fp: Stream, context: Md5Context, fill: Fill, turn: nat,
                   md5: Section, signature: Section, key: Section, carry0: nat)
      returns (carry: nat)
    requires context.Valid() && fp as object !in {context, context.buffer, context.block}
    requires context.lo % 64 == 0
    modifies fp, context, context.buffer, context.block
    ensures context.Valid()
    ensures var t := ChunkTurn([md5, signature, key], fp.file.bytes, FillOf(fill, turn), old(fp.cursor), carry0);
            context.message == old(context.message) + t.buffer && fp.cursor == t.cursor && carry == t.carry
    ensures context.lo % 64 == 0
  {
    hide ChunkTurn, Md5Context.Valid;
    context.LeftoverLength();
    var buffer := new byte[CHUNK](j requires 0 <= j => fill(turn, j));
    assert buffer[..] == FillOf(fill, turn);
    carry := FillChunk(fp, buffer, md5, signature, key, carry0);
    context.Update(buffer[..]);
    context.LeftoverLength();
    WholeChunkAdded(|old(context.message)|);
  }

  lemma WholeChunkAdded(n: nat)
    ensures (n + CHUNK) % 64 == n % 64
  {
  }

  lemma RunBegins(sections: seq<Section>, file: seq<byte>, fill: Fill)
    ensures Run(sections, file, fill, 0) == Progress([], 0, 0)
  {
  }

  lemma RunGoesOn(sections: seq<Section>, file: seq<byte>, fill: Fill, turn: nat)
    ensures var p := Run(sections, file, fill, turn);
            var t := ChunkTurn(sections, file, FillOf(fill, turn), p.cursor, p.carry);
            Run(sections, file, fill, turn + 1) == Progress(p.fed + t.buffer, t.cursor, t.carry)
    ensures |Run(sections, file, fill, turn).fed| % 64 == 0
  {
    hide ChunkTurn, FillOf;
  }

  /** The loop ends after exactly as many turns as the file has chunks, the last one begun or full. */
  lemma RunEnds(sections: seq<Section>, file: seq<byte>, fill: Fill, turn: nat)
    requires (turn == 0 || 4096 * (turn - 1) < |file|) && |file| <= 4096 * turn
    ensures turn == ChunkCount(|file|) && Fed(sections, file, fill) == Run(sections, file, fill, turn).fed
  {
  }

  /** The loop over the chunks. */
  method DigestWithout(path: DiskFile, fill: Fill, md5: Section, signature: Section, key: Section)
      returns (digest: seq<byte>)
    ensures digest == Md5Of(Fed([md5, signature, key], path.bytes, fill))
  {
    hide *;
    ghost var file, sections := path.bytes, [md5, signature, key];
    var chunkSize := 4096;
    var context := new Md5Context();
    var fp := new Stream(path);
    var bytesLeft: int := |path.bytes|;
    var carry, turn := 0, 0;
    RunBegins(sections, file, fill);
    while bytesLeft > 0
      invariant fp.file == path && path.bytes == file && fresh(fp)
      invariant context.Valid() && fresh(context) && fresh(context.buffer) && fresh(context.block)
      invariant context.lo % 64 == 0
      invariant bytesLeft == |file| - 4096 * turn && (turn == 0 || 4096 * (turn - 1) < |file|)
      invariant Progress(context.message, fp.cursor, carry) == Run(sections, file, fill, turn)
    {
      RunGoesOn(sections, file, fill, turn);
      carry := FeedChunk(fp, context, fill, turn, md5, signature, key, carry);
      bytesLeft := bytesLeft - chunkSize;
      turn := turn + 1;
    }
    RunEnds(sections, file, fill, turn);
    digest := context.Finalise();
  }
}
