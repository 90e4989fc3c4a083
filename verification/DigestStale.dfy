/** The chunk buffer of src/digest.c when it is the same memory in every turn: what is not read keeps
    the bytes of the chunk before. That is one of the fills of DigestSpec, but one that depends on
    the file; what is skipped still does not count. */
module DigestStale {
  import opened Bytes
  import opened DigestSpec
  import opened DigestProof
  import opened DigestLayout
  import opened DigestReads

  /** The loop with one buffer kept from turn to turn. */
  datatype Kept = Kept(progress: Progress<byte>, buffer: seq<byte>)

  function KeptRun(sections: seq<Section>, file: seq<byte>, buffer: seq<byte>, turns: nat): (k: Kept)
    requires |buffer| == CHUNK
    ensures |k.buffer| == CHUNK && |k.progress.fed| == CHUNK * turns
  {
    if turns == 0 then Kept(Progress([], 0, 0), buffer)
    else
      var k := KeptRun(sections, file, buffer, turns - 1);
      var t := ChunkTurn(sections, file, k.buffer, k.progress.cursor, k.progress.carry);
      Kept(Progress(k.progress.fed + t.buffer, t.cursor, t.carry), t.buffer)
  }

  /** As a fill: what the buffer holds when a turn begins. */
  function KeptFill(sections: seq<Section>, file: seq<byte>, buffer: seq<byte>): Fill
    requires |buffer| == CHUNK
  {
    (i: nat, j: nat) => if j < CHUNK then KeptRun(sections, file, buffer, i).buffer[j] else 0
  }

  lemma {:induction false} KeptRunIsRun(sections: seq<Section>, file: seq<byte>, buffer: seq<byte>, turns: nat)
    requires |buffer| == CHUNK
    ensures KeptRun(sections, file, buffer, turns).progress
         == Run(sections, file, KeptFill(sections, file, buffer), turns)
  {
    hide ChunkTurn;
    if turns > 0 {
      KeptRunIsRun(sections, file, buffer, turns - 1);
      var fill := KeptFill(sections, file, buffer);
      assert FillOf(fill, turns - 1) == KeptRun(sections, file, buffer, turns - 1).buffer;
    }
  }

  /** What a turn finds in the buffer is the chunk fed before. */
  lemma {:induction false} BufferIsLastChunk(sections: seq<Section>, file: seq<byte>, buffer: seq<byte>, turns: nat,
                                             i: nat)
    requires |buffer| == CHUNK && i < turns
    ensures ChunkOf(KeptRun(sections, file, buffer, turns).progress.fed, i)
         == KeptRun(sections, file, buffer, i + 1).buffer
  {
    hide ChunkTurn, ChunkOf;
    var k := KeptRun(sections, file, buffer, turns - 1);
    ChunkOfExtended(k.progress.fed, KeptRun(sections, file, buffer, turns).buffer, turns - 1);
    if i < turns - 1 {
      BufferIsLastChunk(sections, file, buffer, turns - 1, i);
    }
  }

  /** One byte of one chunk, by its cell and the chunk before. */
  lemma KeptByte(sections: seq<Section>, file: seq<byte>, buffer: seq<byte>, i: nat, j: nat)
    requires |buffer| == CHUNK && i < ChunkCount(|file|) && j < CHUNK
    ensures CHUNK * i + j < CHUNK * ChunkCount(|file|)
    ensures ShowsAt(Cells(sections, |file|)[CHUNK * i + j], file,
                    KeptRun(sections, file, buffer, i).buffer[j], KeptRun(sections, file, buffer, i + 1).buffer[j])
  {
    hide Cells, Fed, KeptRun;
    var k := CHUNK * i + j;
    assert k / CHUNK == i && k % CHUNK == j;
    var fill := KeptFill(sections, file, buffer);
    FedByCells(sections, file, fill, k);
    FedIsKept(sections, file, buffer);
    BufferIsLastChunk(sections, file, buffer, ChunkCount(|file|), i);
    assert ChunkOf(Fed(sections, file, fill), i)[j] == Fed(sections, file, fill)[k];
  }

  lemma FedIsKept(sections: seq<Section>, file: seq<byte>, buffer: seq<byte>)
    requires |buffer| == CHUNK
    ensures Fed(sections, file, KeptFill(sections, file, buffer))
         == KeptRun(sections, file, buffer, ChunkCount(|file|)).progress.fed
  {
    hide KeptRun, Run;
    KeptRunIsRun(sections, file, buffer, ChunkCount(|file|));
  }

  lemma {:induction false} BuffersAgree(sections: seq<Section>, file: seq<byte>, file': seq<byte>,
                                        buffer: seq<byte>, i: nat)
    requires |buffer| == CHUNK && |file| == |file'| && i <= ChunkCount(|file|)
    requires AgreeWhereRead(sections, file, file')
    ensures KeptRun(sections, file, buffer, i).buffer == KeptRun(sections, file', buffer, i).buffer
  {
    hide Cells, KeptRun;
    if i == 0 {
      KeptAtFirst(sections, file, buffer);
      KeptAtFirst(sections, file', buffer);
    } else {
      BuffersAgree(sections, file, file', buffer, i - 1);
      forall j | 0 <= j < CHUNK
        ensures KeptRun(sections, file, buffer, i).buffer[j] == KeptRun(sections, file', buffer, i).buffer[j]
      {
        KeptByte(sections, file, buffer, i - 1, j);
        KeptByte(sections, file', buffer, i - 1, j);
        var cell := Cells(sections, |file|)[CHUNK * (i - 1) + j];
        assert cell.From? ==> IsRead(sections, |file|, cell.position);
      }
    }
  }

  lemma KeptAtFirst(sections: seq<Section>, file: seq<byte>, buffer: seq<byte>)
    requires |buffer| == CHUNK
    ensures KeptRun(sections, file, buffer, 0).buffer == buffer
  {
  }

  lemma AgreeingFeedTheSame(sections: seq<Section>, file: seq<byte>, file': seq<byte>, buffer: seq<byte>)
    requires |buffer| == CHUNK && |file| == |file'| && AgreeWhereRead(sections, file, file')
    ensures Fed(sections, file, KeptFill(sections, file, buffer))
         == Fed(sections, file', KeptFill(sections, file', buffer))
  {
    hide AgreeWhereRead, KeptRun, Fed;
    var fill, fill' := KeptFill(sections, file, buffer), KeptFill(sections, file', buffer);
    var n := ChunkCount(|file|);
    forall i | 0 <= i < n
      ensures ChunkOf(Fed(sections, file, fill), i) == ChunkOf(Fed(sections, file', fill'), i)
    {
      FedIsKept(sections, file, buffer);
      FedIsKept(sections, file', buffer);
      BufferIsLastChunk(sections, file, buffer, n, i);
      BufferIsLastChunk(sections, file', buffer, n, i);
      BuffersAgree(sections, file, file', buffer, i + 1);
    }
    SameChunks(Fed(sections, file, fill), Fed(sections, file', fill'), n);
  }

  /** With the same memory at the start, two files of one size feed the same bytes if and only if they
      agree wherever the loop reads, for every section table. */
  lemma FedTellsReadBytesWhenKept(sections: seq<Section>, file: seq<byte>, file': seq<byte>, buffer: seq<byte>)
    requires |buffer| == CHUNK && |file| == |file'|
    ensures Fed(sections, file, KeptFill(sections, file, buffer))
         == Fed(sections, file', KeptFill(sections, file', buffer))
       <==> AgreeWhereRead(sections, file, file')
  {
    hide KeptRun, Fed, Cells;
    var fill, fill' := KeptFill(sections, file, buffer), KeptFill(sections, file', buffer);
    if Fed(sections, file, fill) == Fed(sections, file', fill') {
      forall p | 0 <= p < |file| && IsRead(sections, |file|, p)
        ensures file[p] == file'[p]
      {
        var k := ReadByteIsFed(sections, file, fill, p);
        FedByCells(sections, file', fill', k);
      }
    } else if AgreeWhereRead(sections, file, file') {
      AgreeingFeedTheSame(sections, file, file', buffer);
    }
  }

  /** In particular files that agree outside the skipped bytes feed the same. */
  lemma SkippedBytesDoNotCountWhenKept(sections: seq<Section>, file: seq<byte>, file': seq<byte>, buffer: seq<byte>)
    requires |buffer| == CHUNK && |file| == |file'| && Isolated(sections, |file|)
    requires forall p :: 0 <= p < |file| && !Skipped(sections, p / CHUNK, p % CHUNK) ==> file[p] == file'[p]
    ensures Fed(sections, file, KeptFill(sections, file, buffer))
         == Fed(sections, file', KeptFill(sections, file', buffer))
  {
    hide Isolated, Skipped, KeptFill, Fed, IsRead;
    forall p | 0 <= p < |file| && IsRead(sections, |file|, p)
      ensures file[p] == file'[p]
    {
      ReadIsUnskipped(sections, |file|, p);
    }
    FedTellsReadBytesWhenKept(sections, file, file', buffer);
  }

  lemma SameChunks(x: seq<byte>, y: seq<byte>, n: nat)
    requires |x| == |y| == CHUNK * n
    requires forall i :: 0 <= i < n ==> ChunkOf(x, i) == ChunkOf(y, i)
    ensures x == y
  {
    forall p | 0 <= p < |x|
      ensures x[p] == y[p]
    {
      var i := p / CHUNK;
      assert ChunkOf(x, i)[p % CHUNK] == ChunkOf(y, i)[p % CHUNK];
    }
  }
}
