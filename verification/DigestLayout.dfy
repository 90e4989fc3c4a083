/** Which section tables the chunk loop of src/digest.c blanks correctly. */
module DigestLayout {
  import opened Bytes
  import opened DigestSpec
  import opened DigestProof

  /** No section starts on a chunk boundary and no two touch the same chunk. */
  ghost predicate Isolated(sections: seq<Section>, size: nat) {
    && AllInFile(sections, size)
    && (forall k :: 0 <= k < |sections| && Active(sections[k]) ==> sections[k].offset % CHUNK != 0)
    && (forall k, l | 0 <= k < |sections| && 0 <= l < |sections| && k != l && Active(sections[k]) && Active(sections[l])
          :: SharesNoChunk(sections[k], sections[l]))
  }

  /** What reaches past the first chunk is at most one chunk, or whole chunks: the carry skips its
      remainder before its whole chunks, which is right only then. */
  predicate DrainsInOrder(s: Section) { Overflow(s) <= CHUNK || Overflow(s) % CHUNK == 0 }

  ghost predicate GoodLayout(sections: seq<Section>, size: nat) {
    && Isolated(sections, size)
    && (forall k :: 0 <= k < |sections| && Active(sections[k]) ==> DrainsInOrder(sections[k]))
  }

  lemma IsolatedIsLonely(sections: seq<Section>, size: nat, i: nat)
    requires Isolated(sections, size)
    ensures Lonely(sections, i)
  {
    forall k | 0 <= k < |sections| && Active(sections[k])
      ensures sections[k].offset != CHUNK * i
    {
      assert CHUNK * i % CHUNK == 0;
    }
  }

  /** What the loop feeds when no two sections share a chunk, for every file and every fill: chunk
      by chunk, the file outside the skipped positions. */
  lemma FedWhenIsolated<T>(sections: seq<Section>, file: seq<T>, fill: Filling<T>, i: nat)
    requires Isolated(sections, |file|) && i < ChunkCount(|file|)
    ensures Expected(sections, file, fill, i, ChunkOf(Fed(sections, file, fill), i))
  {
    hide Isolated, Lonely, Expected;
    forall j: nat
      ensures Lonely(sections, j)
    {
      IsolatedIsLonely(sections, |file|, j);
    }
    assert AllInFile(sections, |file|) by { IsolatedIsInFile(sections, |file|); }
    RunIsRight(sections, file, fill, ChunkCount(|file|));
  }

  lemma IsolatedIsInFile(sections: seq<Section>, size: nat)
    requires Isolated(sections, size)
    ensures AllInFile(sections, size)
  {
  }

  /** In a good layout the skipped positions of a chunk are those the section covers. */
  lemma SkipsWhatItCovers(s: Section, i: nat, j: nat)
    requires Active(s) && DrainsInOrder(s) && j < CHUNK
    ensures SkippedFor(s, i, j) <==> Covers(s, CHUNK * i + j)
  {
    var end := s.offset + s.length;
    assert s.offset == CHUNK * First(s) + s.offset % CHUNK;
    assert end - 1 == CHUNK * Last(s) + (end - 1) % CHUNK;
    assert end == CHUNK * (First(s) + 1) + Overflow(s);
    if Continues(s, i) {
      if Overflow(s) <= CHUNK {
        assert i == First(s) + 1 && Carry(s, i) == Overflow(s);
      } else {
        assert Overflow(s) == CHUNK * (Overflow(s) / CHUNK);
        assert Carry(s, i) % CHUNK == 0 && SkipAmount(Carry(s, i)) == CHUNK;
      }
    }
  }

  /** What the loop feeds in a good layout, byte by byte and for any fill: the file wherever no
      section lies, the fill on the sections and past the end. */
  ghost predicate FedAsMeant<T>(sections: seq<Section>, file: seq<T>, fill: Filling<T>, fed: seq<T>) {
    && |fed| == CHUNK * ChunkCount(|file|)
    && forall p :: 0 <= p < |fed| ==>
         fed[p] == if p < |file| && !Masked(sections, p) then file[p] else fill(p / CHUNK, p % CHUNK)
  }

  lemma SkippedIsMasked(sections: seq<Section>, size: nat, i: nat, j: nat)
    requires GoodLayout(sections, size) && j < CHUNK
    ensures Skipped(sections, i, j) <==> Masked(sections, CHUNK * i + j)
  {
    forall k | 0 <= k < |sections| && Active(sections[k])
      ensures SkippedFor(sections[k], i, j) <==> Covers(sections[k], CHUNK * i + j)
    {
      SkipsWhatItCovers(sections[k], i, j);
    }
  }

  lemma FedInGoodLayout<T>(sections: seq<Section>, file: seq<T>, fill: Filling<T>)
    requires GoodLayout(sections, |file|)
    ensures FedAsMeant(sections, file, fill, Fed(sections, file, fill))
  {
    hide Masked, Skipped, Fed, Isolated;
    var fed := Fed(sections, file, fill);
    forall p | 0 <= p < |fed|
      ensures fed[p] == if p < |file| && !Masked(sections, p) then file[p] else fill(p / CHUNK, p % CHUNK)
    {
      var i, j := p / CHUNK, p % CHUNK;
      FedWhenIsolated(sections, file, fill, i);
      assert fed[p] == ChunkOf(fed, i)[j];
      SkippedIsMasked(sections, |file|, i, j);
    }
  }

  /** With zeros where nothing is read, it is the blanked file. */
  lemma FedIsBlanked(sections: seq<Section>, file: seq<byte>)
    requires GoodLayout(sections, |file|)
    ensures Fed(sections, file, ZERO_FILL) == Blanked(sections, file)
  {
    hide GoodLayout, Masked, Fed;
    FedInGoodLayout(sections, file, ZERO_FILL);
  }

  /** Whatever the fill, bytes inside the sections do not reach MD5. */
  lemma SectionsDoNotCount(sections: seq<Section>, file: seq<byte>, file': seq<byte>, fill: Fill)
    requires |file| == |file'| && GoodLayout(sections, |file|)
    requires forall p :: 0 <= p < |file| && !Masked(sections, p) ==> file[p] == file'[p]
    ensures Fed(sections, file, fill) == Fed(sections, file', fill)
  {
    hide GoodLayout, Masked, Fed;
    FedInGoodLayout(sections, file, fill);
    FedInGoodLayout(sections, file', fill);
  }

  /** The first `n` bytes of a section are skipped whole if the section drains in order, or if they
      end before the remainder the second chunk skips. */
  predicate FitsTheGap(s: Section, n: nat) {
    DrainsInOrder(s) || s.offset % CHUNK + n <= CHUNK + Overflow(s) % CHUNK
  }

  lemma PrefixIsSkipped(s: Section, n: nat, p: nat)
    requires Active(s) && n <= s.length && FitsTheGap(s, n) && s.offset <= p < s.offset + n
    ensures SkippedFor(s, p / CHUNK, p % CHUNK)
  {
    var i, j := p / CHUNK, p % CHUNK;
    if DrainsInOrder(s) {
      SkipsWhatItCovers(s, i, j);
    } else {
      assert s.offset == CHUNK * First(s) + s.offset % CHUNK;
      assert p - CHUNK * First(s) == s.offset % CHUNK + (p - s.offset);
      if i != First(s) {
        assert i == First(s) + 1;
        assert s.offset + s.length == CHUNK * i + Overflow(s);
      }
    }
  }

  /** And only then. */
  lemma PrefixIsNotSkipped(s: Section, n: nat) returns (p: nat)
    requires Active(s) && n <= s.length && !FitsTheGap(s, n)
    ensures s.offset <= p < s.offset + n && !SkippedFor(s, p / CHUNK, p % CHUNK)
  {
    p := CHUNK * (First(s) + 1) + Overflow(s) % CHUNK;
    assert s.offset == CHUNK * First(s) + s.offset % CHUNK;
    assert p / CHUNK == First(s) + 1 && p % CHUNK == Overflow(s) % CHUNK;
    ContinuesAfterFirst(s);
  }

  /** A section of two or more whole chunks never drains in order. */
  lemma WholeChunksNeverDrain(sections: seq<Section>, size: nat, k: nat, chunks: nat)
    requires k < |sections| && chunks >= 2 && sections[k].length == CHUNK * chunks && sections[k].offset != 0
    ensures !GoodLayout(sections, size)
  {
    var s := sections[k];
    if s.offset % CHUNK != 0 {
      assert Overflow(s) == CHUNK * (chunks - 1) + s.offset % CHUNK;
      assert Overflow(s) % CHUNK == s.offset % CHUNK;
      assert Active(s) && !DrainsInOrder(s);
    }
  }

  // Conservation: a section that lies alone is skipped for exactly its length.

  /** How many of the first `n` positions of chunk `i` are skipped for `s`. */
  function SkippedIn(s: Section, i: nat, n: nat): nat {
    if n == 0 then 0 else SkippedIn(s, i, n - 1) + if SkippedFor(s, i, n - 1) then 1 else 0
  }

  /** How many positions are skipped for `s` in its chunks before `i`. */
  function SkippedBefore(s: Section, i: nat): nat
    requires Active(s) && First(s) <= i
  {
    if i == First(s) then 0 else SkippedBefore(s, i - 1) + SkippedIn(s, i - 1, CHUNK)
  }

  lemma {:induction false} SkippedInIs(s: Section, i: nat, n: nat)
    requires Touches(s, i) && n <= CHUNK
    ensures var from := if i == First(s) then s.offset % CHUNK else 0;
            var to := if i == First(s) then from + s.length else SkipAmount(Carry(s, i));
            SkippedIn(s, i, n) == if n <= from then 0 else if n <= to then n - from else to - from
  {
    if n > 0 {
      SkippedInIs(s, i, n - 1);
    }
  }

  /** At every chunk the skipped and the carried bytes together are the section; after its last chunk
      everything has been skipped and nothing is carried. */
  lemma {:induction false} CarryConserves(s: Section, i: nat)
    requires Active(s) && First(s) < i <= Last(s) + 1
    ensures SkippedBefore(s, i) + (if Continues(s, i) then Carry(s, i) else 0) == s.length
    ensures Last(s) - First(s) == (if Overflow(s) <= 0 then 0 else (Overflow(s) + CHUNK - 1) / CHUNK)
  {
    assert s.offset + s.length - 1 == CHUNK * (First(s) + 1) + Overflow(s) - 1;
    SkippedInIs(s, i - 1, CHUNK);
    if i == First(s) + 1 {
      ContinuesAfterFirst(s);
      assert SkippedBefore(s, First(s)) == 0;
    } else {
      CarryConserves(s, i - 1);
      CarryStep(s, i - 1);
    }
  }
}
