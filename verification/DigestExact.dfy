/** GoodLayout is not only enough for the chunk loop: for sections that lie in the file and do not
    overlap it is exactly what the loop needs. Otherwise some cell is wrong, and some file of that size
    is hashed wrongly. */
module DigestExact {
  import opened Bytes
  import opened DigestSpec
  import opened DigestProof
  import opened DigestLayout
  import opened DigestReads
  import opened DigestBlanks

  /** Sections as ELF wants them: inside the file and not overlapping. */
  ghost predicate WellPlaced(sections: seq<Section>, size: nat) {
    && AllInFile(sections, size)
    && (forall k, l | 0 <= k < |sections| && 0 <= l < |sections| && k != l && Active(sections[k]) && Active(sections[l])
          :: Apart(sections[k], sections[l]))
  }

  /** The cell at `k` when everything is as meant. */
  ghost function MeantCell(sections: seq<Section>, size: nat, k: nat): Cell {
    if IsMeant(sections, size, k) then From(k) else Unread
  }

  ghost predicate CellsAsMeant(sections: seq<Section>, size: nat) {
    forall k :: 0 <= k < CHUNK * ChunkCount(size) ==> Cells(sections, size)[k] == MeantCell(sections, size, k)
  }

  /** Chunk `i` is where the loop goes wrong: it is not lonely, or a carry begins in it that is
      drained in the wrong order. */
  ghost predicate BadAt(sections: seq<Section>, i: nat) {
    || !Lonely(sections, i)
    || exists k ::
         0 <= k < |sections| && Active(sections[k]) && First(sections[k]) + 1 == i && !DrainsInOrder(sections[k])
  }

  lemma SomeChunkIsBad(sections: seq<Section>, size: nat) returns (i: nat)
    requires WellPlaced(sections, size) && !GoodLayout(sections, size)
    ensures i < ChunkCount(size) && BadAt(sections, i)
  {
    if k :| 0 <= k < |sections| && Active(sections[k]) && sections[k].offset % CHUNK == 0 {
      i := First(sections[k]);
      assert sections[k].offset == CHUNK * i;
    } else if k :| 0 <= k < |sections| && Active(sections[k]) && !DrainsInOrder(sections[k]) {
      i := First(sections[k]) + 1;
    } else {
      var k, l :| 0 <= k < |sections| && 0 <= l < |sections| && k != l && Active(sections[k]) && Active(sections[l])
        && !SharesNoChunk(sections[k], sections[l]);
      i := if First(sections[k]) <= First(sections[l]) then First(sections[l]) else First(sections[k]);
      assert Touches(sections[k], i) && Touches(sections[l], i);
    }
  }

  lemma {:induction false} FirstBadChunk(sections: seq<Section>, i: nat) returns (first: nat)
    requires BadAt(sections, i)
    ensures first <= i && BadAt(sections, first)
    ensures forall j :: 0 <= j < first ==> !BadAt(sections, j)
  {
    first := i;
    if j: nat :| j < i && BadAt(sections, j) {
      first := FirstBadChunk(sections, j);
    }
  }

  /** The chunks fed are the buffers of the turns. */
  lemma {:induction false} ChunkIsTurn<T>(sections: seq<Section>, file: seq<T>, fill: Filling<T>, turns: nat, i: nat)
    requires i < turns
    ensures var p := Run(sections, file, fill, i);
            ChunkOf(Run(sections, file, fill, turns).fed, i)
            == ChunkTurn(sections, file, FillOf(fill, i), p.cursor, p.carry).buffer
  {
    hide ChunkOf, ChunkTurn;
    var p := Run(sections, file, fill, turns - 1);
    var t := ChunkTurn(sections, file, FillOf(fill, turns - 1), p.cursor, p.carry);
    ChunkOfExtended(p.fed, t.buffer, turns - 1);
    if i < turns - 1 {
      ChunkIsTurn(sections, file, fill, turns - 1, i);
    }
  }

  // What the section blocks do on positions.

  lemma CellStays(s: Section, position: nat, size: nat, t: Turn<Cell>, j: nat)
    requires InChunk(t) && j < CHUNK && t.buffer[j].From?
    ensures MaskSection(s, position, Positions(size), t).buffer[j].From?
  {
  }

  lemma {:induction false} CellsStay(sections: seq<Section>, m: nat, n: nat, position: nat, size: nat, t: Turn<Cell>,
                                     j: nat)
    requires m <= n <= |sections| && InChunk(t) && j < CHUNK
    requires MaskSections(sections, m, position, Positions(size), t).buffer[j].From?
    ensures MaskSections(sections, n, position, Positions(size), t).buffer[j].From?
  {
    hide MaskSection;
    if m < n {
      CellsStay(sections, m, n - 1, position, size, t, j);
      CellStays(sections[n - 1], position, size, MaskSections(sections, n - 1, position, Positions(size), t), j);
    }
  }

  /** Blocks of sections that do not start here change nothing. */
  lemma {:induction false} Idle<T>(sections: seq<Section>, m: nat, n: nat, position: nat, file: seq<T>, t: Turn<T>)
    requires m <= n <= |sections| && InChunk(t)
    requires forall k :: m <= k < n ==> !StartsIn(sections[k], position)
    ensures MaskSections(sections, n, position, file, t) == MaskSections(sections, m, position, file, t)
  {
    if m < n {
      Idle(sections, m, n - 1, position, file, t);
    }
  }

  /** The least index from `m` on whose section starts in the chunk. */
  lemma {:induction false} Earliest(sections: seq<Section>, m: nat, k: nat, position: nat) returns (q: nat)
    requires m <= k < |sections| && StartsIn(sections[k], position)
    ensures m <= q <= k && StartsIn(sections[q], position)
    ensures forall l :: m <= l < q ==> !StartsIn(sections[l], position)
    decreases k
  {
    q := k;
    if l :| m <= l < k && StartsIn(sections[l], position) {
      q := Earliest(sections, m, l, position);
    }
  }

  /** The first block that fires reads from the cursor to the front of the buffer. */
  lemma FirstBlockReads(sections: seq<Section>, q: nat, position: nat, size: nat, t: Turn<Cell>, j: nat)
    requires q < |sections| && InChunk(t) && StartsIn(sections[q], position)
    requires forall l :: 0 <= l < q ==> !StartsIn(sections[l], position)
    requires j < sections[q].offset - position && t.cursor + j < size
    ensures ReadRest(Positions(size), MaskSections(sections, |sections|, position, Positions(size), t)).buffer[j].From?
  {
    NoneStarts(sections, q, position, Positions(size), t);
    assert MaskSections(sections, q + 1, position, Positions(size), t).buffer[j].From?;
    CellsStay(sections, q + 1, |sections|, position, size, t, j);
  }

  // The first bad chunk is reached in order, and fed wrongly.

  lemma Reached<T>(sections: seq<Section>, file: seq<T>, fill: Filling<T>, i: nat) returns (carry: nat)
    requires AllInFile(sections, |file|) && i < ChunkCount(|file|)
    requires forall j :: 0 <= j < i ==> !BadAt(sections, j)
    ensures CHUNK * i < |file| && CarryIs(sections, i, carry)
    ensures ChunkOf(Fed(sections, file, fill), i)
         == ChunkTurn(sections, file, FillOf(fill, i), CHUNK * i, carry).buffer
  {
    hide CarryIs, ChunkTurn, ChunkOf, Lonely, Expected;
    forall j | 0 <= j < i
      ensures Lonely(sections, j)
    {
      assert !BadAt(sections, j);
    }
    RunIsRight(sections, file, fill, i);
    ChunkIsTurn(sections, file, fill, ChunkCount(|file|), i);
    carry := Run(sections, file, fill, i).carry;
  }

  /** What the buffer of turn `i` holds at `j`, when the turn begins where it should. */
  function CellAt(sections: seq<Section>, size: nat, i: nat, carry: nat, j: nat): Cell
    requires j < CHUNK
  {
    ChunkTurn(sections, Positions(size), FillOf(UNREAD, i), CHUNK * i, carry).buffer[j]
  }

  lemma CarryInto(sections: seq<Section>, size: nat, i: nat) returns (carry: nat)
    requires AllInFile(sections, size) && i < ChunkCount(size)
    requires forall j :: 0 <= j < i ==> !BadAt(sections, j)
    ensures CHUNK * i < size && CarryIs(sections, i, carry)
    ensures forall j :: 0 <= j < CHUNK ==> CellAt(sections, size, i, carry, j) == Cells(sections, size)[CHUNK * i + j]
  {
    hide CarryIs, ChunkTurn, Fed, BadAt;
    carry := Reached(sections, Positions(size), UNREAD, i);
    forall j | 0 <= j < CHUNK
      ensures CellAt(sections, size, i, carry, j) == Cells(sections, size)[CHUNK * i + j]
    {
      assert ChunkOf(Cells(sections, size), i)[j] == Cells(sections, size)[CHUNK * i + j];
    }
  }

  /** The remainder of an overflow is skipped in a chunk the section fills. */
  lemma DrainedInWrongOrder(sections: seq<Section>, size: nat, i: nat, carry: nat, k: nat)
    requires AllInFile(sections, size) && Lonely(sections, i) && CarryIs(sections, i, carry) && CHUNK * i < size
    requires k < |sections| && Active(sections[k]) && First(sections[k]) + 1 == i && !DrainsInOrder(sections[k])
    ensures Covers(sections[k], CHUNK * i + CHUNK - 1)
    ensures CellAt(sections, size, i, carry, CHUNK - 1) == From(CHUNK * i + CHUNK - 1)
  {
    var s, j := sections[k], CHUNK - 1;
    ContinuesAfterFirst(s);
    TurnInLonelyChunk(sections, Positions(size), UNREAD, i, carry);
    assert s.offset + s.length == CHUNK * i + Overflow(s);
    assert !SkippedFor(s, i, j);
    assert !Skipped(sections, i, j);
  }

  lemma WellPlacedIsInFile(sections: seq<Section>, size: nat)
    requires WellPlaced(sections, size)
    ensures AllInFile(sections, size)
  {
  }

  /** When the first byte of the chunk belongs to a section and the chunk is not lonely, the byte
      after the carry is read to the front of the buffer. */
  lemma FirstByteIsRead(sections: seq<Section>, size: nat, i: nat, carry: nat, k: nat)
    requires WellPlaced(sections, size) && CarryIs(sections, i, carry) && CHUNK * i < size && !Lonely(sections, i)
    requires forall j :: 0 <= j < i ==> !BadAt(sections, j)
    requires k < |sections| && Active(sections[k]) && Covers(sections[k], CHUNK * i)
    ensures CellAt(sections, size, i, carry, 0).From?
  {
    hide MaskSection, BadAt, Lonely, WellPlaced, CarryIs;
    var t := SkipCarry(CHUNK * i, carry, FillOf(UNREAD, i));
    if l :| 0 <= l < |sections| && StartsIn(sections[l], CHUNK * i) {
      SkipEndsBefore(sections, size, i, carry, k, l);
      var q := Earliest(sections, 0, l, CHUNK * i);
      FirstBlockReads(sections, q, CHUNK * i, size, t, 0);
    } else {
      OnlyAligned(sections, size, i, k);
      NoneStarts(sections, |sections|, CHUNK * i, Positions(size), t);
      OnlyAlignedCover(sections, size, i, k);
      NothingContinues(sections, size, i, carry);
    }
  }

  lemma ContinuingCovers(s: Section, i: nat)
    requires Active(s)
    ensures Continues(s, i) <==> Covers(s, CHUNK * i) && s.offset != CHUNK * i
  {
  }

  lemma NothingContinues(sections: seq<Section>, size: nat, i: nat, carry: nat)
    requires WellPlaced(sections, size) && CarryIs(sections, i, carry)
    requires forall k :: 0 <= k < |sections| && Active(sections[k]) && Covers(sections[k], CHUNK * i)
               ==> sections[k].offset == CHUNK * i
    ensures carry == 0
  {
    forall k | 0 <= k < |sections|
      ensures !Continues(sections[k], i)
    {
      if Active(sections[k]) {
        ContinuingCovers(sections[k], i);
      }
    }
  }

  lemma OnlyAlignedCover(sections: seq<Section>, size: nat, i: nat, k: nat)
    requires WellPlaced(sections, size)
    requires k < |sections| && Active(sections[k]) && sections[k].offset == CHUNK * i
    ensures forall m :: 0 <= m < |sections| && Active(sections[m]) && Covers(sections[m], CHUNK * i)
              ==> sections[m].offset == CHUNK * i
  {
  }

  lemma DrainsUnlessBad(sections: seq<Section>, i: nat, k: nat)
    requires forall j :: 0 <= j < i ==> !BadAt(sections, j)
    requires k < |sections| && Active(sections[k]) && First(sections[k]) + 1 < i
    ensures DrainsInOrder(sections[k])
  {
    assert !BadAt(sections, First(sections[k]) + 1);
  }

  /** The tail of a section that has drained in order so far, in the chunk in which it ends. */
  lemma TailIs(s: Section, i: nat)
    requires Continues(s, i) && s.offset + s.length < CHUNK * (i + 1)
    requires First(s) + 1 < i ==> DrainsInOrder(s)
    ensures CHUNK * i + Carry(s, i) == s.offset + s.length && SkipAmount(Carry(s, i)) == Carry(s, i) > 0
  {
    assert s.offset + s.length == CHUNK * (First(s) + 1) + Overflow(s);
  }

  lemma TailEndsBefore(sections: seq<Section>, size: nat, i: nat, carry: nat, k: nat, l: nat)
    requires WellPlaced(sections, size) && CarryIs(sections, i, carry)
    requires forall j :: 0 <= j < i ==> !BadAt(sections, j)
    requires k < |sections| && l < |sections| && StartsIn(sections[l], CHUNK * i)
    requires Active(sections[k]) && Covers(sections[k], CHUNK * i) && sections[k].offset != CHUNK * i
    ensures SkipAmount(carry) > 0 && CHUNK * i + SkipAmount(carry) <= sections[l].offset
  {
    var s := sections[k];
    assert k != l && Apart(s, sections[l]);
    ContinuingCovers(s, i);
    if First(s) + 1 < i {
      DrainsUnlessBad(sections, i, k);
    }
    hide BadAt, WellPlaced;
    TailIs(s, i);
    assert carry == Carry(s, i);
  }

  /** If a section starts inside the chunk, what is skipped at its front ends before that section. */
  lemma SkipEndsBefore(sections: seq<Section>, size: nat, i: nat, carry: nat, k: nat, l: nat)
    requires WellPlaced(sections, size) && CarryIs(sections, i, carry)
    requires forall j :: 0 <= j < i ==> !BadAt(sections, j)
    requires k < |sections| && l < |sections| && StartsIn(sections[l], CHUNK * i)
    requires Active(sections[k]) && Covers(sections[k], CHUNK * i)
    ensures CHUNK * i + SkipAmount(carry) < size
  {
    var s := sections[k];
    assert k != l && Apart(s, sections[l]);
    ContinuingCovers(s, i);
    if s.offset == CHUNK * i {
      forall m | 0 <= m < |sections|
        ensures !Continues(sections[m], i)
      {
        if Continues(sections[m], i) {
          ContinuingCovers(sections[m], i);
        }
      }
    } else {
      TailEndsBefore(sections, size, i, carry, k, l);
    }
  }

  lemma OnlyAligned(sections: seq<Section>, size: nat, i: nat, k: nat)
    requires WellPlaced(sections, size) && !Lonely(sections, i)
    requires forall l :: 0 <= l < |sections| ==> !StartsIn(sections[l], CHUNK * i)
    requires k < |sections| && Active(sections[k]) && Covers(sections[k], CHUNK * i)
    ensures sections[k].offset == CHUNK * i
  {
    forall l | 0 <= l < |sections| && l != k && Active(sections[l])
      ensures !Touches(sections[l], i)
    {
      StartsOrCovers(sections[l], i);
    }
  }

  lemma StartsOrCovers(s: Section, i: nat)
    requires Active(s)
    ensures Touches(s, i) <==> StartsIn(s, CHUNK * i) || Covers(s, CHUNK * i)
  {
  }

  /** The first block that fires reads over a section that lies before its own. */
  lemma EarlierSectionIsRead(sections: seq<Section>, size: nat, i: nat, q: nat, m: nat)
    requires q < |sections| && m < |sections| && StartsIn(sections[q], CHUNK * i) && StartsIn(sections[m], CHUNK * i)
    requires forall l :: 0 <= l < q ==> !StartsIn(sections[l], CHUNK * i)
    requires sections[m].offset < sections[q].offset && InFile(sections[m], size)
    ensures CellAt(sections, size, i, 0, sections[m].offset - CHUNK * i).From?
  {
    var j := sections[m].offset - CHUNK * i;
    FirstBlockReads(sections, q, CHUNK * i, size, SkipCarry(CHUNK * i, 0, FillOf(UNREAD, i)), j);
  }

  lemma TwoInside(sections: seq<Section>, i: nat) returns (q: nat, r: nat)
    requires !Lonely(sections, i)
    requires forall k :: 0 <= k < |sections| && Active(sections[k]) ==> !Covers(sections[k], CHUNK * i)
    ensures q < r < |sections| && StartsIn(sections[q], CHUNK * i) && StartsIn(sections[r], CHUNK * i)
    ensures Touches(sections[q], i) && Touches(sections[r], i)
  {
    var k, l :|
      0 <= k < |sections| && 0 <= l < |sections| && k != l && Touches(sections[k], i) && Touches(sections[l], i);
    StartsOrCovers(sections[k], i);
    StartsOrCovers(sections[l], i);
    q, r := if k < l then k else l, if k < l then l else k;
  }

  /** Two sections start inside the chunk and its first byte belongs to none: the second block that fires
      overwrites the front of the buffer, or one of them has read over a section. */
  lemma TwoStart(sections: seq<Section>, size: nat, i: nat) returns (j: nat)
    requires WellPlaced(sections, size) && !Lonely(sections, i) && !Masked(sections, CHUNK * i) && CHUNK * i < size
    ensures j < CHUNK && CellAt(sections, size, i, 0, j) != MeantCell(sections, size, CHUNK * i + j)
  {
    NoneCovers(sections, CHUNK * i);
    var k, l := TwoInside(sections, i);
    hide BadAt, Lonely, Masked, CellAt, Touches, WellPlaced, MeantCell, Covers;
    var q := Earliest(sections, 0, k, CHUNK * i);
    if m :|
      0 <= m < |sections| && m != q && StartsIn(sections[m], CHUNK * i) && sections[m].offset < sections[q].offset
    {
      j := EarlierIsWrong(sections, size, i, q, m);
    } else {
      j := 0;
      var r := Earliest(sections, q + 1, l, CHUNK * i);
      FrontIsWrong(sections, size, i, q, r);
    }
  }

  lemma EarlierIsWrong(sections: seq<Section>, size: nat, i: nat, q: nat, m: nat) returns (j: nat)
    requires WellPlaced(sections, size) && q < |sections| && m < |sections| && m != q
    requires StartsIn(sections[q], CHUNK * i) && StartsIn(sections[m], CHUNK * i)
    requires forall l :: 0 <= l < q ==> !StartsIn(sections[l], CHUNK * i)
    requires sections[m].offset < sections[q].offset
    ensures j < CHUNK && CellAt(sections, size, i, 0, j) != MeantCell(sections, size, CHUNK * i + j)
  {
    hide CellAt, WellPlaced, Masked;
    j := sections[m].offset - CHUNK * i;
    WellPlacedAre(sections, size, m, q);
    EarlierSectionIsRead(sections, size, i, q, m);
    StartIsMasked(sections, m);
  }

  lemma FrontIsWrong(sections: seq<Section>, size: nat, i: nat, q: nat, r: nat)
    requires WellPlaced(sections, size) && !Masked(sections, CHUNK * i) && CHUNK * i < size && q < r < |sections|
    requires StartsIn(sections[q], CHUNK * i) && StartsIn(sections[r], CHUNK * i)
    requires forall l :: 0 <= l < r && l != q ==> !StartsIn(sections[l], CHUNK * i)
    requires sections[q].offset <= sections[r].offset
    ensures CellAt(sections, size, i, 0, 0) != MeantCell(sections, size, CHUNK * i)
  {
    hide CellAt, WellPlaced, Masked;
    WellPlacedAre(sections, size, r, q);
    SecondBlockOverwrites(sections, q, r, i, size);
  }

  lemma NoneCovers(sections: seq<Section>, p: nat)
    requires !Masked(sections, p)
    ensures forall k :: 0 <= k < |sections| && Active(sections[k]) ==> !Covers(sections[k], p)
  {
  }

  lemma WellPlacedAre(sections: seq<Section>, size: nat, k: nat, l: nat)
    requires WellPlaced(sections, size) && k < |sections| && l < |sections| && k != l
    requires Active(sections[k]) && Active(sections[l])
    ensures InFile(sections[k], size) && Apart(sections[k], sections[l])
  {
  }

  lemma StartIsMasked(sections: seq<Section>, m: nat)
    requires m < |sections| && Active(sections[m])
    ensures Masked(sections, sections[m].offset)
  {
    assert Covers(sections[m], sections[m].offset);
  }

  /** The read at the end of a turn goes behind what the blocks have read. */
  lemma RestIsBehind<T>(file: seq<T>, t: Turn<T>, j: nat)
    requires InChunk(t) && j < CHUNK - t.left
    ensures ReadRest(file, t).buffer[j] == t.buffer[j]
  {
  }

  /** After the block of section `q`, that of the later section `r` reads again to the front of the
      buffer, from beyond the first section. */
  lemma SecondBlockOverwrites(sections: seq<Section>, q: nat, r: nat, i: nat, size: nat)
    requires q < r < |sections|
    requires StartsIn(sections[q], CHUNK * i) && StartsIn(sections[r], CHUNK * i)
    requires forall l :: 0 <= l < r && l != q ==> !StartsIn(sections[l], CHUNK * i)
    requires sections[q].offset + sections[q].length <= sections[r].offset && InFile(sections[r], size)
    ensures CellAt(sections, size, i, 0, 0) != From(CHUNK * i)
  {
    var file, t := Positions(size), SkipCarry(CHUNK * i, 0, FillOf(UNREAD, i));
    hide MaskSection, ReadRest, FillOf, MaskSections;
    BlocksOverwrite(sections, q, r, i, size, t);
    RestIsBehind(file, MaskSections(sections, |sections|, CHUNK * i, file, t), 0);
  }

  lemma BlocksOverwrite(sections: seq<Section>, q: nat, r: nat, i: nat, size: nat, t: Turn<Cell>)
    requires InChunk(t) && t.cursor == CHUNK * i && t.left == CHUNK && q < r < |sections|
    requires StartsIn(sections[q], CHUNK * i) && StartsIn(sections[r], CHUNK * i)
    requires forall l :: 0 <= l < r && l != q ==> !StartsIn(sections[l], CHUNK * i)
    requires sections[q].offset + sections[q].length <= sections[r].offset && InFile(sections[r], size)
    ensures var u := MaskSections(sections, |sections|, CHUNK * i, Positions(size), t);
            u.buffer[0] != From(CHUNK * i) && u.left < CHUNK
  {
    hide MaskSection, MaskSections, StartsIn;
    OverwritesFront(sections[q], sections[r], CHUNK * i, size, t);
    FirstTwoBlocks(sections, q, r, CHUNK * i, Positions(size), t);
    FrontStays(sections, r + 1, |sections|, i, size, t);
  }

  lemma FirstTwoBlocks<T>(sections: seq<Section>, q: nat, r: nat, position: nat, file: seq<T>, t: Turn<T>)
    requires InChunk(t) && q < r < |sections|
    requires forall l :: 0 <= l < r && l != q ==> !StartsIn(sections[l], position)
    ensures MaskSections(sections, r + 1, position, file, t)
         == MaskSection(sections[r], position, file, MaskSection(sections[q], position, file, t))
  {
    hide MaskSection;
    OneStarts(sections, r, q, position, file, t);
  }

  lemma OverwritesFront(s: Section, r: Section, at: nat, size: nat, t: Turn<Cell>)
    requires InChunk(t) && t.cursor == at && t.left == CHUNK
    requires StartsIn(s, at) && StartsIn(r, at) && s.offset + s.length <= r.offset && InFile(r, size)
    ensures var u := MaskSection(r, at, Positions(size), MaskSection(s, at, Positions(size), t));
            u.buffer[0] != From(at) && u.cursor > at && u.left < CHUNK
  {
    var u := MaskSection(s, at, Positions(size), t);
    assert u.cursor == s.offset + s.length && u.left < CHUNK;
  }

  lemma {:induction false} FrontStays(sections: seq<Section>, m: nat, n: nat, i: nat, size: nat, t: Turn<Cell>)
    requires m <= n <= |sections| && InChunk(t)
    requires var u := MaskSections(sections, m, CHUNK * i, Positions(size), t);
             u.buffer[0] != From(CHUNK * i) && u.cursor > CHUNK * i && u.left < CHUNK
    ensures var u := MaskSections(sections, n, CHUNK * i, Positions(size), t);
            u.buffer[0] != From(CHUNK * i) && u.cursor > CHUNK * i && u.left < CHUNK
  {
    if m < n {
      FrontStays(sections, m, n - 1, i, size, t);
      FrontStaysInBlock(sections[n - 1], i, size, MaskSections(sections, n - 1, CHUNK * i, Positions(size), t));
    }
  }

  lemma FrontStaysInBlock(s: Section, i: nat, size: nat, t: Turn<Cell>)
    requires InChunk(t) && t.buffer[0] != From(CHUNK * i) && t.cursor > CHUNK * i && t.left < CHUNK
    ensures var u := MaskSection(s, CHUNK * i, Positions(size), t);
            u.buffer[0] != From(CHUNK * i) && u.cursor > CHUNK * i && u.left < CHUNK
  {
  }

  /** A bad layout has a cell that is not as meant. */
  lemma BadLayoutHasWrongCell(sections: seq<Section>, size: nat) returns (k: nat)
    requires WellPlaced(sections, size) && !GoodLayout(sections, size)
    ensures k < CHUNK * ChunkCount(size) && Cells(sections, size)[k] != MeantCell(sections, size, k)
  {
    hide GoodLayout, Lonely, Cells, CellAt, CarryIs;
    WellPlacedIsInFile(sections, size);
    var i := SomeChunkIsBad(sections, size);
    i := FirstBadChunk(sections, i);
    var carry := CarryInto(sections, size, i);
    var j := 0;
    if Lonely(sections, i) {
      var l :| 0 <= l < |sections| && Active(sections[l]) && First(sections[l]) + 1 == i && !DrainsInOrder(sections[l]);
      DrainedInWrongOrder(sections, size, i, carry, l);
      j := CHUNK - 1;
      assert Masked(sections, CHUNK * i + j);
    } else if l :| 0 <= l < |sections| && Active(sections[l]) && Covers(sections[l], CHUNK * i) {
      FirstByteIsRead(sections, size, i, carry, l);
      assert Masked(sections, CHUNK * i);
    } else {
      NothingContinues(sections, size, i, carry);
      j := TwoStart(sections, size, i);
    }
    k := CHUNK * i + j;
  }

  /** A layout is good if and only if every cell is as meant. */
  lemma GoodLayoutIsCells(sections: seq<Section>, size: nat)
    requires WellPlaced(sections, size)
    ensures GoodLayout(sections, size) <==> CellsAsMeant(sections, size)
  {
    hide GoodLayout, WellPlaced, Fed, Masked;
    if GoodLayout(sections, size) {
      GoodCells(sections, size);
    } else {
      var k := BadLayoutHasWrongCell(sections, size);
    }
  }

  lemma GoodCells(sections: seq<Section>, size: nat)
    requires GoodLayout(sections, size)
    ensures CellsAsMeant(sections, size)
  {
    hide GoodLayout, Fed, Masked;
    FedInGoodLayout(sections, Positions(size), UNREAD);
  }

  /** The fill is zero wherever nothing is meant to be hashed. */
  ghost predicate ZeroWhereMasked(sections: seq<Section>, size: nat, fill: Fill) {
    forall k :: 0 <= k < CHUNK * ChunkCount(size) && !IsMeant(sections, size, k) ==> fill(k / CHUNK, k % CHUNK) == 0
  }

  ghost predicate BlanksEveryFile(sections: seq<Section>, size: nat, fill: Fill) {
    forall file: seq<byte> :: |file| == size ==> Fed(sections, file, fill) == Blanked(sections, file)
  }

  /** A cell that is as meant is right if the fill blanks it, whatever is fixed. */
  lemma RightWhenAsMeant(sections: seq<Section>, data: seq<byte>, fixed: set<nat>, fill: Fill)
    requires CellsAsMeant(sections, |data|)
    ensures CellsAreRight(sections, data, fixed, fill) <==> ZeroWhereMasked(sections, |data|, fill)
  {
    hide Cells, Masked;
    forall k | 0 <= k < CHUNK * ChunkCount(|data|)
      ensures CellIsRight(sections, data, fixed, fill, k)
         <==> (!IsMeant(sections, |data|, k) ==> fill(k / CHUNK, k % CHUNK) == 0)
    {
    }
  }

  /** With no byte fixed nothing else is right. */
  lemma RightWhenNothingIsFixed(sections: seq<Section>, size: nat, fill: Fill)
    ensures CellsAreRight(sections, Zeros(size), {}, fill)
       <==> CellsAsMeant(sections, size) && ZeroWhereMasked(sections, size, fill)
  {
    hide Cells, Masked;
    if CellsAreRight(sections, Zeros(size), {}, fill) {
      forall k | 0 <= k < CHUNK * ChunkCount(size)
        ensures Cells(sections, size)[k] == MeantCell(sections, size, k)
      {
        assert CellIsRight(sections, Zeros(size), {}, fill, k);
      }
    }
    if CellsAsMeant(sections, size) {
      RightWhenAsMeant(sections, Zeros(size), {}, fill);
    }
  }

  /** For sections that lie in the file and do not overlap, and for any fill, the loop blanks every file of
      that size if and only if the layout is good and the fill is zero where nothing is meant to be hashed. */
  lemma GoodLayoutIsExact(sections: seq<Section>, size: nat, fill: Fill)
    requires WellPlaced(sections, size)
    ensures GoodLayout(sections, size) && ZeroWhereMasked(sections, size, fill)
       <==> BlanksEveryFile(sections, size, fill)
  {
    hide GoodLayout, WellPlaced, Fed, Blanked, CellsAreRight, CellsAsMeant, ZeroWhereMasked;
    GoodLayoutIsCells(sections, size);
    RightWhenNothingIsFixed(sections, size, fill);
    BlankedExactly(sections, Zeros(size), {}, fill);
    if BlanksEveryFile(sections, size, fill) {
      forall file: seq<byte> | Shares(Zeros(size), {}, file)
        ensures Fed(sections, file, fill) == Blanked(sections, file)
      {
      }
    } else {
      var file: seq<byte> :| |file| == size && Fed(sections, file, fill) != Blanked(sections, file);
      assert Shares(Zeros(size), {}, file);
    }
  }

  /** A bad layout has a file that shows it, whatever the fill. */
  lemma BadLayoutShows(sections: seq<Section>, size: nat, fill: Fill) returns (file: seq<byte>)
    requires WellPlaced(sections, size) && !GoodLayout(sections, size)
    ensures |file| == size && Fed(sections, file, fill) != Blanked(sections, file)
  {
    hide GoodLayout, WellPlaced, Fed, Blanked;
    GoodLayoutIsExact(sections, size, fill);
    file :| |file| == size && Fed(sections, file, fill) != Blanked(sections, file);
  }
}
