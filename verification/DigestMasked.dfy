/** When bytes of the masked sections reach MD5: for sections that lie in the file and do not overlap,
    as long as no three of them meet in one chunk, exactly when the layout is not good. */
module DigestMasked {
  import opened DigestSpec
  import opened DigestProof
  import opened DigestLayout
  import opened DigestReads
  import opened DigestExact

  /** No chunk is touched by three sections. */
  ghost predicate Uncrowded(sections: seq<Section>) {
    forall i: nat, k, l, m | 0 <= k < l < m < |sections|
      :: !(Touches(sections[k], i) && Touches(sections[l], i) && Touches(sections[m], i))
  }

  ghost predicate ReadsNoMasked(sections: seq<Section>, size: nat) {
    forall p :: 0 <= p < size && Masked(sections, p) ==> !IsRead(sections, size, p)
  }

  lemma ThirdDoesNotTouch(sections: seq<Section>, i: nat, k: nat, l: nat)
    requires Uncrowded(sections) && k < |sections| && l < |sections| && k != l
    requires Touches(sections[k], i) && Touches(sections[l], i)
    ensures forall m :: 0 <= m < |sections| && m != k && m != l ==> !Touches(sections[m], i)
  {
    hide Touches;
    forall m | 0 <= m < |sections| && m != k && m != l
      ensures !Touches(sections[m], i)
    {
      var x, z := if k < l then k else l, if k < l then l else k;
      if m < x {
        assert 0 <= m < x < z < |sections|;
      } else if m < z {
        assert 0 <= x < m < z < |sections|;
      } else {
        assert 0 <= x < z < m < |sections|;
      }
    }
  }

  // Where the first bad chunk reads a masked byte.

  /** A section on the chunk boundary, alone in the chunk. */
  lemma AlignedIsRead(sections: seq<Section>, size: nat, i: nat)
    requires CHUNK * i < size && forall l :: 0 <= l < |sections| ==> !StartsIn(sections[l], CHUNK * i)
    ensures CellAt(sections, size, i, 0, 0) == From(CHUNK * i)
  {
    NoneStarts(sections, |sections|, CHUNK * i, Positions(size), SkipCarry(CHUNK * i, 0, FillOf(UNREAD, i)));
  }

  /** One section starts in the chunk, and at most as much as lies before it is skipped at the front:
      its block reads from there on. */
  lemma OneBlockReads(sections: seq<Section>, size: nat, i: nat, carry: nat, l: nat)
    requires l < |sections| && StartsIn(sections[l], CHUNK * i) && InFile(sections[l], size)
    requires forall m :: 0 <= m < |sections| && m != l ==> !StartsIn(sections[m], CHUNK * i)
    requires CHUNK * i + SkipAmount(carry) <= sections[l].offset
    ensures SkipAmount(carry) == 0 ==> CellAt(sections, size, i, carry, 0) == From(CHUNK * i)
    ensures SkipAmount(carry) > 0 ==>
              var j := sections[l].offset - CHUNK * i - SkipAmount(carry);
              CellAt(sections, size, i, carry, j) == From(sections[l].offset)
  {
    hide SkipAmount, MaskSection, ReadRest;
    var turn := SkipCarry(CHUNK * i, carry, FillOf(UNREAD, i));
    OneStarts(sections, |sections|, l, CHUNK * i, Positions(size), turn);
    BlockReads(sections[l], CHUNK * i, size, turn, 0);
    if SkipAmount(carry) > 0 {
      BlockReads(sections[l], CHUNK * i, size, turn, sections[l].offset - CHUNK * i - SkipAmount(carry));
    }
  }

  lemma BlockReads(s: Section, at: nat, size: nat, turn: Turn<Cell>, j: nat)
    requires InChunk(turn) && StartsIn(s, at) && InFile(s, size)
    requires at <= turn.cursor && turn.cursor + j <= s.offset && j < s.offset - at && turn.left <= CHUNK
    ensures ReadRest(Positions(size), MaskSection(s, at, Positions(size), turn)).buffer[j] == From(turn.cursor + j)
  {
    RestIsBehind(Positions(size), MaskSection(s, at, Positions(size), turn), j);
  }

  /** A section covers the first byte of the chunk and another starts behind it. */
  lemma BehindAnother(sections: seq<Section>, size: nat, i: nat, carry: nat, k: nat, l: nat) returns (j: nat, p: nat)
    requires WellPlaced(sections, size) && Uncrowded(sections) && CarryIs(sections, i, carry) && CHUNK * i < size
    requires forall j :: 0 <= j < i ==> !BadAt(sections, j)
    requires k < |sections| && l < |sections| && StartsIn(sections[l], CHUNK * i)
    requires Active(sections[k]) && Covers(sections[k], CHUNK * i)
    ensures Masked(sections, p) && j < CHUNK && CellAt(sections, size, i, carry, j) == From(p)
  {
    StartsOrCovers(sections[k], i);
    StartsOrCovers(sections[l], i);
    ThirdDoesNotTouch(sections, i, k, l);
    forall m | 0 <= m < |sections| && m != l
      ensures !StartsIn(sections[m], CHUNK * i)
    {
      if m != k && Active(sections[m]) {
        StartsOrCovers(sections[m], i);
      }
    }
    if sections[k].offset == CHUNK * i {
      OnlyAlignedCover(sections, size, i, k);
      NothingContinues(sections, size, i, carry);
      j, p := 0, CHUNK * i;
    } else {
      TailEndsBefore(sections, size, i, carry, k, l);
      j, p := sections[l].offset - CHUNK * i - SkipAmount(carry), sections[l].offset;
      assert Covers(sections[l], p);
    }
    hide BadAt, Uncrowded, WellPlaced;
    OneBlockReads(sections, size, i, carry, l);
  }

  /** The block of `s` reads over the start of `t`, which lies before, and that of `t` stops short. */
  lemma FirstBlockReadsOver(s: Section, t: Section, at: nat, size: nat, turn: Turn<Cell>)
    requires InChunk(turn) && turn.cursor == at && turn.left == CHUNK
    requires StartsIn(s, at) && StartsIn(t, at) && InFile(s, size) && t.offset < s.offset
    ensures var after := MaskSection(t, at, Positions(size), MaskSection(s, at, Positions(size), turn));
            t.offset - at < CHUNK - after.left && after.buffer[t.offset - at] == From(t.offset)
  {
    var u := MaskSection(s, at, Positions(size), turn);
    assert u.buffer[t.offset - at] == From(t.offset);
    assert u.left < CHUNK - (t.offset - at);
  }

  /** The block of `t` begins to read after `s`, which lies before, and reads over the start of `t`. */
  lemma SecondBlockReadsOver(s: Section, t: Section, at: nat, size: nat, turn: Turn<Cell>)
    requires InChunk(turn) && turn.cursor == at && turn.left == CHUNK
    requires StartsIn(s, at) && StartsIn(t, at) && InFile(t, size) && s.offset + s.length <= t.offset
    ensures var after := MaskSection(t, at, Positions(size), MaskSection(s, at, Positions(size), turn));
            var j := t.offset - (s.offset + s.length);
            j < CHUNK - after.left && after.buffer[j] == From(t.offset)
  {
    var u := MaskSection(s, at, Positions(size), turn);
    assert u.cursor == s.offset + s.length;
    assert u.left == CHUNK - (s.offset + s.length - at);
  }

  /** Two sections start in the chunk, and nothing else lies there: the block of the first in the list,
      or that of the second, reads over the start of the second. */
  lemma TwoBlocksRead(sections: seq<Section>, size: nat, i: nat, q: nat, r: nat) returns (j: nat, p: nat)
    requires q < r < |sections| && Apart(sections[q], sections[r])
    requires StartsIn(sections[q], CHUNK * i) && StartsIn(sections[r], CHUNK * i)
    requires InFile(sections[q], size) && InFile(sections[r], size)
    requires forall m :: 0 <= m < |sections| && m != q && m != r ==> !StartsIn(sections[m], CHUNK * i)
    ensures p == sections[r].offset && j < CHUNK && CellAt(sections, size, i, 0, j) == From(p)
  {
    hide MaskSection, ReadRest;
    var s, t, at, file := sections[q], sections[r], CHUNK * i, Positions(size);
    var turn := SkipCarry(at, 0, FillOf(UNREAD, i));
    OneStarts(sections, r, q, at, file, turn);
    Idle(sections, r + 1, |sections|, at, file, turn);
    p := t.offset;
    if t.offset < s.offset {
      j := p - at;
      FirstBlockReadsOver(s, t, at, size, turn);
    } else {
      j := p - (s.offset + s.length);
      SecondBlockReadsOver(s, t, at, size, turn);
    }
    RestIsBehind(file, MaskSections(sections, |sections|, at, file, turn), j);
  }

  /** A bad layout has a masked byte that reaches MD5. */
  lemma BadLayoutReadsMasked(sections: seq<Section>, size: nat) returns (p: nat)
    requires WellPlaced(sections, size) && Uncrowded(sections) && !GoodLayout(sections, size)
    ensures Masked(sections, p) && IsRead(sections, size, p)
  {
    hide GoodLayout, Lonely, CellAt, CarryIs, Cells;
    var i := SomeChunkIsBad(sections, size);
    i := FirstBadChunk(sections, i);
    var carry := CarryInto(sections, size, i);
    var j := CHUNK - 1;
    if Lonely(sections, i) {
      var k :| 0 <= k < |sections| && Active(sections[k]) && First(sections[k]) + 1 == i && !DrainsInOrder(sections[k]);
      DrainedInWrongOrder(sections, size, i, carry, k);
      p := CHUNK * i + j;
    } else {
      j, p := CrowdReadsMasked(sections, size, i, carry);
    }
    assert Cells(sections, size)[CHUNK * i + j] == From(p);
  }

  lemma CrowdReadsMasked(sections: seq<Section>, size: nat, i: nat, carry: nat) returns (j: nat, p: nat)
    requires WellPlaced(sections, size) && Uncrowded(sections) && CarryIs(sections, i, carry) && CHUNK * i < size
    requires !Lonely(sections, i) && forall j :: 0 <= j < i ==> !BadAt(sections, j)
    ensures Masked(sections, p) && j < CHUNK && CellAt(sections, size, i, carry, j) == From(p)
  {
    if k :| 0 <= k < |sections| && Active(sections[k]) && Covers(sections[k], CHUNK * i) {
      if l :| 0 <= l < |sections| && StartsIn(sections[l], CHUNK * i) {
        j, p := BehindAnother(sections, size, i, carry, k, l);
        return;
      }
      OnlyAligned(sections, size, i, k);
      OnlyAlignedCover(sections, size, i, k);
      NothingContinues(sections, size, i, carry);
      AlignedIsRead(sections, size, i);
      j, p := 0, CHUNK * i;
    } else {
      NothingContinues(sections, size, i, carry);
      j, p := TwoStartsReadMasked(sections, size, i);
    }
  }

  lemma TwoStartsReadMasked(sections: seq<Section>, size: nat, i: nat) returns (j: nat, p: nat)
    requires WellPlaced(sections, size) && Uncrowded(sections) && !Lonely(sections, i)
    requires forall k :: 0 <= k < |sections| && Active(sections[k]) ==> !Covers(sections[k], CHUNK * i)
    ensures Masked(sections, p) && j < CHUNK && CellAt(sections, size, i, 0, j) == From(p)
  {
    var q, r := TwoInside(sections, i);
    ThirdDoesNotTouch(sections, i, q, r);
    forall m | 0 <= m < |sections| && m != q && m != r
      ensures !StartsIn(sections[m], CHUNK * i)
    {
      if Active(sections[m]) {
        StartsOrCovers(sections[m], i);
      }
    }
    hide CellAt, Touches, Lonely;
    j, p := TwoBlocksRead(sections, size, i, q, r);
    assert Covers(sections[r], p);
  }

  /** So a layout is good if and only if no byte of the masked sections is hashed. */
  lemma GoodLayoutReadsNoMasked(sections: seq<Section>, size: nat)
    requires WellPlaced(sections, size) && Uncrowded(sections)
    ensures GoodLayout(sections, size) <==> ReadsNoMasked(sections, size)
  {
    hide WellPlaced, Uncrowded, Isolated, DrainsInOrder, IsRead, Skipped;
    if GoodLayout(sections, size) {
      forall p | 0 <= p < size && Masked(sections, p)
        ensures !IsRead(sections, size, p)
      {
        ReadIsUnskipped(sections, size, p);
        SkippedIsMasked(sections, size, p / CHUNK, p % CHUNK);
      }
    } else {
      var p := BadLayoutReadsMasked(sections, size);
      MaskedIsInFile(sections, size, p);
    }
  }

  lemma MaskedIsInFile(sections: seq<Section>, size: nat, p: nat)
    requires WellPlaced(sections, size) && Masked(sections, p)
    ensures p < size
  {
  }

  // Where three sections meet, a bad layout need not read a masked byte.

  const CROWD := [Elf.Section(4090, 1006), Elf.Section(5596, 10), Elf.Section(6096, 10)]

  const CROWDED_SIZE := 12288

  /** Every byte a buffer holds of the file comes from before 4090 or from 7606 on. */
  ghost predicate Outside(cells: seq<Cell>) {
    forall j :: 0 <= j < |cells| && cells[j].From? ==> cells[j].position < 4090 || 7606 <= cells[j].position
  }

  lemma CrowdedTurn0()
    ensures var t := ChunkTurn(CROWD, Positions(CROWDED_SIZE), FillOf(UNREAD, 0), 0, 0);
            Outside(t.buffer) && t.cursor == 4096 && t.carry == 1000
  {
    ThreeBlocks(CROWD[0], CROWD[1], CROWD[2], 0, Positions(CROWDED_SIZE), SkipCarry(0, 0, FillOf(UNREAD, 0)));
  }

  lemma CrowdedTurn1()
    ensures var t := ChunkTurn(CROWD, Positions(CROWDED_SIZE), FillOf(UNREAD, 1), 4096, 1000);
            Outside(t.buffer) && t.cursor == 11702 && t.carry == 424
  {
    ThreeBlocks(CROWD[0], CROWD[1], CROWD[2], 4096, Positions(CROWDED_SIZE), SkipCarry(4096, 1000, FillOf(UNREAD, 1)));
  }

  lemma CrowdedTurn2()
    ensures var t := ChunkTurn(CROWD, Positions(CROWDED_SIZE), FillOf(UNREAD, 2), 11702, 424);
            Outside(t.buffer)
  {
    ThreeBlocks(CROWD[0], CROWD[1], CROWD[2], 11702, Positions(CROWDED_SIZE), SkipCarry(11702, 424, FillOf(UNREAD, 2)));
  }

  /** The tail of one section and two more in one chunk: the cursor is moved past all of them. */
  lemma CrowdReadsNoMasked()
    ensures WellPlaced(CROWD, CROWDED_SIZE) && !GoodLayout(CROWD, CROWDED_SIZE)
    ensures ReadsNoMasked(CROWD, CROWDED_SIZE)
  {
    assert !SharesNoChunk(CROWD[1], CROWD[2]);
    CrowdedRun();
    forall p | 0 <= p < CROWDED_SIZE && Masked(CROWD, p)
      ensures !IsRead(CROWD, CROWDED_SIZE, p)
    {
      assert 4090 <= p < 7606;
    }
  }

  lemma CrowdedRun()
    ensures Outside(Cells(CROWD, CROWDED_SIZE))
  {
    hide ChunkTurn;
    CrowdedTurn0();
    CrowdedTurn1();
    CrowdedTurn2();
    var file := Positions(CROWDED_SIZE);
    assert ChunkCount(CROWDED_SIZE) == 3;
    assert Run(CROWD, file, UNREAD, 0) == Progress([], 0, 0);
    var p1, p2 := Run(CROWD, file, UNREAD, 1), Run(CROWD, file, UNREAD, 2);
    assert p1.cursor == 4096 && p1.carry == 1000 && Outside(p1.fed);
    assert p2.cursor == 11702 && p2.carry == 424 && Outside(p2.fed);
  }
}
