/** Section tables that leave the first `b` bytes of the file alone: these bytes are read where they lie,
    and the loop never comes back to them. */
module DigestAhead {
  import opened CLib
  import opened DigestSpec
  import opened DigestProof
  import opened DigestReads

  /** All sections start at byte `b` or later. */
  ghost predicate StartFrom(sections: seq<Section>, b: nat) {
    forall k :: 0 <= k < |sections| && Active(sections[k]) ==> sections[k].offset >= b
  }

  /** The cell at `k` tells of a byte from `b` on, or of the byte at `k`; before `b` it tells of one. */
  predicate CellAhead(cell: Cell, k: nat, b: nat) {
    match cell
    case Unread => k >= b
    case From(p) => p >= b || p == k
  }

  /** So do all in a part of what is fed that begins at `at`. */
  ghost predicate CellsAhead(cells: seq<Cell>, at: nat, b: nat) {
    forall j :: 0 <= j < |cells| ==> CellAhead(cells[j], at + j, b)
  }

  ghost predicate TurnIsAhead(t: Turn<Cell>, at: nat, b: nat) { t.cursor >= b && CellsAhead(t.buffer, at, b) }

  lemma ReadAhead(cells: seq<Cell>, from: nat, n: nat, size: nat, cursor: nat, at: nat, b: nat)
    requires CellsAhead(cells, at, b) && cursor >= b
    ensures CellsAhead(ReadInto(cells, from, n, Positions(size), cursor), at, b)
  {
  }

  lemma BlockAhead(s: Section, position: nat, size: nat, t: Turn<Cell>, at: nat, b: nat)
    requires InChunk(t) && TurnIsAhead(t, at, b)
    ensures TurnIsAhead(MaskSection(s, position, Positions(size), t), at, b)
  {
    hide ReadInto, CellsAhead;
    if StartsIn(s, position) {
      ReadAhead(t.buffer, 0, s.offset - position, size, t.cursor, at, b);
    }
  }

  lemma RestAhead(size: nat, t: Turn<Cell>, at: nat, b: nat)
    requires InChunk(t) && TurnIsAhead(t, at, b)
    ensures TurnIsAhead(ReadRest(Positions(size), t), at, b)
  {
    hide ReadInto, CellsAhead;
    ReadAhead(t.buffer, CHUNK - t.left, t.left, size, t.cursor, at, b);
  }

  // The chunk in which byte b lies.

  /** Nothing has been read in it so far. */
  predicate AtStart(t: Turn<Cell>, at: nat) {
    t.cursor == at && t.left == CHUNK && InChunk(t) && forall j :: 0 <= j < CHUNK ==> t.buffer[j] == Unread
  }

  lemma FirstBlockAhead(s: Section, at: nat, size: nat, t: Turn<Cell>, b: nat)
    requires AtStart(t, at) && at <= b < at + CHUNK
    requires StartsIn(s, at) && b <= s.offset <= size
    ensures TurnIsAhead(MaskSection(s, at, Positions(size), t), at, b)
  {
    var r := MaskSection(s, at, Positions(size), t);
    forall j | 0 <= j < CHUNK
      ensures CellAhead(r.buffer[j], at + j, b)
    {
      assert r.buffer[j] == if j < s.offset - at then From(at + j) else Unread;
    }
  }

  lemma FirstRestAhead(at: nat, size: nat, t: Turn<Cell>, b: nat)
    requires AtStart(t, at) && at <= b < at + CHUNK && b <= size
    ensures TurnIsAhead(ReadRest(Positions(size), t), at, b)
  {
  }

  lemma {:induction false} BlocksAhead(sections: seq<Section>, m: nat, at: nat, size: nat, t: Turn<Cell>, b: nat)
    requires m <= |sections| && AtStart(t, at) && at <= b < at + CHUNK
    requires AllInFile(sections, size) && StartFrom(sections, b)
    ensures var r := MaskSections(sections, m, at, Positions(size), t); r == t || TurnIsAhead(r, at, b)
  {
    hide MaskSection, TurnIsAhead;
    if m > 0 {
      BlocksAhead(sections, m - 1, at, size, t, b);
      var s, r := sections[m - 1], MaskSections(sections, m - 1, at, Positions(size), t);
      if !StartsIn(s, at) {
        OffBlock(s, at, size, r);
      } else if r == t {
        FirstBlockAhead(s, at, size, t, b);
      } else {
        BlockAhead(s, at, size, r, at, b);
      }
    }
  }

  lemma OffBlock(s: Section, at: nat, size: nat, t: Turn<Cell>)
    requires InChunk(t) && !StartsIn(s, at)
    ensures MaskSection(s, at, Positions(size), t) == t
  {
  }

  lemma FirstTurnAhead(sections: seq<Section>, size: nat, i: nat, b: nat)
    requires AllInFile(sections, size) && StartFrom(sections, b) && CHUNK * i <= b < CHUNK * (i + 1) && b <= size
    ensures TurnIsAhead(ChunkTurn(sections, Positions(size), FillOf(UNREAD, i), CHUNK * i, 0), CHUNK * i, b)
  {
    hide MaskSections, ReadRest, TurnIsAhead;
    var t := SkipCarry(CHUNK * i, 0, FillOf(UNREAD, i));
    BlocksAhead(sections, |sections|, CHUNK * i, size, t, b);
    var u := MaskSections(sections, |sections|, CHUNK * i, Positions(size), t);
    if u == t {
      FirstRestAhead(CHUNK * i, size, t, b);
    } else {
      RestAhead(size, u, CHUNK * i, b);
    }
  }

  // The chunks behind it.

  lemma {:induction false} LaterBlocksAhead(sections: seq<Section>, m: nat, position: nat, size: nat, t: Turn<Cell>,
                                            at: nat, b: nat)
    requires m <= |sections| && InChunk(t) && TurnIsAhead(t, at, b)
    ensures TurnIsAhead(MaskSections(sections, m, position, Positions(size), t), at, b)
  {
    hide MaskSection, TurnIsAhead;
    if m > 0 {
      LaterBlocksAhead(sections, m - 1, position, size, t, at, b);
      BlockAhead(sections[m - 1], position, size, MaskSections(sections, m - 1, position, Positions(size), t), at, b);
    }
  }

  lemma LaterTurnAhead(sections: seq<Section>, size: nat, i: nat, cursor: nat, carry: nat, b: nat)
    requires cursor >= b && CHUNK * i >= b
    ensures TurnIsAhead(ChunkTurn(sections, Positions(size), FillOf(UNREAD, i), cursor, carry), CHUNK * i, b)
  {
    hide MaskSections, ReadRest;
    var t := SkipCarry(cursor, carry, FillOf(UNREAD, i));
    LaterBlocksAhead(sections, |sections|, cursor, size, t, CHUNK * i, b);
    RestAhead(size, MaskSections(sections, |sections|, cursor, Positions(size), t), CHUNK * i, b);
  }

  // The whole loop.

  lemma UntouchedBefore(sections: seq<Section>, b: nat, i: nat)
    requires StartFrom(sections, b) && CHUNK * i <= b
    ensures forall j, k :: 0 <= j < i && 0 <= k < |sections| ==> !Touches(sections[k], j)
    ensures forall j :: 0 <= j < i ==> Lonely(sections, j)
    ensures forall k :: 0 <= k < |sections| ==> !Continues(sections[k], i)
  {
  }

  lemma RunBefore(sections: seq<Section>, size: nat, b: nat, i: nat)
    requires AllInFile(sections, size) && StartFrom(sections, b) && CHUNK * i <= b <= size && i <= ChunkCount(size)
    ensures var p := Run(sections, Positions(size), UNREAD, i);
            p.cursor == CHUNK * i && p.carry == 0 && CellsAhead(p.fed, 0, b)
  {
    UntouchedBefore(sections, b, i);
    hide Lonely, Touches;
    RunIsRight(sections, Positions(size), UNREAD, i);
    var fed := Run(sections, Positions(size), UNREAD, i).fed;
    forall k | 0 <= k < |fed|
      ensures CellAhead(fed[k], 0 + k, b)
    {
      assert !Skipped(sections, k / CHUNK, k % CHUNK);
      assert fed[k] == ChunkOf(fed, k / CHUNK)[k % CHUNK];
    }
  }

  lemma CellsAheadAppended(x: seq<Cell>, y: seq<Cell>, b: nat)
    requires CellsAhead(x, 0, b) && CellsAhead(y, |x|, b)
    ensures CellsAhead(x + y, 0, b)
  {
    forall j | 0 <= j < |x + y|
      ensures CellAhead((x + y)[j], 0 + j, b)
    {
      if j >= |x| {
        assert CellAhead(y[j - |x|], |x| + (j - |x|), b);
      }
    }
  }

  lemma {:induction false} RunAhead(sections: seq<Section>, size: nat, b: nat, turns: nat)
    requires AllInFile(sections, size) && StartFrom(sections, b) && b <= size && turns <= ChunkCount(size)
    ensures var p := Run(sections, Positions(size), UNREAD, turns);
            CellsAhead(p.fed, 0, b) && (CHUNK * turns > b ==> p.cursor >= b)
    decreases turns
  {
    hide ChunkTurn, CellsAhead, AllInFile, StartFrom;
    if CHUNK * turns <= b {
      RunBefore(sections, size, b, turns);
    } else {
      var i := turns - 1;
      RunAhead(sections, size, b, i);
      var p := Run(sections, Positions(size), UNREAD, i);
      if CHUNK * i <= b {
        RunBefore(sections, size, b, i);
        FirstTurnAhead(sections, size, i, b);
      } else {
        LaterTurnAhead(sections, size, i, p.cursor, p.carry, b);
      }
      CellsAheadAppended(p.fed, ChunkTurn(sections, Positions(size), FillOf(UNREAD, i), p.cursor, p.carry).buffer, b);
    }
  }

  /** Every cell is ahead. */
  lemma AllCellsAhead(sections: seq<Section>, size: nat, b: nat)
    requires AllInFile(sections, size) && StartFrom(sections, b) && b <= size
    ensures CellsAhead(Cells(sections, size), 0, b)
  {
    hide Run, CellsAhead;
    RunAhead(sections, size, b, ChunkCount(size));
  }
}
