/** Which bytes of a file the chunk loop reads: the same loop, run on positions in place of bytes. The
    answer depends on the section table and the size alone, and it decides what the digest covers, for
    every table, however its sections lie. */
module DigestReads {
  import opened Bytes
  import opened CLib
  import opened DigestSpec
  import opened DigestProof
  import opened DigestLayout

  /** Where the byte at one place of what is fed comes from. */
  datatype Cell = Unread | From(position: nat)

  const UNREAD: Filling<Cell> := (i, j) => Unread

  /** A file whose byte at every position is that position. */
  function Positions(size: nat): (file: seq<Cell>)
    ensures |file| == size
  {
    seq(size, p requires 0 <= p => From(p))
  }

  function Cells(sections: seq<Section>, size: nat): (cells: seq<Cell>)
    ensures |cells| == CHUNK * ChunkCount(size)
  {
    Fed(sections, Positions(size), UNREAD)
  }

  /** Does the byte at `p` reach MD5? */
  predicate IsRead(sections: seq<Section>, size: nat, p: nat) { From(p) in Cells(sections, size) }

  // The loop on bytes and the loop on positions go hand in hand.

  /** `buffer` holds the bytes that `cells` tells, and those of `before` where it tells nothing. */
  ghost predicate Shows(cells: seq<Cell>, file: seq<byte>, before: seq<byte>, buffer: seq<byte>) {
    && |cells| == |before| == |buffer|
    && forall j :: 0 <= j < |cells| ==> ShowsAt(cells[j], file, before[j], buffer[j])
  }

  predicate ShowsAt(cell: Cell, file: seq<byte>, before: byte, value: byte) {
    match cell
    case Unread => value == before
    case From(p) => p < |file| && value == file[p]
  }

  /** Two turns in the same state, one with cells for bytes. */
  ghost predicate Abreast(c: Turn<Cell>, t: Turn<byte>, file: seq<byte>, before: seq<byte>) {
    && c.cursor == t.cursor && c.left == t.left && c.carry == t.carry
    && Shows(c.buffer, file, before, t.buffer)
  }

  lemma ReadAbreast(cells: seq<Cell>, buffer: seq<byte>, before: seq<byte>, at: nat, n: nat, file: seq<byte>,
                    cursor: nat)
    requires Shows(cells, file, before, buffer)
    ensures Shows(ReadInto(cells, at, n, Positions(|file|), cursor), file, before,
                  ReadInto(buffer, at, n, file, cursor))
  {
  }

  lemma MaskAbreast(s: Section, position: nat, file: seq<byte>, before: seq<byte>, c: Turn<Cell>, t: Turn<byte>)
    requires InChunk(c) && InChunk(t) && Abreast(c, t, file, before)
    ensures Abreast(MaskSection(s, position, Positions(|file|), c), MaskSection(s, position, file, t), file, before)
  {
    hide ReadInto, Shows;
    if StartsIn(s, position) {
      ReadAbreast(c.buffer, t.buffer, before, 0, s.offset - position, file, t.cursor);
    }
  }

  lemma {:induction false} MasksAbreast(sections: seq<Section>, m: nat, position: nat, file: seq<byte>,
                                        before: seq<byte>, c: Turn<Cell>, t: Turn<byte>)
    requires m <= |sections| && InChunk(c) && InChunk(t) && Abreast(c, t, file, before)
    ensures Abreast(MaskSections(sections, m, position, Positions(|file|), c),
                    MaskSections(sections, m, position, file, t), file, before)
  {
    hide MaskSection, Abreast;
    if m > 0 {
      MasksAbreast(sections, m - 1, position, file, before, c, t);
      MaskAbreast(sections[m - 1], position, file, before,
                  MaskSections(sections, m - 1, position, Positions(|file|), c),
                  MaskSections(sections, m - 1, position, file, t));
    }
  }

  lemma TurnAbreast(sections: seq<Section>, file: seq<byte>, before: seq<byte>, i: nat, cursor: nat, carry: nat)
    requires |before| == CHUNK
    ensures Abreast(ChunkTurn(sections, Positions(|file|), FillOf(UNREAD, i), cursor, carry),
                    ChunkTurn(sections, file, before, cursor, carry), file, before)
  {
    hide ReadInto, Shows;
    var c, t := SkipCarry(cursor, carry, FillOf(UNREAD, i)), SkipCarry(cursor, carry, before);
    assert Abreast(c, t, file, before) by { NothingShown(FillOf(UNREAD, i), file, before); }
    MasksAbreast(sections, |sections|, cursor, file, before, c, t);
    c := MaskSections(sections, |sections|, cursor, Positions(|file|), c);
    t := MaskSections(sections, |sections|, cursor, file, t);
    ReadAbreast(c.buffer, t.buffer, before, CHUNK - t.left, t.left, file, t.cursor);
  }

  lemma NothingShown(cells: seq<Cell>, file: seq<byte>, before: seq<byte>)
    requires |cells| == |before| && forall j :: 0 <= j < |cells| ==> cells[j] == Unread
    ensures Shows(cells, file, before, before)
  {
  }

  lemma {:induction false} RunAbreast(sections: seq<Section>, file: seq<byte>, fill: Fill, turns: nat, k: nat)
    ensures var c, p := Run(sections, Positions(|file|), UNREAD, turns), Run(sections, file, fill, turns);
            && c.cursor == p.cursor && c.carry == p.carry
            && (k < |p.fed| ==> ShowsAt(c.fed[k], file, fill(k / CHUNK, k % CHUNK), p.fed[k]))
  {
    hide ChunkTurn;
    if turns > 0 {
      RunAbreast(sections, file, fill, turns - 1, k);
      var p, i := Run(sections, file, fill, turns - 1), turns - 1;
      TurnAbreast(sections, file, FillOf(fill, i), i, p.cursor, p.carry);
      if CHUNK * i <= k < CHUNK * turns {
        assert k / CHUNK == i && k % CHUNK == k - CHUNK * i;
      }
    }
  }

  /** Every byte fed is told by its cell: a byte of the file, or what the buffer held. */
  lemma FedByCells(sections: seq<Section>, file: seq<byte>, fill: Fill, k: nat)
    requires k < CHUNK * ChunkCount(|file|)
    ensures ShowsAt(Cells(sections, |file|)[k], file, fill(k / CHUNK, k % CHUNK), Fed(sections, file, fill)[k])
  {
    hide Run, ShowsAt;
    RunAbreast(sections, file, fill, ChunkCount(|file|), k);
  }

  // What the digest covers.

  ghost predicate AgreeWhereRead(sections: seq<Section>, file: seq<byte>, file': seq<byte>)
    requires |file| == |file'|
  {
    forall p :: 0 <= p < |file| && IsRead(sections, |file|, p) ==> file[p] == file'[p]
  }

  lemma ReadByteIsFed(sections: seq<Section>, file: seq<byte>, fill: Fill, p: nat) returns (k: nat)
    requires IsRead(sections, |file|, p)
    ensures k < CHUNK * ChunkCount(|file|) && Cells(sections, |file|)[k] == From(p)
    ensures p < |file| && Fed(sections, file, fill)[k] == file[p]
  {
    hide Cells, Fed;
    k :| 0 <= k < CHUNK * ChunkCount(|file|) && Cells(sections, |file|)[k] == From(p);
    FedByCells(sections, file, fill, k);
  }

  /** Two fills agree wherever the loop reads nothing. */
  ghost predicate AgreeWhereUnread(sections: seq<Section>, size: nat, fill: Fill, fill': Fill) {
    forall k :: 0 <= k < CHUNK * ChunkCount(size) && Cells(sections, size)[k] == Unread ==>
      fill(k / CHUNK, k % CHUNK) == fill'(k / CHUNK, k % CHUNK)
  }

  lemma SameEverywhere(x: seq<byte>, y: seq<byte>)
    requires |x| == |y|
    ensures x == y <==> forall k :: 0 <= k < |x| ==> x[k] == y[k]
  {
  }

  /** For every section table: two files of one size, with two fills, feed the same bytes to MD5 if and only
      if the files agree wherever the loop reads and the fills wherever it does not. */
  lemma FedTellsAll(sections: seq<Section>, file: seq<byte>, file': seq<byte>, fill: Fill, fill': Fill)
    requires |file| == |file'|
    ensures Fed(sections, file, fill) == Fed(sections, file', fill')
       <==> AgreeWhereRead(sections, file, file') && AgreeWhereUnread(sections, |file|, fill, fill')
  {
    hide Cells, Fed;
    SameEverywhere(Fed(sections, file, fill), Fed(sections, file', fill'));
    if Fed(sections, file, fill) == Fed(sections, file', fill') {
      forall p | 0 <= p < |file| && IsRead(sections, |file|, p)
        ensures file[p] == file'[p]
      {
        var k := ReadByteIsFed(sections, file, fill, p);
        FedByCells(sections, file', fill', k);
      }
      forall k | 0 <= k < CHUNK * ChunkCount(|file|) && Cells(sections, |file|)[k] == Unread
        ensures fill(k / CHUNK, k % CHUNK) == fill'(k / CHUNK, k % CHUNK)
      {
        FedByCells(sections, file, fill, k);
        FedByCells(sections, file', fill', k);
      }
    } else if AgreeWhereRead(sections, file, file') && AgreeWhereUnread(sections, |file|, fill, fill') {
      forall k | 0 <= k < CHUNK * ChunkCount(|file|)
        ensures Fed(sections, file, fill)[k] == Fed(sections, file', fill')[k]
      {
        FedByCells(sections, file, fill, k);
        FedByCells(sections, file', fill', k);
        var cell := Cells(sections, |file|)[k];
        assert cell.From? ==> IsRead(sections, |file|, cell.position);
      }
    }
  }

  /** With one fill it is a matter of the bytes that are read. */
  lemma FedTellsReadBytes(sections: seq<Section>, file: seq<byte>, file': seq<byte>, fill: Fill)
    requires |file| == |file'|
    ensures Fed(sections, file, fill) == Fed(sections, file', fill) <==> AgreeWhereRead(sections, file, file')
  {
    hide AgreeWhereRead, Fed, Cells;
    FedTellsAll(sections, file, file', fill, fill);
  }

  /** With one file, of what the buffers hold where nothing is read. */
  lemma FedTellsFill(sections: seq<Section>, file: seq<byte>, fill: Fill, fill': Fill)
    ensures Fed(sections, file, fill) == Fed(sections, file, fill') <==> AgreeWhereUnread(sections, |file|, fill, fill')
  {
    hide IsRead, Fed, Cells, AgreeWhereUnread;
    FedTellsAll(sections, file, file, fill, fill');
  }

  ghost predicate AllRead(sections: seq<Section>, size: nat) {
    forall k :: 0 <= k < CHUNK * ChunkCount(size) ==> Cells(sections, size)[k].From?
  }

  /** It never matters if and only if nothing is left unread. */
  lemma FillIsUnseenExactly(sections: seq<Section>, file: seq<byte>, fill: Fill)
    ensures AllRead(sections, |file|)
       <==> forall fill': Fill :: Fed(sections, file, fill') == Fed(sections, file, fill)
  {
    hide Cells, Fed;
    if AllRead(sections, |file|) {
      forall fill': Fill
        ensures Fed(sections, file, fill') == Fed(sections, file, fill)
      {
        FedTellsFill(sections, file, fill', fill);
      }
    } else {
      var k :| 0 <= k < CHUNK * ChunkCount(|file|) && Cells(sections, |file|)[k] == Unread;
      FedTellsFill(sections, file, OtherFill(fill), fill);
      assert OtherFill(fill)(k / CHUNK, k % CHUNK) != fill(k / CHUNK, k % CHUNK);
    }
  }

  function Other(b: byte): (r: byte)
    ensures r != b
  {
    if b == 0 then 1 else 0
  }

  /** A fill that differs everywhere. */
  function OtherFill(fill: Fill): Fill { (i: nat, j: nat) => Other(fill(i, j)) }

  /** Of the `n` bytes from `at` on none is read. */
  ghost predicate NoneRead(sections: seq<Section>, size: nat, at: nat, n: nat) {
    forall p :: at <= p < at + n ==> !IsRead(sections, size, p)
  }

  lemma UnreadWriteIsUnseen(sections: seq<Section>, file: seq<byte>, fill: Fill, at: nat, data: seq<byte>)
    requires at + |data| <= |file| && NoneRead(sections, |file|, at, |data|)
    ensures Fed(sections, Overwrite(file, at, data), fill) == Fed(sections, file, fill)
  {
    hide IsRead, Fed;
    OverwriteKeepsSize(file, at, data);
    FedTellsReadBytes(sections, file, Overwrite(file, at, data), fill);
  }

  lemma OverwriteKeepsSize(file: seq<byte>, at: nat, data: seq<byte>)
    requires at + |data| <= |file|
    ensures |Overwrite(file, at, data)| == |file|
    ensures forall i :: 0 <= i < |data| ==> Overwrite(file, at, data)[at + i] == data[i]
  {
    forall i | 0 <= i < |data|
      ensures Overwrite(file, at, data)[at + i] == data[i]
    {
      assert Overwrite(file, at, data)[at..at + |data|][i] == data[i];
    }
  }

  lemma ReadWriteIsSeen(sections: seq<Section>, file: seq<byte>, fill: Fill, at: nat, n: nat)
    requires at + n <= |file| && !NoneRead(sections, |file|, at, n)
    ensures Fed(sections, Overwrite(file, at, Changed(file[at..at + n])), fill) != Fed(sections, file, fill)
  {
    hide IsRead, Fed, Overwrite;
    var data := Changed(file[at..at + n]);
    OverwriteKeepsSize(file, at, data);
    var p :| at <= p < at + n && IsRead(sections, |file|, p);
    assert Overwrite(file, at, data)[at + (p - at)] == data[p - at] != file[p];
    FedTellsReadBytes(sections, file, Overwrite(file, at, data), fill);
  }

  /** Writing into a range leaves what is fed as it was, whatever is written, if and only if none of
      the range is read. */
  lemma WriteIsUnseenExactly(sections: seq<Section>, file: seq<byte>, fill: Fill, at: nat, n: nat)
    requires at + n <= |file|
    ensures NoneRead(sections, |file|, at, n)
       <==> forall data: seq<byte> :: |data| == n ==>
              Fed(sections, Overwrite(file, at, data), fill) == Fed(sections, file, fill)
  {
    hide NoneRead, Fed, Overwrite;
    if NoneRead(sections, |file|, at, n) {
      forall data: seq<byte> | |data| == n
        ensures Fed(sections, Overwrite(file, at, data), fill) == Fed(sections, file, fill)
      {
        UnreadWriteIsUnseen(sections, file, fill, at, data);
      }
    } else {
      ReadWriteIsSeen(sections, file, fill, at, n);
    }
  }

  /** Bytes that differ at every position. */
  function Changed(data: seq<byte>): (r: seq<byte>)
    ensures |r| == |data| && forall i :: 0 <= i < |data| ==> r[i] != data[i]
  {
    seq(|data|, i requires 0 <= i < |data| => Other(data[i]))
  }

  // Isolated sections, where what is read is what is not skipped.

  lemma CellWhenIsolated(sections: seq<Section>, size: nat, k: nat)
    requires Isolated(sections, size) && k < CHUNK * ChunkCount(size)
    ensures Cells(sections, size)[k]
         == if !Skipped(sections, k / CHUNK, k % CHUNK) && k < size then From(k) else Unread
  {
    hide Isolated, Skipped, Fed;
    var i, j := k / CHUNK, k % CHUNK;
    FedWhenIsolated(sections, Positions(size), UNREAD, i);
    assert Cells(sections, size)[k] == ChunkOf(Cells(sections, size), i)[j];
  }

  lemma ReadIsUnskipped(sections: seq<Section>, size: nat, p: nat)
    requires Isolated(sections, size) && p < size
    ensures IsRead(sections, size, p) <==> !Skipped(sections, p / CHUNK, p % CHUNK)
  {
    hide Isolated, Skipped, Cells;
    var cells := Cells(sections, size);
    forall k | 0 <= k < |cells|
      ensures cells[k] == if !Skipped(sections, k / CHUNK, k % CHUNK) && k < size then From(k) else Unread
    {
      CellWhenIsolated(sections, size, k);
    }
    assert !Skipped(sections, p / CHUNK, p % CHUNK) ==> cells[p] == From(p);
  }

  /** At the first byte of a section the loop reads nothing: what is hashed there is what the buffer held. */
  lemma FirstByteIsUnread(sections: seq<Section>, size: nat, k: nat)
    requires Isolated(sections, size) && k < |sections| && Active(sections[k])
    ensures sections[k].offset < CHUNK * ChunkCount(size) && Cells(sections, size)[sections[k].offset] == Unread
  {
    var s := sections[k];
    assert SkippedFor(s, s.offset / CHUNK, s.offset % CHUNK);
    CellWhenIsolated(sections, size, s.offset);
  }

  /** There, two files of one size feed the same bytes exactly when they agree wherever nothing is
      skipped. */
  lemma FedTellsUnskippedBytes(sections: seq<Section>, file: seq<byte>, file': seq<byte>, fill: Fill)
    requires |file| == |file'| && Isolated(sections, |file|)
    ensures Fed(sections, file, fill) == Fed(sections, file', fill)
       <==> forall p :: 0 <= p < |file| && !Skipped(sections, p / CHUNK, p % CHUNK) ==> file[p] == file'[p]
  {
    hide Isolated, Skipped, Fed, IsRead;
    FedTellsReadBytes(sections, file, file', fill);
    forall p | 0 <= p < |file|
      ensures IsRead(sections, |file|, p) <==> !Skipped(sections, p / CHUNK, p % CHUNK)
    {
      ReadIsUnskipped(sections, |file|, p);
    }
  }

  /** The first `n` bytes of an isolated section are all left unread if and only if they fit the gap. */
  lemma GapIsExact(sections: seq<Section>, size: nat, k: nat, n: nat)
    requires Isolated(sections, size) && k < |sections| && Active(sections[k]) && n <= sections[k].length
    ensures FitsTheGap(sections[k], n) <==> NoneRead(sections, size, sections[k].offset, n)
  {
    hide IsRead, FitsTheGap, SkippedFor, SharesNoChunk;
    var s := sections[k];
    if FitsTheGap(s, n) {
      forall p | s.offset <= p < s.offset + n
        ensures !IsRead(sections, size, p)
      {
        PrefixIsSkipped(s, n, p);
        ReadIsUnskipped(sections, size, p);
      }
    } else {
      var p := PrefixIsNotSkipped(s, n);
      OthersSkipNothing(sections, size, k, p);
      ReadIsUnskipped(sections, size, p);
    }
  }

  lemma OthersSkipNothing(sections: seq<Section>, size: nat, k: nat, p: nat)
    requires Isolated(sections, size) && k < |sections| && Active(sections[k]) && Covers(sections[k], p)
    ensures forall l :: 0 <= l < |sections| && l != k ==> !SkippedFor(sections[l], p / CHUNK, p % CHUNK)
  {
    forall l | 0 <= l < |sections| && l != k && Active(sections[l])
      ensures !Touches(sections[l], p / CHUNK)
    {
      assert SharesNoChunk(sections[k], sections[l]);
    }
  }
}
