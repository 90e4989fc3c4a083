/** When the chunk loop blanks: cell by cell, for any section table and any fill, over all files that share
    some bytes. With none of them fixed it is a question of layouts, with header, table and names fixed
    one of ELF files. */
module DigestBlanks {
  import opened Bytes
  import opened DigestSpec
  import opened DigestReads

  /** Is the byte at `k` meant to be hashed? */
  ghost predicate IsMeant(sections: seq<Section>, size: nat, k: nat) { k < size && !Masked(sections, k) }

  /** Files of the same size with the same bytes at the fixed positions. */
  ghost predicate Shares(data: seq<byte>, fixed: set<nat>, file: seq<byte>) {
    |file| == |data| && forall p :: 0 <= p < |data| && p in fixed ==> file[p] == data[p]
  }

  ghost predicate FixedAs(data: seq<byte>, fixed: set<nat>, p: nat, value: byte) {
    p < |data| && p in fixed && data[p] == value
  }

  /** What is fed at `k` is what is meant there, in every file that shares the fixed bytes of `data`. */
  ghost predicate CellIsRight(sections: seq<Section>, data: seq<byte>, fixed: set<nat>, fill: Fill, k: nat)
    requires k < CHUNK * ChunkCount(|data|)
  {
    match Cells(sections, |data|)[k]
    case Unread =>
      var value := fill(k / CHUNK, k % CHUNK);
      if IsMeant(sections, |data|, k) then FixedAs(data, fixed, k, value) else value == 0
    case From(p) =>
      if IsMeant(sections, |data|, k)
      then p == k || (k in fixed && FixedAs(data, fixed, p, data[k]))
      else FixedAs(data, fixed, p, 0)
  }

  ghost predicate CellsAreRight(sections: seq<Section>, data: seq<byte>, fixed: set<nat>, fill: Fill) {
    forall k :: 0 <= k < CHUNK * ChunkCount(|data|) ==> CellIsRight(sections, data, fixed, fill, k)
  }

  lemma BlankedAt(sections: seq<Section>, file: seq<byte>, k: nat)
    requires k < CHUNK * ChunkCount(|file|)
    ensures Blanked(sections, file)[k] == if IsMeant(sections, |file|, k) then file[k] else 0
  {
    hide Masked;
  }

  lemma RightCell(sections: seq<Section>, data: seq<byte>, fixed: set<nat>, fill: Fill, file: seq<byte>, k: nat)
    requires k < CHUNK * ChunkCount(|data|) && Shares(data, fixed, file)
    requires CellIsRight(sections, data, fixed, fill, k)
    ensures Fed(sections, file, fill)[k] == Blanked(sections, file)[k]
  {
    hide Cells, Fed, Masked, Blanked;
    BlankedAt(sections, file, k);
    FedByCells(sections, file, fill, k);
  }

  /** One byte of `data` changed, or none, makes a file that shows a wrong cell. */
  lemma WrongCellShows(sections: seq<Section>, data: seq<byte>, fixed: set<nat>, fill: Fill, k: nat)
      returns (file: seq<byte>)
    requires k < CHUNK * ChunkCount(|data|) && !CellIsRight(sections, data, fixed, fill, k)
    ensures Shares(data, fixed, file) && Fed(sections, file, fill)[k] != Blanked(sections, file)[k]
  {
    hide Cells, Fed, Masked, Blanked;
    FedByCells(sections, data, fill, k);
    var cell, meant := Cells(sections, |data|)[k], IsMeant(sections, |data|, k);
    var value := fill(k / CHUNK, k % CHUNK);
    file := data;
    if cell.Unread? && meant && k !in fixed {
      file := data[k := Other(value)];
    } else if cell.From? && meant && cell.position !in fixed {
      file := data[cell.position := Other(data[k])];
    } else if cell.From? && meant && k !in fixed {
      file := data[k := Other(data[cell.position])];
    } else if cell.From? && !meant && cell.position !in fixed {
      file := data[cell.position := 1];
    }
    BlankedAt(sections, file, k);
    FedByCells(sections, file, fill, k);
  }

  /** All files that share the fixed bytes are blanked if and only if all cells are right. The cells need
      the section table and the size alone. */
  lemma BlankedExactly(sections: seq<Section>, data: seq<byte>, fixed: set<nat>, fill: Fill)
    ensures CellsAreRight(sections, data, fixed, fill)
       <==> forall file: seq<byte> :: Shares(data, fixed, file) ==>
              Fed(sections, file, fill) == Blanked(sections, file)
  {
    hide CellIsRight, Shares, Fed, Blanked;
    if CellsAreRight(sections, data, fixed, fill) {
      forall file: seq<byte> | Shares(data, fixed, file)
        ensures Fed(sections, file, fill) == Blanked(sections, file)
      {
        SharesSize(data, fixed, file);
        forall k | 0 <= k < CHUNK * ChunkCount(|data|)
          ensures Fed(sections, file, fill)[k] == Blanked(sections, file)[k]
        {
          RightCell(sections, data, fixed, fill, file, k);
        }
      }
    } else {
      var k :| 0 <= k < CHUNK * ChunkCount(|data|) && !CellIsRight(sections, data, fixed, fill, k);
      var file := WrongCellShows(sections, data, fixed, fill, k);
    }
  }

  lemma SharesSize(data: seq<byte>, fixed: set<nat>, file: seq<byte>)
    requires Shares(data, fixed, file)
    ensures |file| == |data|
  {
  }
}
