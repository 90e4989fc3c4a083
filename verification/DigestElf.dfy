/** The digest of ELF files, whose section table comes from the very bytes that are hashed: which
    runtimes have the sections they name blanked, whatever the rest of the file holds. */
module DigestElf {
  import opened Bytes
  import opened Elf
  import opened ElfFrame
  import opened DigestSpec
  import opened DigestProof
  import opened DigestLayout
  import opened DigestReads
  import opened DigestBlanks
  import opened DigestExact
  import opened DigestMasked
  import opened DigestAhead
  import opened Digest

  lemma MaskedSectionsAreKept(data: seq<byte>, after: seq<byte>)
    requires Readable(data) && KeepsCritical(data, after)
    ensures Readable(after) && MaskedSections(after) == MaskedSections(data)
  {
    hide KeepsCritical;
    LookupIsKept(data, after, DigestMd5Name());
    LookupIsKept(data, after, Sha256SigName());
    LookupIsKept(data, after, SigKeyName());
  }

  /** The digest of the file is computed from the file with its own sections blanked. */
  ghost predicate IsBlanked(data: seq<byte>, fill: Fill)
    requires Readable(data)
  {
    Fed(MaskedSections(data), data, fill) == Blanked(MaskedSections(data), data)
  }

  /** The bytes of header, section table and names. */
  ghost function CriticalBytes(data: seq<byte>): set<nat>
    requires Readable(data)
  {
    set p: nat | p < |data| && Critical(data, p)
  }

  /** Every ELF file with the same header, table and names is blanked. */
  ghost predicate AllBlanked(data: seq<byte>, fill: Fill)
    requires Readable(data)
  {
    forall file: seq<byte> :: |file| == |data| && KeepsCritical(data, file) ==> Readable(file) && IsBlanked(file, fill)
  }

  lemma SharingIsKeeping(data: seq<byte>, file: seq<byte>)
    requires Readable(data)
    ensures Shares(data, CriticalBytes(data), file) <==> |file| == |data| && KeepsCritical(data, file)
  {
    hide Critical;
  }

  lemma KeepingBlanks(data: seq<byte>, file: seq<byte>, fill: Fill)
    requires Readable(data) && KeepsCritical(data, file) && |file| == |data|
    ensures Readable(file)
    ensures IsBlanked(file, fill) <==> Fed(MaskedSections(data), file, fill) == Blanked(MaskedSections(data), file)
  {
    hide Readable, MaskedSections, Fed, Blanked, KeepsCritical;
    MaskedSectionsAreKept(data, file);
  }

  /** For every readable file and every fill, with the section table looked up in the file itself: all files
      with its header, table and names are blanked if and only if all cells are right for these bytes. */
  lemma ElfIsExact(data: seq<byte>, fill: Fill)
    requires Readable(data)
    ensures CellsAreRight(MaskedSections(data), data, CriticalBytes(data), fill) <==> AllBlanked(data, fill)
  {
    hide Readable, MaskedSections, Fed, Blanked, KeepsCritical, Shares, CriticalBytes, IsBlanked, CellsAreRight;
    BlankedExactly(MaskedSections(data), data, CriticalBytes(data), fill);
    forall file: seq<byte>
      ensures Shares(data, CriticalBytes(data), file) <==> |file| == |data| && KeepsCritical(data, file)
      ensures |file| == |data| && KeepsCritical(data, file) ==>
                Readable(file)
                && (IsBlanked(file, fill)
                    <==> Fed(MaskedSections(data), file, fill) == Blanked(MaskedSections(data), file))
    {
      SharingIsKeeping(data, file);
      if |file| == |data| && KeepsCritical(data, file) {
        KeepingBlanks(data, file, fill);
      }
    }
  }

  lemma WrongCellInElf(data: seq<byte>, fill: Fill) returns (file: seq<byte>)
    requires Readable(data) && !CellsAreRight(MaskedSections(data), data, CriticalBytes(data), fill)
    ensures |file| == |data| && KeepsCritical(data, file)
    ensures Readable(file) && MaskedSections(file) == MaskedSections(data) && !IsBlanked(file, fill)
  {
    hide Readable, MaskedSections, KeepsCritical, CriticalBytes, IsBlanked, CellsAreRight;
    ElfIsExact(data, fill);
    file :| |file| == |data| && KeepsCritical(data, file) && !(Readable(file) && IsBlanked(file, fill));
    MaskedSectionsAreKept(data, file);
  }

  // What follows for layouts.

  /** The sections left out of the digest hold no byte of the header, the section table or the names. */
  ghost predicate MaskedAreClear(data: seq<byte>)
    requires Readable(data)
  {
    forall p :: 0 <= p < |data| && Critical(data, p) ==> !Masked(MaskedSections(data), p)
  }

  lemma ReadMaskedCellIsWrong(data: seq<byte>, fill: Fill, p: nat)
    requires Readable(data) && MaskedAreClear(data) && p < |data|
    requires Masked(MaskedSections(data), p) && IsRead(MaskedSections(data), |data|, p)
    ensures !CellsAreRight(MaskedSections(data), data, CriticalBytes(data), fill)
  {
    hide Masked, Critical, Readable, MaskedSections, Fed, Cells;
    var sections := MaskedSections(data);
    var k := ReadByteIsFed(sections, data, ZERO_FILL, p);
    assert p !in CriticalBytes(data);
    assert !CellIsRight(sections, data, CriticalBytes(data), fill, k);
  }

  /** A masked byte that is read has an ELF file that shows it: the same header, table and names, and
      the same sections. */
  lemma ReadMaskedByteShows(data: seq<byte>, fill: Fill, p: nat) returns (file: seq<byte>)
    requires Readable(data) && MaskedAreClear(data) && p < |data|
    requires Masked(MaskedSections(data), p) && IsRead(MaskedSections(data), |data|, p)
    ensures |file| == |data| && KeepsCritical(data, file)
    ensures Readable(file) && MaskedSections(file) == MaskedSections(data) && !IsBlanked(file, fill)
  {
    hide MaskedAreClear, Readable, Masked, MaskedSections, IsRead, KeepsCritical, IsBlanked, CellsAreRight;
    ReadMaskedCellIsWrong(data, fill, p);
    file := WrongCellInElf(data, fill);
  }

  lemma GoodElf(data: seq<byte>, fill: Fill)
    requires Readable(data) && GoodLayout(MaskedSections(data), |data|)
    ensures AllBlanked(data, fill) <==> ZeroWhereMasked(MaskedSections(data), |data|, fill)
  {
    hide GoodLayout, Readable, MaskedSections, AllBlanked, CellsAreRight, CellsAsMeant, ZeroWhereMasked, CriticalBytes;
    GoodCells(MaskedSections(data), |data|);
    RightWhenAsMeant(MaskedSections(data), data, CriticalBytes(data), fill);
    ElfIsExact(data, fill);
  }

  /** For a runtime whose three sections lie in the file, apart and clear of the tables, and do not all
      meet in one chunk: every file with its header, table and names is blanked if and only if the layout
      is good and the fill is zero where nothing is meant to be hashed. */
  lemma ElfLayoutIsExact(data: seq<byte>, fill: Fill)
    requires Readable(data) && MaskedAreClear(data)
    requires WellPlaced(MaskedSections(data), |data|) && Uncrowded(MaskedSections(data))
    ensures GoodLayout(MaskedSections(data), |data|) && ZeroWhereMasked(MaskedSections(data), |data|, fill)
       <==> AllBlanked(data, fill)
  {
    hide WellPlaced, Uncrowded, GoodLayout, Masked, MaskedAreClear, Readable, MaskedSections, IsRead, AllBlanked;
    hide ZeroWhereMasked, CellsAreRight;
    if GoodLayout(MaskedSections(data), |data|) {
      GoodElf(data, fill);
    } else {
      GoodLayoutReadsNoMasked(MaskedSections(data), |data|);
      var p :| 0 <= p < |data| && Masked(MaskedSections(data), p) && IsRead(MaskedSections(data), |data|, p);
      ReadMaskedCellIsWrong(data, fill, p);
      ElfIsExact(data, fill);
    }
  }

  /** Header, table and names lie before byte `b`, and the sections left out of the digest do not. */
  ghost predicate TablesBefore(data: seq<byte>, b: nat)
    requires Readable(data)
  {
    && (forall p :: 0 <= p < |data| && Critical(data, p) ==> p < b)
    && StartFrom(MaskedSections(data), b)
  }

  /** Then a cell that is not as meant is wrong: what it tells of, or what should be there, is not fixed. */
  lemma WrongCellIsFree(sections: seq<Section>, data: seq<byte>, fixed: set<nat>, fill: Fill, b: nat, k: nat)
    requires StartFrom(sections, b) && b <= |data| && forall p :: p in fixed ==> p < b
    requires k < CHUNK * ChunkCount(|data|) && CellAhead(Cells(sections, |data|)[k], k, b)
    requires Cells(sections, |data|)[k] != MeantCell(sections, |data|, k)
    ensures !CellIsRight(sections, data, fixed, fill, k)
  {
    hide Cells;
  }

  lemma BadLayoutIsWrong(data: seq<byte>, fill: Fill, b: nat)
    requires Readable(data) && TablesBefore(data, b)
    requires WellPlaced(MaskedSections(data), |data|) && !GoodLayout(MaskedSections(data), |data|)
    ensures !CellsAreRight(MaskedSections(data), data, CriticalBytes(data), fill)
  {
    var sections := MaskedSections(data);
    SomeStartsBehind(sections, |data|, b);
    WellPlacedIsInFile(sections, |data|);
    hide WellPlaced, GoodLayout, Critical, Readable, MaskedSections, StartFrom, AllInFile;
    hide Cells, CellIsRight, CellAhead;
    var k := BadLayoutHasWrongCell(sections, |data|);
    AllCellsAhead(sections, |data|, b);
    assert CellAhead(Cells(sections, |data|)[k], 0 + k, b);
    WrongCellIsFree(sections, data, CriticalBytes(data), fill, b, k);
  }

  lemma SomeStartsBehind(sections: seq<Section>, size: nat, b: nat)
    requires WellPlaced(sections, size) && !GoodLayout(sections, size) && StartFrom(sections, b)
    ensures b <= size
  {
    if k :| 0 <= k < |sections| && Active(sections[k]) {
      assert InFile(sections[k], size);
    }
  }

  /** For a runtime whose tables lie before its three sections, which lie in the file and apart: every file
      with its header, table and names is blanked if and only if the layout is good and the fill is zero
      where nothing is meant to be hashed. */
  lemma ElfLayoutIsExactBehind(data: seq<byte>, fill: Fill, b: nat)
    requires Readable(data) && TablesBefore(data, b) && WellPlaced(MaskedSections(data), |data|)
    ensures GoodLayout(MaskedSections(data), |data|) && ZeroWhereMasked(MaskedSections(data), |data|, fill)
       <==> AllBlanked(data, fill)
  {
    hide WellPlaced, GoodLayout, TablesBefore, Readable, MaskedSections, AllBlanked, ZeroWhereMasked, CellsAreRight;
    if GoodLayout(MaskedSections(data), |data|) {
      GoodElf(data, fill);
    } else {
      BadLayoutIsWrong(data, fill, b);
      ElfIsExact(data, fill);
    }
  }
}
