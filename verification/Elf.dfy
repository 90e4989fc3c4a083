/** src/elf.c: finding a section by name in the bytes of an ELF file, with the struct layouts of
    src/light_elf.h on a little-endian host (System V ABI chapter 4). */
module Elf {
  import opened Bytes
  import opened CLib

  datatype Option<T> = None | Some(value: T) {
    function GetOr(default: T): T {
      match this
      case Some(v) => v
      case None => default
    }
  }

  datatype Class = Elf32 | Elf64

  /** Where a section's contents lie in the file. */
  datatype Section = Section(offset: nat, length: nat)

  const EI_CLASS := 4
  const ELFCLASS32: byte := 1
  const ELFCLASS64: byte := 2

  // The structs, field by field: offsets and sizes in bytes.

  function HeaderSize(c: Class): nat { if c == Elf32 then 52 else 64 }

  function EntrySize(c: Class): nat { if c == Elf32 then 40 else 64 }

  /** The width of Elf32_Off and Elf32_Word, of Elf64_Off and Elf64_Xword. */
  function OffWidth(c: Class): nat { if c == Elf32 then 4 else 8 }

  function ShoffAt(c: Class): nat { if c == Elf32 then 32 else 40 }

  function ShnumAt(c: Class): nat { if c == Elf32 then 48 else 60 }

  function ShstrndxAt(c: Class): nat { if c == Elf32 then 50 else 62 }

  function OffsetAt(c: Class): nat { if c == Elf32 then 16 else 24 }

  function LengthAt(c: Class): nat { if c == Elf32 then 20 else 32 }

  function ClassOf(data: seq<byte>): Option<Class>
    requires EI_CLASS < |data|
  {
    if data[EI_CLASS] == ELFCLASS32 then Some(Elf32)
    else if data[EI_CLASS] == ELFCLASS64 then Some(Elf64)
    else None
  }

  /** An unsigned field of the mapped file. */
  function Field(data: seq<byte>, at: nat, width: nat): nat
    requires at + width <= |data|
  {
    FromLittleEndian(data[at..at + width])
  }

  lemma FieldOfSlice(data: seq<byte>, from: nat, n: nat, at: nat, width: nat)
    requires from + n <= |data| && at + width <= n
    ensures Field(data, from + at, width) == Field(data[from..from + n], at, width)
  {
    var part := data[from..from + n];
    forall j | from + at <= j < from + at + width
      ensures data[j] == part[j - from]
    {
    }
    assert data[from + at..from + at + width] == part[at..at + width];
  }

  predicate HasHeader(c: Class, data: seq<byte>) { HeaderSize(c) <= |data| }

  function Shoff(c: Class, data: seq<byte>): nat
    requires HasHeader(c, data)
  {
    Field(data, ShoffAt(c), OffWidth(c))
  }

  function Shnum(c: Class, data: seq<byte>): nat
    requires HasHeader(c, data)
  {
    Field(data, ShnumAt(c), 2)
  }

  function Shstrndx(c: Class, data: seq<byte>): nat
    requires HasHeader(c, data)
  {
    Field(data, ShstrndxAt(c), 2)
  }

  function EntryAt(c: Class, data: seq<byte>, i: nat): nat
    requires HasHeader(c, data)
  {
    Shoff(c, data) + i * EntrySize(c)
  }

  predicate HasEntry(c: Class, data: seq<byte>, i: nat) {
    HasHeader(c, data) && EntryAt(c, data, i) + EntrySize(c) <= |data|
  }

  function SectionOf(c: Class, data: seq<byte>, i: nat): Section
    requires HasEntry(c, data, i)
  {
    var at := EntryAt(c, data, i);
    Section(Field(data, at + OffsetAt(c), OffWidth(c)), Field(data, at + LengthAt(c), OffWidth(c)))
  }

  /** The file position of section `i`'s name: the string table is found through e_shstrndx. */
  function NameAt(c: Class, data: seq<byte>, i: nat): nat
    requires HasEntry(c, data, i) && HasEntry(c, data, Shstrndx(c, data))
  {
    SectionOf(c, data, Shstrndx(c, data)).offset + Field(data, EntryAt(c, data, i), 4)
  }

  /** The name at position `p` ends inside the file. */
  predicate HasName(data: seq<byte>, p: nat) { p < |data| && p + |CString(data[p..])| < |data| }

  /** What reading the section table takes for granted: every header, entry and name it looks at
      lies inside the file. */
  ghost predicate WellFormed(c: Class, data: seq<byte>) {
    && HasHeader(c, data)
    && HasEntry(c, data, Shstrndx(c, data))
    && forall i :: 0 <= i < Shnum(c, data) ==> HasEntry(c, data, i) && HasName(data, NameAt(c, data, i))
  }

  ghost predicate Readable(data: seq<byte>) {
    EI_CLASS < |data| && (ClassOf(data).Some? ==> WellFormed(ClassOf(data).value, data))
  }

  predicate IsNamed(c: Class, data: seq<byte>, i: nat, name: seq<byte>)
    requires HasEntry(c, data, i) && HasEntry(c, data, Shstrndx(c, data)) && HasName(data, NameAt(c, data, i))
  {
    CString(data[NameAt(c, data, i)..]) == name
  }

  /** The last of the first `n` sections with the given name. */
  ghost function LastNamed(c: Class, data: seq<byte>, name: seq<byte>, n: nat): Option<Section>
    requires WellFormed(c, data) && n <= Shnum(c, data)
  {
    if n == 0 then None
    else if IsNamed(c, data, n - 1, name) then Some(SectionOf(c, data, n - 1))
    else LastNamed(c, data, name, n - 1)
  }

  ghost function FindSection(data: seq<byte>, name: seq<byte>): Option<Section>
    requires Readable(data)
  {
    if ClassOf(data).None? then None
    else var c := ClassOf(data).value; LastNamed(c, data, name, Shnum(c, data))
  }

  lemma TableIsReadable(c: Class, data: seq<byte>)
    requires WellFormed(c, data)
    ensures HasEntry(c, data, Shstrndx(c, data))
  {
  }

  lemma EntryIsReadable(c: Class, data: seq<byte>, i: nat)
    requires WellFormed(c, data) && i < Shnum(c, data)
    ensures HasEntry(c, data, i) && HasEntry(c, data, Shstrndx(c, data)) && HasName(data, NameAt(c, data, i))
  {
  }

  /** The loop of the 32-bit branch. */
  method Scan32(data: seq<byte>, name: seq<byte>, offset0: nat, length0: nat) returns (offset: nat, length: nat)
    requires WellFormed(Elf32, data)
    ensures Section(offset, length) == LastNamed(Elf32, data, name, Shnum(Elf32, data)).GetOr(Section(offset0, length0))
  {
    hide Field, CString, WellFormed;
    TableIsReadable(Elf32, data);
    offset, length := offset0, length0;
    var shoff := Field(data, 32, 4);
    var strTab := Field(data, shoff + Field(data, 50, 2) * 40 + 16, 4);
    assert shoff == Shoff(Elf32, data) && strTab == SectionOf(Elf32, data, Shstrndx(Elf32, data)).offset;
    var i := 0;
    while i < Field(data, 48, 2)
      invariant i <= Shnum(Elf32, data)
      invariant Section(offset, length) == LastNamed(Elf32, data, name, i).GetOr(Section(offset0, length0))
    {
      EntryIsReadable(Elf32, data, i);
      var shdr := shoff + i * 40;
      if CString(data[strTab + Field(data, shdr, 4)..]) == name {
        offset := Field(data, shdr + 16, 4);
        length := Field(data, shdr + 20, 4);
      }
      i := i + 1;
    }
  }

  /** The loop of the 64-bit branch. */
  method Scan64(data: seq<byte>, name: seq<byte>, offset0: nat, length0: nat) returns (offset: nat, length: nat)
    requires WellFormed(Elf64, data)
    ensures Section(offset, length) == LastNamed(Elf64, data, name, Shnum(Elf64, data)).GetOr(Section(offset0, length0))
  {
    hide Field, CString, WellFormed;
    TableIsReadable(Elf64, data);
    offset, length := offset0, length0;
    var shoff := Field(data, 40, 8);
    var strTab := Field(data, shoff + Field(data, 62, 2) * 64 + 24, 8);
    assert shoff == Shoff(Elf64, data) && strTab == SectionOf(Elf64, data, Shstrndx(Elf64, data)).offset;
    var i := 0;
    while i < Field(data, 60, 2)
      invariant i <= Shnum(Elf64, data)
      invariant Section(offset, length) == LastNamed(Elf64, data, name, i).GetOr(Section(offset0, length0))
    {
      EntryIsReadable(Elf64, data, i);
      var shdr := shoff + i * 64;
      if CString(data[strTab + Field(data, shdr, 4)..]) == name {
        offset := Field(data, shdr + 24, 8);
        length := Field(data, shdr + 32, 8);
      }
      i := i + 1;
    }
  }

  /** appimage_get_elf_section_offset_and_length, on the mapped bytes of the file. `offset0` and
      `length0` are what the two output variables hold before the call; the last section of the
      name wins, and without one they keep those values. */
  method GetSectionOffsetAndLength(data: seq<byte>, name: seq<byte>, offset0: nat, length0: nat)
      returns (ok: bool, offset: nat, length: nat)
    requires Readable(data)
    ensures ok <==> data[4] == 1 || data[4] == 2
    ensures Section(offset, length) == FindSection(data, name).GetOr(Section(offset0, length0))
    ensures data[4] == 1 ==>
              && WellFormed(Elf32, data)
              && Section(offset, length)
                 == LastNamed(Elf32, data, name, Shnum(Elf32, data)).GetOr(Section(offset0, length0))
    ensures data[4] == 2 ==>
              && WellFormed(Elf64, data)
              && Section(offset, length)
                 == LastNamed(Elf64, data, name, Shnum(Elf64, data)).GetOr(Section(offset0, length0))
    ensures !ok ==> offset == offset0 && length == length0
  {
    hide LastNamed, WellFormed;
    var elfClass := data[EI_CLASS];
    if elfClass == ELFCLASS32 {
      offset, length := Scan32(data, name, offset0, length0);
    } else if elfClass == ELFCLASS64 {
      offset, length := Scan64(data, name, offset0, length0);
    } else {
      return false, offset0, length0;
    }
    return true, offset, length;
  }
}
