/** The structs of src/light_elf.h, field by field, and where their fields lie: the positions the lookup reads
    are theirs. */
module ElfLayout {
  import opened Elf

  /** A field and its size in bytes. */
  datatype Member = Member(name: string, size: nat)

  const Half := 2
  const Word := 4
  const Xword := 8

  function Ehdr32(): seq<Member> {
    [Member("e_ident", 16), Member("e_type", Half), Member("e_machine", Half), Member("e_version", Word),
     Member("e_entry", Word), Member("e_phoff", Word), Member("e_shoff", Word), Member("e_flags", Word),
     Member("e_ehsize", Half), Member("e_phentsize", Half), Member("e_phnum", Half), Member("e_shentsize", Half),
     Member("e_shnum", Half), Member("e_shstrndx", Half)]
  }

  function Ehdr64(): seq<Member> {
    [Member("e_ident", 16), Member("e_type", Half), Member("e_machine", Half), Member("e_version", Word),
     Member("e_entry", Xword), Member("e_phoff", Xword), Member("e_shoff", Xword), Member("e_flags", Word),
     Member("e_ehsize", Half), Member("e_phentsize", Half), Member("e_phnum", Half), Member("e_shentsize", Half),
     Member("e_shnum", Half), Member("e_shstrndx", Half)]
  }

  function Shdr32(): seq<Member> {
    [Member("sh_name", Word), Member("sh_type", Word), Member("sh_flags", Word), Member("sh_addr", Word),
     Member("sh_offset", Word), Member("sh_size", Word), Member("sh_link", Word), Member("sh_info", Word),
     Member("sh_addralign", Word), Member("sh_entsize", Word)]
  }

  function Shdr64(): seq<Member> {
    [Member("sh_name", Word), Member("sh_type", Word), Member("sh_flags", Xword), Member("sh_addr", Xword),
     Member("sh_offset", Xword), Member("sh_size", Xword), Member("sh_link", Word), Member("sh_info", Word),
     Member("sh_addralign", Xword), Member("sh_entsize", Xword)]
  }

  /** How many bytes the first `n` fields take. */
  function SizeOf(fields: seq<Member>, n: nat): nat
    requires n <= |fields|
  {
    if n == 0 then 0 else SizeOf(fields, n - 1) + fields[n - 1].size
  }

  /** A field lies right behind those before it. */
  predicate LiesAt(fields: seq<Member>, i: nat, name: string, at: nat, size: nat) {
    i < |fields| && fields[i] == Member(name, size) && at == SizeOf(fields, i)
  }

  /** Each of the first `n` fields lies on a multiple of its size, so the compiler leaves no gaps. */
  predicate WithoutGaps(fields: seq<Member>, n: nat)
    requires n <= |fields|
  {
    n == 0
    || (WithoutGaps(fields, n - 1) && fields[n - 1].size > 0 && SizeOf(fields, n - 1) % fields[n - 1].size == 0)
  }

  lemma Ehdr32Sizes()
    ensures var f := Ehdr32();
            && |f| == 14
            && SizeOf(f, 1) == 16 && SizeOf(f, 2) == 18 && SizeOf(f, 3) == 20 && SizeOf(f, 4) == 24
            && SizeOf(f, 5) == 28 && SizeOf(f, 6) == 32 && SizeOf(f, 7) == 36 && SizeOf(f, 8) == 40
            && SizeOf(f, 9) == 42 && SizeOf(f, 10) == 44 && SizeOf(f, 11) == 46 && SizeOf(f, 12) == 48
            && SizeOf(f, 13) == 50 && SizeOf(f, 14) == 52
  {
  }

  lemma Ehdr64Sizes()
    ensures var f := Ehdr64();
            && |f| == 14
            && SizeOf(f, 1) == 16 && SizeOf(f, 2) == 18 && SizeOf(f, 3) == 20 && SizeOf(f, 4) == 24
            && SizeOf(f, 5) == 32 && SizeOf(f, 6) == 40 && SizeOf(f, 7) == 48 && SizeOf(f, 8) == 52
            && SizeOf(f, 9) == 54 && SizeOf(f, 10) == 56 && SizeOf(f, 11) == 58 && SizeOf(f, 12) == 60
            && SizeOf(f, 13) == 62 && SizeOf(f, 14) == 64
  {
  }

  lemma Shdr32Sizes()
    ensures var f := Shdr32();
            && |f| == 10
            && SizeOf(f, 1) == 4 && SizeOf(f, 2) == 8 && SizeOf(f, 3) == 12 && SizeOf(f, 4) == 16
            && SizeOf(f, 5) == 20 && SizeOf(f, 6) == 24 && SizeOf(f, 7) == 28 && SizeOf(f, 8) == 32
            && SizeOf(f, 9) == 36 && SizeOf(f, 10) == 40
  {
  }

  lemma Shdr64Sizes()
    ensures var f := Shdr64();
            && |f| == 10
            && SizeOf(f, 1) == 4 && SizeOf(f, 2) == 8 && SizeOf(f, 3) == 16 && SizeOf(f, 4) == 24
            && SizeOf(f, 5) == 32 && SizeOf(f, 6) == 40 && SizeOf(f, 7) == 44 && SizeOf(f, 8) == 48
            && SizeOf(f, 9) == 56 && SizeOf(f, 10) == 64
  {
  }

  lemma Ehdr32HasNoGaps()
    ensures WithoutGaps(Ehdr32(), 14)
  {
    Ehdr32Sizes();
    hide SizeOf;
    var f := Ehdr32();
    assert SizeOf(f, 0) == 0 by { NothingBefore(f); }
    assert WithoutGaps(f, 3);
    assert WithoutGaps(f, 6);
    assert WithoutGaps(f, 9);
    assert WithoutGaps(f, 12);
  }

  lemma Ehdr64HasNoGaps()
    ensures WithoutGaps(Ehdr64(), 14)
  {
    Ehdr64Sizes();
    hide SizeOf;
    var f := Ehdr64();
    assert SizeOf(f, 0) == 0 by { NothingBefore(f); }
    assert WithoutGaps(f, 3);
    assert WithoutGaps(f, 6);
    assert WithoutGaps(f, 9);
    assert WithoutGaps(f, 12);
  }

  lemma Shdr32HasNoGaps()
    ensures WithoutGaps(Shdr32(), 10)
  {
    Shdr32Sizes();
    hide SizeOf;
    var f := Shdr32();
    assert SizeOf(f, 0) == 0 by { NothingBefore(f); }
    assert WithoutGaps(f, 3);
    assert WithoutGaps(f, 6);
    assert WithoutGaps(f, 9);
  }

  lemma Shdr64HasNoGaps()
    ensures WithoutGaps(Shdr64(), 10)
  {
    Shdr64Sizes();
    hide SizeOf;
    var f := Shdr64();
    assert SizeOf(f, 0) == 0 by { NothingBefore(f); }
    assert WithoutGaps(f, 3);
    assert WithoutGaps(f, 6);
    assert WithoutGaps(f, 9);
  }

  lemma NothingBefore(fields: seq<Member>)
    ensures SizeOf(fields, 0) == 0
  {
  }

  /** What the lookup reads in the 32-bit layout: e_shoff, e_shnum and e_shstrndx of the header, sh_name,
      sh_offset and sh_size of an entry. */
  lemma FieldsOf32()
    ensures HeaderSize(Elf32) == SizeOf(Ehdr32(), 14) && EntrySize(Elf32) == SizeOf(Shdr32(), 10)
    ensures LiesAt(Ehdr32(), 6, "e_shoff", ShoffAt(Elf32), OffWidth(Elf32))
    ensures LiesAt(Ehdr32(), 12, "e_shnum", ShnumAt(Elf32), 2)
    ensures LiesAt(Ehdr32(), 13, "e_shstrndx", ShstrndxAt(Elf32), 2)
    ensures LiesAt(Shdr32(), 0, "sh_name", 0, 4)
    ensures LiesAt(Shdr32(), 4, "sh_offset", OffsetAt(Elf32), OffWidth(Elf32))
    ensures LiesAt(Shdr32(), 5, "sh_size", LengthAt(Elf32), OffWidth(Elf32))
  {
    Ehdr32Sizes();
    Shdr32Sizes();
    assert SizeOf(Shdr32(), 0) == 0;
    hide SizeOf;
  }

  /** And in the 64-bit layout. */
  lemma FieldsOf64()
    ensures HeaderSize(Elf64) == SizeOf(Ehdr64(), 14) && EntrySize(Elf64) == SizeOf(Shdr64(), 10)
    ensures LiesAt(Ehdr64(), 6, "e_shoff", ShoffAt(Elf64), OffWidth(Elf64))
    ensures LiesAt(Ehdr64(), 12, "e_shnum", ShnumAt(Elf64), 2)
    ensures LiesAt(Ehdr64(), 13, "e_shstrndx", ShstrndxAt(Elf64), 2)
    ensures LiesAt(Shdr64(), 0, "sh_name", 0, 4)
    ensures LiesAt(Shdr64(), 4, "sh_offset", OffsetAt(Elf64), OffWidth(Elf64))
    ensures LiesAt(Shdr64(), 5, "sh_size", LengthAt(Elf64), OffWidth(Elf64))
  {
    Ehdr64Sizes();
    Shdr64Sizes();
    assert SizeOf(Shdr64(), 0) == 0;
    hide SizeOf;
  }
}
