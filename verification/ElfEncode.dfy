/** Section tables written as ELF bytes, in either class, and read back by the lookup. */
module ElfEncode {
  import opened Bytes
  import opened CLib
  import opened Elf

  datatype NamedSection = NamedSection(name: seq<byte>, section: Section)

  function Shstrtab(): seq<byte> { Text(".shstrtab") }

  /** The names, each with its NUL, one after the other. */
  function Strings(table: seq<NamedSection>): seq<byte> {
    if table == [] then [] else Strings(table[..|table| - 1]) + table[|table| - 1].name + [0]
  }

  /** Where name `i` starts among them. */
  function NameIndex(table: seq<NamedSection>, i: nat): nat
    requires i <= |table|
  {
    |Strings(table[..i])|
  }

  function Header(c: Class, shnum: nat, shstrndx: nat): (s: seq<byte>)
    ensures |s| == HeaderSize(c)
  {
    var ident := [0x7f, 69, 76, 70, if c == Elf32 then ELFCLASS32 else ELFCLASS64, 1, 1] + Zeros(9);
    ident + Zeros(ShoffAt(c) - 16) + LittleEndian(HeaderSize(c), OffWidth(c))
    + Zeros(12) + LittleEndian(shnum, 2) + LittleEndian(shstrndx, 2)
  }

  function Entry(c: Class, nameIndex: nat, s: Section): (r: seq<byte>)
    ensures |r| == EntrySize(c)
  {
    LittleEndian(nameIndex, 4) + Zeros(OffsetAt(c) - 4) + LittleEndian(s.offset, OffWidth(c))
    + LittleEndian(s.length, OffWidth(c)) + Zeros(EntrySize(c) - LengthAt(c) - OffWidth(c))
  }

  function Entries(c: Class, table: seq<NamedSection>): (r: seq<byte>)
    ensures |r| == |table| * EntrySize(c)
  {
    if table == [] then []
    else
      var n := |table| - 1;
      Entries(c, table[..n]) + Entry(c, NameIndex(table, n), table[n].section)
  }

  /** The table with the entry of its own string table at the end; the strings follow the entries. */
  function WithStrings(c: Class, table: seq<NamedSection>): (all: seq<NamedSection>)
    ensures |all| == |table| + 1
  {
    var n := |table| + 1;
    table + [NamedSection(Shstrtab(), Section(HeaderSize(c) + n * EntrySize(c), |Strings(table)| + |Shstrtab()| + 1))]
  }

  function Encode(c: Class, table: seq<NamedSection>): seq<byte> {
    var all := WithStrings(c, table);
    Header(c, |all|, |table|) + Entries(c, all) + Strings(all)
  }

  /** The values fit the fields of the class, and the names are C strings. */
  ghost predicate Encodable(c: Class, table: seq<NamedSection>) {
    var all := WithStrings(c, table);
    && |all| < 0x1_0000
    && |Strings(all)| < 0x1_0000_0000
    && forall i :: 0 <= i < |table| ==>
         && 0 !in table[i].name
         && table[i].section.offset < Power256(OffWidth(c)) && table[i].section.length < Power256(OffWidth(c))
  }

  /** The last entry with the given name. */
  function LastEntry(table: seq<NamedSection>, name: seq<byte>): Option<Section> {
    if table == [] then None
    else if table[|table| - 1].name == name then Some(table[|table| - 1].section)
    else LastEntry(table[..|table| - 1], name)
  }

  // Slices of the encoding.

  lemma {:induction false} EntriesAt(c: Class, table: seq<NamedSection>, i: nat)
    requires i < |table|
    ensures (i + 1) * EntrySize(c) <= |table| * EntrySize(c)
    ensures Entries(c, table)[i * EntrySize(c)..(i + 1) * EntrySize(c)]
         == Entry(c, NameIndex(table, i), table[i].section)
  {
    hide Entry, EntrySize, NameIndex;
    var n := |table| - 1;
    ProductsGrow(i, n, EntrySize(c));
    SlotOf(Entries(c, table[..n]), Entry(c, NameIndex(table, n), table[n].section), i, n, EntrySize(c));
    if i < n {
      EntriesAt(c, table[..n], i);
      NameIndexOfFront(table, n, i);
    }
  }

  lemma ProductsGrow(i: nat, n: nat, size: nat)
    requires i <= n
    ensures (i + 1) * size == i * size + size && (n + 1) * size == n * size + size
    ensures i < n ==> (i + 1) * size <= n * size
    ensures (i + 1) * size <= (n + 1) * size
  {
  }

  /** Slot `i` of `n` slots of one size with a last one added. */
  lemma SlotOf(front: seq<byte>, last: seq<byte>, i: nat, n: nat, size: nat)
    requires |front| == n * size && |last| == size && i <= n
    ensures (i + 1) * size <= |front + last|
    ensures i < n ==> (i + 1) * size <= |front|
    ensures (front + last)[i * size..(i + 1) * size] == if i < n then front[i * size..(i + 1) * size] else last
  {
    ProductsGrow(i, n, size);
  }

  lemma NameIndexOfFront(table: seq<NamedSection>, n: nat, i: nat)
    requires i <= n <= |table|
    ensures NameIndex(table[..n], i) == NameIndex(table, i)
  {
    assert table[..n][..i] == table[..i];
  }

  lemma {:induction false} StringsAt(table: seq<NamedSection>, i: nat) returns (rest: seq<byte>)
    requires i < |table|
    ensures NameIndex(table, i) <= |Strings(table)|
    ensures Strings(table)[NameIndex(table, i)..] == table[i].name + [0] + rest
  {
    var n := |table| - 1;
    if i < n {
      rest := StringsAt(table[..n], i);
      assert table[..n][..i] == table[..i];
      rest := rest + table[n].name + [0];
    } else {
      rest := [];
    }
  }

  lemma FieldIs(data: seq<byte>, at: nat, width: nat, before: seq<byte>, n: nat, after: seq<byte>)
    requires data == before + LittleEndian(n, width) + after && |before| == at && n < Power256(width)
    ensures Field(data, at, width) == n
  {
    LittleEndianRoundTrip(n, width);
    assert data[at..at + width] == LittleEndian(n, width);
  }

  lemma HeaderFields(c: Class, shnum: nat, shstrndx: nat)
    requires shnum < 0x1_0000 && shstrndx < 0x1_0000
    ensures var h := Header(c, shnum, shstrndx);
            && ClassOf(h) == Some(c)
            && Shoff(c, h) == HeaderSize(c) && Shnum(c, h) == shnum && Shstrndx(c, h) == shstrndx
  {
    var h := Header(c, shnum, shstrndx);
    var ident := [0x7f, 69, 76, 70, if c == Elf32 then ELFCLASS32 else ELFCLASS64, 1, 1] + Zeros(9);
    var a := ident + Zeros(ShoffAt(c) - 16);
    var b := LittleEndian(HeaderSize(c), OffWidth(c));
    var d, e := LittleEndian(shnum, 2), LittleEndian(shstrndx, 2);
    Powers(c);
    FieldIs(h, ShoffAt(c), OffWidth(c), a, HeaderSize(c), Zeros(12) + d + e);
    FieldIs(h, ShnumAt(c), 2, a + b + Zeros(12), shnum, e);
    FieldIs(h, ShstrndxAt(c), 2, a + b + Zeros(12) + d, shstrndx, []);
  }

  lemma Powers(c: Class)
    ensures Power256(2) == 0x1_0000 && Power256(4) == 0x1_0000_0000
    ensures Power256(OffWidth(c)) >= 0x1_0000_0000
  {
    assert Power256(3) == 0x100_0000;
    assert Power256(6) == 0x1_0000_0000_0000;
  }

  lemma EntryFields(c: Class, nameIndex: nat, s: Section)
    requires nameIndex < 0x1_0000_0000
    requires s.offset < Power256(OffWidth(c)) && s.length < Power256(OffWidth(c))
    ensures var e := Entry(c, nameIndex, s);
            && Field(e, 0, 4) == nameIndex
            && Field(e, OffsetAt(c), OffWidth(c)) == s.offset
            && Field(e, LengthAt(c), OffWidth(c)) == s.length
  {
    Powers(c);
    var e := Entry(c, nameIndex, s);
    var a, o, l := LittleEndian(nameIndex, 4), LittleEndian(s.offset, OffWidth(c)), LittleEndian(s.length, OffWidth(c));
    var gap, pad := Zeros(OffsetAt(c) - 4), Zeros(EntrySize(c) - LengthAt(c) - OffWidth(c));
    FieldIs(e, 0, 4, [], nameIndex, gap + o + l + pad);
    FieldIs(e, OffsetAt(c), OffWidth(c), a + gap, s.offset, l + pad);
    FieldIs(e, LengthAt(c), OffWidth(c), a + gap + o, s.length, pad);
  }

  // The encoding as a whole.

  lemma EncodedHeader(c: Class, table: seq<NamedSection>)
    requires Encodable(c, table)
    ensures var data := Encode(c, table);
            && HasHeader(c, data) && ClassOf(data) == Some(c)
            && Shoff(c, data) == HeaderSize(c) && Shnum(c, data) == |table| + 1 && Shstrndx(c, data) == |table|
  {
    hide Header, Field;
    var data, h := Encode(c, table), Header(c, |table| + 1, |table|);
    assert data[0..HeaderSize(c)] == h;
    HeaderFields(c, |table| + 1, |table|);
    FieldOfSlice(data, 0, HeaderSize(c), ShoffAt(c), OffWidth(c));
    FieldOfSlice(data, 0, HeaderSize(c), ShnumAt(c), 2);
    FieldOfSlice(data, 0, HeaderSize(c), ShstrndxAt(c), 2);
    assert data[EI_CLASS] == h[EI_CLASS];
  }

  /** The class byte. */
  lemma EncodedClass(c: Class, table: seq<NamedSection>)
    ensures |Encode(c, table)| > 4 && Encode(c, table)[4] == if c == Elf32 then 1 else 2
  {
    assert Header(c, |table| + 1, |table|)[4] == if c == Elf32 then 1 else 2;
  }

  lemma EncodedEntryBytes(c: Class, table: seq<NamedSection>, i: nat)
    requires i <= |table|
    ensures var data, all, at := Encode(c, table), WithStrings(c, table), HeaderSize(c) + i * EntrySize(c);
            && at + EntrySize(c) <= |data|
            && data[at..at + EntrySize(c)] == Entry(c, NameIndex(all, i), all[i].section)
  {
    hide Entry, Header, Strings, Entries;
    var data, all := Encode(c, table), WithStrings(c, table);
    var h, e := Header(c, |all|, |table|), Entries(c, all);
    EntriesAt(c, all, i);
    var from := i * EntrySize(c);
    assert (i + 1) * EntrySize(c) == from + EntrySize(c);
    assert data[|h| + from..|h| + (from + EntrySize(c))] == e[from..from + EntrySize(c)];
  }

  lemma EncodableEntry(c: Class, table: seq<NamedSection>, i: nat)
    requires Encodable(c, table) && i <= |table|
    ensures var s := WithStrings(c, table)[i].section;
            s.offset < Power256(OffWidth(c)) && s.length < Power256(OffWidth(c))
    ensures NameIndex(WithStrings(c, table), i) < 0x1_0000_0000
  {
    hide Strings;
    Powers(c);
    var all := WithStrings(c, table);
    var rest := StringsAt(all, i);
    assert Strings(all) == Strings(table) + Shstrtab() + [0] by { StringsGrow(c, table); }
  }

  lemma StringsGrow(c: Class, table: seq<NamedSection>)
    ensures Strings(WithStrings(c, table)) == Strings(table) + Shstrtab() + [0]
  {
    var all := WithStrings(c, table);
    assert all[..|all| - 1] == table;
  }

  /** Entry `i` of the encoded table holds its place among the names, and its section. */
  lemma EncodedEntry(c: Class, table: seq<NamedSection>, i: nat)
    requires Encodable(c, table) && i <= |table|
    ensures var data, all := Encode(c, table), WithStrings(c, table);
            && HasEntry(c, data, i)
            && EntryAt(c, data, i) == HeaderSize(c) + i * EntrySize(c)
            && SectionOf(c, data, i) == all[i].section
            && Field(data, EntryAt(c, data, i), 4) == NameIndex(all, i)
  {
    hide Entry, Field, Encode, Encodable, Strings, Power256, NameIndex, WithStrings;
    var data, all := Encode(c, table), WithStrings(c, table);
    var at := HeaderSize(c) + i * EntrySize(c);
    EncodedHeader(c, table);
    EncodableEntry(c, table, i);
    EncodedEntryBytes(c, table, i);
    EntryFields(c, NameIndex(all, i), all[i].section);
    FieldOfSlice(data, at, EntrySize(c), 0, 4);
    FieldOfSlice(data, at, EntrySize(c), OffsetAt(c), OffWidth(c));
    FieldOfSlice(data, at, EntrySize(c), LengthAt(c), OffWidth(c));
  }

  lemma EncodedName(c: Class, table: seq<NamedSection>, i: nat)
    requires Encodable(c, table) && i <= |table|
    ensures var data, all := Encode(c, table), WithStrings(c, table);
            && HasEntry(c, data, i) && HasEntry(c, data, Shstrndx(c, data))
            && HasName(data, NameAt(c, data, i))
            && CString(data[NameAt(c, data, i)..]) == all[i].name
  {
    hide Field, CString, Strings;
    var data, all := Encode(c, table), WithStrings(c, table);
    EncodedHeader(c, table);
    EncodedEntry(c, table, i);
    EncodedEntry(c, table, |table|);
    var from := HeaderSize(c) + |all| * EntrySize(c);
    assert NameAt(c, data, i) == from + NameIndex(all, i);
    assert data[from..] == Strings(all);
    var rest := StringsAt(all, i);
    assert data[NameAt(c, data, i)..] == Strings(all)[NameIndex(all, i)..];
    CStringOf(all[i].name, rest);
  }

  lemma {:induction false} LastNamedIsLastEntry(c: Class, table: seq<NamedSection>, name: seq<byte>, n: nat)
    requires Encodable(c, table) && n <= |table| + 1
    requires WellFormed(c, Encode(c, table)) && Shnum(c, Encode(c, table)) == |table| + 1
    ensures LastNamed(c, Encode(c, table), name, n) == LastEntry(WithStrings(c, table)[..n], name)
  {
    hide Encode, Encodable, WellFormed, Field, CString;
    if n > 0 {
      var all := WithStrings(c, table);
      assert all[..n][..n - 1] == all[..n - 1];
      EncodedEntry(c, table, n - 1);
      EncodedName(c, table, n - 1);
      LastNamedIsLastEntry(c, table, name, n - 1);
    }
  }

  /** Writing a section table and looking a name up gives the last entry of that name, in either class. */
  lemma LookupOfEncoded(c: Class, table: seq<NamedSection>, name: seq<byte>)
    requires Encodable(c, table)
    ensures Readable(Encode(c, table))
    ensures FindSection(Encode(c, table), name) == LastEntry(WithStrings(c, table), name)
    ensures name != Shstrtab() ==> FindSection(Encode(c, table), name) == LastEntry(table, name)
  {
    hide Encode, Encodable, Field, CString;
    var data, all := Encode(c, table), WithStrings(c, table);
    EncodedHeader(c, table);
    EncodedEntry(c, table, |table|);
    forall i | 0 <= i < Shnum(c, data)
      ensures HasEntry(c, data, i) && HasName(data, NameAt(c, data, i))
    {
      EncodedName(c, table, i);
    }
    LastNamedIsLastEntry(c, table, name, |all|);
    assert all[..|all|] == all && all[..|table|] == table;
  }

  /** The two classes agree on the same table. */
  lemma ClassesAgree(table: seq<NamedSection>, name: seq<byte>)
    requires Encodable(Elf32, table) && Encodable(Elf64, table) && name != Shstrtab()
    ensures Readable(Encode(Elf32, table)) && Readable(Encode(Elf64, table))
    ensures FindSection(Encode(Elf32, table), name) == FindSection(Encode(Elf64, table), name)
  {
    hide Encode, Encodable;
    LookupOfEncoded(Elf32, table, name);
    LookupOfEncoded(Elf64, table, name);
  }
}
