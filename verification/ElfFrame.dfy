/** Which bytes of a file the section lookup depends on. */
module ElfFrame {
  import opened Bytes
  import opened CLib
  import opened Elf

  predicate InHeader(c: Class, p: nat) { p < HeaderSize(c) }

  predicate InEntry(c: Class, data: seq<byte>, i: nat, p: nat)
    requires HasEntry(c, data, i)
  {
    EntryAt(c, data, i) <= p < EntryAt(c, data, i) + EntrySize(c)
  }

  /** In the name at `at`, its NUL included. */
  predicate InName(data: seq<byte>, at: nat, p: nat)
    requires HasName(data, at)
  {
    at <= p <= at + |CString(data[at..])|
  }

  /** The header, the section table and the names: what the lookup reads. */
  ghost predicate CriticalIn(c: Class, data: seq<byte>, p: nat)
    requires WellFormed(c, data)
  {
    || InHeader(c, p)
    || InEntry(c, data, Shstrndx(c, data), p)
    || (exists i :: 0 <= i < Shnum(c, data) && InEntry(c, data, i, p))
    || (exists i :: 0 <= i < Shnum(c, data) && InName(data, NameAt(c, data, i), p))
  }

  ghost predicate Critical(data: seq<byte>, p: nat)
    requires Readable(data)
  {
    p == EI_CLASS || (ClassOf(data).Some? && CriticalIn(ClassOf(data).value, data, p))
  }

  /** `after` has the same bytes as `data` wherever the lookup in `data` reads. */
  ghost predicate KeepsCritical(data: seq<byte>, after: seq<byte>)
    requires Readable(data)
  {
    forall p :: 0 <= p < |data| && Critical(data, p) ==> p < |after| && after[p] == data[p]
  }

  predicate SameBytes(data: seq<byte>, after: seq<byte>, at: nat, width: nat) {
    at + width <= |data| && at + width <= |after| && data[at..at + width] == after[at..at + width]
  }

  lemma FieldIsKept(data: seq<byte>, after: seq<byte>, at: nat, width: nat, field: nat, w: nat)
    requires SameBytes(data, after, at, width) && at <= field && field + w <= at + width
    ensures Field(after, field, w) == Field(data, field, w)
  {
    FieldOfSlice(data, at, width, field - at, w);
    FieldOfSlice(after, at, width, field - at, w);
  }

  lemma {:induction false} CStringIsKept(s: seq<byte>, t: seq<byte>)
    requires |CString(s)| < |s| && |CString(s)| < |t|
    requires forall j :: 0 <= j <= |CString(s)| ==> t[j] == s[j]
    ensures CString(t) == CString(s)
  {
    if s[0] != 0 {
      assert CString(s)[1..] == CString(s[1..]);
      CStringIsKept(s[1..], t[1..]);
    }
  }

  lemma HeaderIsKept(c: Class, data: seq<byte>, after: seq<byte>)
    requires HasHeader(c, data) && SameBytes(data, after, 0, HeaderSize(c))
    ensures HasHeader(c, after)
    ensures Shoff(c, after) == Shoff(c, data) && Shnum(c, after) == Shnum(c, data)
    ensures Shstrndx(c, after) == Shstrndx(c, data)
  {
    FieldIsKept(data, after, 0, HeaderSize(c), ShoffAt(c), OffWidth(c));
    FieldIsKept(data, after, 0, HeaderSize(c), ShnumAt(c), 2);
    FieldIsKept(data, after, 0, HeaderSize(c), ShstrndxAt(c), 2);
  }

  lemma EntryIsKept(c: Class, data: seq<byte>, after: seq<byte>, i: nat)
    requires HasEntry(c, data, i) && SameBytes(data, after, 0, HeaderSize(c))
    requires SameBytes(data, after, EntryAt(c, data, i), EntrySize(c))
    ensures HasEntry(c, after, i) && EntryAt(c, after, i) == EntryAt(c, data, i)
    ensures SectionOf(c, after, i) == SectionOf(c, data, i)
    ensures Field(after, EntryAt(c, data, i), 4) == Field(data, EntryAt(c, data, i), 4)
  {
    hide Field;
    HeaderIsKept(c, data, after);
    var at := EntryAt(c, data, i);
    FieldIsKept(data, after, at, EntrySize(c), at + OffsetAt(c), OffWidth(c));
    FieldIsKept(data, after, at, EntrySize(c), at + LengthAt(c), OffWidth(c));
    FieldIsKept(data, after, at, EntrySize(c), at, 4);
  }

  lemma TableIsKept(c: Class, data: seq<byte>, after: seq<byte>)
    requires Readable(data) && ClassOf(data) == Some(c) && KeepsCritical(data, after)
    ensures SameBytes(data, after, 0, HeaderSize(c))
    ensures SameBytes(data, after, EntryAt(c, data, Shstrndx(c, data)), EntrySize(c))
  {
    hide Field, CString;
    SameBytesFrom(data, after, 0, HeaderSize(c));
    SameBytesFrom(data, after, EntryAt(c, data, Shstrndx(c, data)), EntrySize(c));
  }

  lemma EntryBytesAreKept(c: Class, data: seq<byte>, after: seq<byte>, i: nat)
    requires Readable(data) && ClassOf(data) == Some(c) && KeepsCritical(data, after) && i < Shnum(c, data)
    ensures SameBytes(data, after, EntryAt(c, data, i), EntrySize(c))
  {
    hide Field, CString, KeepsCritical;
    EntryIsReadable(c, data, i);
    forall p | EntryAt(c, data, i) <= p < EntryAt(c, data, i) + EntrySize(c)
      ensures Critical(data, p)
    {
      assert InEntry(c, data, i, p);
    }
    SameBytesFrom(data, after, EntryAt(c, data, i), EntrySize(c));
  }

  lemma NameBytesAreKept(c: Class, data: seq<byte>, after: seq<byte>, i: nat)
    requires Readable(data) && ClassOf(data) == Some(c) && KeepsCritical(data, after) && i < Shnum(c, data)
    ensures var at := NameAt(c, data, i);
            SameBytes(data, after, at, |CString(data[at..])| + 1)
  {
    hide Field, CString, KeepsCritical;
    EntryIsReadable(c, data, i);
    var at := NameAt(c, data, i);
    forall p | at <= p < at + |CString(data[at..])| + 1
      ensures Critical(data, p)
    {
      assert InName(data, NameAt(c, data, i), p);
    }
    SameBytesFrom(data, after, at, |CString(data[at..])| + 1);
  }

  lemma SameBytesFrom(data: seq<byte>, after: seq<byte>, at: nat, width: nat)
    requires Readable(data) && KeepsCritical(data, after) && 0 < width && at + width <= |data|
    requires forall p :: at <= p < at + width ==> Critical(data, p)
    ensures SameBytes(data, after, at, width)
  {
    assert Critical(data, at + width - 1);
    forall p | at <= p < at + width
      ensures p < |after| && data[p] == after[p]
    {
      assert Critical(data, p);
    }
  }

  lemma NameIsKept(c: Class, data: seq<byte>, after: seq<byte>, i: nat)
    requires Readable(data) && ClassOf(data) == Some(c) && KeepsCritical(data, after) && i < Shnum(c, data)
    ensures HasEntry(c, after, i) && SectionOf(c, after, i) == SectionOf(c, data, i)
    ensures HasEntry(c, after, Shstrndx(c, after)) && NameAt(c, after, i) == NameAt(c, data, i)
    ensures HasName(after, NameAt(c, after, i))
    ensures CString(after[NameAt(c, after, i)..]) == CString(data[NameAt(c, data, i)..])
  {
    hide Field, CString, KeepsCritical;
    TableIsKept(c, data, after);
    EntryBytesAreKept(c, data, after, i);
    NameBytesAreKept(c, data, after, i);
    HeaderIsKept(c, data, after);
    EntryIsKept(c, data, after, i);
    EntryIsKept(c, data, after, Shstrndx(c, data));
    var at := NameAt(c, data, i);
    assert HasName(data, at);
    var n := |CString(data[at..])|;
    assert data[at..at + n + 1] == after[at..at + n + 1];
    forall j | 0 <= j <= n
      ensures after[at..][j] == data[at..][j]
    {
      assert data[at..at + n + 1][j] == after[at..at + n + 1][j];
    }
    CStringIsKept(data[at..], after[at..]);
  }

  lemma {:induction false} LastNamedIsKept(c: Class, data: seq<byte>, after: seq<byte>, name: seq<byte>, n: nat)
    requires Readable(data) && ClassOf(data) == Some(c) && KeepsCritical(data, after)
    requires WellFormed(c, after) && Shnum(c, after) == Shnum(c, data) && n <= Shnum(c, data)
    ensures LastNamed(c, after, name, n) == LastNamed(c, data, name, n)
  {
    hide Field, CString, KeepsCritical, WellFormed;
    if n > 0 {
      NameIsKept(c, data, after, n - 1);
      LastNamedIsKept(c, data, after, name, n - 1);
    }
  }

  /** Changes elsewhere, and any change of the file's size that keeps those bytes, leave every lookup
      as it was. */
  lemma LookupIsKept(data: seq<byte>, after: seq<byte>, name: seq<byte>)
    requires Readable(data) && KeepsCritical(data, after)
    ensures Readable(after) && FindSection(after, name) == FindSection(data, name)
  {
    assert Critical(data, EI_CLASS);
    assert ClassOf(after) == ClassOf(data);
    if ClassOf(data).Some? {
      var c := ClassOf(data).value;
      WellFormedIsKept(c, data, after);
      LastNamedIsKept(c, data, after, name, Shnum(c, data));
    }
  }

  lemma WellFormedIsKept(c: Class, data: seq<byte>, after: seq<byte>)
    requires Readable(data) && ClassOf(data) == Some(c) && KeepsCritical(data, after)
    ensures WellFormed(c, after) && Shnum(c, after) == Shnum(c, data)
  {
    hide Field, CString, KeepsCritical;
    TableIsKept(c, data, after);
    HeaderIsKept(c, data, after);
    EntryIsKept(c, data, after, Shstrndx(c, data));
    forall i | 0 <= i < Shnum(c, after)
      ensures HasEntry(c, after, i) && HasName(after, NameAt(c, after, i))
    {
      NameIsKept(c, data, after, i);
    }
  }

  lemma CriticalIsInside(data: seq<byte>, p: nat)
    requires Readable(data) && Critical(data, p)
    ensures p < |data|
  {
    hide Field, CString;
    if p != EI_CLASS {
      var c := ClassOf(data).value;
      TableIsReadable(c, data);
      if i :| 0 <= i < Shnum(c, data) && InEntry(c, data, i, p) {
        EntryIsReadable(c, data, i);
      } else if i :| 0 <= i < Shnum(c, data) && InName(data, NameAt(c, data, i), p) {
        EntryIsReadable(c, data, i);
      }
    }
  }

  /** A file that keeps the critical bytes has no others. */
  lemma NothingNewIsCritical(data: seq<byte>, after: seq<byte>, p: nat)
    requires Readable(data) && KeepsCritical(data, after) && Readable(after) && Critical(after, p)
    ensures Critical(data, p)
  {
    assert Critical(data, EI_CLASS);
    if p != EI_CLASS {
      var c := ClassOf(data).value;
      TableIsKept(c, data, after);
      HeaderIsKept(c, data, after);
      hide Field, CString, KeepsCritical, SectionOf;
      EntryIsKept(c, data, after, Shstrndx(c, data));
      if i :| 0 <= i < Shnum(c, after) && InEntry(c, after, i, p) {
        EntryIsReadable(c, data, i);
        assert InEntry(c, data, i, p);
      } else if i :| 0 <= i < Shnum(c, after) && InName(after, NameAt(c, after, i), p) {
        NameIsKept(c, data, after, i);
        EntryIsReadable(c, data, i);
        assert InName(data, NameAt(c, data, i), p);
      }
    }
  }
}
