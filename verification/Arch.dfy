/** Guessing the architecture in src/appimagetool.c: a recursive scan of the AppDir for ELF files. */
module Arch {
  import opened Bytes

  datatype Arch = I686 | X86_64 | Armhf | Aarch64

  /** The index of an architecture in the array of flags. */
  function Index(a: Arch): (i: nat)
    ensures i < 4
  {
    match a
    case I686 => 0
    case X86_64 => 1
    case Armhf => 2
    case Aarch64 => 3
  }

  /** A directory entry: a link, a directory with its entries in the order they are listed (unreadable
      ones cannot be opened), or any other file. */
  datatype Entry =
    | Symlink(name: string)
    | Dir(name: string, readable: bool, entries: seq<Entry>)
    | File(name: string, executable: bool, content: seq<byte>)

  /** The e_machine field at byte 18, zero where the file ends before it. */
  function Machine(content: seq<byte>): nat {
    if |content| >= 20 then FromLittleEndian(content[18..20])
    else if |content| == 19 then content[18] as nat
    else 0
  }

  function ArchsOfMachine(machine: nat): set<Arch> {
    if machine == 3 then {I686}
    else if machine == 62 then {X86_64}
    else if machine == 40 then {Armhf}
    else if machine == 183 then {Aarch64}
    else {}
  }

  /** The files the scan looks at, wherever they are below the entry: no link is followed. */
  ghost predicate Scanned(entry: Entry, pattern: string -> bool, file: Entry) {
    match entry
    case Symlink(_) => false
    case Dir(_, readable, entries) => readable && exists e :: e in entries && Scanned(e, pattern, file)
    case File(name, executable, _) => file == entry && (executable || pattern(name))
  }

  /** The architectures of all files scanned below the entry. */
  ghost predicate HasArch(entry: Entry, pattern: string -> bool, a: Arch) {
    exists file :: Scanned(entry, pattern, file) && file.File? && a in ArchsOfMachine(Machine(file.content))
  }

  ghost predicate AnyHasArch(entries: seq<Entry>, pattern: string -> bool, a: Arch) {
    exists e :: e in entries && HasArch(e, pattern, a)
  }

  /** The two bytes from position 18 on are `m` and 0; a file that ends between them has `m` alone. */
  predicate MachineBytes(content: seq<byte>, m: byte) {
    |content| > 18 && content[18] == m && (|content| > 19 ==> content[19] == 0)
  }

  /** The scan below the entry looks at a file with these bytes. */
  ghost predicate Finds(entry: Entry, pattern: string -> bool, m: byte) {
    exists file :: Scanned(entry, pattern, file) && file.File? && MachineBytes(file.content, m)
  }

  lemma TwoBytes(s: seq<byte>)
    requires |s| == 2
    ensures FromLittleEndian(s) == s[0] as nat + 256 * s[1] as nat
  {
    assert FromLittleEndian(s[1..][1..]) == 0;
    assert FromLittleEndian(s[1..]) == s[1] as nat;
  }

  lemma MachineIs(content: seq<byte>, m: byte)
    requires m != 0
    ensures Machine(content) == m as nat <==> MachineBytes(content, m)
  {
    if |content| >= 20 {
      TwoBytes(content[18..20]);
    }
  }

  /** Files are told apart by bytes 18 and 19 only. */
  lemma MachineBytesTell(x: seq<byte>, y: seq<byte>)
    requires |x| >= 20 && |y| >= 20 && x[18] == y[18] && x[19] == y[19]
    ensures ArchsOfMachine(Machine(x)) == ArchsOfMachine(Machine(y))
  {
    assert x[18..20] == y[18..20];
  }

  lemma ArchsAre(content: seq<byte>)
    ensures I686 in ArchsOfMachine(Machine(content)) <==> MachineBytes(content, 3)
    ensures X86_64 in ArchsOfMachine(Machine(content)) <==> MachineBytes(content, 62)
    ensures Armhf in ArchsOfMachine(Machine(content)) <==> MachineBytes(content, 40)
    ensures Aarch64 in ArchsOfMachine(Machine(content)) <==> MachineBytes(content, 183)
  {
    hide Machine, MachineBytes;
    MachineIs(content, 3);
    MachineIs(content, 62);
    MachineIs(content, 40);
    MachineIs(content, 183);
  }

  lemma FindsIsHasArch(entry: Entry, pattern: string -> bool)
    ensures HasArch(entry, pattern, I686) <==> Finds(entry, pattern, 3)
    ensures HasArch(entry, pattern, X86_64) <==> Finds(entry, pattern, 62)
    ensures HasArch(entry, pattern, Armhf) <==> Finds(entry, pattern, 40)
    ensures HasArch(entry, pattern, Aarch64) <==> Finds(entry, pattern, 183)
  {
    hide Machine, MachineBytes, ArchsOfMachine, Scanned;
    forall file: Entry | file.File?
      ensures I686 in ArchsOfMachine(Machine(file.content)) <==> MachineBytes(file.content, 3)
      ensures X86_64 in ArchsOfMachine(Machine(file.content)) <==> MachineBytes(file.content, 62)
      ensures Armhf in ArchsOfMachine(Machine(file.content)) <==> MachineBytes(file.content, 40)
      ensures Aarch64 in ArchsOfMachine(Machine(file.content)) <==> MachineBytes(file.content, 183)
    {
      ArchsAre(file.content);
    }
  }

  /** What the scan finds, case by case: no link is followed, a directory that cannot be opened has nothing,
      and a file counts if it is executable or matches. */
  lemma WhatIsFound(entry: Entry, pattern: string -> bool, m: byte)
    ensures entry.Symlink? ==> !Finds(entry, pattern, m)
    ensures entry.Dir? ==>
              (Finds(entry, pattern, m)
               <==> entry.readable && exists e :: e in entry.entries && Finds(e, pattern, m))
    ensures entry.File? ==>
              (Finds(entry, pattern, m)
               <==> (entry.executable || pattern(entry.name)) && MachineBytes(entry.content, m))
  {
    hide MachineBytes;
    match entry
    case Symlink(_) =>
    case File(_, _, _) =>
      if (entry.executable || pattern(entry.name)) && MachineBytes(entry.content, m) {
        assert Scanned(entry, pattern, entry);
      }
    case Dir(_, _, _) =>
      if e :| entry.readable && e in entry.entries && Finds(e, pattern, m) {
        var file :| Scanned(e, pattern, file) && file.File? && MachineBytes(file.content, m);
        assert Scanned(entry, pattern, file);
      }
  }

  /** A file directly in a readable directory is scanned if it is executable or matches. */
  lemma FileIsFound(dir: Entry, pattern: string -> bool, file: Entry, m: byte)
    requires dir.Dir? && dir.readable && file in dir.entries && file.File? && |file.content| >= 20
    requires file.executable || pattern(file.name)
    requires file.content[18] == m && file.content[19] == 0
    ensures Finds(dir, pattern, m)
  {
    assert Scanned(file, pattern, file);
    assert Scanned(dir, pattern, file);
  }

  lemma IndicesAre()
    ensures Index(I686) == 0 && Index(X86_64) == 1 && Index(Armhf) == 2 && Index(Aarch64) == 3
  {
  }

  method ExtractArch(machine: nat, archs: array<bool>)
    requires archs.Length == 4
    modifies archs
    ensures forall a :: archs[Index(a)] == (old(archs[Index(a)]) || a in ArchsOfMachine(machine))
  {
    if machine == 3 { archs[Index(I686)] := true; }
    if machine == 62 { archs[Index(X86_64)] := true; }
    if machine == 40 { archs[Index(Armhf)] := true; }
    if machine == 183 { archs[Index(Aarch64)] := true; }
  }

  /** find_arch: whatever the order of the listings, it adds exactly the architectures of the scanned
      files to the flags. */
  method FindArch(dir: Entry, pattern: string -> bool, archs: array<bool>)
    requires archs.Length == 4 && dir.Dir?
    modifies archs
    ensures forall a :: archs[Index(a)] == (old(archs[Index(a)]) || HasArch(dir, pattern, a))
    ensures archs[0] == (old(archs[0]) || Finds(dir, pattern, 3))
    ensures archs[1] == (old(archs[1]) || Finds(dir, pattern, 62))
    ensures archs[2] == (old(archs[2]) || Finds(dir, pattern, 40))
    ensures archs[3] == (old(archs[3]) || Finds(dir, pattern, 183))
    decreases dir
  {
    FindsIsHasArch(dir, pattern);
    IndicesAre();
    hide Finds, Index, HasArch, AnyHasArch, ArchsOfMachine, Machine;
    ghost var before := archs[..];
    DirHasArch(dir, pattern);
    NoneHasArch(dir.entries, pattern);
    if dir.readable {
      for i := 0 to |dir.entries|
        invariant forall a :: archs[Index(a)] == (before[Index(a)] || AnyHasArch(dir.entries[..i], pattern, a))
      {
        var entry := dir.entries[i];
        EntryHasArch(entry, pattern);
        OneMoreHasArch(dir.entries[..i], entry, pattern);
        assert dir.entries[..i + 1] == dir.entries[..i] + [entry];
        match entry {
          case Symlink(_) =>
          case Dir(_, _, _) => FindArch(entry, pattern, archs);
          case File(name, executable, content) =>
            if executable || pattern(name) {
              ExtractArch(Machine(content), archs);
            }
        }
      }
      assert dir.entries[..|dir.entries|] == dir.entries;
    }
  }

  lemma NoneHasArch(entries: seq<Entry>, pattern: string -> bool)
    ensures forall a :: !AnyHasArch(entries[..0], pattern, a)
  {
  }

  lemma OneMoreHasArch(entries: seq<Entry>, entry: Entry, pattern: string -> bool)
    ensures forall a ::
      AnyHasArch(entries + [entry], pattern, a) <==> AnyHasArch(entries, pattern, a) || HasArch(entry, pattern, a)
  {
    hide HasArch;
    forall a
      ensures AnyHasArch(entries + [entry], pattern, a)
         <==> AnyHasArch(entries, pattern, a) || HasArch(entry, pattern, a)
    {
      assert forall e :: e in entries + [entry] <==> e in entries || e == entry;
    }
  }

  lemma EntryHasArch(entry: Entry, pattern: string -> bool)
    ensures entry.Symlink? ==> forall a :: !HasArch(entry, pattern, a)
    ensures entry.File? ==> forall a ::
      HasArch(entry, pattern, a)
      <==> (entry.executable || pattern(entry.name)) && a in ArchsOfMachine(Machine(entry.content))
  {
    if entry.File? && (entry.executable || pattern(entry.name)) {
      assert Scanned(entry, pattern, entry);
    }
  }

  lemma DirHasArch(dir: Entry, pattern: string -> bool)
    requires dir.Dir?
    ensures forall a :: HasArch(dir, pattern, a) <==> dir.readable && AnyHasArch(dir.entries, pattern, a)
  {
    forall a
      ensures HasArch(dir, pattern, a) <==> dir.readable && AnyHasArch(dir.entries, pattern, a)
    {
      if e :| dir.readable && e in dir.entries && HasArch(e, pattern, a) {
        var file :| Scanned(e, pattern, file) && file.File? && a in ArchsOfMachine(Machine(file.content));
        assert Scanned(dir, pattern, file);
      }
    }
  }

  function Ones(flags: seq<bool>): nat {
    if flags == [] then 0 else Ones(flags[..|flags| - 1]) + if flags[|flags| - 1] then 1 else 0
  }

  function Flagged(flags: seq<bool>): set<int> { set i | 0 <= i < |flags| && flags[i] }

  /** How many indices are flagged. */
  lemma {:induction false} OnesCounts(flags: seq<bool>)
    ensures Ones(flags) == |Flagged(flags)|
  {
    if flags != [] {
      var n := |flags| - 1;
      OnesCounts(flags[..n]);
      assert Flagged(flags) == Flagged(flags[..n]) + if flags[n] then {n} else {};
    }
  }

  predicate OnlyAt(flags: seq<bool>, i: nat) {
    i < |flags| && flags[i] && forall j :: 0 <= j < |flags| && flags[j] ==> j == i
  }

  lemma OnlyWithLast(front: seq<bool>, last: bool, i: nat)
    ensures OnlyAt(front + [last], i) <==> if last then i == |front| && true !in front else OnlyAt(front, i)
  {
    var flags := front + [last];
    assert flags[|front|] == last && forall j :: 0 <= j < |front| ==> flags[j] == front[j];
  }

  /** The caller goes on only when a single flag is set. */
  lemma {:induction false} OneFlag(flags: seq<bool>)
    ensures Ones(flags) == 0 <==> true !in flags
    ensures Ones(flags) == 1 <==> exists i :: OnlyAt(flags, i)
  {
    hide OnlyAt;
    if flags == [] {
      forall i
        ensures !OnlyAt(flags, i)
      {
        NothingIn(flags, i);
      }
    } else {
      var front, last := flags[..|flags| - 1], flags[|flags| - 1];
      assert flags == front + [last];
      OneFlag(front);
      forall i
        ensures OnlyAt(flags, i) <==> if last then i == |front| && true !in front else OnlyAt(front, i)
      {
        OnlyWithLast(front, last, i);
      }
      assert last && true !in front ==> OnlyAt(flags, |front|);
    }
  }

  lemma NothingIn(flags: seq<bool>, i: nat)
    requires flags == []
    ensures !OnlyAt(flags, i)
  {
  }

  /** count_archs */
  method CountArchs(archs: array<bool>) returns (count: nat)
    requires archs.Length == 4
    ensures count == Ones(archs[..]) == |set i | 0 <= i < 4 && archs[i]|
  {
    count := 0;
    var i := 0;
    while i < 4
      invariant i <= 4 && count == Ones(archs[..i])
    {
      assert archs[..i + 1][..i] == archs[..i];
      count := count + if archs[i] then 1 else 0;
      i := i + 1;
    }
    assert archs[..4] == archs[..];
    OnesCounts(archs[..]);
    assert (set i | 0 <= i < 4 && archs[i]) == Flagged(archs[..]);
  }
}
