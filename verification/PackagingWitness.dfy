/** Runtimes to run on: encoded section tables with contents behind them. With good layouts they meet what
    the results ask; with bad ones they show what goes wrong. */
module PackagingWitness {
  import opened Bytes
  import opened CLib
  import opened Elf
  import opened ElfFrame
  import opened ElfEncode
  import opened DigestSpec
  import opened DigestProof
  import opened DigestLayout
  import opened DigestReads
  import opened DigestBlanks
  import opened DigestExact
  import opened DigestMasked
  import opened DigestAhead
  import opened DigestElf
  import opened Digest
  import opened Md5Spec
  import opened Sign
  import opened Packaging
  import opened PackagingProof
  import opened PackagingLayout

  function Listed(table: seq<NamedSection>, name: seq<byte>): Section {
    LastEntry(table, name).GetOr(NOT_FOUND)
  }

  predicate Behind(s: Section, size: nat) { s.length == 0 || s.offset >= size }

  /** The header, table and names, followed by the contents of the sections. */
  function Runtime(c: Class, table: seq<NamedSection>, contents: seq<byte>): seq<byte> {
    Encode(c, table) + contents
  }

  /** The names, spelled out. */
  lemma NamesAre()
    ensures UpdInfoName() == Text(".upd_info") && DigestMd5Name() == Text(".digest_md5")
    ensures Sha256SigName() == Text(".sha256_sig") && SigKeyName() == Text(".sig_key")
  {
  }

  lemma NamesDiffer()
    ensures Shstrtab() !in {UpdInfoName(), DigestMd5Name(), Sha256SigName(), SigKeyName()}
  {
    assert Shstrtab()[1] == 115 && Shstrtab()[3] == 115;
    assert UpdInfoName()[1] == 117 && DigestMd5Name()[1] == 100 && Sha256SigName()[3] == 97 && SigKeyName()[3] == 103;
  }

  lemma NamedInRuntime(c: Class, table: seq<NamedSection>, contents: seq<byte>, name: seq<byte>)
    requires Encodable(c, table) && name != Shstrtab()
    ensures Readable(Encode(c, table)) && Readable(Runtime(c, table, contents))
    ensures KeepsCritical(Encode(c, table), Runtime(c, table, contents))
    ensures Named(Runtime(c, table, contents), name) == Listed(table, name)
  {
    hide Encode, Encodable, Critical;
    LookupOfEncoded(c, table, name);
    LookupIsKept(Encode(c, table), Runtime(c, table, contents), name);
  }

  lemma BehindIsClear(c: Class, table: seq<NamedSection>, contents: seq<byte>, s: Section)
    requires Encodable(c, table) && Behind(s, |Encode(c, table)|)
    requires Readable(Encode(c, table)) && Readable(Runtime(c, table, contents))
    requires KeepsCritical(Encode(c, table), Runtime(c, table, contents))
    ensures Clear(Runtime(c, table, contents), s.offset, s.length)
  {
    hide Encode, Encodable, Critical, KeepsCritical;
    var data, after := Encode(c, table), Runtime(c, table, contents);
    forall p | 0 <= p < |after| && Critical(after, p)
      ensures !(s.offset <= p < s.offset + s.length)
    {
      NothingNewIsCritical(data, after, p);
      CriticalIsInside(data, p);
    }
  }

  ghost predicate AllBehind(c: Class, table: seq<NamedSection>) {
    && Behind(Listed(table, Text(".upd_info")), |Encode(c, table)|)
    && Behind(Listed(table, Text(".digest_md5")), |Encode(c, table)|)
    && Behind(Listed(table, Text(".sha256_sig")), |Encode(c, table)|)
    && Behind(Listed(table, Text(".sig_key")), |Encode(c, table)|)
  }

  /** An encoded table whose four sections lie behind it makes a safe runtime, in either class, and the
      lookups give the sections listed. */
  lemma EncodedRuntimeIsSafe(c: Class, table: seq<NamedSection>, contents: seq<byte>)
    requires Encodable(c, table) && AllBehind(c, table)
    ensures SafeRuntime(Runtime(c, table, contents))
    ensures Named(Runtime(c, table, contents), UpdInfoName()) == Listed(table, Text(".upd_info"))
    ensures MaskedSections(Runtime(c, table, contents))
         == [Listed(table, Text(".digest_md5")), Listed(table, Text(".sha256_sig")), Listed(table, Text(".sig_key"))]
  {
    hide Encode, Encodable, Critical, KeepsCritical, Listed, Clear;
    var runtime := Runtime(c, table, contents);
    NamesDiffer();
    forall name | name in {UpdInfoName(), DigestMd5Name(), Sha256SigName(), SigKeyName()}
      ensures Readable(runtime) && Named(runtime, name) == Listed(table, name)
      ensures Clear(runtime, Listed(table, name).offset, Listed(table, name).length)
    {
      NamedInRuntime(c, table, contents, name);
      BehindIsClear(c, table, contents, Listed(table, name));
    }
    NamedInRuntime(c, table, contents, UpdInfoName());
    MaskedAre(runtime);
  }

  /** If they are laid out as the digest needs them, it is a good runtime. */
  lemma EncodedRuntimeIsGood(c: Class, table: seq<NamedSection>, contents: seq<byte>)
    requires Encodable(c, table) && AllBehind(c, table)
    requires LaidOut(Listed(table, Text(".upd_info")),
                     [Listed(table, Text(".digest_md5")), Listed(table, Text(".sha256_sig")),
                      Listed(table, Text(".sig_key"))],
                     |Runtime(c, table, contents)|)
    ensures GoodRuntime(Runtime(c, table, contents))
  {
    hide Encode, Encodable, AllBehind, LaidOut, Listed, SafeRuntime, Readable, Runtime;
    EncodedRuntimeIsSafe(c, table, contents);
    SafeIsReadable(Runtime(c, table, contents));
  }

  lemma SafeIsReadable(runtime: seq<byte>)
    requires SafeRuntime(runtime)
    ensures Readable(runtime)
  {
  }

  // A runtime for any four sections.

  function TableOf(info: Section, masked: seq<Section>): seq<NamedSection>
    requires |masked| == 3
  {
    [NamedSection(Text(".upd_info"), info), NamedSection(Text(".digest_md5"), masked[0]),
     NamedSection(Text(".sha256_sig"), masked[1]), NamedSection(Text(".sig_key"), masked[2])]
  }

  /** With `n` zero bytes behind the encoded table. */
  function RuntimeOf(c: Class, info: Section, masked: seq<Section>, n: nat): seq<byte>
    requires |masked| == 3
  {
    Runtime(c, TableOf(info, masked), Zeros(n))
  }

  const TABLE_SIZE := 437

  predicate FitsBehind(s: Section) {
    s.offset < 0x1_0000_0000 && s.length < 0x1_0000_0000 && Behind(s, TABLE_SIZE)
  }

  predicate AllFitBehind(info: Section, masked: seq<Section>)
    requires |masked| == 3
  {
    FitsBehind(info) && FitsBehind(masked[0]) && FitsBehind(masked[1]) && FitsBehind(masked[2])
  }

  lemma FourNamesDiffer()
    ensures UpdInfoName() != DigestMd5Name() && UpdInfoName() != Sha256SigName() && UpdInfoName() != SigKeyName()
    ensures DigestMd5Name() != Sha256SigName() && DigestMd5Name() != SigKeyName() && Sha256SigName() != SigKeyName()
  {
    assert UpdInfoName()[1] == 117 && DigestMd5Name()[1] == 100 && Sha256SigName()[1] == 115 && SigKeyName()[1] == 115;
    assert Sha256SigName()[2] == 104 && SigKeyName()[2] == 105;
  }

  lemma NameLengths()
    ensures |UpdInfoName()| == 9 && |DigestMd5Name()| == 11 && |Sha256SigName()| == 11 && |SigKeyName()| == 8
    ensures 0 !in UpdInfoName() && 0 !in DigestMd5Name() && 0 !in Sha256SigName() && 0 !in SigKeyName()
    ensures |Shstrtab()| == 9
  {
  }

  lemma ListedInTable(info: Section, masked: seq<Section>)
    requires |masked| == 3
    ensures var t := TableOf(info, masked);
            && Listed(t, Text(".upd_info")) == info && Listed(t, Text(".digest_md5")) == masked[0]
            && Listed(t, Text(".sha256_sig")) == masked[1] && Listed(t, Text(".sig_key")) == masked[2]
  {
    NamesAre();
    FourNamesDiffer();
    hide UpdInfoName, DigestMd5Name, Sha256SigName, SigKeyName, Text;
    var t := TableOf(info, masked);
    assert t[..3][..2] == t[..2] && t[..2][..1] == t[..1];
    forall name
      ensures LastEntry(t, name) == if t[3].name == name then Some(masked[2]) else LastEntry(t[..3], name)
      ensures LastEntry(t[..3], name) == if t[2].name == name then Some(masked[1]) else LastEntry(t[..2], name)
      ensures LastEntry(t[..2], name) == if t[1].name == name then Some(masked[0]) else LastEntry(t[..1], name)
      ensures LastEntry(t[..1], name) == if t[0].name == name then Some(info) else LastEntry(t[..1][..0], name)
    {
    }
  }

  lemma StringsOfTable(info: Section, masked: seq<Section>)
    requires |masked| == 3
    ensures |Strings(TableOf(info, masked))| == 43
  {
    NameLengths();
    hide UpdInfoName, DigestMd5Name, Sha256SigName, SigKeyName;
    var t := TableOf(info, masked);
    assert t[..3][..2] == t[..2] && t[..2][..1] == t[..1] && t[..1][..0] == [];
    assert |Strings(t[..1])| == 10;
    assert |Strings(t[..2])| == 22;
    assert |Strings(t[..3])| == 34;
  }

  lemma TableIsEncodable(c: Class, info: Section, masked: seq<Section>)
    requires |masked| == 3 && AllFitBehind(info, masked)
    ensures Encodable(c, TableOf(info, masked))
    ensures |Encode(c, TableOf(info, masked))| <= TABLE_SIZE
  {
    NameLengths();
    StringsOfTable(info, masked);
    Powers(c);
    StringsGrow(c, TableOf(info, masked));
    hide UpdInfoName, DigestMd5Name, Sha256SigName, SigKeyName, Shstrtab, Strings, Entries, Header, Power256;
    var all := WithStrings(c, TableOf(info, masked));
    assert |Entries(c, all)| == 5 * EntrySize(c);
  }

  ghost predicate HasSections(runtime: seq<byte>, info: Section, masked: seq<Section>) {
    SafeRuntime(runtime) && Named(runtime, UpdInfoName()) == info && MaskedSections(runtime) == masked
  }

  /** Whatever the four sections, if they fit behind the table there is a safe runtime that has them. */
  lemma RuntimeHasSections(c: Class, info: Section, masked: seq<Section>, n: nat)
    requires |masked| == 3 && AllFitBehind(info, masked)
    ensures HasSections(RuntimeOf(c, info, masked, n), info, masked) && |RuntimeOf(c, info, masked, n)| >= n
  {
    TableIsEncodable(c, info, masked);
    TableIsBehind(c, info, masked);
    ListedInTable(info, masked);
    hide Encode, Encodable, AllBehind, AllFitBehind, Listed, TableOf, SafeRuntime, Named, MaskedSections, Readable;
    hide UpdInfoName, DigestMd5Name, Sha256SigName, SigKeyName;
    EncodedRuntimeIsSafe(c, TableOf(info, masked), Zeros(n));
    SafeIsReadable(RuntimeOf(c, info, masked, n));
  }

  lemma TableIsBehind(c: Class, info: Section, masked: seq<Section>)
    requires |masked| == 3 && AllFitBehind(info, masked)
    ensures AllBehind(c, TableOf(info, masked))
  {
    TableIsEncodable(c, info, masked);
    ListedInTable(info, masked);
    hide Encode, Encodable, Listed, TableOf, UpdInfoName, DigestMd5Name, Sha256SigName, SigKeyName;
  }

  // Bad layouts as ELF files.

  lemma TableIsEarly(c: Class, info: Section, masked: seq<Section>, n: nat, p: nat)
    requires |masked| == 3 && AllFitBehind(info, masked)
    requires Readable(RuntimeOf(c, info, masked, n)) && Critical(RuntimeOf(c, info, masked, n), p)
    ensures p < TABLE_SIZE
  {
    TableIsEncodable(c, info, masked);
    FourNamesDiffer();
    NamesDiffer();
    NamedInRuntime(c, TableOf(info, masked), Zeros(n), SigKeyName());
    hide Encode, Encodable, Critical, KeepsCritical, TableOf, Named, Listed;
    NothingNewIsCritical(Encode(c, TableOf(info, masked)), RuntimeOf(c, info, masked, n), p);
    CriticalIsInside(Encode(c, TableOf(info, masked)), p);
  }

  /** Every bad layout of three sections behind the table and apart is that of an ELF file, in either class,
      whose digest is not computed from its blanked self, whatever the fill. */
  lemma BadLayoutHasElf(c: Class, masked: seq<Section>, n: nat, fill: Fill) returns (file: seq<byte>)
    requires |masked| == 3 && AllFitBehind(NOT_FOUND, masked)
    requires WellPlaced(masked, n) && !GoodLayout(masked, n)
    ensures Readable(file) && MaskedSections(file) == masked && !IsBlanked(file, fill)
  {
    var runtime := RuntimeOf(c, NOT_FOUND, masked, n);
    RuntimeHasSections(c, NOT_FOUND, masked, n);
    SafeIsReadable(runtime);
    WellPlacedInLarger(masked, n, |runtime|);
    AllStartBehind(masked);
    hide SafeRuntime, Readable, MaskedSections, WellPlaced, GoodLayout, RuntimeOf, Critical, StartFrom;
    hide IsBlanked, AllFitBehind, Named, KeepsCritical, CellsAreRight, CriticalBytes;
    forall p | 0 <= p < |runtime| && Critical(runtime, p)
      ensures p < TABLE_SIZE
    {
      TableIsEarly(c, NOT_FOUND, masked, n, p);
    }
    BadLayoutIsWrong(runtime, fill, TABLE_SIZE);
    file := WrongCellInElf(runtime, fill);
  }

  lemma AllStartBehind(masked: seq<Section>)
    requires |masked| == 3 && AllFitBehind(NOT_FOUND, masked)
    ensures StartFrom(masked, TABLE_SIZE)
  {
  }

  lemma WellPlacedInLarger(masked: seq<Section>, size: nat, size': nat)
    requires WellPlaced(masked, size) && size <= size'
    ensures WellPlaced(masked, size')
    ensures GoodLayout(masked, size') ==> GoodLayout(masked, size)
  {
  }

  const ALIGNED := [Section(4096, 16), Section(12300, 1024), Section(20500, 4096)]

  const SHARED := [Section(4100, 16), Section(4200, 1024), Section(12300, 8192)]

  const DRAINED := [Section(4100, 16), Section(8200, 1024), Section(12300, 8192)]

  /** One file for each way to fail: a section on a chunk boundary, two sections that start in one chunk,
      and one that is drained in the wrong order. */
  lemma ThreeWaysToFail(c: Class, fill: Fill)
      returns (aligned: seq<byte>, shared: seq<byte>, drained: seq<byte>)
    ensures Readable(aligned) && MaskedSections(aligned) == ALIGNED && !IsBlanked(aligned, fill)
    ensures Readable(shared) && MaskedSections(shared) == SHARED && !IsBlanked(shared, fill)
    ensures Readable(drained) && MaskedSections(drained) == DRAINED && !IsBlanked(drained, fill)
  {
    FailingLayouts();
    hide *;
    aligned := BadLayoutHasElf(c, ALIGNED, 24596, fill);
    shared := BadLayoutHasElf(c, SHARED, 20492, fill);
    drained := BadLayoutHasElf(c, DRAINED, 20492, fill);
  }

  lemma FailingLayouts()
    ensures |ALIGNED| == |SHARED| == |DRAINED| == 3
    ensures AllFitBehind(NOT_FOUND, ALIGNED) && AllFitBehind(NOT_FOUND, SHARED) && AllFitBehind(NOT_FOUND, DRAINED)
    ensures WellPlaced(ALIGNED, 24596) && !GoodLayout(ALIGNED, 24596)
    ensures WellPlaced(SHARED, 20492) && !GoodLayout(SHARED, 20492)
    ensures WellPlaced(DRAINED, 20492) && !GoodLayout(DRAINED, 20492)
  {
    hide GoodLayout;
    AlignedFails();
    SharedFails();
    DrainedFails();
  }

  lemma AlignedFails()
    ensures !GoodLayout(ALIGNED, 24596)
  {
    assert ALIGNED[0].offset % CHUNK == 0;
  }

  lemma SharedFails()
    ensures !GoodLayout(SHARED, 20492)
  {
    assert !SharesNoChunk(SHARED[0], SHARED[1]);
  }

  lemma DrainedFails()
    ensures !GoodLayout(DRAINED, 20492)
  {
    assert !DrainsInOrder(DRAINED[2]);
  }

  // Runs on such runtimes.

  ghost predicate ReadInFull(data: DataObject, most: nat) {
    ReadsFit(data) && |Concat(data.pieces)| == data.size <= most
  }

  /** The update information is known, and everything fits its section. */
  ghost predicate InputsFit(job: Job, info: Section, masked: seq<Section>)
    requires |masked| == 3
  {
    && (job.updateInformation.Some? ==>
          && KnownFormat(job.updateInformation.value)
          && Active(info) && |job.updateInformation.value| <= info.length)
    && Active(masked[0]) && masked[0].length >= 16
    && (job.signer.Some? ==>
          && Active(masked[1]) && (forall hex :: ReadInFull(job.signer.value.sign(hex), masked[1].length))
          && Active(masked[2]) && ReadInFull(job.signer.value.key, masked[2].length))
  }

  lemma SignatureIsReadInFull(job: Job, info: Section, masked: seq<Section>)
    requires Readable(job.runtime) && |masked| == 3 && InputsFit(job, info, masked) && job.signer.Some?
    ensures ReadInFull(Signature(job), masked[1].length)
  {
    hide Readable, Digested, KnownFormat, Concat;
  }

  lemma FittingSigner(job: Job, info: Section, masked: seq<Section>)
    requires HasSections(job.runtime, info, masked) && |masked| == 3 && InputsFit(job, info, masked) && job.signer.Some?
    ensures Readable(job.runtime) && SignatureFits(job) && KeyFits(job) && SignerFits(job.signer.value)
  {
    SafeIsReadable(job.runtime);
    MaskedAre(job.runtime);
    SignatureIsReadInFull(job, info, masked);
    hide SafeRuntime, Readable, Named, Signature, KnownFormat, Concat;
    hide UpdInfoName, DigestMd5Name, Sha256SigName, SigKeyName;
  }

  lemma FittingRunSucceeds(job: Job, info: Section, masked: seq<Section>)
    requires HasSections(job.runtime, info, masked) && |masked| == 3 && InputsFit(job, info, masked)
    ensures Readable(job.runtime) && Verdict(job).Done?
  {
    SafeIsReadable(job.runtime);
    MaskedAre(job.runtime);
    if job.signer.Some? {
      FittingSigner(job, info, masked);
    }
    hide SafeRuntime, Readable, Named, SignatureFits, KeyFits, KnownFormat, ReadInFull;
    hide UpdInfoName, DigestMd5Name, Sha256SigName, SigKeyName;
  }

  /** If the sections lie in the runtime and apart, it is a safe run. */
  lemma FittingRunIsSafe(job: Job, info: Section, masked: seq<Section>)
    requires HasSections(job.runtime, info, masked) && |masked| == 3 && InputsFit(job, info, masked)
    requires SectionsApart(info, masked, |job.runtime|)
    ensures SafeRun(job)
  {
    FittingRunSucceeds(job, info, masked);
    if job.signer.Some? {
      FittingSigner(job, info, masked);
    }
    hide SafeRuntime, Readable, Verdict, InputsFit, SectionsApart, SafeRun, MaskedSections, Named, SignerFits;
    ApartRunIsSafe(job);
  }

  // Where such a run writes.

  /** The image with runtime, text and digest in place, and with signature and key if there is a signer. */
  ghost function Packaged(job: Job, info: Section, masked: seq<Section>): seq<byte>
    requires |masked| == 3
  {
    var assembled := Overwrite(job.image, 0, job.runtime);
    var updated := match job.updateInformation
                   case None => assembled
                   case Some(text) => Overwrite(assembled, info.offset, text);
    var digested := Overwrite(updated, masked[0].offset, Md5Of(Fed(masked, updated, job.fill)));
    match job.signer
    case None => digested
    case Some(signer) =>
      var signed := Overwrite(digested, masked[1].offset, BytesOf(SignatureOf(signer, digested), signer.garbage));
      Overwrite(signed, masked[2].offset, BytesOf(signer.key, signer.garbage))
  }

  /** Inputs that fit a runtime whose table lists these sections: the run succeeds and leaves the text in
      ".upd_info", the digest in ".digest_md5", the signature in ".sha256_sig" and the key in ".sig_key". */
  lemma WhatPackageLeaves(c: Class, table: seq<NamedSection>, contents: seq<byte>, job: Job)
    requires Encodable(c, table) && AllBehind(c, table) && job.runtime == Runtime(c, table, contents)
    requires InputsFit(job, Listed(table, Text(".upd_info")),
                       [Listed(table, Text(".digest_md5")), Listed(table, Text(".sha256_sig")),
                        Listed(table, Text(".sig_key"))])
    ensures SafeRuntime(job.runtime) && Verdict(job) == Done
    ensures Left(job)
         == Packaged(job, Listed(table, Text(".upd_info")),
                     [Listed(table, Text(".digest_md5")), Listed(table, Text(".sha256_sig")),
                      Listed(table, Text(".sig_key"))])
  {
    var info := Listed(table, Text(".upd_info"));
    var masked := [Listed(table, Text(".digest_md5")), Listed(table, Text(".sha256_sig")),
                   Listed(table, Text(".sig_key"))];
    hide Encode, Encodable, AllBehind, Listed, Runtime, SafeRuntime, Readable, Named, MaskedSections, Text;
    hide Verdict, Left, Packaged, InputsFit;
    EncodedRuntimeIsSafe(c, table, contents);
    RunLeaves(job, info, masked);
  }

  lemma RunLeaves(job: Job, info: Section, masked: seq<Section>)
    requires |masked| == 3 && HasSections(job.runtime, info, masked) && InputsFit(job, info, masked)
    ensures Readable(job.runtime) && Verdict(job) == Done && Left(job) == Packaged(job, info, masked)
  {
    FittingRunSucceeds(job, info, masked);
    MaskedAre(job.runtime);
    hide SafeRuntime, Readable, Named, MaskedSections, Verdict, InputsFit, Overwrite, Md5Of, Fed, BytesOf;
  }

  const INFO := Section(1024, 1024)

  lemma SampleLayout(size: nat)
    requires size >= 20492
    ensures |DRAINED| == 3 && AllFitBehind(INFO, DRAINED) && LaidOut(INFO, DRAINED, size)
  {
  }

  lemma SampleGaps()
    ensures forall n: nat :: n <= 16 ==> FitsTheGap(DRAINED[0], n)
    ensures forall n: nat :: n <= 1024 ==> FitsTheGap(DRAINED[1], n)
    ensures forall n: nat :: n <= 8192 ==> (FitsTheGap(DRAINED[2], n) <==> n <= 4096)
  {
  }

  lemma SampleWrites(job: Job)
    requires HasSections(job.runtime, INFO, DRAINED) && |DRAINED| == 3 && InputsFit(job, INFO, DRAINED)
    ensures Readable(job.runtime)
    ensures WritesAreSkipped(job) <==> (job.signer.Some? ==> job.signer.value.key.size <= 4096)
  {
    SafeIsReadable(job.runtime);
    SampleGaps();
    if job.signer.Some? {
      SignatureIsReadInFull(job, INFO, DRAINED);
    }
    hide SafeRuntime, Readable, Named, Signature, KnownFormat, ReadsFit, Concat, FitsTheGap, UpdInfoName;
  }

  /** On runtimes with DRAINED every run with inputs that fit, signed or not, is a good run; and the key
      may take 4096 of its 8192 bytes, no more. */
  lemma SampleRunsAreGood(job: Job)
    requires |DRAINED| == 3 && HasSections(job.runtime, INFO, DRAINED) && |job.runtime| >= 20492
    requires InputsFit(job, INFO, DRAINED)
    ensures GoodRun(job)
    ensures WritesAreUnread(job) <==> (job.signer.Some? ==> job.signer.value.key.size <= 4096)
  {
    SampleLayout(|job.runtime|);
    FittingRunSucceeds(job, INFO, DRAINED);
    SampleWrites(job);
    if job.signer.Some? {
      FittingSigner(job, INFO, DRAINED);
    }
    hide SafeRuntime, Readable, Verdict, InputsFit, LaidOut, MaskedSections, Named, SignerFits, WritesAreSkipped;
    GapsAreExact(job);
  }

  /** A key of more than 4096 bytes there: with another key of that size the digest of the finished file
      is computed from other bytes than the recorded one. */
  lemma OverlongKeyShows(job: Job)
    requires |DRAINED| == 3 && HasSections(job.runtime, INFO, DRAINED) && |job.runtime| >= 20492
    requires InputsFit(job, INFO, DRAINED) && job.signer.Some? && job.signer.value.key.size > 4096
    ensures SafeRun(job) && !SigningIsUnseen(job)
  {
    SafeIsReadable(job.runtime);
    SampleRunsAreGood(job);
    SampleGaps();
    hide *;
    GoodRunIsSafe(job);
    DigestFitsItsGap(job);
    LaterIsDigestAndSigning(job);
    SigningIsExact(job);
  }

  /** Of two sections that start in one chunk the block of the second reads over its own start. */
  lemma SharedStartIsRead(size: nat)
    requires size >= 20492
    ensures IsRead(SHARED, size, 4200)
  {
    hide BadAt, CellAt, Cells, CarryIs;
    NothingBefore();
    var carry := CarryInto(SHARED, size, 1);
    SharedCarry(carry);
    var j, p := TwoBlocksRead(SHARED, size, 1, 0, 1);
    assert Cells(SHARED, size)[CHUNK * 1 + j] == From(p);
  }

  lemma NothingBefore()
    ensures !BadAt(SHARED, 0)
  {
  }

  lemma SharedCarry(carry: nat)
    requires CarryIs(SHARED, 1, carry)
    ensures carry == 0
  {
  }

  lemma SharedIsApart(size: nat)
    requires size >= 20492
    ensures SectionsApart(INFO, SHARED, size)
  {
  }

  lemma ReadStartIsNotUnread(sections: seq<Section>, size: nat, writes: seq<Write>)
    requires |writes| > 0 && writes[0].data != [] && IsRead(sections, size, writes[0].at)
    ensures !AreUnread(sections, size, writes)
  {
    hide IsRead;
    assert !NoneRead(sections, size, writes[0].at, |writes[0].data|);
  }

  /** Two sections in one chunk: the same with any signature that is not empty. */
  lemma SharedChunkShows(job: Job)
    requires |SHARED| == 3 && HasSections(job.runtime, INFO, SHARED) && |job.runtime| >= 20492
    requires InputsFit(job, INFO, SHARED) && job.signer.Some? && Signature(job).size > 0
    ensures SafeRun(job) && !SigningIsUnseen(job)
  {
    SafeIsReadable(job.runtime);
    SharedSignatureAt(job);
    hide *;
    SharedIsApart(|job.runtime|);
    FittingRunIsSafe(job, INFO, SHARED);
    SignSpans(job);
    AssembledSize(job);
    SharedStartIsRead(|Assembled(job)|);
    ReadStartIsNotUnread(SHARED, |Assembled(job)|, SignWrites(job));
    SigningIsExact(job);
  }

  lemma SharedSignatureAt(job: Job)
    requires HasSections(job.runtime, INFO, SHARED)
    ensures Readable(job.runtime) && MaskedSections(job.runtime) == SHARED
    ensures Named(job.runtime, Sha256SigName()).offset == 4200
  {
    MaskedAre(job.runtime);
    hide Named;
  }
}
