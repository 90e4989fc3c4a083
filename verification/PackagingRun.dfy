/** The steps of the packaging run on the destination file, and the run. */
module PackagingRun {
  import opened Bytes
  import opened CLib
  import opened Elf
  import opened ElfFrame
  import opened DigestSpec
  import opened Md5Spec
  import opened Digest
  import opened DigestElf
  import opened Sign
  import opened Packaging

  // Every stage of the file answers lookups as the runtime does.

  lemma PartsAreClear(file: seq<byte>, at: nat, length: nat, part: nat)
    requires Readable(file) && Clear(file, at, length) && part <= length
    ensures Clear(file, at, part)
  {
  }

  lemma AssembledKeeps(job: Job)
    requires Readable(job.runtime)
    ensures KeepsCritical(job.runtime, Assembled(job))
  {
    hide Critical;
    var file := Assembled(job);
    forall p | 0 <= p < |job.runtime|
      ensures p < |file| && file[p] == job.runtime[p]
    {
      assert file[0..|job.runtime|][p] == job.runtime[p];
    }
  }

  lemma UpdatedKeeps(job: Job)
    requires SafeRuntime(job.runtime) && UpdateVerdict(job).Done?
    ensures KeepsCritical(job.runtime, Updated(job))
  {
    hide Clear, KeepsCritical;
    AssembledKeeps(job);
    if job.updateInformation.Some? {
      var s, info := Named(job.runtime, UpdInfoName()), job.updateInformation.value;
      PartsAreClear(job.runtime, s.offset, s.length, |info|);
      WriteKeepsCritical(job.runtime, Assembled(job), s.offset, info);
    }
  }

  lemma DigestedKeeps(job: Job)
    requires SafeRuntime(job.runtime) && UpdateVerdict(job).Done? && DigestVerdict(job).Done?
    ensures KeepsCritical(job.runtime, Digested(job))
  {
    hide Clear, KeepsCritical, Recorded, Updated;
    UpdatedKeeps(job);
    var s := Named(job.runtime, DigestMd5Name());
    assert |Recorded(job)| == 16 by { RecordedLength(job); }
    PartsAreClear(job.runtime, s.offset, s.length, 16);
    WriteKeepsCritical(job.runtime, Updated(job), s.offset, Recorded(job));
  }

  lemma RecordedLength(job: Job)
    requires Readable(job.runtime)
    ensures |Recorded(job)| == 16
  {
  }

  lemma SignedKeeps(job: Job)
    requires SafeRuntime(job.runtime) && UpdateVerdict(job).Done? && DigestVerdict(job).Done?
    requires job.signer.Some? && SignerFits(job.signer.value) && SignatureFits(job)
    ensures KeepsCritical(job.runtime, Signed(job))
  {
    hide Clear, KeepsCritical, Digested;
    DigestedKeeps(job);
    var s, data := Named(job.runtime, Sha256SigName()), BytesOf(Signature(job), job.signer.value.garbage);
    PartsAreClear(job.runtime, s.offset, s.length, |data|);
    WriteKeepsCritical(job.runtime, Digested(job), s.offset, data);
  }

  lemma KeyedKeeps(job: Job)
    requires SafeRuntime(job.runtime) && UpdateVerdict(job).Done? && DigestVerdict(job).Done?
    requires job.signer.Some? && SignerFits(job.signer.value) && SignatureFits(job) && KeyFits(job)
    ensures KeepsCritical(job.runtime, Keyed(job))
  {
    hide Clear, KeepsCritical, Signed;
    SignedKeeps(job);
    var s, data := Named(job.runtime, SigKeyName()), BytesOf(job.signer.value.key, job.signer.value.garbage);
    PartsAreClear(job.runtime, s.offset, s.length, |data|);
    WriteKeepsCritical(job.runtime, Signed(job), s.offset, data);
  }

  lemma NamedAsInRuntime(job: Job, file: seq<byte>, name: seq<byte>)
    requires Readable(job.runtime) && KeepsCritical(job.runtime, file)
    ensures Readable(file) && Named(file, name) == Named(job.runtime, name)
    ensures ClassOf(file) == ClassOf(job.runtime)
  {
    hide KeepsCritical;
    LookupIsKept(job.runtime, file, name);
    ClassIsKept(job.runtime, file);
  }

  lemma ClassIsKept(data: seq<byte>, after: seq<byte>)
    requires Readable(data) && KeepsCritical(data, after) && Readable(after)
    ensures ClassOf(after) == ClassOf(data)
  {
    assert Critical(data, EI_CLASS);
  }

  // The steps.

  method EmbedRuntime(destination: DiskFile, job: Job)
    requires destination.bytes == job.image
    modifies destination
    ensures destination.bytes == Assembled(job)
  {
    var fpdst := new Stream(destination);
    fpdst.SeekSet(0);
    fpdst.Write(job.runtime);
  }

  method EmbedUpdateInformation(destination: DiskFile, job: Job, info: seq<byte>) returns (outcome: Outcome)
    requires SafeRuntime(job.runtime) && job.updateInformation == Some(info)
    requires destination.bytes == Assembled(job)
    modifies destination
    ensures outcome == UpdateVerdict(job)
    ensures outcome.UnknownFormat?
       <==> !(Text("zsync|") <= info) && !(Text("gh-releases-zsync|") <= info) && !(Text("pling-v1-zsync|") <= info)
    ensures destination.bytes == if outcome.Done? then Updated(job) else Assembled(job)
  {
    hide KeepsCritical, Clear, WellFormed, FindSection;
    if !(Text("zsync|") <= info) {
      if !(Text("gh-releases-zsync|") <= info) {
        if !(Text("pling-v1-zsync|") <= info) { return UnknownFormat; }
      }
    }
    AssembledKeeps(job);
    NamedAsInRuntime(job, destination.bytes, UpdInfoName());
    var rv, offset, length := GetSectionOffsetAndLength(destination.bytes, Text(".upd_info"), 0, 0);
    if !rv || offset == 0 || length == 0 {
      UnknownClassHasNoSections(destination.bytes, UpdInfoName());
      return NoUpdInfoSection;
    }
    if |info| > length { return UpdateInformationTooLong; }
    var fpdst2 := new Stream(destination);
    fpdst2.SeekSet(offset);
    fpdst2.Write(info);
    return Done;
  }

  lemma UnknownClassHasNoSections(data: seq<byte>, name: seq<byte>)
    requires Readable(data)
    ensures ClassOf(data).None? ==> Named(data, name) == NOT_FOUND
  {
  }

  method EmbedDigest(destination: DiskFile, job: Job) returns (outcome: Outcome)
    requires SafeRuntime(job.runtime) && UpdateVerdict(job).Done? && destination.bytes == Updated(job)
    modifies destination
    ensures outcome == DigestVerdict(job)
    ensures destination.bytes == if outcome.Done? then Digested(job) else Updated(job)
  {
    hide KeepsCritical, Clear, WellFormed, FindSection, UpdateVerdict, Updated, Md5Of, Fed;
    UpdatedKeeps(job);
    NamedAsInRuntime(job, destination.bytes, DigestMd5Name());
    MaskedSectionsAreKept(job.runtime, destination.bytes);
    var rv, offset, length := GetSectionOffsetAndLength(destination.bytes, Text(".digest_md5"), 0, 0);
    if !rv || offset == 0 || length == 0 {
      UnknownClassHasNoSections(destination.bytes, DigestMd5Name());
      return NoDigestSection;
    }
    if length < 16 { return DigestSectionTooSmall; }
    var ok, digest := Type2DigestMd5(destination, job.fill);
    assert ok;
    var destinationfp := new Stream(destination);
    destinationfp.SeekSet(offset);
    destinationfp.Write(digest);
    return Done;
  }

  method SignDestination(destination: DiskFile, job: Job) returns (outcome: Outcome)
    requires SafeRuntime(job.runtime) && UpdateVerdict(job).Done? && DigestVerdict(job).Done?
    requires job.signer.Some? && SignerFits(job.signer.value) && destination.bytes == Digested(job)
    modifies destination
    ensures outcome == SignVerdict(job)
    ensures destination.bytes
         == if outcome.Done? then Keyed(job) else if SignatureFits(job) then Signed(job) else Digested(job)
  {
    SigningAsInRuntime(job);
    var ok := SignAppImage(destination, job.signer.value);
    return if ok then Done else SigningFailed;
  }

  lemma EmbeddedAsInRuntime(job: Job, file: seq<byte>, name: seq<byte>, data: DataObject, garbage: Garbage)
    requires Readable(job.runtime) && KeepsCritical(job.runtime, file)
    ensures Readable(file)
    ensures var s := Named(job.runtime, name);
            Embedded(file, name, data, garbage)
            == if Fits(s, data) then Some(Overwrite(file, s.offset, BytesOf(data, garbage))) else None
  {
    hide KeepsCritical, FindSection, Overwrite, Overlay, Concat;
    NamedAsInRuntime(job, file, name);
    UnknownClassHasNoSections(file, name);
  }

  lemma SigningAsInRuntime(job: Job)
    requires SafeRuntime(job.runtime) && UpdateVerdict(job).Done? && DigestVerdict(job).Done?
    requires job.signer.Some? && SignerFits(job.signer.value)
    ensures Readable(Digested(job)) && KeyIsReachable(Digested(job), job.signer.value)
    ensures Embedded(Digested(job), Sha256SigName(), Signature(job), job.signer.value.garbage)
         == if SignatureFits(job) then Some(Signed(job)) else None
    ensures SignatureFits(job) ==>
      && Readable(Signed(job))
      && Embedded(Signed(job), SigKeyName(), job.signer.value.key, job.signer.value.garbage)
         == if KeyFits(job) then Some(Keyed(job)) else None
  {
    hide KeepsCritical, Clear, WellFormed, UpdateVerdict, DigestVerdict, Digested, SignerFits, Embedded, Fits;
    DigestedKeeps(job);
    EmbeddedAsInRuntime(job, Digested(job), Sha256SigName(), Signature(job), job.signer.value.garbage);
    if SignatureFits(job) {
      SignedKeeps(job);
      EmbeddedAsInRuntime(job, Signed(job), SigKeyName(), job.signer.value.key, job.signer.value.garbage);
    }
  }

  /** The run from the runtime on. It ends as Verdict says and leaves what Left says, both told by the
      sections of the runtime alone: no step moves what a later step looks up. */
  method Package(destination: DiskFile, job: Job) returns (outcome: Outcome)
    requires SafeRuntime(job.runtime) && (job.signer.Some? ==> SignerFits(job.signer.value))
    requires destination.bytes == job.image
    modifies destination
    ensures outcome == Verdict(job)
    ensures destination.bytes == Left(job)
  {
    hide Clear, WellFormed, UpdateVerdict, DigestVerdict, SignVerdict, SignerFits;
    hide Assembled, Updated, Digested, Signed, Keyed;
    EmbedRuntime(destination, job);
    VerdictsAre(job);
    if job.updateInformation.Some? {
      outcome := EmbedUpdateInformation(destination, job, job.updateInformation.value);
      if !outcome.Done? { return; }
    }
    outcome := EmbedDigest(destination, job);
    if !outcome.Done? { return; }
    if job.signer.Some? {
      outcome := SignDestination(destination, job);
    }
  }

  lemma VerdictsAre(job: Job)
    requires Readable(job.runtime)
    ensures UpdateVerdict(job) in {Done, UnknownFormat, NoUpdInfoSection, UpdateInformationTooLong}
    ensures job.updateInformation.None? ==> UpdateVerdict(job).Done? && Updated(job) == Assembled(job)
    ensures DigestVerdict(job) in {Done, NoDigestSection, DigestSectionTooSmall}
    ensures SignVerdict(job) in {Done, SigningFailed}
    ensures job.signer.None? ==> SignVerdict(job).Done?
  {
  }
}
