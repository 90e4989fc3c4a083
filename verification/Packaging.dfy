/** The packaging part of main in src/appimagetool.c: the runtime is put before the payload, then
    update information, digest, signature and key go into sections of the runtime, one after the other. */
module Packaging {
  import opened Bytes
  import opened CLib
  import opened Elf
  import opened ElfFrame
  import opened DigestSpec
  import opened Md5Spec
  import opened Digest
  import opened Sign

  function UpdInfoName(): seq<byte> { Text(".upd_info") }

  /** The section the lookup leaves in variables that were set to zero. */
  ghost function Named(data: seq<byte>, name: seq<byte>): Section
    requires Readable(data)
  {
    FindSection(data, name).GetOr(NOT_FOUND)
  }

  // Sequences of writes that stay clear of what the lookups read.

  datatype Write = Write(at: nat, data: seq<byte>)

  function Apply(file: seq<byte>, writes: seq<Write>): seq<byte> {
    if writes == [] then file
    else
      var w := writes[|writes| - 1];
      Overwrite(Apply(file, writes[..|writes| - 1]), w.at, w.data)
  }

  /** The range holds no byte of the header, the section table or the names. */
  ghost predicate Clear(file: seq<byte>, at: nat, length: nat)
    requires Readable(file)
  {
    forall p :: 0 <= p < |file| && Critical(file, p) ==> !(at <= p < at + length)
  }

  lemma {:induction false} WritesKeepCritical(file: seq<byte>, writes: seq<Write>)
    requires Readable(file)
    requires forall k :: 0 <= k < |writes| ==> Clear(file, writes[k].at, |writes[k].data|)
    ensures KeepsCritical(file, Apply(file, writes))
  {
    hide Critical;
    if writes != [] {
      WritesKeepCritical(file, writes[..|writes| - 1]);
      WriteKeepsCritical(file, Apply(file, writes[..|writes| - 1]), writes[|writes| - 1].at, writes[|writes| - 1].data);
    }
  }

  lemma WriteKeepsCritical(file: seq<byte>, before: seq<byte>, at: nat, data: seq<byte>)
    requires Readable(file) && KeepsCritical(file, before) && Clear(file, at, |data|)
    ensures KeepsCritical(file, Overwrite(before, at, data))
  {
    hide Critical;
  }

  /** Any sequence of writes into ranges that are clear in the original file leaves every later
      lookup where it was in that file. */
  lemma WritesKeepLookups(file: seq<byte>, writes: seq<Write>, name: seq<byte>)
    requires Readable(file)
    requires forall k :: 0 <= k < |writes| ==> Clear(file, writes[k].at, |writes[k].data|)
    ensures Readable(Apply(file, writes)) && FindSection(Apply(file, writes), name) == FindSection(file, name)
  {
    WritesKeepCritical(file, writes);
    LookupIsKept(file, Apply(file, writes), name);
  }

  // One run of the tool.

  /** `image` is what mksquashfs left in the destination, with the payload from position |runtime| on. */
  datatype Job = Job(runtime: seq<byte>, image: seq<byte>, updateInformation: Option<seq<byte>>, fill: Fill,
                     signer: Option<Signer>)

  datatype Outcome =
    | Done
    | UnknownFormat
    | NoUpdInfoSection
    | UpdateInformationTooLong
    | NoDigestSection
    | DigestSectionTooSmall
    | SigningFailed

  /** The runtime's sections that are written to are clear of what the lookups read. */
  ghost predicate SafeRuntime(runtime: seq<byte>) {
    && Readable(runtime)
    && forall name :: name in {UpdInfoName(), DigestMd5Name(), Sha256SigName(), SigKeyName()} ==>
         var s := Named(runtime, name); Clear(runtime, s.offset, s.length)
  }

  predicate KnownFormat(updateInformation: seq<byte>) {
    || Text("zsync|") <= updateInformation
    || Text("gh-releases-zsync|") <= updateInformation
    || Text("pling-v1-zsync|") <= updateInformation
  }

  ghost predicate Fits(s: Section, data: DataObject) {
    Active(s) && data.size <= s.length && |Concat(data.pieces)| == data.size
  }

  function BytesOf(data: DataObject, garbage: Garbage): seq<byte> {
    Overlay(Uninitialised(data.size, garbage), data.pieces)
  }

  // The file after each step, told by the sections of the runtime as it came.

  ghost function Assembled(job: Job): seq<byte> { Overwrite(job.image, 0, job.runtime) }

  ghost function Updated(job: Job): seq<byte>
    requires Readable(job.runtime)
  {
    match job.updateInformation
    case None => Assembled(job)
    case Some(info) => Overwrite(Assembled(job), Named(job.runtime, UpdInfoName()).offset, info)
  }

  /** The sixteen bytes the run records. */
  ghost function Recorded(job: Job): seq<byte>
    requires Readable(job.runtime)
  {
    Md5Of(Fed(MaskedSections(job.runtime), Updated(job), job.fill))
  }

  ghost function Digested(job: Job): seq<byte>
    requires Readable(job.runtime)
  {
    Overwrite(Updated(job), Named(job.runtime, DigestMd5Name()).offset, Recorded(job))
  }

  ghost function Signature(job: Job): DataObject
    requires Readable(job.runtime) && job.signer.Some?
  {
    SignatureOf(job.signer.value, Digested(job))
  }

  ghost function Signed(job: Job): seq<byte>
    requires Readable(job.runtime) && job.signer.Some?
  {
    Overwrite(Digested(job), Named(job.runtime, Sha256SigName()).offset,
              BytesOf(Signature(job), job.signer.value.garbage))
  }

  ghost function Keyed(job: Job): seq<byte>
    requires Readable(job.runtime) && job.signer.Some?
  {
    Overwrite(Signed(job), Named(job.runtime, SigKeyName()).offset,
              BytesOf(job.signer.value.key, job.signer.value.garbage))
  }

  ghost function Finished(job: Job): seq<byte>
    requires Readable(job.runtime)
  {
    if job.signer.None? then Digested(job) else Keyed(job)
  }

  ghost function UpdateVerdict(job: Job): Outcome
    requires Readable(job.runtime)
  {
    var s := Named(job.runtime, UpdInfoName());
    if job.updateInformation.None? then Done
    else if !KnownFormat(job.updateInformation.value) then UnknownFormat
    else if !Active(s) then NoUpdInfoSection
    else if |job.updateInformation.value| > s.length then UpdateInformationTooLong
    else Done
  }

  ghost function DigestVerdict(job: Job): Outcome
    requires Readable(job.runtime)
  {
    var s := Named(job.runtime, DigestMd5Name());
    if !Active(s) then NoDigestSection else if s.length < 16 then DigestSectionTooSmall else Done
  }

  ghost function SignVerdict(job: Job): Outcome
    requires Readable(job.runtime)
  {
    if job.signer.None? then Done
    else if SignatureFits(job) && KeyFits(job) then Done
    else SigningFailed
  }

  ghost predicate SignatureFits(job: Job)
    requires Readable(job.runtime) && job.signer.Some?
  {
    Fits(Named(job.runtime, Sha256SigName()), Signature(job))
  }

  ghost predicate KeyFits(job: Job)
    requires Readable(job.runtime) && job.signer.Some?
  {
    Fits(Named(job.runtime, SigKeyName()), job.signer.value.key)
  }

  /** How the run ends: with the first step that fails. */
  ghost function Verdict(job: Job): Outcome
    requires Readable(job.runtime)
  {
    if !UpdateVerdict(job).Done? then UpdateVerdict(job)
    else if !DigestVerdict(job).Done? then DigestVerdict(job)
    else SignVerdict(job)
  }

  /** What the run leaves on disk: the file as the last step that succeeded made it. */
  ghost function Left(job: Job): seq<byte>
    requires Readable(job.runtime)
  {
    match Verdict(job)
    case Done => Finished(job)
    case UnknownFormat => Assembled(job)
    case NoUpdInfoSection => Assembled(job)
    case UpdateInformationTooLong => Assembled(job)
    case NoDigestSection => Updated(job)
    case DigestSectionTooSmall => Updated(job)
    case SigningFailed => if SignatureFits(job) then Signed(job) else Digested(job)
  }
}
