/** What a finished AppImage is: its recorded digest still holds, its signature covers it, and apart
    from what was embedded it is the runtime followed by the payload. */
module PackagingProof {
  import opened Bytes
  import opened CLib
  import opened Elf
  import opened ElfFrame
  import opened DigestSpec
  import opened DigestReads
  import opened DigestStale
  import opened DigestElf
  import opened Md5Spec
  import opened Digest
  import opened Hexlify
  import opened Sign
  import opened Packaging
  import opened PackagingRun

  // What a sequence of writes leaves.

  predicate InRange(w: Write, p: nat) { w.at <= p < w.at + |w.data| }

  predicate WritesApart(v: Write, w: Write) { v.at + |v.data| <= w.at || w.at + |w.data| <= v.at }

  ghost predicate WritesInFile(writes: seq<Write>, size: nat) {
    && (forall k :: 0 <= k < |writes| ==> writes[k].at + |writes[k].data| <= size)
    && (forall k, l :: 0 <= k < l < |writes| ==> WritesApart(writes[k], writes[l]))
  }

  predicate Holds(file: seq<byte>, w: Write) {
    w.at + |w.data| <= |file| && file[w.at..w.at + |w.data|] == w.data
  }

  ghost predicate Untouched(writes: seq<Write>, p: nat) {
    forall k :: 0 <= k < |writes| ==> !InRange(writes[k], p)
  }

  lemma WhatOneWriteLeaves(file: seq<byte>, w: Write)
    requires w.at + |w.data| <= |file|
    ensures var after := Overwrite(file, w.at, w.data);
            && |after| == |file| && Holds(after, w)
            && (forall p :: 0 <= p < |file| && !InRange(w, p) ==> after[p] == file[p])
            && (forall v :: Holds(file, v) && WritesApart(v, w) ==> Holds(after, v))
  {
    var after := Overwrite(file, w.at, w.data);
    forall v | Holds(file, v) && WritesApart(v, w)
      ensures Holds(after, v)
    {
      assert after[v.at..v.at + |v.data|] == file[v.at..v.at + |v.data|];
    }
  }

  /** Writes into ranges that lie in the file and apart: each range holds its data, every other byte is
      the old one, and the size is the old one. */
  lemma {:induction false} WhatWritesLeave(file: seq<byte>, writes: seq<Write>)
    requires WritesInFile(writes, |file|)
    ensures |Apply(file, writes)| == |file|
    ensures forall k :: 0 <= k < |writes| ==> Holds(Apply(file, writes), writes[k])
    ensures forall p :: 0 <= p < |file| && Untouched(writes, p) ==> Apply(file, writes)[p] == file[p]
  {
    hide Overwrite, Holds, WritesApart;
    if writes != [] {
      var n := |writes| - 1;
      var before := Apply(file, writes[..n]);
      WhatWritesLeave(file, writes[..n]);
      WhatOneWriteLeaves(before, writes[n]);
      forall k | 0 <= k < n
        ensures Holds(Apply(file, writes), writes[k])
      {
        assert Holds(before, writes[..n][k]);
      }
      forall p | 0 <= p < |file| && Untouched(writes, p)
        ensures Apply(file, writes)[p] == file[p]
      {
        assert Untouched(writes[..n], p) && !InRange(writes[n], p);
      }
    }
  }

  // The writes of a run.

  ghost function UpdateWrites(job: Job): seq<Write>
    requires Readable(job.runtime)
  {
    match job.updateInformation
    case None => []
    case Some(info) => [Write(Named(job.runtime, UpdInfoName()).offset, info)]
  }

  ghost function DigestWrite(job: Job): Write
    requires Readable(job.runtime)
  {
    Write(Named(job.runtime, DigestMd5Name()).offset, Recorded(job))
  }

  ghost function SignWrites(job: Job): seq<Write>
    requires Readable(job.runtime)
  {
    match job.signer
    case None => []
    case Some(signer) =>
      [Write(Named(job.runtime, Sha256SigName()).offset, BytesOf(Signature(job), signer.garbage)),
       Write(Named(job.runtime, SigKeyName()).offset, BytesOf(signer.key, signer.garbage))]
  }

  ghost function WritesOf(job: Job): seq<Write>
    requires Readable(job.runtime)
  {
    UpdateWrites(job) + [DigestWrite(job)] + SignWrites(job)
  }

  lemma FinishedIsApplied(job: Job)
    requires Readable(job.runtime)
    ensures Updated(job) == Apply(Assembled(job), UpdateWrites(job))
    ensures Digested(job) == Apply(Assembled(job), UpdateWrites(job) + [DigestWrite(job)])
    ensures Digested(job) == Apply(Updated(job), [DigestWrite(job)])
    ensures Finished(job) == Apply(Assembled(job), WritesOf(job))
    ensures Finished(job) == Apply(Digested(job), SignWrites(job))
    ensures Finished(job) == Apply(Updated(job), [DigestWrite(job)] + SignWrites(job))
  {
    hide Recorded, Signature, BytesOf, Overwrite, Named;
    ApplyConcat(Assembled(job), UpdateWrites(job), [DigestWrite(job)]);
    ApplyConcat(Assembled(job), UpdateWrites(job) + [DigestWrite(job)], SignWrites(job));
    ApplyConcat(Updated(job), [DigestWrite(job)], SignWrites(job));
    ApplyOne(Assembled(job), UpdateWrites(job));
    ApplyOne(Updated(job), [DigestWrite(job)]);
    if job.signer.Some? {
      var writes := SignWrites(job);
      assert writes == [writes[0]] + [writes[1]];
      ApplyConcat(Digested(job), [writes[0]], [writes[1]]);
      ApplyOne(Digested(job), [writes[0]]);
      ApplyOne(Signed(job), [writes[1]]);
    }
  }

  lemma ApplyOne(file: seq<byte>, writes: seq<Write>)
    requires |writes| <= 1
    ensures Apply(file, writes) == if writes == [] then file else Overwrite(file, writes[0].at, writes[0].data)
  {
    if |writes| == 1 {
      assert writes[..0] == [];
    }
  }

  lemma {:induction false} ApplyConcat(file: seq<byte>, x: seq<Write>, y: seq<Write>)
    ensures Apply(file, x + y) == Apply(Apply(file, x), y)
    decreases |y|
  {
    if y == [] {
      assert x + y == x;
    } else {
      assert (x + y)[..|x + y| - 1] == x + y[..|y| - 1];
      ApplyConcat(file, x, y[..|y| - 1]);
    }
  }

  // A successful run.

  /** A run that succeeds, on a runtime whose tables are clear of the sections written, with the writes
      inside the file and apart from each other. */
  ghost predicate SafeRun(job: Job) {
    && SafeRuntime(job.runtime)
    && (job.signer.Some? ==> SignerFits(job.signer.value))
    && Verdict(job).Done?
    && WritesInFile(WritesOf(job), |Assembled(job)|)
  }

  lemma SafeRunPasses(job: Job)
    requires SafeRun(job)
    ensures Readable(job.runtime) && SafeRuntime(job.runtime)
    ensures UpdateVerdict(job).Done? && DigestVerdict(job).Done?
    ensures WritesInFile(WritesOf(job), |Assembled(job)|)
    ensures job.signer.Some? ==> SignerFits(job.signer.value) && SignatureFits(job) && KeyFits(job)
  {
  }

  ghost predicate Inside(w: Write, s: Section) { Active(s) && w.at == s.offset && |w.data| <= s.length }

  lemma MaskedAre(runtime: seq<byte>)
    requires Readable(runtime)
    ensures MaskedSections(runtime)
         == [Named(runtime, DigestMd5Name()), Named(runtime, Sha256SigName()), Named(runtime, SigKeyName())]
  {
  }

  // Every write begins at the start of its section and stays inside it.

  lemma UpdateStaysInside(job: Job)
    requires Readable(job.runtime) && UpdateVerdict(job).Done?
    ensures |UpdateWrites(job)| <= 1
    ensures |UpdateWrites(job)| == 1 ==> Inside(UpdateWrites(job)[0], Named(job.runtime, UpdInfoName()))
  {
    hide Named, KnownFormat;
  }

  lemma DigestStaysInside(job: Job)
    requires Readable(job.runtime) && DigestVerdict(job).Done?
    ensures Inside(DigestWrite(job), MaskedSections(job.runtime)[0]) && |DigestWrite(job).data| == 16
  {
    hide Recorded, Named;
    MaskedAre(job.runtime);
    RecordedLength(job);
  }

  lemma SignatureStaysInside(job: Job)
    requires Readable(job.runtime)
    requires job.signer.Some? ==> SignerFits(job.signer.value) && SignatureFits(job) && KeyFits(job)
    ensures |SignWrites(job)| == if job.signer.Some? then 2 else 0
    ensures job.signer.Some? ==>
      && Inside(SignWrites(job)[0], MaskedSections(job.runtime)[1])
      && Inside(SignWrites(job)[1], MaskedSections(job.runtime)[2])
  {
    hide Named, Digested, Concat, MaskedSections;
    MaskedAre(job.runtime);
  }

  lemma AssembledSize(job: Job)
    requires Readable(job.runtime)
    ensures |Assembled(job)| >= |job.runtime|
    ensures |job.image| >= |job.runtime| ==> Assembled(job) == job.runtime + job.image[|job.runtime|..]
  {
  }

  /** Every write begins its section and never leaves it: .upd_info, .digest_md5, .sha256_sig, .sig_key. */
  ghost predicate StaysInSections(job: Job)
    requires Readable(job.runtime)
  {
    && |UpdateWrites(job)| <= 1
    && (|UpdateWrites(job)| == 1 ==> Inside(UpdateWrites(job)[0], Named(job.runtime, UpdInfoName())))
    && Inside(DigestWrite(job), Named(job.runtime, DigestMd5Name()))
    && |SignWrites(job)| == (if job.signer.Some? then 2 else 0)
    && (job.signer.Some? ==>
          && Inside(SignWrites(job)[0], Named(job.runtime, Sha256SigName()))
          && Inside(SignWrites(job)[1], Named(job.runtime, SigKeyName())))
  }

  lemma AllStaysInside(job: Job)
    requires SafeRun(job)
    ensures StaysInSections(job)
  {
    SafeRunPasses(job);
    hide SafeRun, SafeRuntime, WritesInFile, Verdict, Named, MaskedSections, UpdateWrites, DigestWrite, SignWrites;
    hide Inside, Readable, UpdateVerdict, DigestVerdict, SignatureFits, KeyFits, SignerFits;
    UpdateStaysInside(job);
    DigestStaysInside(job);
    SignatureStaysInside(job);
    MaskedAre(job.runtime);
  }

  // What the file is.

  /** The finished file is the runtime and the payload but for the ranges written, and each of those
      holds exactly what was written there; a signature or a key read at once is there as it is. */
  lemma ContentIsConserved(job: Job)
    requires SafeRun(job)
    ensures |Finished(job)| == |Assembled(job)|
    ensures forall k :: 0 <= k < |WritesOf(job)| ==> Holds(Finished(job), WritesOf(job)[k])
    ensures StaysInSections(job)
    ensures forall p :: 0 <= p < |Assembled(job)| && Untouched(WritesOf(job), p) ==>
              Finished(job)[p] == Assembled(job)[p]
    ensures job.signer.Some? && |Signature(job).pieces| <= 1 ==>
              Holds(Finished(job), Write(Named(job.runtime, Sha256SigName()).offset, Concat(Signature(job).pieces)))
    ensures job.signer.Some? && |job.signer.value.key.pieces| <= 1 ==>
              Holds(Finished(job), Write(Named(job.runtime, SigKeyName()).offset, Concat(job.signer.value.key.pieces)))
  {
    SafeRunPasses(job);
    FinishedIsApplied(job);
    AllStaysInside(job);
    if job.signer.Some? {
      SignWritesAre(job);
    }
    hide StaysInSections, SafeRun, Verdict, WritesInFile, WritesOf, Finished, Assembled, Untouched, Holds;
    hide Signature, Named;
    hide BytesOf, Concat;
    WhatWritesLeave(Assembled(job), WritesOf(job));
  }

  lemma SignWritesAre(job: Job)
    requires Readable(job.runtime) && job.signer.Some? && SignatureFits(job) && KeyFits(job)
    ensures var n := |UpdateWrites(job)| + 1;
            && |WritesOf(job)| == n + 2
            && WritesOf(job)[n] == SignWrites(job)[0] && WritesOf(job)[n + 1] == SignWrites(job)[1]
    ensures |Signature(job).pieces| <= 1 ==> SignWrites(job)[0].data == Concat(Signature(job).pieces)
    ensures |job.signer.value.key.pieces| <= 1 ==> SignWrites(job)[1].data == Concat(job.signer.value.key.pieces)
  {
    hide Named, Digested, Overlay, Concat;
    EmbeddedContents(Signature(job), job.signer.value.garbage);
    EmbeddedContents(job.signer.value.key, job.signer.value.garbage);
  }

  /** An object read at once is embedded as it is. */
  lemma EmbeddedContents(data: DataObject, garbage: Garbage)
    requires |Concat(data.pieces)| == data.size
    ensures |data.pieces| <= 1 ==> BytesOf(data, garbage) == Concat(data.pieces)
  {
    if |data.pieces| <= 1 {
      OneReadEmbedsAll(data.pieces, Uninitialised(data.size, garbage));
    }
  }

  lemma SomeWritesInFile(first: seq<Write>, middle: seq<Write>, last: seq<Write>, size: nat)
    requires WritesInFile(first + middle + last, size)
    ensures WritesInFile(first, size) && WritesInFile(last, size) && WritesInFile(first + middle, size)
    ensures WritesInFile(middle + last, size)
  {
    hide WritesApart;
    var all := first + middle + last;
    forall k | 0 <= k < |middle + last|
      ensures (middle + last)[k] == all[|first| + k]
    {
    }
    forall k | 0 <= k < |last|
      ensures last[k] == all[|first + middle| + k]
    {
    }
    forall k | 0 <= k < |first + middle|
      ensures (first + middle)[k] == all[k]
    {
    }
    forall k | 0 <= k < |first|
      ensures first[k] == all[k]
    {
    }
  }

  lemma StagesInFile(job: Job)
    requires SafeRun(job)
    ensures |Updated(job)| == |Digested(job)| == |Assembled(job)|
    ensures WritesInFile([DigestWrite(job)] + SignWrites(job), |Updated(job)|)
    ensures WritesInFile(SignWrites(job), |Digested(job)|)
  {
    SafeRunPasses(job);
    hide SafeRun, Verdict, WritesInFile, Assembled, Untouched, Holds;
    FinishedIsApplied(job);
    SomeWritesInFile(UpdateWrites(job), [DigestWrite(job)], SignWrites(job), |Assembled(job)|);
    WhatWritesLeave(Assembled(job), UpdateWrites(job));
    WhatWritesLeave(Assembled(job), UpdateWrites(job) + [DigestWrite(job)]);
  }

  lemma OutsideSignedSections(job: Job, p: nat)
    requires SafeRun(job) && job.signer.Some?
    requires !Covers(Named(job.runtime, Sha256SigName()), p) && !Covers(Named(job.runtime, SigKeyName()), p)
    ensures Untouched(SignWrites(job), p)
  {
    SafeRunPasses(job);
    hide *;
    MaskedAre(job.runtime);
    SignatureStaysInside(job);
    SignUntouched(SignWrites(job), Named(job.runtime, Sha256SigName()), Named(job.runtime, SigKeyName()), p);
  }

  lemma SignUntouched(writes: seq<Write>, s: Section, t: Section, p: nat)
    requires |writes| == 2 && Inside(writes[0], s) && Inside(writes[1], t) && !Covers(s, p) && !Covers(t, p)
    ensures Untouched(writes, p)
  {
    OutsideSection(writes[0], s, p);
    OutsideSection(writes[1], t, p);
  }

  lemma SignedFileStays(job: Job)
    requires SafeRun(job) && job.signer.Some?
    ensures |SignWrites(job)| == 2 && |Finished(job)| == |Digested(job)|
    ensures Holds(Finished(job), SignWrites(job)[0]) && Holds(Finished(job), SignWrites(job)[1])
    ensures forall p :: 0 <= p < |Digested(job)| && Untouched(SignWrites(job), p) ==>
              Finished(job)[p] == Digested(job)[p]
  {
    SafeRunPasses(job);
    hide *;
    StagesInFile(job);
    SignatureStaysInside(job);
    FinishedIsApplied(job);
    WhatWritesLeave(Digested(job), SignWrites(job));
  }

  /** What is signed is what is shipped: the signature is made from the hash of the file as it was
      when hashed, and the finished file is that file outside the signature and key sections. */
  lemma SignedIsShipped(job: Job)
    requires SafeRun(job) && job.signer.Some?
    ensures Signature(job) == job.signer.value.sign(HexOf(job.signer.value.sha256(Digested(job))))
    ensures |Finished(job)| == |Digested(job)|
    ensures forall p :: 0 <= p < |Digested(job)|
              && !Covers(Named(job.runtime, Sha256SigName()), p) && !Covers(Named(job.runtime, SigKeyName()), p)
              ==> Finished(job)[p] == Digested(job)[p]
    ensures |SignWrites(job)| == 2
    ensures Holds(Finished(job), SignWrites(job)[0]) && Holds(Finished(job), SignWrites(job)[1])
  {
    SafeRunPasses(job);
    SignedFileStays(job);
    hide SafeRun, Verdict, Finished, Digested, Named, SignWrites, Holds, Covers, Untouched;
    forall p | 0 <= p < |Digested(job)|
      && !Covers(Named(job.runtime, Sha256SigName()), p) && !Covers(Named(job.runtime, SigKeyName()), p)
      ensures Finished(job)[p] == Digested(job)[p]
    {
      OutsideSignedSections(job, p);
    }
  }

  lemma FinishedKeeps(job: Job)
    requires SafeRun(job)
    ensures KeepsCritical(job.runtime, Finished(job))
  {
    SafeRunPasses(job);
    hide Verdict, KeepsCritical;
    if job.signer.Some? {
      KeyedKeeps(job);
    } else {
      DigestedKeeps(job);
    }
  }

  lemma OutsideSection(w: Write, s: Section, p: nat)
    requires Inside(w, s) && !Covers(s, p)
    ensures !InRange(w, p)
  {
  }

  lemma DigestIsInPlace(job: Job)
    requires SafeRun(job)
    ensures |Finished(job)| >= |job.runtime| && Holds(Finished(job), DigestWrite(job))
  {
    AssembledSize(job);
    ContentIsConserved(job);
    assert WritesOf(job)[|UpdateWrites(job)|] == DigestWrite(job);
  }

  /** Lookups in the finished file are those of the runtime, and the recorded bytes are in place. */
  lemma FinishedLookups(job: Job)
    requires SafeRun(job)
    ensures Readable(job.runtime) && Readable(Finished(job))
    ensures MaskedSections(Finished(job)) == MaskedSections(job.runtime)
    ensures var s := Named(Finished(job), DigestMd5Name());
            && 16 <= s.length && s.offset + 16 <= |Finished(job)|
            && Finished(job)[s.offset..s.offset + 16] == Recorded(job)
  {
    SafeRunPasses(job);
    FinishedKeeps(job);
    hide *;
    MaskedSectionsAreKept(job.runtime, Finished(job));
    NamedAsInRuntime(job, Finished(job), DigestMd5Name());
    RecordedIsInPlace(job);
  }

  lemma RecordedIsInPlace(job: Job)
    requires SafeRun(job)
    ensures var s := Named(job.runtime, DigestMd5Name());
            && 16 <= s.length && s.offset + 16 <= |Finished(job)|
            && Finished(job)[s.offset..s.offset + 16] == Recorded(job)
  {
    SafeRunPasses(job);
    DigestIsInPlace(job);
    DigestSectionFits(job);
    RecordedLength(job);
    hide SafeRun, Finished, Recorded, Named, Readable, DigestMd5Name;
  }

  lemma DigestSectionFits(job: Job)
    requires SafeRun(job)
    ensures 16 <= Named(job.runtime, DigestMd5Name()).length
  {
    hide Named, Readable, WritesInFile;
  }

  // The recorded digest.

  /** What is written once the digest has been taken. */
  ghost function LaterWrites(job: Job): seq<Write>
    requires Readable(job.runtime)
  {
    [DigestWrite(job)] + SignWrites(job)
  }

  ghost predicate AreUnread(sections: seq<Section>, size: nat, writes: seq<Write>) {
    forall k :: 0 <= k < |writes| ==> NoneRead(sections, size, writes[k].at, |writes[k].data|)
  }

  /** None of it lies where the chunk loop reads. */
  ghost predicate WritesAreUnread(job: Job)
    requires Readable(job.runtime)
  {
    AreUnread(MaskedSections(job.runtime), |Assembled(job)|, LaterWrites(job))
  }

  lemma UnreadIsUntouched(sections: seq<Section>, size: nat, writes: seq<Write>, p: nat)
    requires AreUnread(sections, size, writes) && IsRead(sections, size, p)
    ensures Untouched(writes, p)
  {
    hide IsRead;
    forall k | 0 <= k < |writes|
      ensures !InRange(writes[k], p)
    {
      assert NoneRead(sections, size, writes[k].at, |writes[k].data|);
    }
  }

  lemma UnreadWritesChangeNothingRead(sections: seq<Section>, file: seq<byte>, writes: seq<Write>)
    requires WritesInFile(writes, |file|) && AreUnread(sections, |file|, writes)
    ensures |Apply(file, writes)| == |file| && AgreeWhereRead(sections, file, Apply(file, writes))
  {
    hide IsRead, Untouched, AreUnread, WritesInFile;
    WhatWritesLeave(file, writes);
    forall p | 0 <= p < |file| && IsRead(sections, |file|, p)
      ensures file[p] == Apply(file, writes)[p]
    {
      UnreadIsUntouched(sections, |file|, writes, p);
    }
  }

  /** What the digest of the finished file is computed from, with any fill, is what the recorded one was
      computed from if and only if no byte the loop reads has changed in between and the fill is the one of
      the run wherever it reads nothing: for every safe run. */
  lemma HashedBytesAreKept(job: Job, fill: Fill)
    requires SafeRun(job)
    ensures |Finished(job)| == |Updated(job)|
    ensures var sections := MaskedSections(job.runtime);
            Fed(sections, Finished(job), fill) == Fed(sections, Updated(job), job.fill)
            <==> && AgreeWhereRead(sections, Finished(job), Updated(job))
                 && AgreeWhereUnread(sections, |Updated(job)|, fill, job.fill)
  {
    StagesInFile(job);
    FinishedIsApplied(job);
    SafeRunPasses(job);
    hide SafeRun, Fed, MaskedSections, AgreeWhereRead, AgreeWhereUnread, WritesInFile;
    WhatWritesLeave(Updated(job), LaterWrites(job));
    FedTellsAll(MaskedSections(job.runtime), Finished(job), Updated(job), fill, job.fill);
  }

  /** When the buffer keeps the chunk before and starts alike, if and only if no byte that is read has. */
  lemma HashedBytesAreKeptWhenKept(job: Job, buffer: seq<byte>)
    requires SafeRun(job) && |buffer| == CHUNK
    ensures |Finished(job)| == |Updated(job)|
    ensures var sections := MaskedSections(job.runtime);
            Fed(sections, Finished(job), KeptFill(sections, Finished(job), buffer))
            == Fed(sections, Updated(job), KeptFill(sections, Updated(job), buffer))
            <==> AgreeWhereRead(sections, Finished(job), Updated(job))
  {
    StagesInFile(job);
    FinishedIsApplied(job);
    SafeRunPasses(job);
    hide SafeRun, Fed, MaskedSections, KeptFill, AgreeWhereRead, WritesInFile;
    WhatWritesLeave(Updated(job), LaterWrites(job));
    FedTellsReadBytesWhenKept(MaskedSections(job.runtime), Finished(job), Updated(job), buffer);
  }

  lemma NothingReadChanges(job: Job)
    requires SafeRun(job) && WritesAreUnread(job)
    ensures |Finished(job)| == |Updated(job)| == |Assembled(job)|
    ensures AgreeWhereRead(MaskedSections(job.runtime), Finished(job), Updated(job))
  {
    StagesInFile(job);
    FinishedIsApplied(job);
    SafeRunPasses(job);
    hide SafeRun, MaskedSections, WritesInFile, AreUnread, Finished, Updated, IsRead;
    UnreadWritesChangeNothingRead(MaskedSections(job.runtime), Updated(job), LaterWrites(job));
  }

  /** If nothing is written where the loop reads, the hashed bytes are kept if and only if the memory the
      chunk buffers lie in holds the same wherever nothing is read. */
  lemma RecomputedExactly(job: Job, fill: Fill)
    requires SafeRun(job) && WritesAreUnread(job)
    ensures Fed(MaskedSections(job.runtime), Finished(job), fill)
            == Fed(MaskedSections(job.runtime), Updated(job), job.fill)
       <==> AgreeWhereUnread(MaskedSections(job.runtime), |Assembled(job)|, fill, job.fill)
  {
    NothingReadChanges(job);
    SafeRunPasses(job);
    hide SafeRun, Finished, Updated, Assembled, Fed, MaskedSections, AgreeWhereRead, AgreeWhereUnread, WritesAreUnread;
    HashedBytesAreKept(job, fill);
  }

  /** The digest recorded in the finished file is the finished file's digest: computing it again, with a fill
      that agrees with that of the run where nothing is read, gives the sixteen bytes at the start of
      .digest_md5. So it is for every safe run, however its sections lie, if nothing is written where the
      loop reads. */
  lemma RecordedDigestHolds(job: Job, fill: Fill)
    requires SafeRun(job) && WritesAreUnread(job)
    requires AgreeWhereUnread(MaskedSections(job.runtime), |Assembled(job)|, fill, job.fill)
    ensures Readable(Finished(job))
    ensures var s := Named(Finished(job), DigestMd5Name());
            && 16 <= s.length && s.offset + 16 <= |Finished(job)|
            && DigestOf(Finished(job), fill) == Finished(job)[s.offset..s.offset + 16]
  {
    FinishedLookups(job);
    hide SafeRun, Finished, Fed, Md5Of, MaskedSections, AgreeWhereUnread;
    RecomputedExactly(job, fill);
  }

  /** The same when the chunk buffer is one piece of memory that keeps the chunk before, and holds the
      same bytes when either computation starts. */
  lemma RecordedDigestHoldsWhenKept(job: Job, buffer: seq<byte>)
    requires SafeRun(job) && WritesAreUnread(job) && |buffer| == CHUNK
    requires job.fill == KeptFill(MaskedSections(job.runtime), Updated(job), buffer)
    ensures Readable(Finished(job))
    ensures var s := Named(Finished(job), DigestMd5Name());
            && 16 <= s.length && s.offset + 16 <= |Finished(job)|
            && DigestOf(Finished(job), KeptFill(MaskedSections(Finished(job)), Finished(job), buffer))
               == Finished(job)[s.offset..s.offset + 16]
  {
    FinishedLookups(job);
    NothingReadChanges(job);
    hide SafeRun, Finished, Fed, Md5Of, MaskedSections, AgreeWhereRead, KeptFill;
    FedTellsReadBytesWhenKept(MaskedSections(job.runtime), Finished(job), Updated(job), buffer);
  }

  // And only then: signatures and keys that show it.

  function SignedBy(job: Job, signer: Signer): Job { job.(signer := Some(signer)) }

  /** Another signer for the run, whose signature and key have the same sizes. */
  ghost predicate SameSizes(job: Job, signer: Signer)
    requires Readable(job.runtime) && job.signer.Some?
  {
    && SafeRun(SignedBy(job, signer))
    && Signature(SignedBy(job, signer)).size == Signature(job).size
    && signer.key.size == job.signer.value.key.size
  }

  /** Whatever signature and key are embedded, the loop is fed what it was fed before. */
  ghost predicate SigningIsUnseen(job: Job)
    requires Readable(job.runtime) && job.signer.Some?
  {
    var sections := MaskedSections(job.runtime);
    forall signer: Signer :: SameSizes(job, signer) ==>
      Fed(sections, Finished(SignedBy(job, signer)), job.fill) == Fed(sections, Digested(job), job.fill)
  }

  /** The steps before signing do not depend on the signer. */
  lemma SameStages(job: Job, signer: Signer)
    requires Readable(job.runtime)
    ensures SignedBy(job, signer).runtime == job.runtime && SignedBy(job, signer).signer == Some(signer)
    ensures Assembled(SignedBy(job, signer)) == Assembled(job) && Updated(SignedBy(job, signer)) == Updated(job)
    ensures Recorded(SignedBy(job, signer)) == Recorded(job) && Digested(SignedBy(job, signer)) == Digested(job)
    ensures UpdateVerdict(SignedBy(job, signer)) == UpdateVerdict(job)
    ensures DigestVerdict(SignedBy(job, signer)) == DigestVerdict(job)
    ensures UpdateWrites(SignedBy(job, signer)) == UpdateWrites(job)
    ensures DigestWrite(SignedBy(job, signer)) == DigestWrite(job)
  {
    hide Named, MaskedSections, Fed, Md5Of, Overwrite, KnownFormat;
  }

  ghost predicate SameRanges(x: seq<Write>, y: seq<Write>) {
    |x| == |y| && forall k :: 0 <= k < |x| ==> x[k].at == y[k].at && |x[k].data| == |y[k].data|
  }

  lemma SameRangesUnread(sections: seq<Section>, size: nat, x: seq<Write>, y: seq<Write>)
    requires SameRanges(x, y) && AreUnread(sections, size, x)
    ensures AreUnread(sections, size, y)
  {
    hide IsRead;
    forall k | 0 <= k < |y|
      ensures NoneRead(sections, size, y[k].at, |y[k].data|)
    {
      assert NoneRead(sections, size, x[k].at, |x[k].data|);
    }
  }

  /** Where the two writes of the signing begin, and how long they are. */
  lemma SignSpans(job: Job)
    requires SafeRun(job) && job.signer.Some?
    ensures |SignWrites(job)| == 2
    ensures SignWrites(job)[0].at == Named(job.runtime, Sha256SigName()).offset
    ensures SignWrites(job)[1].at == Named(job.runtime, SigKeyName()).offset
    ensures |SignWrites(job)[0].data| == Signature(job).size && |SignWrites(job)[1].data| == job.signer.value.key.size
  {
    SafeRunPasses(job);
    hide SafeRun, Digested, Named;
  }

  lemma SizesOf(job: Job, signer: Signer)
    requires Readable(job.runtime) && job.signer.Some? && SameSizes(job, signer)
    ensures var other := SignedBy(job, signer);
            && SafeRun(other) && other.runtime == job.runtime && other.signer == Some(signer)
            && Signature(other).size == Signature(job).size && signer.key.size == job.signer.value.key.size
  {
    hide SafeRun, Signature, Readable;
  }

  lemma TwoSameRanges(x: seq<Write>, y: seq<Write>)
    requires |x| == |y| == 2 && x[0].at == y[0].at && x[1].at == y[1].at
    requires |x[0].data| == |y[0].data| && |x[1].data| == |y[1].data|
    ensures SameRanges(x, y)
  {
  }

  lemma SameSizesSameRanges(job: Job, signer: Signer)
    requires SafeRun(job) && job.signer.Some? && SameSizes(job, signer)
    ensures SameRanges(SignWrites(job), SignWrites(SignedBy(job, signer)))
  {
    SafeRunPasses(job);
    hide *;
    SizesOf(job, signer);
    SignSpans(job);
    SignSpans(SignedBy(job, signer));
    TwoSameRanges(SignWrites(job), SignWrites(SignedBy(job, signer)));
  }

  lemma UnreadIsUnseen(job: Job, signer: Signer)
    requires SafeRun(job) && job.signer.Some? && SameSizes(job, signer)
    requires AreUnread(MaskedSections(job.runtime), |Assembled(job)|, SignWrites(job))
    ensures Fed(MaskedSections(job.runtime), Finished(SignedBy(job, signer)), job.fill)
         == Fed(MaskedSections(job.runtime), Digested(job), job.fill)
  {
    var other, sections := SignedBy(job, signer), MaskedSections(job.runtime);
    SameStages(job, signer);
    SameSizesSameRanges(job, signer);
    StagesInFile(job);
    StagesInFile(other);
    FinishedIsApplied(other);
    SafeRunPasses(job);
    hide SafeRun, SameSizes, MaskedSections, Fed, Finished, Digested, Assembled, SignWrites, AreUnread;
    hide SameRanges, AgreeWhereRead;
    SameRangesUnread(sections, |Digested(job)|, SignWrites(job), SignWrites(other));
    UnreadWritesChangeNothingRead(sections, Digested(job), SignWrites(other));
    FedTellsReadBytes(sections, Digested(job), Finished(other), job.fill);
  }

  /** An object that is read at once. */
  function AtOnce(content: seq<byte>): (data: DataObject)
    ensures ReadsFit(data) && |data.pieces| <= 1 && data.size == |content| && Concat(data.pieces) == content
  {
    var data := DataObject(|content|, if content == [] then [] else [content]);
    assert content != [] ==> data.pieces[..0] == [];
    data
  }

  /** Where the run writes `w`, this has other bytes at every position. */
  function Contrary(file: seq<byte>, w: Write): (data: seq<byte>)
    requires w.at + |w.data| <= |file|
    ensures |data| == |w.data| && forall i :: 0 <= i < |data| ==> data[i] != file[w.at + i]
  {
    Changed(file[w.at..w.at + |w.data|])
  }

  lemma WritesFit(job: Job)
    requires SafeRun(job) && job.signer.Some?
    ensures |SignWrites(job)| == 2
    ensures SignWrites(job)[0].at + |SignWrites(job)[0].data| <= |Digested(job)|
    ensures SignWrites(job)[1].at + |SignWrites(job)[1].data| <= |Digested(job)|
  {
    SignedFileStays(job);
    StagesInFile(job);
    hide SafeRun, SignWrites, Digested, Finished, WritesApart;
  }

  /** The same signer with another signature and another key. */
  function OtherSigner(signer: Signer, signature: seq<byte>, key: seq<byte>): Signer {
    Signer(signer.sha256, _ => AtOnce(signature), AtOnce(key), signer.garbage)
  }

  lemma OtherSignerPasses(job: Job, x: seq<byte>, y: seq<byte>)
    requires Readable(job.runtime) && job.signer.Some? && SignatureFits(job) && KeyFits(job)
    requires UpdateVerdict(job).Done? && DigestVerdict(job).Done?
    requires |x| == Signature(job).size && |y| == job.signer.value.key.size
    ensures var other := SignedBy(job, OtherSigner(job.signer.value, x, y));
            && SignerFits(other.signer.value) && Verdict(other).Done?
            && Signature(other).size == |x| && OtherSigner(job.signer.value, x, y).key.size == |y|
  {
    var signer := OtherSigner(job.signer.value, x, y);
    SameStages(job, signer);
    hide Named, Digested, UpdateVerdict, DigestVerdict, Readable, ReadsFit, Concat;
    assert Signature(SignedBy(job, signer)) == AtOnce(x);
  }

  lemma OtherSignerWrites(job: Job, x: seq<byte>, y: seq<byte>)
    requires Readable(job.runtime) && job.signer.Some?
    ensures SignWrites(SignedBy(job, OtherSigner(job.signer.value, x, y)))
         == [Write(Named(job.runtime, Sha256SigName()).offset, x), Write(Named(job.runtime, SigKeyName()).offset, y)]
  {
    var signer := OtherSigner(job.signer.value, x, y);
    SameStages(job, signer);
    EmbeddedContents(AtOnce(x), signer.garbage);
    EmbeddedContents(AtOnce(y), signer.garbage);
    hide Named, Digested, Readable, ReadsFit, Concat, BytesOf;
  }

  lemma SameRangesInFile(first: seq<Write>, x: seq<Write>, y: seq<Write>, size: nat)
    requires WritesInFile(first + x, size) && SameRanges(x, y)
    ensures WritesInFile(first + y, size)
  {
    forall k, l | 0 <= k < l < |first + y|
      ensures WritesApart((first + y)[k], (first + y)[l])
    {
      assert WritesApart((first + x)[k], (first + x)[l]);
    }
    forall k | 0 <= k < |first + y|
      ensures (first + y)[k].at + |(first + y)[k].data| <= size
    {
      assert (first + x)[k].at + |(first + x)[k].data| <= size;
    }
  }

  lemma OtherSignerIsSameSizes(job: Job, x: seq<byte>, y: seq<byte>)
    requires SafeRun(job) && job.signer.Some?
    requires |x| == Signature(job).size && |y| == job.signer.value.key.size
    ensures SameSizes(job, OtherSigner(job.signer.value, x, y))
  {
    var signer := OtherSigner(job.signer.value, x, y);
    SafeRunPasses(job);
    hide *;
    SignSpans(job);
    SameStages(job, signer);
    OtherSignerWrites(job, x, y);
    OtherSignerPasses(job, x, y);
    TwoSameRanges(SignWrites(job), SignWrites(SignedBy(job, signer)));
    WritesOfIs(job);
    WritesOfIs(SignedBy(job, signer));
    SameRangesInFile(UpdateWrites(job) + [DigestWrite(job)], SignWrites(job), SignWrites(SignedBy(job, signer)),
                     |Assembled(job)|);
    SafeIf(SignedBy(job, signer));
    SameSizesIf(job, signer);
  }

  lemma WritesOfIs(job: Job)
    requires Readable(job.runtime)
    ensures WritesOf(job) == UpdateWrites(job) + [DigestWrite(job)] + SignWrites(job)
  {
    hide UpdateWrites, DigestWrite, SignWrites;
  }

  lemma SameSizesIf(job: Job, signer: Signer)
    requires Readable(job.runtime) && job.signer.Some? && SafeRun(SignedBy(job, signer))
    requires Signature(SignedBy(job, signer)).size == Signature(job).size
    requires signer.key.size == job.signer.value.key.size
    ensures SameSizes(job, signer)
  {
    hide SafeRun, Signature, Readable;
  }

  lemma SafeIf(job: Job)
    requires SafeRuntime(job.runtime) && (job.signer.Some? ==> SignerFits(job.signer.value)) && Verdict(job).Done?
    requires WritesInFile(WritesOf(job), |Assembled(job)|)
    ensures SafeRun(job)
  {
  }

  /** What the finished file holds in place of the signature and the key, whichever they are. */
  lemma OtherSignerHolds(job: Job, x: seq<byte>, y: seq<byte>)
    requires SafeRun(job) && job.signer.Some? && |SignWrites(job)| == 2
    requires |x| == Signature(job).size && |y| == job.signer.value.key.size
    ensures var finished := Finished(SignedBy(job, OtherSigner(job.signer.value, x, y)));
            && |finished| == |Digested(job)|
            && Holds(finished, Write(SignWrites(job)[0].at, x)) && Holds(finished, Write(SignWrites(job)[1].at, y))
  {
    SafeRunPasses(job);
    hide *;
    SignSpans(job);
    SameStages(job, OtherSigner(job.signer.value, x, y));
    OtherSignerIsSameSizes(job, x, y);
    OtherSignerWrites(job, x, y);
    SizesOf(job, OtherSigner(job.signer.value, x, y));
    SignedFileStays(SignedBy(job, OtherSigner(job.signer.value, x, y)));
  }

  lemma ContraryShows(sections: seq<Section>, file: seq<byte>, w: Write, after: seq<byte>, fill: Fill)
    requires w.at + |w.data| <= |file| == |after| && !NoneRead(sections, |file|, w.at, |w.data|)
    requires Holds(after, Write(w.at, Contrary(file, w)))
    ensures Fed(sections, after, fill) != Fed(sections, file, fill)
  {
    hide IsRead, Fed;
    var p :| w.at <= p < w.at + |w.data| && IsRead(sections, |file|, p);
    assert after[w.at..w.at + |w.data|][p - w.at] == Contrary(file, w)[p - w.at];
    FedTellsReadBytes(sections, after, file, fill);
  }

  lemma SomeWriteIsRead(sections: seq<Section>, size: nat, writes: seq<Write>) returns (k: nat)
    requires !AreUnread(sections, size, writes)
    ensures k < |writes| && !NoneRead(sections, size, writes[k].at, |writes[k].data|)
  {
    hide NoneRead;
    k :| 0 <= k < |writes| && !NoneRead(sections, size, writes[k].at, |writes[k].data|);
  }

  /** If a byte of the signature's or the key's place is read, there is a signature or a key that
      changes what is hashed. */
  lemma ReadPlaceShows(job: Job) returns (signer: Signer)
    requires SafeRun(job) && job.signer.Some?
    requires !AreUnread(MaskedSections(job.runtime), |Assembled(job)|, SignWrites(job))
    ensures SameSizes(job, signer)
    ensures Fed(MaskedSections(job.runtime), Finished(SignedBy(job, signer)), job.fill)
         != Fed(MaskedSections(job.runtime), Digested(job), job.fill)
  {
    SafeRunPasses(job);
    var sections, writes, file := MaskedSections(job.runtime), SignWrites(job), Digested(job);
    var k := SomeWriteIsRead(sections, |Assembled(job)|, writes);
    hide *;
    SignSpans(job);
    StagesInFile(job);
    WritesFit(job);
    var x, y := Contrary(file, writes[0]), Contrary(file, writes[1]);
    signer := OtherSigner(job.signer.value, x, y);
    OtherSignerIsSameSizes(job, x, y);
    OtherSignerHolds(job, x, y);
    ContraryShows(sections, file, writes[k], Finished(SignedBy(job, signer)), job.fill);
  }

  /** Signing leaves what is hashed as it was, whatever the signature and the key, if and only if no byte
      of their places is read. */
  lemma SigningIsExact(job: Job)
    requires SafeRun(job) && job.signer.Some?
    ensures AreUnread(MaskedSections(job.runtime), |Assembled(job)|, SignWrites(job)) <==> SigningIsUnseen(job)
  {
    SafeRunPasses(job);
    hide SafeRun, SafeRuntime, MaskedSections, SignWrites, AreUnread, SameSizes, Fed, Finished, Digested, Assembled;
    if AreUnread(MaskedSections(job.runtime), |Assembled(job)|, SignWrites(job)) {
      forall signer: Signer | SameSizes(job, signer)
        ensures Fed(MaskedSections(job.runtime), Finished(SignedBy(job, signer)), job.fill)
             == Fed(MaskedSections(job.runtime), Digested(job), job.fill)
      {
        UnreadIsUnseen(job, signer);
      }
    } else {
      var signer := ReadPlaceShows(job);
    }
  }

  /** The same for the digest and any sixteen bytes in its place. */
  ghost predicate DigestIsUnseen(job: Job)
    requires Readable(job.runtime)
  {
    var sections, at := MaskedSections(job.runtime), Named(job.runtime, DigestMd5Name()).offset;
    forall digest: seq<byte> :: |digest| == 16 ==>
      Fed(sections, Overwrite(Updated(job), at, digest), job.fill) == Fed(sections, Updated(job), job.fill)
  }

  /** Embedding is unseen, whatever digest, signature and key are embedded, if and only if the places
      written once the digest has been taken are not read. */
  lemma WritesAreUnreadExactly(job: Job)
    requires SafeRun(job)
    ensures WritesAreUnread(job) <==> DigestIsUnseen(job) && (job.signer.Some? ==> SigningIsUnseen(job))
  {
    SafeRunPasses(job);
    LaterIsDigestAndSigning(job);
    if job.signer.Some? {
      SigningIsExact(job);
    }
    DigestPlace(job);
    hide SafeRun, SafeRuntime, MaskedSections, SignWrites, AreUnread, SigningIsUnseen, NoneRead, Fed, Updated;
    hide Assembled, Named;
    WriteIsUnseenExactly(MaskedSections(job.runtime), Updated(job), job.fill,
                         Named(job.runtime, DigestMd5Name()).offset, 16);
  }

  lemma DigestPlace(job: Job)
    requires SafeRun(job)
    ensures |Updated(job)| == |Assembled(job)|
    ensures Named(job.runtime, DigestMd5Name()).offset + 16 <= |Updated(job)|
  {
    SafeRunPasses(job);
    hide SafeRun, Named, MaskedSections, SignWrites, Updated, Assembled, WritesApart, Recorded;
    StagesInFile(job);
    RecordedLength(job);
    assert ([DigestWrite(job)] + SignWrites(job))[0] == DigestWrite(job);
  }

  lemma LaterIsDigestAndSigning(job: Job)
    requires SafeRun(job)
    ensures WritesAreUnread(job)
       <==> && NoneRead(MaskedSections(job.runtime), |Assembled(job)|, Named(job.runtime, DigestMd5Name()).offset, 16)
            && AreUnread(MaskedSections(job.runtime), |Assembled(job)|, SignWrites(job))
    ensures job.signer.None? ==> AreUnread(MaskedSections(job.runtime), |Assembled(job)|, SignWrites(job))
  {
    SafeRunPasses(job);
    RecordedLength(job);
    hide SafeRun, SafeRuntime, Named, MaskedSections, Assembled, NoneRead, Recorded, Signature, BytesOf;
    FirstAndRest(MaskedSections(job.runtime), |Assembled(job)|, DigestWrite(job), SignWrites(job));
  }

  lemma FirstAndRest(sections: seq<Section>, size: nat, w: Write, rest: seq<Write>)
    ensures AreUnread(sections, size, [w] + rest)
       <==> NoneRead(sections, size, w.at, |w.data|) && AreUnread(sections, size, rest)
  {
    hide NoneRead;
    forall k | 0 <= k < |rest|
      ensures ([w] + rest)[k + 1] == rest[k]
    {
    }
    if AreUnread(sections, size, [w] + rest) {
      assert ([w] + rest)[0] == w;
      forall k | 0 <= k < |rest|
        ensures NoneRead(sections, size, rest[k].at, |rest[k].data|)
      {
        assert ([w] + rest)[k + 1] == rest[k];
      }
    }
  }
}
