/** Runs on runtimes whose masked sections share no chunk: what the recorded digest asks of them is told
    by where the sections lie and how long the data is. */
module PackagingLayout {
  import opened Bytes
  import opened Elf
  import opened DigestSpec
  import opened DigestProof
  import opened DigestLayout
  import opened DigestReads
  import opened DigestExact
  import opened Md5Spec
  import opened Digest
  import opened Sign
  import opened Packaging
  import opened PackagingProof

  /** .upd_info, if it is there, lies in the file and apart from the masked sections. */
  ghost predicate InfoApart(info: Section, masked: seq<Section>, size: nat) {
    Active(info) ==>
      && InFile(info, size)
      && forall k :: 0 <= k < |masked| && Active(masked[k]) ==> Apart(info, masked[k])
  }

  /** The masked sections lie in the file, share no chunk and start on no chunk boundary. */
  ghost predicate LaidOut(info: Section, masked: seq<Section>, size: nat) {
    Isolated(masked, size) && InfoApart(info, masked, size)
  }

  /** All four sections lie in the file and apart. */
  ghost predicate SectionsApart(info: Section, masked: seq<Section>, size: nat) {
    WellPlaced(masked, size) && InfoApart(info, masked, size)
  }

  lemma LaidOutIsApart(info: Section, masked: seq<Section>, size: nat)
    requires LaidOut(info, masked, size)
    ensures SectionsApart(info, masked, size)
  {
    forall k, l | 0 <= k < |masked| && 0 <= l < |masked| && k != l && Active(masked[k]) && Active(masked[l])
      ensures Apart(masked[k], masked[l])
    {
      IsolatedAreApart(masked, size, k, l);
    }
  }

  /** A runtime whose written sections are laid out so, and whose tables are clear of them. */
  ghost predicate GoodRuntime(runtime: seq<byte>) {
    && SafeRuntime(runtime)
    && LaidOut(Named(runtime, UpdInfoName()), MaskedSections(runtime), |runtime|)
  }

  lemma LargerFileIsIsolated(sections: seq<Section>, size: nat, size': nat)
    requires Isolated(sections, size) && size <= size'
    ensures Isolated(sections, size')
  {
  }

  /** Sections that share no chunk share no byte. */
  lemma IsolatedAreApart(sections: seq<Section>, size: nat, k: nat, l: nat)
    requires Isolated(sections, size) && k < |sections| && l < |sections| && k != l
    requires Active(sections[k]) && Active(sections[l])
    ensures Apart(sections[k], sections[l])
  {
    var s, t := sections[k], sections[l];
    assert SharesNoChunk(s, t);
  }

  ghost predicate GoodRun(job: Job) {
    && GoodRuntime(job.runtime)
    && (job.signer.Some? ==> SignerFits(job.signer.value))
    && Verdict(job).Done?
  }

  /** What is written after the digest is taken fits the gaps the chunk loop leaves. For a good layout
      that is so whatever is written; for a section that drains in the wrong order it is so up to a
      length. */
  ghost predicate WritesAreSkipped(job: Job)
    requires Readable(job.runtime)
  {
    var sections := MaskedSections(job.runtime);
    && FitsTheGap(sections[0], 16)
    && (job.signer.Some? ==>
          && FitsTheGap(sections[1], Signature(job).size)
          && FitsTheGap(sections[2], job.signer.value.key.size))
  }

  lemma GoodRunPasses(job: Job)
    requires GoodRun(job)
    ensures Readable(job.runtime) && Isolated(MaskedSections(job.runtime), |job.runtime|)
    ensures UpdateVerdict(job).Done? && DigestVerdict(job).Done?
    ensures job.signer.Some? ==> SignerFits(job.signer.value) && SignatureFits(job) && KeyFits(job)
  {
  }

  /** At most one write in front of the digest and two after it, each inside a section of its own. */
  lemma ChainIsApart(first: seq<Write>, digest: Write, last: seq<Write>, info: Section, sections: seq<Section>,
                     size: nat)
    requires |first| <= 1 && (|last| == 0 || |last| == 2) && |sections| == 3
    requires |first| == 1 ==> Inside(first[0], info) && InFile(info, size) && Apart(info, sections[0])
    requires Inside(digest, sections[0]) && InFile(sections[0], size)
    requires |last| == 2 ==>
      && Inside(last[0], sections[1]) && InFile(sections[1], size)
      && Inside(last[1], sections[2]) && InFile(sections[2], size)
      && Apart(sections[0], sections[1]) && Apart(sections[0], sections[2]) && Apart(sections[1], sections[2])
      && (|first| == 1 ==> Apart(info, sections[1]) && Apart(info, sections[2]))
    ensures WritesInFile(first + [digest] + last, size)
  {
    hide WritesApart, Apart, Inside, InFile;
    var writes := first + [digest] + last;
    var places := (if |first| == 1 then [info] else []) + [sections[0]]
                  + if |last| == 2 then [sections[1], sections[2]] else [];
    assert |writes| == |places|;
    forall k | 0 <= k < |writes|
      ensures writes[k].at + |writes[k].data| <= size
    {
      InsideIsInFile(writes[k], places[k], size);
    }
    forall k, l | 0 <= k < l < |writes|
      ensures WritesApart(writes[k], writes[l])
    {
      InsideOfApart(writes[k], writes[l], places[k], places[l]);
    }
  }

  lemma InsideIsInFile(w: Write, s: Section, size: nat)
    requires Inside(w, s) && InFile(s, size)
    ensures w.at + |w.data| <= size
  {
  }

  lemma InsideOfApart(v: Write, w: Write, s: Section, t: Section)
    requires Inside(v, s) && Inside(w, t) && Apart(s, t)
    ensures WritesApart(v, w)
  {
  }

  lemma RunWritesApart(job: Job)
    requires Readable(job.runtime) && UpdateVerdict(job).Done? && DigestVerdict(job).Done?
    requires job.signer.Some? ==> SignerFits(job.signer.value) && SignatureFits(job) && KeyFits(job)
    requires SectionsApart(Named(job.runtime, UpdInfoName()), MaskedSections(job.runtime), |job.runtime|)
    ensures WritesInFile(WritesOf(job), |Assembled(job)|)
  {
    UpdateStaysInside(job);
    DigestStaysInside(job);
    SignatureStaysInside(job);
    AssembledSize(job);
    hide Readable, UpdateVerdict, DigestVerdict, SignerFits, SignatureFits, KeyFits;
    hide Named, MaskedSections, UpdateWrites, DigestWrite, SignWrites, Apart, Assembled;
    ChainIsApart(UpdateWrites(job), DigestWrite(job), SignWrites(job),
                 Named(job.runtime, UpdInfoName()), MaskedSections(job.runtime), |Assembled(job)|);
  }

  /** A run that succeeds on a safe runtime with its sections in the file and apart is safe. */
  lemma ApartRunIsSafe(job: Job)
    requires SafeRuntime(job.runtime) && (job.signer.Some? ==> SignerFits(job.signer.value)) && Verdict(job).Done?
    requires SectionsApart(Named(job.runtime, UpdInfoName()), MaskedSections(job.runtime), |job.runtime|)
    ensures SafeRun(job)
  {
    VerdictIsDone(job);
    hide Verdict, SafeRuntime, SectionsApart, WritesInFile;
    RunWritesApart(job);
    SafeIf(job);
  }

  lemma VerdictIsDone(job: Job)
    requires SafeRuntime(job.runtime) && Verdict(job).Done?
    ensures Readable(job.runtime) && UpdateVerdict(job).Done? && DigestVerdict(job).Done?
    ensures job.signer.Some? ==> SignatureFits(job) && KeyFits(job)
  {
  }

  lemma GoodRunIsSafe(job: Job)
    requires GoodRun(job)
    ensures SafeRun(job)
  {
    LaidOutIsApart(Named(job.runtime, UpdInfoName()), MaskedSections(job.runtime), |job.runtime|);
    hide Verdict, SectionsApart, LaidOut, WritesInFile;
    ApartRunIsSafe(job);
  }

  lemma GapOf(sections: seq<Section>, size: nat, k: nat, w: Write)
    requires Isolated(sections, size) && k < |sections| && Inside(w, sections[k])
    ensures FitsTheGap(sections[k], |w.data|) <==> NoneRead(sections, size, w.at, |w.data|)
  {
    hide Isolated, FitsTheGap, NoneRead;
    GapIsExact(sections, size, k, |w.data|);
  }

  lemma GapsOf(sections: seq<Section>, size: nat, digest: Write, last: seq<Write>)
    requires |sections| == 3 && Isolated(sections, size) && (|last| == 0 || |last| == 2)
    requires Inside(digest, sections[0])
    requires |last| == 2 ==> Inside(last[0], sections[1]) && Inside(last[1], sections[2])
    ensures AreUnread(sections, size, [digest] + last)
       <==> && FitsTheGap(sections[0], |digest.data|)
            && (|last| == 2 ==> FitsTheGap(sections[1], |last[0].data|) && FitsTheGap(sections[2], |last[1].data|))
  {
    hide Isolated, FitsTheGap, NoneRead, Inside;
    FirstAndRest(sections, size, digest, last);
    GapOf(sections, size, 0, digest);
    if |last| == 2 {
      GapOf(sections, size, 1, last[0]);
      GapOf(sections, size, 2, last[1]);
    }
  }

  lemma DigestFitsItsGap(job: Job)
    requires GoodRun(job) && FitsTheGap(MaskedSections(job.runtime)[0], 16)
    ensures Readable(job.runtime)
    ensures NoneRead(MaskedSections(job.runtime), |Assembled(job)|, Named(job.runtime, DigestMd5Name()).offset, 16)
  {
    GoodRunPasses(job);
    AssembledSize(job);
    DigestStaysInside(job);
    MaskedAre(job.runtime);
    hide GoodRun, Verdict, SafeRuntime, MaskedSections, Assembled, Isolated, FitsTheGap, NoneRead, Named, Readable;
    hide SignatureFits, KeyFits, UpdateVerdict, DigestVerdict, SignerFits;
    LargerFileIsIsolated(MaskedSections(job.runtime), |job.runtime|, |Assembled(job)|);
    GapOf(MaskedSections(job.runtime), |Assembled(job)|, 0, DigestWrite(job));
  }

  /** If no two masked sections share a chunk, nothing is written where the loop reads exactly if what is
      written fits the gaps. */
  lemma GapsAreExact(job: Job)
    requires GoodRun(job)
    ensures SafeRun(job)
    ensures WritesAreSkipped(job) <==> WritesAreUnread(job)
  {
    GoodRunPasses(job);
    GoodRunIsSafe(job);
    AssembledSize(job);
    DigestStaysInside(job);
    SignatureStaysInside(job);
    if job.signer.Some? {
      SignSpans(job);
    }
    hide SafeRun, GoodRun, Verdict, SafeRuntime, MaskedSections, Assembled, Isolated, FitsTheGap, AreUnread, Inside;
    hide DigestWrite, SignWrites, Signature, Named, Readable, SignatureFits, KeyFits, UpdateVerdict;
    hide DigestVerdict, SignerFits;
    LargerFileIsIsolated(MaskedSections(job.runtime), |job.runtime|, |Assembled(job)|);
    GapsOf(MaskedSections(job.runtime), |Assembled(job)|, DigestWrite(job), SignWrites(job));
  }

  /** In such a run it depends on that memory: with other bytes there the digest of the finished file is
      computed from other bytes than the recorded one. */
  lemma OtherMemoryShows(job: Job)
    requires GoodRun(job)
    ensures Readable(job.runtime)
    ensures Fed(MaskedSections(job.runtime), Finished(job), OtherFill(job.fill))
         != Fed(MaskedSections(job.runtime), Updated(job), job.fill)
  {
    GoodRunPasses(job);
    GoodRunIsSafe(job);
    StagesInFile(job);
    AssembledSize(job);
    DigestStaysInside(job);
    hide GoodRun, SafeRun, Verdict, SafeRuntime, MaskedSections, Isolated, Named, Readable;
    hide Assembled, Updated, Finished;
    hide SignatureFits, KeyFits, UpdateVerdict, DigestVerdict, SignerFits, Fed, Cells, AgreeWhereRead, WritesInFile;
    var sections := MaskedSections(job.runtime);
    LargerFileIsIsolated(sections, |job.runtime|, |Updated(job)|);
    FirstByteIsUnread(sections, |Updated(job)|, 0);
    OtherFillDisagrees(sections, |Updated(job)|, job.fill, sections[0].offset);
    HashedBytesAreKept(job, OtherFill(job.fill));
  }

  lemma OtherFillDisagrees(sections: seq<Section>, size: nat, fill: Fill, k: nat)
    requires k < CHUNK * ChunkCount(size) && Cells(sections, size)[k] == Unread
    ensures !AgreeWhereUnread(sections, size, OtherFill(fill), fill)
  {
    hide Cells;
    assert OtherFill(fill)(k / CHUNK, k % CHUNK) != fill(k / CHUNK, k % CHUNK);
  }

  /** In a good layout, and with zeros where nothing is read, that digest is the MD5 of the finished
      file with the three sections blanked and zeros up to a whole chunk. */
  lemma RecordedDigestIsOfBlanked(job: Job)
    requires GoodRun(job) && GoodLayout(MaskedSections(job.runtime), |job.runtime|) && job.fill == ZERO_FILL
    ensures Readable(Finished(job))
    ensures var s := Named(Finished(job), DigestMd5Name());
            && s.offset + 16 <= |Finished(job)|
            && Finished(job)[s.offset..s.offset + 16] == Md5Of(Blanked(MaskedSections(Finished(job)), Finished(job)))
  {
    GoodLayoutSkips(job);
    GapsAreExact(job);
    RecordedDigestHolds(job, job.fill);
    FinishedLookups(job);
    DigestIsInPlace(job);
    hide GoodRun, Finished, Fed, Md5Of, MaskedSections, Blanked, Isolated;
    LargerFileIsIsolated(MaskedSections(job.runtime), |job.runtime|, |Finished(job)|);
    FedIsBlanked(MaskedSections(job.runtime), Finished(job));
  }

  lemma GoodLayoutSkips(job: Job)
    requires GoodRun(job) && GoodLayout(MaskedSections(job.runtime), |job.runtime|)
    ensures WritesAreSkipped(job)
  {
    GoodRunPasses(job);
    DigestStaysInside(job);
    SignatureStaysInside(job);
    hide GoodRun, Verdict, MaskedSections, Isolated, DrainsInOrder, DigestWrite, SignWrites, Digested;
  }
}
