/** What the chunk loop feeds to MD5: exactly, for any layout whose sections share no chunk. */
module DigestProof {
  import opened DigestSpec

  // Where a section lies among the chunks.

  function First(s: Section): nat { s.offset / CHUNK }

  function Last(s: Section): nat
    requires Active(s)
  {
    (s.offset + s.length - 1) / CHUNK
  }

  predicate Touches(s: Section, i: nat) { Active(s) && First(s) <= i <= Last(s) }

  /** How far the section reaches past its first chunk (not positive if it does not). */
  function Overflow(s: Section): int { s.offset % CHUNK + s.length - CHUNK }

  /** The bytes still to be skipped for the section when chunk `i` begins. */
  function Carry(s: Section, i: nat): nat
    requires Touches(s, i)
  {
    if i == First(s) then 0
    else if i == First(s) + 1 then (if Overflow(s) > 0 then Overflow(s) else 0)
    else CHUNK * (Last(s) - i + 1)
  }

  predicate SharesNoChunk(s: Section, t: Section)
    requires Active(s) && Active(t)
  {
    Last(s) < First(t) || Last(t) < First(s)
  }

  /** Two ranges without a common byte. */
  predicate Apart(s: Section, t: Section) {
    s.offset + s.length <= t.offset || t.offset + t.length <= s.offset
  }

  predicate InFile(s: Section, size: nat) { s.offset + s.length <= size }

  /** The section began in an earlier chunk and goes on in this one. */
  predicate Continues(s: Section, i: nat) { Touches(s, i) && First(s) < i }

  /** Chunk `i` holds no section that starts on its first byte, and is touched by one section at most. */
  ghost predicate Lonely(sections: seq<Section>, i: nat) {
    && (forall k :: 0 <= k < |sections| && Active(sections[k]) ==> sections[k].offset != CHUNK * i)
    && (forall k, l :: 0 <= k < |sections| && 0 <= l < |sections| && k != l ==>
          !(Touches(sections[k], i) && Touches(sections[l], i)))
  }

  ghost predicate AllInFile(sections: seq<Section>, size: nat) {
    forall k :: 0 <= k < |sections| && Active(sections[k]) ==> InFile(sections[k], size)
  }

  /** The carry the loop should have at chunk `i`: that of the section that continues into it. */
  ghost predicate CarryIs(sections: seq<Section>, i: nat, carry: nat) {
    && (forall k :: 0 <= k < |sections| && Continues(sections[k], i) ==> carry == Carry(sections[k], i))
    && ((forall k :: 0 <= k < |sections| ==> !Continues(sections[k], i)) ==> carry == 0)
  }

  /** Is position `j` of chunk `i` left unread because of `s`? */
  predicate SkippedFor(s: Section, i: nat, j: nat) {
    && Touches(s, i)
    && if i == First(s) then s.offset % CHUNK <= j < s.offset % CHUNK + s.length else j < SkipAmount(Carry(s, i))
  }

  ghost predicate Skipped(sections: seq<Section>, i: nat, j: nat) {
    exists k :: 0 <= k < |sections| && SkippedFor(sections[k], i, j)
  }

  /** The buffer fed for chunk `i`: the file where it is read, the fill elsewhere. */
  ghost predicate Expected<T>(sections: seq<Section>, file: seq<T>, fill: Filling<T>, i: nat, buffer: seq<T>) {
    && |buffer| == CHUNK
    && forall j :: 0 <= j < CHUNK ==>
         buffer[j] == if !Skipped(sections, i, j) && CHUNK * i + j < |file| then file[CHUNK * i + j] else fill(i, j)
  }

  // One section, one chunk.

  lemma StartsInFirst(s: Section, i: nat)
    requires Active(s) && s.offset != CHUNK * i
    ensures StartsIn(s, CHUNK * i) <==> First(s) == i
    ensures First(s) == i ==> Touches(s, i) && s.offset == CHUNK * i + s.offset % CHUNK
  {
  }

  lemma ContinuesAfterFirst(s: Section)
    requires Active(s)
    ensures Continues(s, First(s) + 1) <==> Overflow(s) > 0
  {
  }

  /** A continuing section has something to skip, and skipping it leaves what the next chunk expects. */
  lemma CarryStep(s: Section, i: nat)
    requires Continues(s, i)
    ensures Carry(s, i) > 0
    ensures Carry(s, i) - SkipAmount(Carry(s, i)) == if Continues(s, i + 1) then Carry(s, i + 1) else 0
  {
    var over := Overflow(s);
    var end := s.offset + s.length;
    assert end == CHUNK * (First(s) + 1) + over;
    assert end - 1 == CHUNK * Last(s) + (end - 1) % CHUNK;
    if i == First(s) + 1 {
      assert over - 1 == CHUNK * (Last(s) - i) + (end - 1) % CHUNK;
      if over % CHUNK == 0 {
        assert over == CHUNK * (Last(s) - i + 1);
      } else {
        assert over - over % CHUNK == CHUNK * (Last(s) - i);
      }
    } else {
      assert Carry(s, i) % CHUNK == 0;
    }
  }

  /** If none of the first `m` sections starts in the chunk, their blocks do nothing. */
  lemma {:induction false} NoneStarts<T>(sections: seq<Section>, m: nat, position: nat, file: seq<T>, t: Turn<T>)
    requires m <= |sections| && InChunk(t)
    requires forall k :: 0 <= k < m ==> !StartsIn(sections[k], position)
    ensures MaskSections(sections, m, position, file, t) == t
  {
    if m > 0 {
      NoneStarts(sections, m - 1, position, file, t);
    }
  }

  /** If only section `k` does, what is left is its block alone. */
  lemma {:induction false} OneStarts<T>(sections: seq<Section>, m: nat, k: nat, position: nat, file: seq<T>, t: Turn<T>)
    requires k < m <= |sections| && InChunk(t)
    requires forall l :: 0 <= l < m && l != k ==> !StartsIn(sections[l], position)
    ensures MaskSections(sections, m, position, file, t) == MaskSection(sections[k], position, file, t)
  {
    if m - 1 == k {
      NoneStarts(sections, k, position, file, t);
    } else {
      OneStarts(sections, m - 1, k, position, file, t);
    }
  }

  /** The three blocks of the source. */
  lemma ThreeBlocks<T>(x: Section, y: Section, z: Section, position: nat, file: seq<T>, t: Turn<T>)
    requires InChunk(t)
    ensures MaskSections([x, y, z], 3, position, file, t)
         == MaskSection(z, position, file, MaskSection(y, position, file, MaskSection(x, position, file, t)))
  {
    hide MaskSection;
    var s := [x, y, z];
    assert MaskSections(s, 1, position, file, t)
        == MaskSection(x, position, file, MaskSections(s, 0, position, file, t));
    assert MaskSections(s, 2, position, file, t)
        == MaskSection(y, position, file, MaskSections(s, 1, position, file, t));
  }

  // One turn of the loop.

  /** Turn `i`, begun at the start of chunk `i`: it feeds what it should and leaves the cursor at the
      next chunk and the carry that chunk needs. */
  ghost predicate TurnIsRight<T>(sections: seq<Section>, file: seq<T>, fill: Filling<T>, i: nat, carry: nat) {
    var t := ChunkTurn(sections, file, FillOf(fill, i), CHUNK * i, carry);
    && Expected(sections, file, fill, i, t.buffer)
    && CarryIs(sections, i + 1, t.carry)
    && (CHUNK * (i + 1) <= |file| ==> t.cursor == CHUNK * (i + 1))
  }

  lemma TurnUntouched<T>(sections: seq<Section>, file: seq<T>, fill: Filling<T>, i: nat, carry: nat)
    requires CarryIs(sections, i, carry) && CHUNK * i < |file|
    requires forall k :: 0 <= k < |sections| ==> !Touches(sections[k], i)
    ensures TurnIsRight(sections, file, fill, i, carry)
  {
    forall k | 0 <= k < |sections|
      ensures !StartsIn(sections[k], CHUNK * i) && !Continues(sections[k], i) && !Continues(sections[k], i + 1)
    {
      if Active(sections[k]) && sections[k].offset != CHUNK * i {
        StartsInFirst(sections[k], i);
      }
    }
    NoneStarts(sections, |sections|, CHUNK * i, file, SkipCarry(CHUNK * i, carry, FillOf(fill, i)));
  }

  lemma TurnContinued<T>(sections: seq<Section>, file: seq<T>, fill: Filling<T>, i: nat, carry: nat, k: nat)
    requires Lonely(sections, i) && CarryIs(sections, i, carry) && CHUNK * i < |file|
    requires k < |sections| && Continues(sections[k], i)
    ensures TurnIsRight(sections, file, fill, i, carry)
  {
    hide Carry, SkipAmount;
    var s := sections[k];
    forall l | 0 <= l < |sections|
      ensures !StartsIn(sections[l], CHUNK * i)
      ensures l != k ==> !Touches(sections[l], i) && !Continues(sections[l], i + 1)
    {
      if Active(sections[l]) {
        StartsInFirst(sections[l], i);
      }
    }
    NoneStarts(sections, |sections|, CHUNK * i, file, SkipCarry(CHUNK * i, carry, FillOf(fill, i)));
    CarryStep(s, i);
    var t := ChunkTurn(sections, file, FillOf(fill, i), CHUNK * i, carry);
    assert forall j :: 0 <= j < CHUNK ==> (Skipped(sections, i, j) <==> SkippedFor(s, i, j));
  }

  lemma TurnWithStart<T>(sections: seq<Section>, file: seq<T>, fill: Filling<T>, i: nat, carry: nat, k: nat)
    requires Lonely(sections, i) && CarryIs(sections, i, carry) && CHUNK * i < |file|
    requires k < |sections| && StartsIn(sections[k], CHUNK * i) && InFile(sections[k], |file|)
    ensures TurnIsRight(sections, file, fill, i, carry)
  {
    var s := sections[k];
    StartsInFirst(s, i);
    ContinuesAfterFirst(s);
    forall l | 0 <= l < |sections| && l != k
      ensures !StartsIn(sections[l], CHUNK * i) && !Touches(sections[l], i)
    {
      if Active(sections[l]) {
        StartsInFirst(sections[l], i);
      }
    }
    assert carry == 0;
    OneStarts(sections, |sections|, k, CHUNK * i, file, SkipCarry(CHUNK * i, carry, FillOf(fill, i)));
    var t := ChunkTurn(sections, file, FillOf(fill, i), CHUNK * i, carry);
    forall l | 0 <= l < |sections| && Continues(sections[l], i + 1)
      ensures l == k
    {
      assert Touches(sections[l], i);
    }
  }

  lemma TurnInLonelyChunk<T>(sections: seq<Section>, file: seq<T>, fill: Filling<T>, i: nat, carry: nat)
    requires Lonely(sections, i) && AllInFile(sections, |file|)
    requires CarryIs(sections, i, carry) && CHUNK * i < |file|
    ensures TurnIsRight(sections, file, fill, i, carry)
  {
    hide TurnIsRight, CarryIs;
    if k :| 0 <= k < |sections| && Continues(sections[k], i) {
      TurnContinued(sections, file, fill, i, carry, k);
    } else if k :| 0 <= k < |sections| && Touches(sections[k], i) {
      StartsInFirst(sections[k], i);
      TurnWithStart(sections, file, fill, i, carry, k);
    } else {
      TurnUntouched(sections, file, fill, i, carry);
    }
  }

  // The whole loop.

  function ChunkOf<T>(fed: seq<T>, i: nat): (buffer: seq<T>)
    requires CHUNK * (i + 1) <= |fed|
    ensures |buffer| == CHUNK
  {
    fed[CHUNK * i..CHUNK * (i + 1)]
  }

  lemma ChunkOfExtended<T>(fed: seq<T>, buffer: seq<T>, n: nat)
    requires |fed| == CHUNK * n && |buffer| == CHUNK
    ensures ChunkOf(fed + buffer, n) == buffer
    ensures forall i :: 0 <= i < n ==> ChunkOf(fed + buffer, i) == ChunkOf(fed, i)
  {
  }

  /** As long as the chunks are lonely, chunk `i` begins with the cursor at 4096 * i and the carry of
      the section that continues into it, and every chunk so far was fed as expected. */
  lemma {:induction false} RunIsRight<T>(sections: seq<Section>, file: seq<T>, fill: Filling<T>, turns: nat)
    requires AllInFile(sections, |file|) && turns <= ChunkCount(|file|)
    requires forall i :: 0 <= i < turns ==> Lonely(sections, i)
    ensures var p := Run(sections, file, fill, turns);
            && CarryIs(sections, turns, p.carry)
            && (CHUNK * turns <= |file| ==> p.cursor == CHUNK * turns)
            && forall i :: 0 <= i < turns ==> Expected(sections, file, fill, i, ChunkOf(p.fed, i))
  {
    hide Lonely, CarryIs, Expected, ChunkOf, ChunkTurn;
    if turns == 0 {
      NothingCarried(sections);
    } else {
      RunIsRight(sections, file, fill, turns - 1);
      var p := Run(sections, file, fill, turns - 1);
      TurnInLonelyChunk(sections, file, fill, turns - 1, p.carry);
      ChunkOfExtended(p.fed, ChunkTurn(sections, file, FillOf(fill, turns - 1), p.cursor, p.carry).buffer, turns - 1);
    }
  }

  lemma NothingCarried(sections: seq<Section>)
    ensures CarryIs(sections, 0, 0)
  {
  }
}
