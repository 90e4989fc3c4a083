/** src/digest.c as a function: what one turn of the chunk loop does with the cursor, the carry
    and the buffer, branch by branch, and what the whole loop feeds to MD5. Numbers are unbounded
    here; the section table is a list, of which the source has three entries. The file may hold
    things of any type: bytes, or in DigestReads the positions the bytes come from. */
module DigestSpec {
  import opened Bytes
  import opened CLib
  import Elf

  const CHUNK := 4096

  type Section = Elf.Section

  /** What the buffer of chunk i holds at position j before anything is read into it: the source
      never clears its buffer. */
  type Filling<T> = (nat, nat) -> T

  type Fill = Filling<byte>

  const ZERO_FILL: Fill := (i, j) => 0

  predicate Active(s: Section) { s.offset != 0 && s.length != 0 }

  /** Does the section begin inside the chunk at `position`, and not at its first byte? */
  predicate StartsIn(s: Section, position: nat) {
    Active(s) && position < s.offset < position + CHUNK
  }

  function ChunkCount(size: nat): nat { (size + CHUNK - 1) / CHUNK }

  /** The state inside one turn of the loop. */
  datatype Turn<T> = Turn(buffer: seq<T>, cursor: nat, left: nat, carry: nat)

  predicate InChunk<T>(t: Turn<T>) { |t.buffer| == CHUNK && t.left <= CHUNK }

  /** How much of the carry a chunk skips: the remainder first, whole chunks after. */
  function SkipAmount(carry: nat): (k: nat)
    ensures k <= carry && k <= CHUNK
  {
    if carry == 0 then 0 else if carry % CHUNK == 0 then CHUNK else carry % CHUNK
  }

  function SkipCarry<T>(cursor: nat, carry: nat, buffer: seq<T>): (t: Turn<T>)
    requires |buffer| == CHUNK
    ensures InChunk(t)
  {
    var k := SkipAmount(carry);
    Turn(buffer, cursor + k, CHUNK - k, carry - k)
  }

  /** The block the source repeats for each section; `position` is the cursor the turn began with. */
  function MaskSection<T>(s: Section, position: nat, file: seq<T>, t: Turn<T>): (r: Turn<T>)
    requires InChunk(t)
    ensures InChunk(r)
  {
    if !StartsIn(s, position) then t
    else
      var begin := s.offset - position;
      var left := t.left - begin - s.length;
      var carry := if left < 0 then -left else t.carry;
      var left' := if left < 0 then 0 else left;
      Turn(ReadInto(t.buffer, 0, begin, file, t.cursor),
           t.cursor + Available(file, t.cursor, begin) + (CHUNK - left' - begin),
           left',
           carry)
  }

  /** The first `m` section blocks, one after the other. */
  function MaskSections<T>(sections: seq<Section>, m: nat, position: nat, file: seq<T>, t: Turn<T>): (r: Turn<T>)
    requires m <= |sections| && InChunk(t)
    ensures InChunk(r)
  {
    if m == 0 then t
    else MaskSection(sections[m - 1], position, file, MaskSections(sections, m - 1, position, file, t))
  }

  function ReadRest<T>(file: seq<T>, t: Turn<T>): (r: Turn<T>)
    requires InChunk(t)
    ensures InChunk(r)
  {
    if t.left == 0 then t
    else t.(buffer := ReadInto(t.buffer, CHUNK - t.left, t.left, file, t.cursor),
            cursor := t.cursor + Available(file, t.cursor, t.left))
  }

  function FillOf<T>(fill: Filling<T>, i: nat): (buffer: seq<T>)
    ensures |buffer| == CHUNK
  {
    seq(CHUNK, j requires 0 <= j => fill(i, j))
  }

  /** Turn `i` of the loop, begun with the given cursor and carry. */
  function ChunkTurn<T>(sections: seq<Section>, file: seq<T>, buffer: seq<T>, cursor: nat, carry: nat): (t: Turn<T>)
    requires |buffer| == CHUNK
    ensures InChunk(t)
  {
    ReadRest(file, MaskSections(sections, |sections|, cursor, file, SkipCarry(cursor, carry, buffer)))
  }

  /** What has been fed to MD5 after some turns, and where they leave cursor and carry. */
  datatype Progress<T> = Progress(fed: seq<T>, cursor: nat, carry: nat)

  function Run<T>(sections: seq<Section>, file: seq<T>, fill: Filling<T>, turns: nat): (p: Progress<T>)
    ensures |p.fed| == CHUNK * turns
  {
    if turns == 0 then Progress([], 0, 0)
    else
      var p := Run(sections, file, fill, turns - 1);
      var t := ChunkTurn(sections, file, FillOf(fill, turns - 1), p.cursor, p.carry);
      Progress(p.fed + t.buffer, t.cursor, t.carry)
  }

  /** Everything the loop feeds to MD5. */
  function Fed<T>(sections: seq<Section>, file: seq<T>, fill: Filling<T>): (fed: seq<T>)
    ensures |fed| == CHUNK * ChunkCount(|file|)
  {
    Run(sections, file, fill, ChunkCount(|file|)).fed
  }

  // What the digest is meant to cover.

  ghost predicate Masked(sections: seq<Section>, p: nat) {
    exists k :: 0 <= k < |sections| && Active(sections[k]) && Covers(sections[k], p)
  }

  predicate Covers(s: Section, p: nat) { s.offset <= p < s.offset + s.length }

  /** The file with the sections blanked, extended with zeros to whole chunks. */
  ghost function Blanked(sections: seq<Section>, file: seq<byte>): (r: seq<byte>)
    ensures |r| == CHUNK * ChunkCount(|file|)
  {
    seq(CHUNK * ChunkCount(|file|), p requires 0 <= p => if p < |file| && !Masked(sections, p) then file[p] else 0)
  }
}
