/** The parts of the C library the sources lean on: memcpy and memset on byte arrays, and stdio
    streams on a file held in memory. */
module CLib {
  import opened Bytes

  method Memcpy(dst: array<byte>, at: nat, src: seq<byte>)
    requires at + |src| <= dst.Length
    modifies dst
    ensures dst[..] == old(dst[..at]) + src + old(dst[at + |src|..])
  {
    forall i | 0 <= i < |src| {
      dst[at + i] := src[i];
    }
  }

  method Memset(dst: array<byte>, at: nat, value: byte, n: nat)
    requires at + n <= dst.Length
    modifies dst
    ensures dst[..] == old(dst[..at]) + seq(n, _ => value) + old(dst[at + n..])
  {
    forall i | at <= i < at + n {
      dst[i] := value;
    }
  }

  /** How many of `n` bytes can be read from the cursor on. */
  function Available<T>(file: seq<T>, cursor: nat, n: nat): (k: nat)
    ensures k <= n
  {
    if cursor + n <= |file| then n else if cursor <= |file| then |file| - cursor else 0
  }

  /** `buffer` after reading up to `n` bytes to position `at`; the rest keeps what it held. */
  function ReadInto<T>(buffer: seq<T>, at: nat, n: nat, file: seq<T>, cursor: nat): (r: seq<T>)
    ensures |r| == |buffer|
  {
    seq(|buffer|, j requires 0 <= j < |buffer| =>
      if at <= j < at + n && cursor + (j - at) < |file| then file[cursor + (j - at)] else buffer[j])
  }

  /** `file` after writing `src` at `at`; a hole past the old end reads as zeros. */
  function Overwrite(file: seq<byte>, at: nat, src: seq<byte>): (r: seq<byte>)
    ensures src == [] ==> r == file
    ensures src != [] ==> |r| == if at + |src| <= |file| then |file| else at + |src|
    ensures src != [] ==> r[at..at + |src|] == src
    ensures forall p :: 0 <= p < |file| && !(at <= p < at + |src|) ==> r[p] == file[p]
  {
    if src == [] then file
    else if |file| <= at then file + Zeros(at - |file|) + src
    else if |file| <= at + |src| then file[..at] + src
    else file[..at] + src + file[at + |src|..]
  }

  /** A C string: the bytes before the first NUL. */
  function CString(s: seq<byte>): (r: seq<byte>)
    ensures |r| <= |s| && r == s[..|r|]
    ensures |r| < |s| ==> s[|r|] == 0
    ensures 0 !in r
  {
    if s == [] || s[0] == 0 then [] else [s[0]] + CString(s[1..])
  }

  /** strcat: `src` goes where the first NUL of `dst` is, and a NUL after it. */
  method Strcat(dst: array<byte>, src: seq<byte>)
    requires |CString(dst[..])| + |src| < dst.Length
    modifies dst
    ensures var n := |old(CString(dst[..]))|;
            dst[..] == old(dst[..n]) + src + [0] + old(dst[n + |src| + 1..])
  {
    var n := 0;
    CStringIsFirst(dst[..]);
    while dst[n] != 0
      invariant n <= |CString(dst[..])| && dst[..] == old(dst[..])
      decreases dst.Length - n
    {
      n := n + 1;
    }
    Memcpy(dst, n, src + [0]);
  }

  lemma {:induction false} CStringOf(name: seq<byte>, rest: seq<byte>)
    requires 0 !in name
    ensures CString(name + [0] + rest) == name
  {
    if name != [] {
      assert (name + [0] + rest)[1..] == name[1..] + [0] + rest;
      CStringOf(name[1..], rest);
    }
  }

  lemma CStringIsFirst(s: seq<byte>)
    ensures forall j :: 0 <= j < |CString(s)| ==> s[j] != 0
  {
    forall j | 0 <= j < |CString(s)|
      ensures s[j] != 0
    {
      assert CString(s)[j] == s[j];
    }
  }

  class DiskFile {
    var bytes: seq<byte>

    constructor (bytes: seq<byte>)
      ensures this.bytes == bytes
    {
      this.bytes := bytes;
    }
  }

  /** A FILE opened on a disk file. */
  class Stream {
    const file: DiskFile
    var cursor: nat
    var eof: bool

    constructor (file: DiskFile)
      ensures this.file == file && cursor == 0 && !eof
    {
      this.file := file;
      cursor, eof := 0, false;
    }

    /** fread */
    method Read(dst: array<byte>, at: nat, n: nat) returns (k: nat)
      requires at + n <= dst.Length
      modifies this, dst
      ensures k == Available(file.bytes, old(cursor), n)
      ensures cursor == old(cursor) + k
      ensures eof == (old(eof) || k < n)
      ensures dst[..] == ReadInto(old(dst[..]), at, n, file.bytes, old(cursor))
    {
      k := Available(file.bytes, cursor, n);
      forall j | 0 <= j < k {
        dst[at + j] := file.bytes[cursor + j];
      }
      cursor := cursor + k;
      if k < n { eof := true; }
    }

    /** fseek with SEEK_CUR; the cursor may pass the end. */
    method SeekCur(distance: nat)
      modifies this
      ensures cursor == old(cursor) + distance && !eof
    {
      cursor := cursor + distance;
      eof := false;
    }

    /** fseek with SEEK_SET */
    method SeekSet(position: nat)
      modifies this
      ensures cursor == position && !eof
    {
      cursor := position;
      eof := false;
    }

    /** fwrite */
    method Write(src: seq<byte>)
      requires file as object != this
      modifies this, file
      ensures file.bytes == Overwrite(old(file.bytes), old(cursor), src)
      ensures cursor == old(cursor) + |src|
    {
      file.bytes := Overwrite(file.bytes, cursor, src);
      cursor := cursor + |src|;
    }
  }
}
