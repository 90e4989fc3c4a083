/** replacestr in src/appimagetool.c: replace the first occurrence in place and start over, until
    none is left. */
module ReplaceStr {
  import opened Bytes
  import opened CLib

  predicate OccursAt(s: seq<byte>, t: seq<byte>, i: nat) {
    i + |t| <= |s| && s[i..i + |t|] == t
  }

  /** strstr: the first position where `t` occurs in `s`, or -1. */
  function Strstr(s: seq<byte>, t: seq<byte>): (i: int)
    ensures -1 <= i <= |s|
    ensures i >= 0 ==> OccursAt(s, t, i)
    ensures forall j: nat :: j < |s| && (i < 0 || j < i) ==> !OccursAt(s, t, j)
  {
    if OccursAt(s, t, 0) then 0
    else if s == [] then -1
    else
      OccursShifted(s, t);
      var i := Strstr(s[1..], t);
      if i < 0 then -1 else i + 1
  }

  lemma OccursShifted(s: seq<byte>, t: seq<byte>)
    requires s != []
    ensures forall j: nat :: 0 < j <= |s| ==> (OccursAt(s, t, j) <==> OccursAt(s[1..], t, j - 1))
  {
    forall j: nat | 0 < j <= |s|
      ensures OccursAt(s, t, j) <==> OccursAt(s[1..], t, j - 1)
    {
      if j + |t| <= |s| {
        assert s[j..j + |t|] == s[1..][j - 1..j - 1 + |t|];
      }
    }
  }

  function ReplaceFirst(s: seq<byte>, t: seq<byte>, u: seq<byte>): seq<byte>
    requires Strstr(s, t) >= 0
  {
    var i := Strstr(s, t);
    s[..i] + u + s[i + |t|..]
  }

  /** The string after at most `steps` replacements, each of the first occurrence in the whole string. */
  function Rewrite(s: seq<byte>, t: seq<byte>, u: seq<byte>, steps: nat): seq<byte>
    decreases steps
  {
    if steps == 0 || Strstr(s, t) < 0 then s else Rewrite(ReplaceFirst(s, t, u), t, u, steps - 1)
  }

  /** The usual replace-all: left to right, never looking at a replacement again. */
  function ReplaceAll(s: seq<byte>, t: seq<byte>, u: seq<byte>): seq<byte>
    requires t != []
    decreases |s|
  {
    var i := Strstr(s, t);
    if i < 0 then s else s[..i] + u + ReplaceAll(s[i + |t|..], t, u)
  }

  /** No string on the way is longer than both ends of it. */
  lemma {:induction false} NoneIsLonger(s: seq<byte>, t: seq<byte>, u: seq<byte>, steps: nat)
    ensures |u| <= |t| ==> |Rewrite(s, t, u, steps)| <= |s|
    ensures |u| >= |t| ==> |Rewrite(s, t, u, steps)| >= |s|
    decreases steps
  {
    hide Strstr;
    if steps > 0 && Strstr(s, t) >= 0 {
      NoneIsLonger(ReplaceFirst(s, t, u), t, u, steps - 1);
    }
  }

  /** `s` with `part` in place of the bytes at `at`. */
  function Pasted(s: seq<byte>, at: nat, part: seq<byte>): (r: seq<byte>)
    requires at + |part| <= |s|
    ensures |r| == |s|
  {
    s[..at] + part + s[at + |part|..]
  }

  method Memmove(line: array<byte>, to: nat, from: nat, n: nat)
    requires to + n <= line.Length && from + n <= line.Length
    modifies line
    ensures line[..] == Pasted(old(line[..]), to, old(line[..])[from..from + n])
  {
    forall k | to <= k < to + n {
      line[k] := line[from + (k - to)];
    }
  }

  method Copy(line: array<byte>, at: nat, part: seq<byte>)
    requires at + |part| <= line.Length
    modifies line
    ensures line[..] == Pasted(old(line[..]), at, part)
  {
    Memcpy(line, at, part);
  }

  /** The buffer after the tail, `tail` bytes with its NUL, has moved and the replacement is copied in. */
  function Edited(buffer: seq<byte>, sp: nat, n: nat, tail: nat, u: seq<byte>): (r: seq<byte>)
    requires sp + n + tail <= |buffer| && sp + |u| + tail <= |buffer|
    ensures |r| == |buffer|
  {
    Pasted(Pasted(buffer, sp + |u|, buffer[sp + n..sp + n + tail]), sp, u)
  }

  lemma EditedBytes(buffer: seq<byte>, s: seq<byte>, sp: nat, n: nat, u: seq<byte>) returns (rest: seq<byte>)
    requires |s| < |buffer| && buffer[..|s|] == s && buffer[|s|] == 0
    requires sp + n <= |s| && |s| - n + |u| < |buffer|
    ensures Edited(buffer, sp, n, |s| - sp - n + 1, u) == s[..sp] + u + s[sp + n..] + [0] + rest
  {
    hide Pasted;
    var tail, k := |s| - sp - n + 1, sp + |u|;
    rest := buffer[k + tail..];
    TailMoved(buffer, s, sp + n, k);
    FrontKept(buffer, s, sp, u, s[sp + n..] + [0] + rest);
    Regroup(s[..sp] + u, s[sp + n..], rest);
  }

  lemma TailMoved(buffer: seq<byte>, s: seq<byte>, from: nat, to: nat)
    requires |s| < |buffer| && buffer[..|s|] == s && buffer[|s|] == 0
    requires from <= |s| && to + |s| - from < |buffer|
    ensures Pasted(buffer, to, buffer[from..|s| + 1])
         == buffer[..to] + (s[from..] + [0] + buffer[to + |s| - from + 1..])
  {
    assert buffer[from..|s| + 1] == buffer[..|s|][from..] + [buffer[|s|]];
  }

  lemma FrontKept(buffer: seq<byte>, s: seq<byte>, sp: nat, u: seq<byte>, z: seq<byte>)
    requires sp <= |s| <= |buffer| && buffer[..|s|] == s && sp + |u| <= |buffer|
    ensures Pasted(buffer[..sp + |u|] + z, sp, u) == s[..sp] + u + z
  {
    assert buffer[..sp] == buffer[..|s|][..sp];
    assert (buffer[..sp + |u|] + z)[..sp] == buffer[..sp];
    assert (buffer[..sp + |u|] + z)[sp + |u|..] == z;
  }

  lemma Regroup(x: seq<byte>, y: seq<byte>, z: seq<byte>)
    ensures x + (y + [0] + z) == x + y + [0] + z
  {
  }

  lemma EditedString(buffer: seq<byte>, sp: nat, n: nat, u: seq<byte>)
    requires var s := CString(buffer);
             |s| < |buffer| && sp + n <= |s| && |s| - n + |u| < |buffer| && 0 !in u
    ensures var s := CString(buffer);
            var r := s[..sp] + u + s[sp + n..];
            CString(Edited(buffer, sp, n, |s| - sp - n + 1, u)) == r && |r| < |buffer|
  {
    hide CString, Edited;
    var s := CString(buffer);
    var rest := EditedBytes(buffer, s, sp, n, u);
    CStringOf(s[..sp] + u + s[sp + n..], rest);
  }

  /** The in-place edit: what follows the occurrence moves with its NUL, then the replacement goes in. */
  method ReplaceAt(line: array<byte>, sp: nat, searchLength: nat, tailLength: nat, replace: seq<byte>)
    requires sp + searchLength + tailLength < line.Length && sp + |replace| + tailLength < line.Length
    modifies line
    ensures line[..] == Edited(old(line[..]), sp, searchLength, tailLength + 1, replace)
  {
    hide Pasted;
    Memmove(line, sp + |replace|, sp + searchLength, tailLength + 1);
    Copy(line, sp, replace);
  }

  /** The edit at the first occurrence, where the line it makes fits the buffer. */
  method ReplaceFound(line: array<byte>, sp: nat, search: seq<byte>, replace: seq<byte>)
    requires |CString(line[..])| < line.Length && 0 !in replace && Strstr(CString(line[..]), search) == sp
    requires |ReplaceFirst(CString(line[..]), search, replace)| < line.Length
    modifies line
    ensures CString(line[..]) == ReplaceFirst(old(CString(line[..])), search, replace)
  {
    hide CString, Strstr, Edited;
    ghost var s := CString(line[..]);
    assert |ReplaceFirst(s, search, replace)| == |s| - |search| + |replace|;
    EditedString(line[..], sp, |search|, replace);
    ReplaceAt(line, sp, |search|, |CString(line[..])| - sp - |search|, replace);
  }

  lemma OneStep(s: seq<byte>, t: seq<byte>, u: seq<byte>, steps: nat)
    requires Strstr(s, t) >= 0 && Strstr(Rewrite(s, t, u, steps), t) < 0
    ensures steps > 0 && Rewrite(s, t, u, steps) == Rewrite(ReplaceFirst(s, t, u), t, u, steps - 1)
    ensures |ReplaceFirst(s, t, u)| <= |s| || |ReplaceFirst(s, t, u)| <= |Rewrite(s, t, u, steps)|
  {
    hide Strstr;
    NoneIsLonger(ReplaceFirst(s, t, u), t, u, steps - 1);
  }

  /** replacestr, for a line on which it comes to an end after some number of steps, in a buffer that
      holds the line and the result. */
  method Replacestr(line: array<byte>, search: seq<byte>, replace: seq<byte>, ghost steps: nat)
    requires |CString(line[..])| < line.Length && 0 !in replace
    requires Strstr(Rewrite(CString(line[..]), search, replace, steps), search) < 0
    requires |Rewrite(CString(line[..]), search, replace, steps)| < line.Length
    modifies line
    ensures CString(line[..]) == Rewrite(old(CString(line[..])), search, replace, steps)
    ensures Strstr(CString(line[..]), search) < 0
    decreases steps
  {
    hide CString, Strstr, ReplaceFirst;
    ghost var s := CString(line[..]);
    var sp := Strstr(CString(line[..]), search);
    if sp < 0 { return; }
    OneStep(s, search, replace, steps);
    hide Rewrite;
    ReplaceFound(line, sp, search, replace);
    if Strstr(CString(line[..]), search) >= 0 {
      Replacestr(line, search, replace, steps - 1);
    } else {
      AtTheEnd(ReplaceFirst(s, search, replace), search, replace, steps - 1);
    }
  }

  lemma AtTheEnd(s: seq<byte>, t: seq<byte>, u: seq<byte>, steps: nat)
    requires Strstr(s, t) < 0
    ensures Rewrite(s, t, u, steps) == s
  {
  }

  // When restarting makes no difference.

  /** One of the two is the beginning of the other. */
  predicate Compatible(x: seq<byte>, y: seq<byte>) { x <= y || y <= x }

  /** No occurrence of `t` can begin inside a replacement, and none can begin before one that is left of
      where the search stopped and reach into it. */
  ghost predicate Safe(t: seq<byte>, u: seq<byte>) {
    && (forall i :: 0 <= i < |u| ==> !Compatible(t, u[i..]))
    && (forall j :: 0 < j < |t| && Strstr(t[..j] + t, t) == j ==> !Compatible(t[j..], u))
  }

  /** On every line the replacements come to an end, at what one pass of replace-all gives, with none
      of the search text left. */
  ghost predicate AlwaysOnePass(t: seq<byte>, u: seq<byte>)
    requires t != []
  {
    forall s: seq<byte> :: 0 !in s ==>
      Strstr(ReplaceAll(s, t, u), t) < 0 && exists steps :: Rewrite(s, t, u, steps) == ReplaceAll(s, t, u)
  }

  lemma StrstrIs(s: seq<byte>, t: seq<byte>, i: nat)
    requires OccursAt(s, t, i) && forall j: nat :: j < i ==> !OccursAt(s, t, j)
    ensures Strstr(s, t) == i
  {
  }

  lemma NoStrstr(s: seq<byte>, t: seq<byte>)
    requires t != [] && forall j: nat :: j < |s| ==> !OccursAt(s, t, j)
    ensures Strstr(s, t) == -1
  {
  }

  /** Nothing begins in `done`, the part already passed over. */
  ghost predicate Passed(done: seq<byte>, rest: seq<byte>, t: seq<byte>) {
    forall i: nat :: i < |done| ==> !OccursAt(done + rest, t, i)
  }

  /** Then the first occurrence in the whole is the first in the rest. */
  lemma FirstInRest(done: seq<byte>, rest: seq<byte>, t: seq<byte>)
    requires t != [] && Passed(done, rest, t)
    ensures Strstr(done + rest, t) == if Strstr(rest, t) < 0 then -1 else |done| + Strstr(rest, t)
  {
    hide OccursAt;
    var i := Strstr(rest, t);
    forall j: nat | |done| <= j
      ensures OccursAt(done + rest, t, j) <==> OccursAt(rest, t, j - |done|)
    {
      OccursInSuffix(done, rest, t, j);
    }
    if i >= 0 {
      StrstrIs(done + rest, t, |done| + i);
    } else {
      forall j: nat | j < |done + rest|
        ensures !OccursAt(done + rest, t, j)
      {
      }
      NoStrstr(done + rest, t);
    }
  }

  lemma OccursInPrefix(left: seq<byte>, x: seq<byte>, t: seq<byte>, i: nat)
    requires i + |t| <= |left|
    ensures OccursAt(left + x, t, i) <==> OccursAt(left, t, i)
  {
    assert (left + x)[i..i + |t|] == left[i..i + |t|];
  }

  lemma OccursInSuffix(x: seq<byte>, right: seq<byte>, t: seq<byte>, i: nat)
    requires |x| <= i
    ensures OccursAt(x + right, t, i) <==> OccursAt(right, t, i - |x|)
  {
    if i + |t| <= |x| + |right| {
      assert (x + right)[i..i + |t|] == right[i - |x|..i - |x| + |t|];
    }
  }

  lemma PrefixOfConcat(q: seq<byte>, u: seq<byte>, right: seq<byte>)
    requires q <= u + right
    ensures Compatible(q, u)
  {
    if |q| <= |u| {
      assert q == (u + right)[..|q|] == u[..|q|];
    } else {
      assert u == (u + right)[..|u|] == q[..|u|];
    }
  }

  lemma BeginsInside(left: seq<byte>, u: seq<byte>, right: seq<byte>, t: seq<byte>, i: nat)
    requires |left| <= i < |left| + |u| && OccursAt(left + (u + right), t, i)
    ensures Compatible(t, u[i - |left|..])
  {
    var m := i - |left|;
    OccursInSuffix(left, u + right, t, i);
    assert u + right == u[..m] + (u[m..] + right);
    OccursInSuffix(u[..m], u[m..] + right, t, m);
    PrefixOfConcat(t, u[m..], right);
  }

  /** An occurrence across a seam. */
  lemma Halves(left: seq<byte>, w: seq<byte>, t: seq<byte>, i: nat)
    requires i < |left| < i + |t| && OccursAt(left + w, t, i)
    ensures var j := |left| - i; left[i..] == t[..j] && t[j..] <= w
  {
    var s, j := left + w, |left| - i;
    assert left[i..] == s[i..i + |t|][..j];
    assert t[j..] == s[i..i + |t|][j..] == w[..|t| - j];
  }

  lemma OccursAtFront(t: seq<byte>)
    ensures OccursAt(t, t, 0)
  {
  }

  /** The first occurrence in a string is the first in the part of it that ends there. */
  lemma FirstInPart(left: seq<byte>, right: seq<byte>, t: seq<byte>, i: nat)
    requires i <= |left| && Strstr(left + (t + right), t) == |left|
    ensures Strstr(left[i..] + t, t) == |left| - i
  {
    hide OccursAt, Strstr;
    var s, part := left + (t + right), left[i..] + t;
    assert s == left[..i] + (part + right);
    forall m: nat | m < |left| - i
      ensures !OccursAt(part, t, m)
    {
      OccursInPrefix(part, right, t, m);
      OccursInSuffix(left[..i], part + right, t, i + m);
      NotBeforeFirst(s, t, i + m);
    }
    OccursInSuffix(left[i..], t, t, |left| - i);
    OccursAtFront(t);
    StrstrIs(part, t, |left| - i);
  }

  lemma BeginsBefore(left: seq<byte>, u: seq<byte>, right: seq<byte>, t: seq<byte>, i: nat)
    requires i < |left| < i + |t| && OccursAt(left + (u + right), t, i)
    requires Strstr(left + (t + right), t) == |left|
    ensures var j := |left| - i; Strstr(t[..j] + t, t) == j && Compatible(t[j..], u)
  {
    hide Strstr;
    Halves(left, u + right, t, i);
    PrefixOfConcat(t[|left| - i..], u, right);
    FirstInPart(left, right, t, i);
  }

  /** Replacing the first occurrence lets nothing begin before what follows it. */
  lemma NothingBegins(left: seq<byte>, u: seq<byte>, right: seq<byte>, t: seq<byte>, i: nat)
    requires t != [] && Safe(t, u) && Strstr(left + (t + right), t) == |left| && i < |left| + |u|
    ensures !OccursAt(left + (u + right), t, i)
  {
    hide Strstr, OccursAt, Compatible;
    if OccursAt(left + (u + right), t, i) {
      if i >= |left| {
        BeginsInside(left, u, right, t, i);
      } else if i + |t| <= |left| {
        OccursInPrefix(left, u + right, t, i);
        OccursInPrefix(left, t + right, t, i);
        NotBeforeFirst(left + (t + right), t, i);
      } else {
        BeginsBefore(left, u, right, t, i);
      }
    }
  }

  lemma NotBeforeFirst(s: seq<byte>, t: seq<byte>, i: nat)
    requires i < Strstr(s, t)
    ensures !OccursAt(s, t, i)
  {
  }

  /** A string cut at its first occurrence of `t`. */
  lemma CutAtFirst(s: seq<byte>, t: seq<byte>) returns (front: seq<byte>, back: seq<byte>)
    requires Strstr(s, t) >= 0
    ensures s == front + (t + back) && Strstr(s, t) == |front|
  {
    var x := Strstr(s, t);
    front, back := s[..x], s[x + |t|..];
    assert s[x..x + |t|] == t;
  }

  lemma ReplaceAtCut(front: seq<byte>, t: seq<byte>, back: seq<byte>, u: seq<byte>)
    requires t != [] && Strstr(front + (t + back), t) == |front|
    ensures ReplaceFirst(front + (t + back), t, u) == front + u + back
    ensures ReplaceAll(front + (t + back), t, u) == front + u + ReplaceAll(back, t, u)
  {
    hide Strstr;
    var s := front + (t + back);
    PartsOf(front, t, back);
    assert ReplaceFirst(s, t, u) == s[..|front|] + u + s[|front| + |t|..];
    assert ReplaceAll(s, t, u) == s[..|front|] + u + ReplaceAll(s[|front| + |t|..], t, u);
  }

  lemma PartsOf(front: seq<byte>, t: seq<byte>, back: seq<byte>)
    ensures var s := front + (t + back); s[..|front|] == front && s[|front| + |t|..] == back
  {
  }

  /** With `done` passed, the rewriting of the whole is one pass over the rest. */
  lemma {:induction false} OnePass(done: seq<byte>, rest: seq<byte>, t: seq<byte>, u: seq<byte>) returns (steps: nat)
    requires t != [] && Safe(t, u) && Passed(done, rest, t)
    ensures Rewrite(done + rest, t, u, steps) == done + ReplaceAll(rest, t, u)
    ensures Strstr(done + ReplaceAll(rest, t, u), t) < 0
    decreases |rest|
  {
    hide Safe, Passed, Strstr, ReplaceFirst, ReplaceAll, OccursAt;
    FirstInRest(done, rest, t);
    if Strstr(rest, t) < 0 {
      steps := 0;
      NoneToReplace(rest, t, u);
    } else {
      var front, back := CutAtFirst(rest, t);
      var left := done + front;
      Associate(done, front, t + back);
      ReplaceAtCut(front, t, back, u);
      ReplaceAtCut(left, t, back, u);
      StaysPassed(left, t, back, u);
      var more := OnePass(left + u, back, t, u);
      steps := more + 1;
      Associate(done, front, u);
      Associate(done, front + u, ReplaceAll(back, t, u));
    }
  }

  lemma NoneToReplace(s: seq<byte>, t: seq<byte>, u: seq<byte>)
    requires t != [] && Strstr(s, t) < 0
    ensures ReplaceAll(s, t, u) == s
  {
  }

  lemma StaysPassed(left: seq<byte>, t: seq<byte>, right: seq<byte>, u: seq<byte>)
    requires t != [] && Safe(t, u) && Strstr(left + (t + right), t) == |left|
    ensures Passed(left + u, right, t)
  {
    hide Strstr, OccursAt, Safe;
    Associate(left, u, right);
    forall i: nat | i < |left + u|
      ensures !OccursAt(left + u + right, t, i)
    {
      NothingBegins(left, u, right, t, i);
    }
  }

  lemma SafeIsEnough(s: seq<byte>, t: seq<byte>, u: seq<byte>) returns (steps: nat)
    requires t != [] && Safe(t, u)
    ensures Rewrite(s, t, u, steps) == ReplaceAll(s, t, u) && Strstr(ReplaceAll(s, t, u), t) < 0
  {
    assert [] + s == s && [] + ReplaceAll(s, t, u) == ReplaceAll(s, t, u);
    steps := OnePass([], s, t, u);
  }

  // And when it does.

  lemma ShortHasNone(v: seq<byte>, t: seq<byte>, u: seq<byte>)
    requires |v| < |t|
    ensures Strstr(v, t) < 0 && ReplaceAll(v, t, u) == v
  {
  }

  /** After one replacement in p + t + v, with v too short for another, `t` is there at `i`. */
  lemma ReappearsAt(p: seq<byte>, v: seq<byte>, t: seq<byte>, u: seq<byte>, i: nat)
    requires |v| < |t| && Strstr(p + t + v, t) == |p| && OccursAt(p + u + v, t, i)
    ensures Strstr(ReplaceAll(p + t + v, t, u), t) >= 0
  {
    var s := p + t + v;
    ShortHasNone(v, t, u);
    ReplacedOnce(p, v, t, u);
    Found(p + u + v, t, i);
  }

  lemma ReplacedOnce(p: seq<byte>, v: seq<byte>, t: seq<byte>, u: seq<byte>)
    requires t != [] && Strstr(p + t + v, t) == |p| && ReplaceAll(v, t, u) == v
    ensures ReplaceAll(p + t + v, t, u) == p + u + v
  {
    hide Strstr;
    var s := p + t + v;
    assert s[..|p|] == p && s[|p| + |t|..] == v;
  }

  lemma Found(s: seq<byte>, t: seq<byte>, i: nat)
    requires t != [] && OccursAt(s, t, i)
    ensures Strstr(s, t) >= 0
  {
  }

  /** What completes `w` to begin with `t`. */
  lemma Completed(t: seq<byte>, w: seq<byte>) returns (v: seq<byte>)
    requires w != [] && Compatible(t, w) && 0 !in t
    ensures t <= w + v && (v == [] || |v| < |t|) && 0 !in v
  {
    v := if |w| < |t| then t[|w|..] else [];
    assert |w| < |t| ==> w + v == t;
  }

  lemma BeginsWith(t: seq<byte>, v: seq<byte>)
    ensures Strstr([] + t + v, t) == 0
  {
    hide Strstr;
    assert ([] + t + v)[0..|t|] == t;
    StrstrIs([] + t + v, t, 0);
  }

  lemma OccursBehind(u: seq<byte>, v: seq<byte>, t: seq<byte>, i: nat)
    requires i <= |u| && t <= u[i..] + v
    ensures OccursAt([] + u + v, t, i)
  {
    assert ([] + u + v)[i..] == u[i..] + v;
    assert ([] + u + v)[i..i + |t|] == ([] + u + v)[i..][..|t|];
  }

  lemma InsideShows(t: seq<byte>, u: seq<byte>, i: nat) returns (s: seq<byte>)
    requires t != [] && 0 !in t && i < |u| && Compatible(t, u[i..])
    ensures 0 !in s && Strstr(ReplaceAll(s, t, u), t) >= 0
  {
    var v := Completed(t, u[i..]);
    hide Strstr, ReplaceAll, Compatible, OccursAt;
    s := [] + t + v;
    BeginsWith(t, v);
    OccursBehind(u, v, t, i);
    ReappearsAt([], v, t, u, i);
  }

  lemma BeforeShows(t: seq<byte>, u: seq<byte>, j: nat) returns (s: seq<byte>)
    requires 0 !in t && 0 < j < |t| && Strstr(t[..j] + t, t) == j && Compatible(t[j..], u)
    ensures 0 !in s && Strstr(ReplaceAll(s, t, u), t) >= 0
  {
    hide Strstr, ReplaceAll;
    var p, q := t[..j], t[j..];
    var v := if |u| < |q| then q[|u|..] else [];
    s := p + t + v;
    FirstInLonger(p, v, t);
    assert p + u + v == p + (u + v) && (u + v)[..|q|] == q;
    assert (p + (u + v))[0..|t|] == p + q == t;
    ReappearsAt(p, v, t, u, 0);
  }

  lemma FirstInLonger(p: seq<byte>, v: seq<byte>, t: seq<byte>)
    requires Strstr(p + t, t) == |p|
    ensures Strstr(p + t + v, t) == |p|
  {
    forall m: nat | m < |p|
      ensures !OccursAt(p + t + v, t, m)
    {
      OccursInPrefix(p + t, v, t, m);
    }
    OccursInPrefix(p + t, v, t, |p|);
    StrstrIs(p + t + v, t, |p|);
  }

  /** Safe is exactly what makes restarting from the beginning the same as one pass: otherwise some line
      still holds the search text after one pass. */
  lemma SafeIsExact(t: seq<byte>, u: seq<byte>)
    requires t != [] && 0 !in t
    ensures Safe(t, u) <==> AlwaysOnePass(t, u)
  {
    hide Strstr, ReplaceAll, Rewrite, Compatible;
    if Safe(t, u) {
      forall s: seq<byte> | 0 !in s
        ensures Strstr(ReplaceAll(s, t, u), t) < 0 && exists steps :: Rewrite(s, t, u, steps) == ReplaceAll(s, t, u)
      {
        var steps := SafeIsEnough(s, t, u);
      }
    } else if i :| 0 <= i < |u| && Compatible(t, u[i..]) {
      var s := InsideShows(t, u, i);
    } else {
      var j :| 0 < j < |t| && Strstr(t[..j] + t, t) == j && Compatible(t[j..], u);
      var s := BeforeShows(t, u, j);
    }
  }

  // What replacestr leaves, for pairs like those it is called with.

  /** However many steps are allowed, the rewriting ends in one string only. */
  lemma {:induction false} EndsOnce(s: seq<byte>, t: seq<byte>, u: seq<byte>, k: nat, m: nat)
    requires Strstr(Rewrite(s, t, u, k), t) < 0 && Strstr(Rewrite(s, t, u, m), t) < 0
    ensures Rewrite(s, t, u, k) == Rewrite(s, t, u, m)
    decreases k
  {
    hide Strstr, ReplaceFirst;
    if k > 0 && m > 0 && Strstr(s, t) >= 0 {
      EndsOnce(ReplaceFirst(s, t, u), t, u, k - 1, m - 1);
    }
  }

  /** The line replacestr ends with is the replace-all of the line it was given. */
  lemma ResultIsReplaceAll(s: seq<byte>, t: seq<byte>, u: seq<byte>, steps: nat)
    requires t != [] && Safe(t, u) && Strstr(Rewrite(s, t, u, steps), t) < 0
    ensures Rewrite(s, t, u, steps) == ReplaceAll(s, t, u)
  {
    hide Strstr, Rewrite, ReplaceAll, Safe;
    var k := SafeIsEnough(s, t, u);
    EndsOnce(s, t, u, k, steps);
  }

  /** Neither text contains the other, and no end of one is a beginning of the other. */
  ghost predicate WithoutOverlap(t: seq<byte>, u: seq<byte>) {
    && t != [] && u != []
    && (forall i: nat :: !OccursAt(t, u, i) && !OccursAt(u, t, i))
    && (forall i :: 0 <= i < |u| ==> !(u[i..] <= t))
    && (forall i :: 0 <= i < |t| ==> !(t[i..] <= u))
  }

  lemma WithoutOverlapIsSafe(t: seq<byte>, u: seq<byte>)
    requires WithoutOverlap(t, u)
    ensures Safe(t, u)
  {
    forall i | 0 <= i < |u|
      ensures !Compatible(t, u[i..])
    {
      if t <= u[i..] {
        assert u[i..i + |t|] == u[i..][..|t|];
        assert OccursAt(u, t, i);
      }
    }
    forall j | 0 < j < |t|
      ensures !Compatible(t[j..], u)
    {
      if u <= t[j..] {
        assert t[j..j + |u|] == t[j..][..|u|];
        assert OccursAt(t, u, j);
      }
    }
  }

  lemma TextsAre()
    ensures Text("-") == [45] && Text(" ") == [32] && Text("_") == [95]
    ensures Text(".desktop") == [46, 100, 101, 115, 107, 116, 111, 112]
    ensures Text(".appdata.xml") == [46, 97, 112, 112, 100, 97, 116, 97, 46, 120, 109, 108]
  {
  }

  /** The pairs of the callers. */
  lemma CallersAreSafe()
    ensures WithoutOverlap(Text("-"), Text("_")) && WithoutOverlap(Text(" "), Text("_"))
    ensures WithoutOverlap(Text(".desktop"), Text(".appdata.xml"))
  {
    TextsAre();
    hide Text;
    ApartByFirst(Text("-"), Text("_"));
    ApartByFirst(Text(" "), Text("_"));
    var t, u := Text(".desktop"), Text(".appdata.xml");
    forall i | 0 <= i < |u|
      ensures !Compatible(u[i..], t) && !OccursAt(u, t, i)
    {
      DifferAt(u, i, t, if i == 0 || i == 8 then 1 else 0);
    }
    forall i | 0 <= i < |t|
      ensures !Compatible(t[i..], u)
    {
      DifferAt(t, i, u, if i == 0 then 1 else 0);
    }
  }

  lemma DifferAt(x: seq<byte>, i: nat, y: seq<byte>, k: nat)
    requires i + k < |x| && k < |y| && x[i + k] != y[k]
    ensures !Compatible(x[i..], y) && !OccursAt(x, y, i)
  {
    assert x[i..][k] == x[i + k];
    assert i + |y| <= |x| ==> x[i..i + |y|][k] == x[i + k];
  }

  lemma ApartByFirst(t: seq<byte>, u: seq<byte>)
    requires |t| == |u| == 1 && t[0] != u[0]
    ensures WithoutOverlap(t, u)
  {
  }
}
