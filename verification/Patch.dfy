/** Patching an iPXE binary: the boot script over its placeholder, and the operator's CA fingerprint
    over every copy of the default one, in place and without moving a byte. */
module Patch {
  import opened Wire

  datatype PatchError = NoStart | NoEnd | EndBeforeStart | ScriptTooLong | BadHashSize | NoRootCA

  datatype Outcome<T> = Good(value: T) | Bad(why: PatchError)

  const NEWLINE: byte := 10
  const HASH_SIZE := 32
  const START_SIZE := 21
  const END_SIZE := 19

  /** "# *PLACEHOLDER START*" */
  function Start(): (marker: seq<byte>)
    ensures |marker| == START_SIZE
  {
    [35, 32, 42, 80, 76, 65, 67, 69, 72, 79, 76, 68, 69, 82, 32, 83, 84, 65, 82, 84, 42]
  }

  /** "# *PLACEHOLDER END*" */
  function End(): (marker: seq<byte>)
    ensures |marker| == END_SIZE
  {
    [35, 32, 42, 80, 76, 65, 67, 69, 72, 79, 76, 68, 69, 82, 32, 69, 78, 68, 42]
  }

  /** The SHA-256 fingerprint of iPXE's default root CA. */
  function RootCAHash(): (hash: seq<byte>)
    ensures |hash| == HASH_SIZE
  {
    [0x9f, 0xaf, 0x71, 0x7b, 0x7f, 0x8c, 0xa2, 0xf9, 0x3c, 0x25, 0x6c, 0x79, 0xf8, 0xac, 0x55, 0x91,
     0x89, 0x5d, 0x66, 0xd1, 0xff, 0x3b, 0xee, 0x63, 0x97, 0xa7, 0x0d, 0x29, 0xc6, 0x5e, 0xed, 0x1a]
  }

  // ------------------------------------------------------------------------- searching

  predicate OccursAt(s: seq<byte>, pattern: seq<byte>, i: int) {
    0 <= i <= |s| - |pattern| && s[i..i + |pattern|] == pattern
  }

  /** The first occurrence at or after `from`, or -1. */
  function IndexFrom(s: seq<byte>, pattern: seq<byte>, from: nat): (r: int)
    requires from <= |s|
    ensures r == -1 || (from <= r && OccursAt(s, pattern, r))
    ensures forall i :: from <= i < (if r == -1 then |s| + 1 else r) ==> !OccursAt(s, pattern, i)
    decreases |s| - from
  {
    if OccursAt(s, pattern, from) then from
    else if from == |s| then -1
    else IndexFrom(s, pattern, from + 1)
  }

  function Index(s: seq<byte>, pattern: seq<byte>): (r: int)
    ensures r == -1 || OccursAt(s, pattern, r)
    ensures forall i :: 0 <= i < (if r == -1 then |s| + 1 else r) ==> !OccursAt(s, pattern, i)
  {
    IndexFrom(s, pattern, 0)
  }

  // ------------------------------------------------------------------------- the CA fingerprint

  /** Leftmost, non-overlapping replacement of the default fingerprint. */
  function ReplaceAll(s: seq<byte>, hash: seq<byte>): (r: seq<byte>)
    requires |hash| == HASH_SIZE
    ensures |r| == |s|
    decreases |s|
  {
    var i := Index(s, RootCAHash());
    if i == -1 then s else s[..i] + hash + ReplaceAll(s[i + HASH_SIZE..], hash)
  }

  /** The scan over the buffer being overwritten sees what a scan of the original would have seen. */
  method ReplaceCA(fileContents: array<byte>, customCAHash: seq<byte>) returns (err: Option<PatchError>)
    modifies fileContents
    ensures err == Some(BadHashSize) <==> |customCAHash| != HASH_SIZE
    ensures err == Some(NoRootCA) <==>
            |customCAHash| == HASH_SIZE && forall i :: !OccursAt(old(fileContents[..]), RootCAHash(), i)
    ensures err.None? ==> fileContents[..] == ReplaceAll(old(fileContents[..]), customCAHash)
    ensures err.Some? ==>
              fileContents[..] == old(fileContents[..]) && (err.value == BadHashSize || err.value == NoRootCA)
  {
    if |customCAHash| != HASH_SIZE {
      return Some(BadHashSize);
    }
    hide Index, ReplaceAll, RootCAHash, OccursAt, Scanned, Overwritten;
    ghost var before := fileContents[..];
    ScanStarts(before, customCAHash);
    var startIdx := 0;
    while true
      invariant startIdx <= fileContents.Length
      invariant Scanned(before, fileContents[..], startIdx, customCAHash)
      invariant startIdx == 0 ==> fileContents[..] == before
      invariant startIdx > 0 ==> exists i :: OccursAt(before, RootCAHash(), i)
      decreases fileContents.Length - startIdx
    {
      Turn(before, fileContents[..], startIdx, customCAHash);
      assert fileContents[..][startIdx..] == fileContents[startIdx..];
      var caStart := Index(fileContents[startIdx..], RootCAHash());
      if caStart == -1 {
        if startIdx == 0 {
          return Some(NoRootCA);
        }
        break;
      }
      caStart := caStart + startIdx;
      Copy(fileContents, caStart, customCAHash);
      startIdx := caStart + HASH_SIZE;
    }
    return None;
  }

  function Overwritten(s: seq<byte>, at: nat, bytes: seq<byte>): (r: seq<byte>)
    requires at + |bytes| <= |s|
    ensures |r| == |s|
  {
    s[..at] + bytes + s[at + |bytes|..]
  }

  method Copy(dst: array<byte>, at: nat, bytes: seq<byte>)
    requires at + |bytes| <= dst.Length
    modifies dst
    ensures dst[..] == Overwritten(old(dst[..]), at, bytes)
  {
    forall k | 0 <= k < |bytes| {
      dst[at + k] := bytes[k];
    }
  }

  /** Up to `at` the buffer holds what the replacement yields, and from there on the original. */
  ghost predicate Scanned(before: seq<byte>, now: seq<byte>, at: nat, hash: seq<byte>)
    requires |hash| == HASH_SIZE
  {
    && at <= |now| == |before|
    && now[at..] == before[at..]
    && now[..at] + ReplaceAll(before[at..], hash) == ReplaceAll(before, hash)
  }

  lemma {:induction false} ScanStarts(before: seq<byte>, hash: seq<byte>)
    requires |hash| == HASH_SIZE
    ensures Scanned(before, before, 0, hash)
  {
    assert before[0..] == before;
  }

  /** One turn of the scan keeps that, or finds the whole buffer replaced. */
  lemma {:induction false} Turn(before: seq<byte>, now: seq<byte>, at: nat, hash: seq<byte>)
    requires |hash| == HASH_SIZE && Scanned(before, now, at, hash)
    ensures var i := Index(now[at..], RootCAHash());
      if i == -1 then
        now == ReplaceAll(before, hash) && (at == 0 ==> forall j :: !OccursAt(before, RootCAHash(), j))
      else
        && 0 <= i && at + i + HASH_SIZE <= |now|
        && OccursAt(before, RootCAHash(), at + i)
        && Scanned(before, Overwritten(now, at + i, hash), at + i + HASH_SIZE, hash)
  {
    hide Index, RootCAHash, ReplaceAll;
    var i, rest := Index(now[at..], RootCAHash()), before[at..];
    ReplaceFirst(now[..at], rest, hash);
    if i == -1 {
      assert now == now[..at] + rest;
      assert at == 0 ==> rest == before;
    } else {
      var c := at + i;
      assert before[c..c + HASH_SIZE] == rest[i..i + HASH_SIZE];
      assert rest[i + HASH_SIZE..] == before[c + HASH_SIZE..];
      var next := Overwritten(now, c, hash);
      assert now[..c] == now[..at] + rest[..i];
      assert next[..c + HASH_SIZE] == now[..at] + rest[..i] + hash;
      assert next[c + HASH_SIZE..] == now[at..][i + HASH_SIZE..];
    }
  }

  /** What is replaced first. */
  lemma {:induction false} ReplaceFirst(prior: seq<byte>, rest: seq<byte>, hash: seq<byte>)
    requires |hash| == HASH_SIZE
    ensures var i := Index(rest, RootCAHash());
            prior + ReplaceAll(rest, hash) ==
              if i == -1 then prior + rest else prior + rest[..i] + hash + ReplaceAll(rest[i + HASH_SIZE..], hash)
  {
    hide Index, RootCAHash;
  }

  /** The fingerprint starts with a byte it holds nowhere else, so its copies cannot overlap. */
  lemma {:induction false} CopiesAreApart(s: seq<byte>, i: int, j: int)
    requires OccursAt(s, RootCAHash(), i) && i < j < i + HASH_SIZE
    ensures !OccursAt(s, RootCAHash(), j)
  {
    assert s[j] == s[i..i + HASH_SIZE][j - i] == RootCAHash()[j - i];
    assert j + HASH_SIZE <= |s| ==> s[j..j + HASH_SIZE][0] == s[j];
  }

  /** Where in the replaced bytes position `k` comes from: the copy of the fingerprint it lies in. */
  ghost predicate InCopy(s: seq<byte>, i: int, k: int) { OccursAt(s, RootCAHash(), i) && i <= k < i + HASH_SIZE }

  /** Past the first copy, the copies are those of the rest. */
  lemma {:induction false} CopiesInRest(s: seq<byte>, first: nat, i: int, k: nat)
    requires OccursAt(s, RootCAHash(), first) && first + HASH_SIZE <= k
    requires forall j :: 0 <= j < first ==> !OccursAt(s, RootCAHash(), j)
    ensures var skip := first + HASH_SIZE; InCopy(s, i, k) <==> InCopy(s[skip..], i - skip, k - skip)
  {
    hide RootCAHash;
    var skip := first + HASH_SIZE;
    if first < i < skip {
      CopiesAreApart(s, first, i);
    }
    if skip <= i <= |s| - HASH_SIZE {
      assert s[skip..][i - skip..i - skip + HASH_SIZE] == s[i..i + HASH_SIZE];
    }
  }

  ghost predicate InNoCopy(s: seq<byte>, k: int) { forall i :: !InCopy(s, i, k) }

  /** Position by position, what the replacement yields before, in and after the first copy. */
  lemma {:induction false} ReplacedAt(s: seq<byte>, hash: seq<byte>, k: nat)
    requires |hash| == HASH_SIZE && k < |s|
    ensures var first := Index(s, RootCAHash());
      if first == -1 || k < first then ReplaceAll(s, hash)[k] == s[k]
      else if k < first + HASH_SIZE then ReplaceAll(s, hash)[k] == hash[k - first]
      else ReplaceAll(s, hash)[k] == ReplaceAll(s[first + HASH_SIZE..], hash)[k - first - HASH_SIZE]
  {
    hide Index, RootCAHash;
  }

  /** Every copy of the default fingerprint is replaced, and nothing else is touched. */
  lemma {:induction false} EveryCopyIsReplaced(s: seq<byte>, hash: seq<byte>, i: int, k: nat)
    requires |hash| == HASH_SIZE && k < |s|
    ensures InCopy(s, i, k) ==> ReplaceAll(s, hash)[k] == hash[k - i]
    ensures InNoCopy(s, k) ==> ReplaceAll(s, hash)[k] == s[k]
    decreases |s|
  {
    hide Index, RootCAHash, ReplaceAll, OccursAt;
    ReplacedAt(s, hash, k);
    var first := Index(s, RootCAHash());
    var skip := first + HASH_SIZE;
    InCopyWithin(s, i, k);
    if first == -1 || k < skip {
      if first != -1 && first < i < skip { CopiesAreApart(s, first, i); }
      assert first != -1 && first <= k ==> InCopy(s, first, k);
    } else {
      CopyFits(s, first);
      EveryCopyIsReplaced(s[skip..], hash, i - skip, k - skip);
      OnlyInRest(s, first, i, k);
    }
  }

  lemma {:induction false} InCopyWithin(s: seq<byte>, i: int, k: nat)
    ensures InCopy(s, i, k) ==> 0 <= i <= |s| - HASH_SIZE
  {
  }

  lemma {:induction false} CopyFits(s: seq<byte>, i: int)
    ensures OccursAt(s, RootCAHash(), i) ==> 0 <= i <= |s| - HASH_SIZE
  {
  }

  /** A position past the first copy is in a copy exactly when it is in one of the rest. */
  lemma {:induction false} OnlyInRest(s: seq<byte>, first: nat, i: int, k: nat)
    requires OccursAt(s, RootCAHash(), first) && first + HASH_SIZE <= k
    requires forall j :: 0 <= j < first ==> !OccursAt(s, RootCAHash(), j)
    ensures var skip := first + HASH_SIZE;
      && skip <= |s| && (InCopy(s, i, k) <==> InCopy(s[skip..], i - skip, k - skip))
      && (InNoCopy(s, k) ==> InNoCopy(s[skip..], k - skip))
  {
    hide InCopy, OccursAt, RootCAHash;
    var skip := first + HASH_SIZE;
    CopyFits(s, first);
    CopiesInRest(s, first, i, k);
    var rest := s[skip..];
    if !InNoCopy(rest, k - skip) {
      var j :| InCopy(rest, j, k - skip);
      CopiesInRest(s, first, j + skip, k);
      assert InCopy(s, j + skip, k);
    }
  }

  // ------------------------------------------------------------------------- the script

  /** The placeholder is found when the first start marker comes before the first end marker. */
  function Span(contents: seq<byte>): Outcome<(nat, nat)> {
    var start, end := Index(contents, Start()), Index(contents, End());
    if start == -1 then Bad(NoStart)
    else if end == -1 then Bad(NoEnd)
    else if end < start then Bad(EndBeforeStart)
    else Good((start, end + END_SIZE))
  }

  function Newlines(n: nat): (s: seq<byte>)
    ensures |s| == n
  {
    seq(n, _ => NEWLINE)
  }

  function PatchScript(contents: seq<byte>, script: seq<byte>): Outcome<seq<byte>> {
    match Span(contents)
    case Bad(why) => Bad(why)
    case Good((start, end)) =>
      if |script| > end - start then Bad(ScriptTooLong)
      else Good(contents[..start] + script + Newlines(end - start - |script|) + contents[end..])
  }

  function PatchAll(contents: seq<byte>, script: seq<byte>, customCAHash: seq<byte>): Outcome<seq<byte>> {
    match PatchScript(contents, script)
    case Bad(why) => Bad(why)
    case Good(patched) =>
      if customCAHash == [] then Good(patched)
      else if |customCAHash| != HASH_SIZE then Bad(BadHashSize)
      else if Index(patched, RootCAHash()) == -1 then Bad(NoRootCA)
      else Good(ReplaceAll(patched, customCAHash))
  }

  lemma {:induction false} OverwritingPatches(contents: seq<byte>, script: seq<byte>, start: nat, end: nat)
    requires start <= end <= |contents| && |script| <= end - start
    ensures var newlines := Newlines(end - start - |script|);
            Overwritten(contents, start, script + newlines) == contents[..start] + script + newlines + contents[end..]
  {
  }

  /** Works on a copy: the caller's bytes stay as they are. */
  method PatchBytes(contents: array<byte>, script: seq<byte>, customCAHash: seq<byte>) returns (r: Outcome<array<byte>>)
    ensures r.Good? ==> fresh(r.value) && PatchAll(contents[..], script, customCAHash) == Good(r.value[..])
    ensures r.Bad? ==> PatchAll(contents[..], script, customCAHash) == Bad(r.why)
  {
    hide Index, Start, End, RootCAHash, ReplaceAll, Overwritten;
    var patched := new byte[contents.Length](i requires 0 <= i < contents.Length reads contents => contents[i]);
    assert patched[..] == contents[..];
    var start := Index(patched[..], Start());
    if start == -1 {
      return Bad(NoStart);
    }
    var end := Index(patched[..], End());
    if end == -1 {
      return Bad(NoEnd);
    }
    if end < start {
      return Bad(EndBeforeStart);
    }
    end := end + END_SIZE;
    if |script| > end - start {
      return Bad(ScriptTooLong);
    }
    var padded := script + Newlines(end - start - |script|);
    Copy(patched, start, padded);
    OverwritingPatches(contents[..], script, start, end);
    if |customCAHash| > 0 {
      var err := ReplaceCA(patched, customCAHash);
      if err.Some? {
        return Bad(err.value);
      }
    }
    return Good(patched);
  }

  /** Markers begin with a character they hold nowhere else, and differ; so an end marker never begins
      inside a start marker. */
  lemma {:induction false} MarkersAreApart(s: seq<byte>, i: int, j: int)
    requires OccursAt(s, Start(), i) && i <= j < i + START_SIZE
    ensures !OccursAt(s, End(), j)
  {
    assert s[j] == s[i..i + START_SIZE][j - i] == Start()[j - i];
    assert j + END_SIZE <= |s| ==> s[j..j + END_SIZE][0] == s[j];
    assert s[i + 15] == s[i..i + START_SIZE][15] == 83;
    assert i + END_SIZE <= |s| ==> s[i..i + END_SIZE][15] == s[i + 15];
  }

  /** The first occurrence. */
  ghost predicate First(s: seq<byte>, pattern: seq<byte>, i: int) {
    OccursAt(s, pattern, i) && forall k :: k < i ==> !OccursAt(s, pattern, k)
  }

  lemma {:induction false} IndexIsFirst(s: seq<byte>, pattern: seq<byte>, i: int)
    ensures First(s, pattern, i) <==> i == Index(s, pattern) && i != -1
  {
    hide Index;
    assert OccursAt(s, pattern, i) ==> 0 <= i <= |s|;
  }

  /** The placeholder spans from the first start marker to the end of the first end marker, both in it whole. */
  lemma {:induction false} SpanExactly(contents: seq<byte>)
    ensures Span(contents).Good? ==>
              var (start, end) := Span(contents).value;
              && First(contents, Start(), start) && First(contents, End(), end - END_SIZE)
              && start + START_SIZE + END_SIZE <= end <= |contents|
    ensures forall i, j :: First(contents, Start(), i) && First(contents, End(), j) && i <= j ==>
              Span(contents) == Good((i, j + END_SIZE))
  {
    hide Index, Start, End;
    var start, end := Index(contents, Start()), Index(contents, End());
    forall i { IndexIsFirst(contents, Start(), i); }
    forall j { IndexIsFirst(contents, End(), j); }
    if 0 <= start <= end < start + START_SIZE {
      MarkersAreApart(contents, start, end);
    }
  }

  /** When patching succeeds, for which bytes, and what it does to each of them. */
  lemma {:induction false} PatchFrame(contents: seq<byte>, script: seq<byte>)
    ensures PatchAll(contents, script, []).Good? <==>
            exists i, j ::
              && First(contents, Start(), i) && First(contents, End(), j)
              && i + START_SIZE <= j && |script| <= j + END_SIZE - i
    ensures PatchAll(contents, script, []).Good? ==>
              var (start, end) := Span(contents).value;
              var out := PatchAll(contents, script, []).value;
              && |out| == |contents|
              && First(contents, Start(), start) && First(contents, End(), end - END_SIZE)
              && start + START_SIZE + END_SIZE <= end
              && forall k :: 0 <= k < |contents| ==>
                   out[k] ==
                     if start <= k < start + |script| then script[k - start]
                     else if start + |script| <= k < end then NEWLINE
                     else contents[k]
  {
    hide Start, End, Span, First;
    SpanExactly(contents);
    if PatchAll(contents, script, []).Good? {
      var (start, end) := Span(contents).value;
      PatchedBytes(contents, script, start, end);
      assert First(contents, Start(), start) && First(contents, End(), end - END_SIZE);
    }
  }

  /** Byte by byte, what stands where the placeholder was. */
  lemma {:induction false} PatchedBytes(contents: seq<byte>, script: seq<byte>, start: nat, end: nat)
    requires start <= end <= |contents| && |script| <= end - start
    ensures var out := contents[..start] + script + Newlines(end - start - |script|) + contents[end..];
      && |out| == |contents|
      && forall k :: 0 <= k < |contents| ==>
           out[k] ==
             if start <= k < start + |script| then script[k - start]
             else if start + |script| <= k < end then NEWLINE
             else contents[k]
  {
  }

  /** With an operator's fingerprint: the size is kept too, and it works exactly when the script fits, the
      fingerprint has its size, and a default one is still there to replace. */
  lemma {:induction false} PatchWithCA(contents: seq<byte>, script: seq<byte>, hash: seq<byte>)
    requires hash != []
    ensures PatchAll(contents, script, hash).Good? <==>
            && PatchAll(contents, script, []).Good? && |hash| == HASH_SIZE
            && exists i :: OccursAt(PatchAll(contents, script, []).value, RootCAHash(), i)
    ensures PatchAll(contents, script, hash).Good? ==> |PatchAll(contents, script, hash).value| == |contents|
  {
    PatchFrame(contents, script);
    hide PatchScript, RootCAHash;
  }
}
