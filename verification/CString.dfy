/** Bounded copies into NUL-terminated buffers: str5cpy and str5cat. */
module CString {
  const NUL: char := '\0'

  const TRUNC: nat := 0
  const NOTRUNC: nat := 1

  const OKNOTRUNC: int := 0
  const OKTRUNC: int := 1
  const EDSTPAR: int := -1
  const ESRCPAR: int := -2
  const EMODPAR: int := -3
  const ETRUNC: int := -4

  function Min(a: nat, b: nat): nat {
    if a < b then a else b
  }

  /** Where the first NUL at or behind `from` is, or the end of the buffer when there is none. */
  function FirstNul(buf: seq<char>, from: nat): (n: nat)
    requires from <= |buf|
    ensures from <= n <= |buf| && (n < |buf| ==> buf[n] == NUL)
    ensures forall k :: from <= k < n ==> buf[k] != NUL
    decreases |buf| - from
  {
    if from == |buf| || buf[from] == NUL then from else FirstNul(buf, from + 1)
  }

  function StrLen(buf: seq<char>): nat {
    FirstNul(buf, 0)
  }

  /** The string a buffer holds: everything in front of its first NUL. */
  function Text(buf: seq<char>): string {
    buf[..StrLen(buf)]
  }

  lemma {:induction false} StrLenUnique(buf: seq<char>, n: nat)
    requires n <= |buf| && (n < |buf| ==> buf[n] == NUL)
    requires forall k :: 0 <= k < n ==> buf[k] != NUL
    ensures StrLen(buf) == n
  {
  }

  function Take(s: string, n: nat): (r: string)
    ensures r <= s && |r| == if |s| < n then |s| else n
  {
    s[..Min(|s|, n)]
  }

  /** The longest string a source can contribute when at most nb characters are asked for. */
  function Wanted(src: seq<char>, nb: nat): (r: string)
    ensures |r| <= nb && r <= src && NUL !in r
    ensures |r| < nb && |r| < |src| ==> src[|r|] == NUL
  {
    Take(Text(src), nb)
  }

  /** A buffer that holds s and is NUL from there on. */
  ghost predicate Padded(buf: seq<char>, s: string) {
    |s| <= |buf| && forall i :: 0 <= i < |buf| ==> buf[i] == if i < |s| then s[i] else NUL
  }

  /** The scans of both functions: up to `bound` characters, or up to the first NUL. */
  method Scan(buf: array<char>, bound: nat) returns (n: nat)
    requires NUL in buf[..] || bound <= buf.Length
    ensures n == Min(StrLen(buf[..]), bound)
    ensures bound <= buf.Length ==> n == StrLen(buf[..bound])
  {
    n := 0;
    while n < bound && buf[n] != NUL
      invariant n <= bound && n <= buf.Length
      invariant forall k :: 0 <= k < n ==> buf[k] != NUL
      invariant NUL in buf[..] ==> n < buf.Length
    {
      n := n + 1;
    }
    assert n < bound ==> StrLen(buf[..]) == n by {
      if n < bound {
        StrLenUnique(buf[..], n);
      }
    }
    if bound <= buf.Length {
      StrLenUnique(buf[..bound], n);
    }
  }

  /** Bounded copy, padding the rest of the destination with NULs. */
  method Str5Cpy(dst: array?<char>, dstsize: nat, src: array?<char>, nb: nat, mode: nat) returns (rc: int)
    requires dst != null ==> dstsize <= dst.Length && dst != src
    requires src != null ==> NUL in src[..] || dstsize <= src.Length
    modifies dst
    ensures rc == EDSTPAR <==> dst == null || dstsize == 0
    ensures rc == ESRCPAR <==> rc != EDSTPAR && src == null
    ensures rc == EMODPAR <==> rc != EDSTPAR && rc != ESRCPAR && mode > NOTRUNC
    ensures rc in {OKNOTRUNC, OKTRUNC, EDSTPAR, ESRCPAR, EMODPAR, ETRUNC}
    ensures rc == OKNOTRUNC ==> |Wanted(src[..], nb)| < dstsize
    ensures rc == OKTRUNC ==> |Wanted(src[..], nb)| >= dstsize && mode == TRUNC
    ensures rc == ETRUNC ==> |Wanted(src[..], nb)| >= dstsize && mode == NOTRUNC
    ensures rc < 0 && dst != null ==> dst[..] == old(dst[..])
    ensures rc >= 0 ==> dst[dstsize..] == old(dst[dstsize..])
    ensures rc >= 0 ==> Padded(dst[..dstsize], Take(Wanted(src[..], nb), dstsize - 1))
  {
    if dst == null || dstsize == 0 {
      return EDSTPAR;
    }
    if src == null {
      return ESRCPAR;
    }
    if mode != TRUNC && mode != NOTRUNC {
      return EMODPAR;
    }
    rc := Copy(dst, dstsize, src, nb, mode);
  }

  /** str5cpy once its parameters are known to be good. */
  method Copy(dst: array<char>, dstsize: nat, src: array<char>, nb: nat, mode: nat) returns (rc: int)
    requires 0 < dstsize <= dst.Length && dst != src && mode <= NOTRUNC
    requires NUL in src[..] || dstsize <= src.Length
    modifies dst
    ensures rc == if |Wanted(src[..], nb)| < dstsize then OKNOTRUNC else if mode == TRUNC then OKTRUNC else ETRUNC
    ensures rc < 0 ==> forall i :: 0 <= i < dst.Length ==> dst[i] == old(dst[i])
    ensures rc >= 0 ==> var kept := Take(Wanted(src[..], nb), dstsize - 1);
                        forall i :: 0 <= i < dst.Length ==>
                          dst[i] == if i < |kept| then kept[i] else if i < dstsize then NUL else old(dst[i])
  {
    ghost var want := Wanted(src[..], nb);
    if nb == 0 {
      MemSet(dst, 0, dstsize);
      return OKNOTRUNC;
    }
    var srclen := Scan(src, dstsize);
    WantedAfterScan(src[..], srclen, dstsize, nb);
    if srclen == 0 {
      MemSet(dst, 0, dstsize);
      return OKNOTRUNC;
    }
    var count := if nb > srclen then srclen else nb;
    if dstsize <= count {
      if mode == TRUNC {
        MemCpy(dst, 0, src, dstsize - 1);
        dst[dstsize - 1] := NUL;
        return OKTRUNC;
      } else {
        return ETRUNC;
      }
    }
    MemCpy(dst, 0, src, count);
    MemSet(dst, count, dstsize);
    return OKNOTRUNC;
  }

  /** What the bounded scan tells about the string wanted: it fits, or only its first characters do. */
  lemma {:induction false} WantedAfterScan(src: seq<char>, n: nat, bound: nat, nb: nat)
    requires n == Min(StrLen(src), bound) && 0 < bound
    ensures Min(nb, n) < bound ==> |Wanted(src, nb)| < bound && Wanted(src, nb) == src[..Min(nb, n)]
    ensures Min(nb, n) < bound ==> Take(Wanted(src, nb), bound - 1) == src[..Min(nb, n)]
    ensures Min(nb, n) >= bound ==> |Wanted(src, nb)| >= bound
    ensures Min(nb, n) >= bound ==> Take(Wanted(src, nb), bound - 1) == src[..bound - 1]
  {
  }

  /** A padded buffer holds exactly the string it was padded from. */
  lemma {:induction false} PaddedText(buf: seq<char>, s: string)
    requires |s| < |buf| && NUL !in s && Padded(buf, s)
    ensures Text(buf) == s
  {
    StrLenUnique(buf, |s|);
  }

  /** Bounded append behind the string the destination already holds. */
  method Str5Cat(dst: array?<char>, dstsize: nat, src: array?<char>, nb: nat, mode: nat) returns (rc: int)
    requires dst != null ==> dstsize <= dst.Length && dst != src
    requires dst != null && src != null ==>
               NUL in src[..] || dstsize <= StrLen(dst[..dstsize]) + src.Length
    modifies dst
    ensures rc == ESRCPAR <==> dst != null && dstsize > 0 && src == null
    ensures rc == EMODPAR <==> dst != null && dstsize > 0 && src != null && mode > NOTRUNC
    ensures rc == EDSTPAR <==> dst == null || dstsize == 0 ||
                               (src != null && mode <= NOTRUNC && NUL !in old(dst[..dstsize]))
    ensures rc in {OKNOTRUNC, OKTRUNC, EDSTPAR, ESRCPAR, EMODPAR, ETRUNC}
    ensures rc !in {EDSTPAR, ESRCPAR, EMODPAR} ==>
              var fits := |old(Text(dst[..dstsize]))| + |Wanted(src[..], nb)| < dstsize;
              rc == if fits then OKNOTRUNC else if mode == TRUNC then OKTRUNC else ETRUNC
    ensures rc < 0 && dst != null ==> dst[..] == old(dst[..])
    ensures rc >= 0 ==> dst[dstsize..] == old(dst[dstsize..])
    ensures rc >= 0 ==> NUL in dst[..dstsize]
    ensures rc >= 0 ==>
              Text(dst[..dstsize]) == Take(old(Text(dst[..dstsize])) + Wanted(src[..], nb), dstsize - 1)
  {
    if dst == null || dstsize == 0 {
      return EDSTPAR;
    }
    if src == null {
      return ESRCPAR;
    }
    if mode != TRUNC && mode != NOTRUNC {
      return EMODPAR;
    }
    rc := AppendToText(dst, dstsize, src, nb, mode);
  }

  /** str5cat once its parameters are known to be good. */
  method AppendToText(dst: array<char>, dstsize: nat, src: array<char>, nb: nat, mode: nat) returns (rc: int)
    requires 0 < dstsize <= dst.Length && dst != src && mode <= NOTRUNC
    requires NUL in src[..] || dstsize <= StrLen(dst[..dstsize]) + src.Length
    modifies dst
    ensures var fits := |old(Text(dst[..dstsize]))| + |Wanted(src[..], nb)| < dstsize;
            rc == if NUL !in old(dst[..dstsize]) then EDSTPAR
                  else if fits then OKNOTRUNC
                  else if mode == TRUNC then OKTRUNC else ETRUNC
    ensures rc < 0 ==> dst[..] == old(dst[..])
    ensures rc >= 0 ==> NUL in dst[..dstsize] && dst[dstsize..] == old(dst[dstsize..])
    ensures rc >= 0 ==>
              Text(dst[..dstsize]) == Take(old(Text(dst[..dstsize])) + Wanted(src[..], nb), dstsize - 1)
  {
    var dstlen := Scan(dst, dstsize);
    if dstlen == dstsize {
      return EDSTPAR;
    }
    ghost var was, want := dst[..], Wanted(src[..], nb);
    rc := Append(dst, dstsize, dstlen, src, nb, mode);
    hide StrLen, Text, Wanted, Take;
    if rc >= 0 {
      AppendedText(was, dst[..], dstsize, dstlen, want);
    }
  }

  /** What a successful append makes of the destination. */
  lemma {:induction false} AppendedText(was: seq<char>, now: seq<char>, dstsize: nat, dstlen: nat, want: string)
    requires dstlen < dstsize <= |was| == |now| && dstlen == StrLen(was[..dstsize]) && NUL !in want
    requires var added := Take(want, dstsize - dstlen - 1);
             forall i :: 0 <= i < |now| ==>
               now[i] == if dstlen <= i < dstlen + |added| then added[i - dstlen]
                         else if i == dstlen + |added| then NUL else was[i]
    ensures NUL in now[..dstsize] && now[dstsize..] == was[dstsize..]
    ensures Text(now[..dstsize]) == Take(Text(was[..dstsize]) + want, dstsize - 1)
  {
    var held := was[..dstlen];
    HoldsNow(now[..dstsize], held, Take(want, dstsize - dstlen - 1));
    TakeOfConcat(held, want, dstsize - 1);
  }

  /** str5cat once the end of the destination's string is known. */
  method Append(dst: array<char>, dstsize: nat, dstlen: nat, src: array<char>, nb: nat, mode: nat) returns (rc: int)
    requires dstlen < dstsize <= dst.Length && dst[dstlen] == NUL && dst != src && mode <= NOTRUNC
    requires NUL in src[..] || dstsize - dstlen <= src.Length
    modifies dst
    ensures rc == if |Wanted(src[..], nb)| < dstsize - dstlen then OKNOTRUNC
                  else if mode == TRUNC then OKTRUNC else ETRUNC
    ensures rc < 0 ==> forall i :: 0 <= i < dst.Length ==> dst[i] == old(dst[i])
    ensures rc >= 0 ==> var added := Take(Wanted(src[..], nb), dstsize - dstlen - 1);
                        forall i :: 0 <= i < dst.Length ==>
                          dst[i] == if dstlen <= i < dstlen + |added| then added[i - dstlen]
                                    else if i == dstlen + |added| then NUL else old(dst[i])
  {
    if nb == 0 {
      return OKNOTRUNC;
    }
    var remain := dstsize - dstlen;
    var srclen := Scan(src, remain);
    WantedAfterScan(src[..], srclen, remain, nb);
    if srclen == 0 {
      return OKNOTRUNC;
    }
    var count := if nb > srclen then srclen else nb;
    if remain <= count {
      if mode == TRUNC {
        MemCpy(dst, dstlen, src, remain - 1);
        dst[dstsize - 1] := NUL;
        return OKTRUNC;
      } else {
        return ETRUNC;
      }
    }
    MemCpy(dst, dstlen, src, count);
    dst[dstlen + count] := NUL;
    return OKNOTRUNC;
  }

  lemma {:induction false} TakeOfConcat(held: string, want: string, n: nat)
    requires |held| <= n
    ensures Take(held + want, n) == held + Take(want, n - |held|)
  {
  }

  lemma {:induction false} HoldsNow(buf: seq<char>, held: string, added: string)
    requires |held| + |added| < |buf| && NUL !in held && NUL !in added
    requires forall k :: 0 <= k < |held| ==> buf[k] == held[k]
    requires forall k :: 0 <= k < |added| ==> buf[|held| + k] == added[k]
    requires buf[|held| + |added|] == NUL
    ensures Text(buf) == held + added && NUL in buf
  {
    var n := |held| + |added|;
    forall k | 0 <= k < n ensures buf[k] == (held + added)[k] {
      if k >= |held| {
        assert buf[|held| + (k - |held|)] == added[k - |held|];
      }
    }
    assert forall k :: 0 <= k < n ==> (held + added)[k] != NUL;
    StrLenUnique(buf, n);
  }

  /** memset(dst + from, '\0', to - from) */
  method MemSet(dst: array<char>, from: nat, to: nat)
    requires from <= to <= dst.Length
    modifies dst
    ensures forall i :: 0 <= i < dst.Length ==> dst[i] == if from <= i < to then NUL else old(dst[i])
  {
    forall i | from <= i < to {
      dst[i] := NUL;
    }
  }

  /** memcpy(dst + at, src, n) */
  method MemCpy(dst: array<char>, at: nat, src: array<char>, n: nat)
    requires at + n <= dst.Length && n <= src.Length && dst != src
    modifies dst
    ensures forall i :: 0 <= i < dst.Length ==> dst[i] == if at <= i < at + n then src[i - at] else old(dst[i])
  {
    forall i | at <= i < at + n {
      dst[i] := src[i - at];
    }
  }

  /** A truncating copy of `first` followed by truncating appends of `parts`, on a size-byte buffer. */
  function Built(first: string, parts: seq<string>, size: nat): string
    requires size > 0
  {
    if parts == [] then Take(first, size - 1)
    else Take(Built(first, parts[..|parts| - 1], size) + parts[|parts| - 1], size - 1)
  }

  function Concat(parts: seq<string>): string {
    if parts == [] then [] else Concat(parts[..|parts| - 1]) + parts[|parts| - 1]
  }

  lemma {:induction false} TakeTwice(whole: string, last: string, n: nat)
    ensures Take(Take(whole, n) + last, n) == Take(whole + last, n)
  {
  }

  /** Truncating step by step loses nothing over truncating once at the end. */
  lemma {:induction false} BuiltIsTruncatedConcat(first: string, parts: seq<string>, size: nat)
    requires size > 0
    ensures Built(first, parts, size) == Take(first + Concat(parts), size - 1)
  {
    if parts == [] {
      assert first + Concat(parts) == first;
    } else {
      var front, last := parts[..|parts| - 1], parts[|parts| - 1];
      hide Take;
      BuiltIsTruncatedConcat(first, front, size);
      var whole := first + Concat(front);
      assert first + Concat(parts) == whole + last;
      TakeTwice(whole, last, size - 1);
    }
  }

  /** A truncating copy of the whole source into the whole buffer. */
  method CopyText(dst: array<char>, src: array<char>)
    requires dst.Length > 0 && dst != src && NUL in src[..]
    modifies dst
    ensures NUL in dst[..] && Text(dst[..]) == Take(Text(src[..]), dst.Length - 1)
  {
    ghost var want := Text(src[..]);
    var rc := Str5Cpy(dst, dst.Length, src, src.Length, TRUNC);
    assert dst[..dst.Length] == dst[..];
    PaddedText(dst[..], Take(want, dst.Length - 1));
  }

  /** A truncating append of the whole source. */
  method AppendText(dst: array<char>, src: array<char>)
    requires NUL in dst[..] && dst != src && NUL in src[..]
    modifies dst
    ensures NUL in dst[..] && Text(dst[..]) == Take(old(Text(dst[..])) + Text(src[..]), dst.Length - 1)
  {
    assert dst[..dst.Length] == dst[..];
    var rc := Str5Cat(dst, dst.Length, src, src.Length, TRUNC);
    assert dst[..dst.Length] == dst[..];
  }

  /** One truncating copy and any number of truncating appends hold as much of the concatenation as fits. */
  method CopyThenAppend(dst: array<char>, first: array<char>, parts: seq<array<char>>, ghost texts: seq<string>)
    requires dst.Length > 0 && dst != first && dst !in parts && NUL in first[..]
    requires |texts| == |parts|
    requires forall i :: 0 <= i < |parts| ==> NUL in parts[i][..] && Text(parts[i][..]) == texts[i]
    modifies dst
    ensures NUL in dst[..]
    ensures Text(dst[..]) == Take(old(Text(first[..])) + Concat(texts), dst.Length - 1)
  {
    hide Text, Take;
    ghost var start := Text(first[..]);
    CopyText(dst, first);
    for i := 0 to |parts|
      invariant NUL in dst[..] && Text(dst[..]) == Built(start, texts[..i], dst.Length)
    {
      AppendText(dst, parts[i]);
      assert texts[..i + 1][..i] == texts[..i];
    }
    assert texts[..|parts|] == texts;
    BuiltIsTruncatedConcat(start, texts, dst.Length);
  }

  /** Copying a string that fits the field it came from into another such field never truncates it. */
  lemma {:induction false} FieldCopyIsExact(src: seq<char>, size: nat)
    requires |Text(src)| < size
    ensures |Wanted(src, size)| < size && Take(Wanted(src, size), size - 1) == Text(src)
  {
  }
}
