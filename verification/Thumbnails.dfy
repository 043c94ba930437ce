/** How Nickel names thumbnails: directory hashes on FW 4.x, munged paths on FW 5.x. */
module Thumbnails {
  import opened CString
  import opened Bits

  const UINT_MAX: nat := 0xffff_ffff

  /** An unsigned int of the target: 32 bits, wrapping around. */
  function Wrap(x: nat): (r: nat)
    ensures r <= UINT_MAX
  {
    x % 0x1_0000_0000
  }

  // ---- FW 4.x: qhash ----

  /** The three updates of a round, with every result kept to 32 bits. */
  function Round32(h: nat, b: byte): nat {
    var sum := Wrap(Wrap(Shl(h, 4)) + b);
    var folded := Wrap(Xor(sum, Shr(And(sum, 0xf000_0000), 23)));
    And(folded, 0x0fff_ffff)
  }

  /** The same round over unbounded numbers. */
  function RoundNat(h: nat, b: byte): nat {
    var sum := Shl(h, 4) + b;
    var folded := Xor(sum, Shr(And(sum, 0xf000_0000), 23));
    And(folded, 0x0fff_ffff)
  }

  function HashNat(bytes: seq<byte>): nat {
    if bytes == [] then 0 else RoundNat(HashNat(bytes[..|bytes| - 1]), bytes[|bytes| - 1])
  }

  const P28: nat := 0x1000_0000

  lemma {:induction false} Constants()
    ensures Shl(1, 28) == P28 && Shl(15, 28) == 0xf000_0000 && Ones(28) == 0x0fff_ffff
    ensures Shl(1, 8) == 256 && Ones(8) == 0xff && Shl(Ones(8), 8) == 0xff00 && Ones(4) == 15 && Shl(1, 4) == 16
    ensures Shl(1, 5) == 32
  {
    assert Shl(1, 4) == 16 && Shl(15, 4) == 240 && Ones(4) == 15;
    assert Shl(1, 8) == 256 && Shl(15, 8) == 15 * 256 && Ones(8) == 255;
    assert Shl(1, 12) == 0x1000 && Shl(15, 12) == 0xf000 && Ones(12) == 0xfff;
    assert Shl(1, 16) == 0x1_0000 && Shl(15, 16) == 0xf_0000 && Ones(16) == 0xffff;
    assert Shl(1, 20) == 0x10_0000 && Shl(15, 20) == 0xf0_0000 && Ones(20) == 0xf_ffff;
    assert Shl(1, 24) == 0x100_0000 && Shl(15, 24) == 0xf00_0000 && Ones(24) == 0xff_ffff;
  }

  /** What a round keeps, given the last 28 bits of its sum and the four bits above them. */
  function Fold(low: nat, top: nat): nat {
    Xor(low, Shl(top, 5) % P28)
  }

  /** The four bits above the last 28, moved down to bit 5. */
  lemma {:induction false} TopBits(sum: nat)
    ensures Shr(And(sum, 0xf000_0000), 23) == Shl(sum / P28 % 16, 5)
  {
    var y := Shr(sum, 28);
    Constants();
    AndShifted(sum, 15, 28);
    AndOnes(y, 4);
    LowIsMod(y, 4);
    LowIsMod(sum, 28);
    ShlAdd(y % 16, 5, 23);
    ShlShr(Shl(y % 16, 5), 23);
  }

  lemma {:induction false} MaskIsMod(z: nat)
    ensures And(z, 0x0fff_ffff) == Low(z, 28) == z % P28
  {
    Constants();
    AndOnes(z, 28);
    LowIsMod(z, 28);
  }

  lemma {:induction false} MaskXor(a: nat, b: nat)
    ensures And(Xor(a, b), 0x0fff_ffff) == Xor(a % P28, b % P28) < P28
  {
    hide And, Xor, Low;
    MaskIsMod(Xor(a, b));
    LowXor(a, b, 28);
    MaskIsMod(a);
    MaskIsMod(b);
  }

  lemma {:induction false} FoldIs(sum: nat)
    ensures And(Xor(sum, Shr(And(sum, 0xf000_0000), 23)), 0x0fff_ffff) == Fold(sum % P28, sum / P28 % 16) < P28
  {
    hide And, Xor, Shl, Shr, Low;
    TopBits(sum);
    MaskXor(sum, Shl(sum / P28 % 16, 5));
  }

  lemma {:induction false} RoundIsFold(h: nat, b: byte)
    ensures var sum := Shl(h, 4) + b; RoundNat(h, b) == Fold(sum % P28, sum / P28 % 16) < P28
  {
    hide And, Xor, Shl, Shr, Fold;
    FoldIs(Shl(h, 4) + b);
  }

  lemma {:induction false} WrapKeeps(x: nat)
    ensures Wrap(x) % P28 == x % P28 && Wrap(x) / P28 % 16 == x / P28 % 16
  {
  }

  lemma {:induction false} WrapTwice(x: nat, b: byte)
    ensures Wrap(Wrap(x) + b) == Wrap(x + b)
  {
  }

  lemma {:induction false} Round32IsFold(h: nat, b: byte)
    ensures var sum := Shl(h, 4) + b; Round32(h, b) == Fold(sum % P28, sum / P28 % 16)
  {
    hide And, Xor, Shl, Shr, Fold, Low, Wrap;
    var exact := Shl(h, 4) + b;
    WrapTwice(Shl(h, 4), b);
    WrapKeeps(exact);
    var sum := Wrap(exact);
    var xored := Xor(sum, Shr(And(sum, 0xf000_0000), 23));
    FoldIs(sum);
    WrapKeeps(xored);
    MaskIsMod(xored);
    MaskIsMod(Wrap(xored));
  }

  /** Wrapping around at 32 bits never shows in a round, even where the shifted hash does not fit. */
  lemma {:induction false} RoundsAgree(h: nat, b: byte)
    ensures Round32(h, b) == RoundNat(h, b) < P28
  {
    hide *;
    Round32IsFold(h, b);
    RoundIsFold(h, b);
  }

  lemma {:induction false} HashFits(bytes: seq<byte>)
    ensures HashNat(bytes) < P28
  {
    if bytes != [] {
      RoundIsFold(HashNat(bytes[..|bytes| - 1]), bytes[|bytes| - 1]);
    }
  }

  lemma {:induction false} HashNext(bytes: seq<byte>, i: nat)
    ensures HashNat([]) == 0
    ensures i < |bytes| ==> HashNat(bytes[..i + 1]) == RoundNat(HashNat(bytes[..i]), bytes[i])
  {
    if i < |bytes| {
      assert bytes[..i + 1][..i] == bytes[..i];
    }
  }

  /** qhash over the bytes of an image id; its 32-bit counter reaches the end of no longer input. */
  method QHash(bytes: array<byte>) returns (h: nat)
    requires bytes.Length <= UINT_MAX
    ensures h == HashNat(bytes[..]) < P28
  {
    hide Shl, Shr, And, Xor, Wrap, RoundNat, HashNat;
    h := 0;
    var i := 0;
    HashNext(bytes[..], 0);
    HashFits(bytes[..]);
    while i < bytes.Length
      invariant i <= bytes.Length && h == HashNat(bytes[..i])
    {
      HashNext(bytes[..], i);
      RoundsAgree(h, bytes[i]);
      h := Wrap(Wrap(Shl(h, 4)) + bytes[i]);
      h := Wrap(Xor(h, Shr(And(h, 0xf000_0000), 23)));
      h := And(h, 0x0fff_ffff);
      i := i + 1;
    }
    assert bytes[..i] == bytes[..];
  }

  /** The hash in arithmetic: sixteen times the last one plus the byte, with four bits folded back in at bit 5. */
  lemma {:induction false} HashRecurrence(bytes: seq<byte>, b: byte)
    ensures HashNat([]) == 0
    ensures var sum := 16 * HashNat(bytes) + b;
            HashNat(bytes + [b]) == Xor(sum % 0x1000_0000, 32 * (sum / 0x1000_0000 % 16))
  {
    hide Xor, And, Shr, Shl, Ones, Fold, RoundNat;
    var h := HashNat(bytes);
    HashNext(bytes + [b], |bytes|);
    assert (bytes + [b])[..|bytes|] == bytes && (bytes + [b])[..|bytes| + 1] == bytes + [b];
    ShlIsTimes(h, 4);
    Constants();
    RoundIsFold(h, b);
    FoldInNumbers(16 * h + b);
  }

  lemma {:induction false} FoldInNumbers(sum: nat)
    ensures Fold(sum % P28, sum / P28 % 16) == Xor(sum % 0x1000_0000, 32 * (sum / 0x1000_0000 % 16))
  {
    hide Xor;
    var top := sum / P28 % 16;
    Constants();
    ShlIsTimes(top, 5);
    assert 32 * top < P28;
  }

  /** The two directory numbers of FW 4.x are the last two bytes of the hash. */
  lemma {:induction false} ImageDirectories(hash: nat)
    ensures And(hash, 0xff) == hash % 256
    ensures Shr(And(hash, 0xff00), 8) == hash / 256 % 256
  {
    Constants();
    AndOnes(hash, 8);
    LowIsMod(hash, 8);
    var y := Shr(hash, 8);
    AndShifted(hash, Ones(8), 8);
    AndOnes(y, 8);
    LowIsMod(y, 8);
    ShlShr(y % 256, 8);
  }

  // ---- FW 5.x: munged paths ----

  predicate Invalid(c: char) {
    c in {'.', ' ', ':', '/', '\\', '*', '<', '>', '"', '?', '|'}
  }

  function MungeChar(c: char): char {
    if Invalid(c) then '_' else c
  }

  function Munge(s: string): (r: string)
    ensures |r| == |s| && forall i :: 0 <= i < |s| ==> r[i] == MungeChar(s[i])
  {
    seq(|s|, i requires 0 <= i < |s| => MungeChar(s[i]))
  }

  method ReplaceInvalidChars(str: array<char>)
    requires NUL in str[..]
    modifies str
    ensures forall i :: 0 <= i < str.Length ==>
              str[i] == if i < StrLen(old(str[..])) then MungeChar(old(str[i])) else old(str[i])
  {
    ghost var was := str[..];
    var p := 0;
    while str[p] != NUL
      invariant p <= StrLen(was) < str.Length
      invariant forall i :: 0 <= i < str.Length ==> str[i] == if i < p then MungeChar(was[i]) else was[i]
      decreases str.Length - p
    {
      if Invalid(str[p]) {
        str[p] := '_';
      }
      p := p + 1;
    }
  }

  /** Where the last dot is, or -1. */
  function LastDot(s: string): (d: int)
    ensures -1 <= d < |s| && (d >= 0 ==> s[d] == '.')
    ensures forall i :: d < i < |s| ==> s[i] != '.'
  {
    if s == [] then -1
    else if s[|s| - 1] == '.' then |s| - 1
    else LastDot(s[..|s| - 1])
  }

  method StrRChr(str: array<char>) returns (at: int)
    requires NUL in str[..]
    ensures at == LastDot(Text(str[..]))
  {
    at := -1;
    var p := 0;
    while str[p] != NUL
      invariant p <= StrLen(str[..]) < str.Length
      invariant -1 <= at < p && (at >= 0 ==> str[at] == '.')
      invariant forall i :: at < i < p ==> str[i] != '.'
      decreases str.Length - p
    {
      if str[p] == '.' {
        at := p;
      }
      p := p + 1;
    }
  }

  /** Both names of a path: only what is in front of the last dot is munged, then the dot is kept or swapped. */
  function WithDot(path: string, dot: char): (r: string)
    ensures |r| == |path|
  {
    var d := LastDot(path);
    if d < 0 then Munge(path) else Munge(path[..d]) + [dot] + path[d + 1..]
  }

  method MungedPaths(bookPath: array<char>) returns (v56: string, v5: string)
    requires NUL in bookPath[..]
    ensures v56 == WithDot(Text(bookPath[..]), '.')
    ensures v5 == WithDot(Text(bookPath[..]), '_')
  {
    hide WithDot, LastDot, StrLen;
    ghost var path := Text(bookPath[..]);
    var munged := Duplicate(bookPath);
    var ext := StrRChr(munged);
    MungeBase(munged, ext, path);
    v56 := TextOf(munged);
    ghost var was := munged[..];
    if ext >= 0 {
      munged[ext] := '_';
    }
    SwapDot(was, munged[..], path);
    v5 := TextOf(munged);
  }

  method Duplicate(bookPath: array<char>) returns (copy: array<char>)
    requires NUL in bookPath[..]
    ensures fresh(copy) && Holds(copy[..], Text(bookPath[..])) && Text(copy[..]) == Text(bookPath[..])
  {
    copy := new char[bookPath.Length];
    var rc := Copy(copy, copy.Length, bookPath, copy.Length, NOTRUNC);
    HoldsText(copy[..], Text(bookPath[..]));
  }

  lemma {:induction false} SwapDot(was: seq<char>, now: seq<char>, path: string)
    requires Holds(was, WithDot(path, '.')) && NUL !in path
    requires var d := LastDot(path); now == if d >= 0 then was[d := '_'] else was
    ensures Text(now) == WithDot(path, '_') && NUL in now
  {
  }

  /** The buffer starts with the text s and its terminator. */
  ghost predicate Holds(buf: seq<char>, s: string) {
    |s| < |buf| && buf[|s|] == NUL && NUL !in s && forall i :: 0 <= i < |s| ==> buf[i] == s[i]
  }

  lemma {:induction false} HoldsText(buf: seq<char>, s: string)
    requires Holds(buf, s)
    ensures Text(buf) == s && NUL in buf
  {
  }

  /** Munge in front of the extension only, by ending the string there for a moment. */
  method MungeBase(munged: array<char>, ext: int, ghost path: string)
    requires Holds(munged[..], path) && ext == LastDot(path)
    modifies munged
    ensures Holds(munged[..], WithDot(path, '.')) && NUL in munged[..]
    ensures Text(munged[..]) == WithDot(path, '.')
  {
    if ext >= 0 {
      munged[ext] := NUL;
      StrLenUnique(munged[..], ext);
    } else {
      StrLenUnique(munged[..], |path|);
    }
    ReplaceInvalidChars(munged);
    if ext >= 0 {
      munged[ext] := '.';
    }
    HoldsText(munged[..], WithDot(path, '.'));
  }

  method TextOf(str: array<char>) returns (s: string)
    requires NUL in str[..]
    ensures s == Text(str[..])
  {
    var n := Scan(str, str.Length);
    s := str[..n];
  }

  /** Whether a path's extension has something to munge. */
  predicate CleanExtension(path: string) {
    var d := LastDot(path);
    d >= 0 ==> forall i :: d < i < |path| ==> !Invalid(path[i])
  }

  lemma {:induction false} WithDotAt(path: string, dot: char, i: nat)
    requires i < |path|
    ensures WithDot(path, dot)[i] ==
              var d := LastDot(path);
              if d < 0 || i < d then MungeChar(path[i]) else if i == d then dot else path[i]
  {
  }

  /** Munging in front of the dot and swapping it is munging the whole path, unless the extension needs it too. */
  lemma {:induction false} ShortcutIsMunge(path: string)
    ensures WithDot(path, '_') == Munge(path) <==> CleanExtension(path)
  {
  }

  /** FW 5.6 differs at the last dot, and only there. */
  lemma {:induction false} VariantsDifferAtTheDot(path: string)
    ensures forall i: nat :: i < |path| ==>
              (WithDot(path, '.')[i] != WithDot(path, '_')[i] <==> i == LastDot(path))
    ensures WithDot(path, '.') == WithDot(path, '_') <==> '.' !in path
  {
    forall i: nat | i < |path|
      ensures WithDot(path, '.')[i] != WithDot(path, '_')[i] <==> i == LastDot(path)
    {
      WithDotAt(path, '.', i);
      WithDotAt(path, '_', i);
    }
    var d := LastDot(path);
    assert d >= 0 ==> WithDot(path, '.')[d] != WithDot(path, '_')[d];
  }

  /** Munging twice is munging once, and leaves alone exactly what has nothing to munge. */
  lemma {:induction false} MungeIdempotent(s: string)
    ensures Munge(Munge(s)) == Munge(s)
    ensures forall c :: c in Munge(s) ==> !Invalid(c)
    ensures Munge(s) == s <==> forall c :: c in s ==> !Invalid(c)
  {
  }

  /** The eleven characters that cannot be in a name. */
  lemma {:induction false} MungedCharacters()
    ensures Munge(". :/\\*<>\"?|aZ0_-") == "___________aZ0_-"
  {
  }

  /** A dot in a directory name: the shortcut leaves the rest of the path as it was. */
  lemma {:induction false} ShortcutFallsShort()
    ensures WithDot("a.b/c", '_') == "a_b/c" && Munge("a.b/c") == "a_b_c"
  {
    var p := "a.b/c";
    assert p[..4] == "a.b/" && p[..3] == "a.b" && p[..2] == "a.";
    assert LastDot("a.") == 1 && LastDot("a.b") == 1 && LastDot("a.b/") == 1 && LastDot(p) == 1;
    assert p[..1] == "a";
  }
}
