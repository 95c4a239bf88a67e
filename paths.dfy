/** The parts of Python's `str` and `os.path` (POSIX flavour) that the
    sorter uses to build and take apart paths: lower/upper casing, suffix
    tests, `rfind`, `os.path.join` of two parts, `os.path.basename` and
    the root half of `os.path.splitext`. */
module Paths {

  /** `os.sep` on POSIX. */
  const Sep: char := '/'

  /** `'.'`, `os.extsep`. */
  const Dot: char := '.'

  predicate NoSep(s: string) {
    Sep !in s
  }

  // ---------------------------------------------------------------- case

  function LowerChar(c: char): char {
    if 'A' <= c <= 'Z' then (c as int - 'A' as int + 'a' as int) as char else c
  }

  function UpperChar(c: char): char {
    if 'a' <= c <= 'z' then (c as int - 'a' as int + 'A' as int) as char else c
  }

  /** `s.lower()`, restricted to the ASCII letters. */
  function Lower(s: string): (r: string)
    ensures |r| == |s|
    ensures forall i :: 0 <= i < |s| ==> r[i] == LowerChar(s[i])
  {
    seq(|s|, i requires 0 <= i < |s| => LowerChar(s[i]))
  }

  /** `s.upper()`, restricted to the ASCII letters. */
  function Upper(s: string): (r: string)
    ensures |r| == |s|
    ensures forall i :: 0 <= i < |s| ==> r[i] == UpperChar(s[i])
  {
    seq(|s|, i requires 0 <= i < |s| => UpperChar(s[i]))
  }

  /** Lower-casing forgets how a name was cased: a lower-cased name, or an
      upper-cased one, lowers to the same string as the name itself. */
  lemma LowerForgetsCase(s: string)
    ensures Lower(Lower(s)) == Lower(s)
    ensures Lower(Upper(s)) == Lower(s)
  {
    forall i | 0 <= i < |s|
      ensures Lower(Upper(s))[i] == Lower(s)[i]
    {
      var c := s[i];
      if 'a' <= c <= 'z' {
        assert UpperChar(c) as int == c as int - 32;
      }
    }
  }

  // ------------------------------------------------------------- suffixes

  /** `s.endswith(suffix)`. */
  predicate EndsWith(s: string, suffix: string) {
    |suffix| <= |s| && s[|s| - |suffix|..] == suffix
  }

  /** `s.rfind(c)`: the index of the last `c` in `s`, or -1. */
  function RFind(s: string, c: char): (r: int)
    ensures -1 <= r < |s|
    ensures r >= 0 ==> s[r] == c
    ensures forall i :: r < i < |s| ==> s[i] != c
    ensures r == -1 <==> c !in s
  {
    if |s| == 0 then -1
    else if s[|s| - 1] == c then |s| - 1
    else RFind(s[..|s| - 1], c)
  }

  /** The three facts RFind ensures pin its result down. */
  lemma RFindUnique(s: string, c: char, r: int)
    requires -1 <= r < |s|
    requires r >= 0 ==> s[r] == c
    requires forall i :: r < i < |s| ==> s[i] != c
    ensures RFind(s, c) == r
  {
  }

  /** Appending text without `c` does not move the last `c`. */
  lemma RFindAppend(s: string, t: string, c: char)
    requires c !in t
    ensures RFind(s + t, c) == RFind(s, c)
  {
    var r := RFind(s, c);
    forall i | r < i < |s + t|
      ensures (s + t)[i] != c
    {
      if i >= |s| {
        assert (s + t)[i] == t[i - |s|];
      }
    }
    RFindUnique(s + t, c, r);
  }

  /** Cutting `s` after its last `c` keeps that `c` the last one. */
  lemma RFindPrefix(s: string, k: int, c: char)
    requires RFind(s, c) < k <= |s|
    ensures RFind(s[..k], c) == RFind(s, c)
  {
    RFindUnique(s[..k], c, RFind(s, c));
  }

  // ---------------------------------------------------------------- join

  /** What `os.path.join(a, b)` puts in front of a relative `b`: `a`
      itself when it is empty or already ends with a separator,
      otherwise `a` and one separator. */
  function JoinPrefix(a: string): (r: string)
    ensures r == [] || r[|r| - 1] == Sep
  {
    if a == [] || a[|a| - 1] == Sep then a else a + [Sep]
  }

  /** `os.path.join(a, b)`: an absolute `b` replaces `a`. */
  function Join(a: string, b: string): string {
    if |b| > 0 && b[0] == Sep then b else JoinPrefix(a) + b
  }

  /** `os.path.basename(p)`: what follows the last separator. */
  function Basename(p: string): (r: string)
    ensures NoSep(r)
  {
    p[RFind(p, Sep) + 1..]
  }

  /** The directory part of `p` up to and including its last separator
      (the head `os.path.split` returns, before it strips separators). */
  function DirPart(p: string): string {
    p[..RFind(p, Sep) + 1]
  }

  /** Every path is its directory part followed by its base name, so two
      paths in the same directory with the same base name are one path. */
  lemma DirPartBasename(p: string)
    ensures p == DirPart(p) + Basename(p)
  {
  }

  /** A relative path is appended to the folder with one separator. */
  lemma JoinRelative(folder: string, name: string)
    requires name == [] || name[0] != Sep
    ensures Join(folder, name) == JoinPrefix(folder) + name
  {
  }

  /** A relative `base.ext` is appended to the folder as it is. */
  lemma JoinDotted(folder: string, base: string, ext: string)
    requires base != [] && base[0] != Sep
    ensures Join(folder, base + [Dot] + ext) == JoinPrefix(folder) + base + [Dot] + ext
  {
    var a := JoinPrefix(folder);
    JoinRelative(folder, base + [Dot] + ext);
    calc {
      a + (base + [Dot] + ext);
      { Assoc(a, base + [Dot], ext); }
      a + (base + [Dot]) + ext;
      { Assoc(a, base, [Dot]); }
      a + base + [Dot] + ext;
    }
  }

  /** Different relative names joined onto one folder stay different. */
  lemma JoinDistinct(folder: string, x: string, y: string)
    requires x != [] && x[0] != Sep && y != [] && y[0] != Sep && x != y
    ensures Join(folder, x) != Join(folder, y)
  {
    var a := JoinPrefix(folder);
    JoinRelative(folder, x);
    JoinRelative(folder, y);
    assert (a + x)[|a|..] == x && (a + y)[|a|..] == y;
  }

  /** Two parts without separators make a whole without one. */
  lemma NoSepAppend(x: string, y: string)
    requires NoSep(x) && NoSep(y)
    ensures NoSep(x + y)
  {
    forall i | 0 <= i < |x + y| ensures (x + y)[i] != Sep {
      if i < |x| { assert x[i] in x; } else { assert y[i - |x|] in y; }
    }
  }

  /** Concatenation is associative. */
  lemma Assoc<T>(x: seq<T>, y: seq<T>, z: seq<T>)
    ensures x + y + z == x + (y + z)
  {
  }

  /** Joining a name without separators onto a folder places it in that
      folder under that very name. */
  lemma JoinName(folder: string, name: string)
    requires NoSep(name)
    ensures Join(folder, name) == JoinPrefix(folder) + name
    ensures Basename(Join(folder, name)) == name
    ensures DirPart(Join(folder, name)) == JoinPrefix(folder)
  {
    var a := JoinPrefix(folder);
    assert |name| > 0 ==> name[0] in name;
    assert Join(folder, name) == a + name;
    RFindAppend(a, name, Sep);
    if a == [] {
      assert RFind(a, Sep) == -1;
      assert a + name == name;
    } else {
      RFindUnique(a, Sep, |a| - 1);
    }
  }

  /** Inserting a separator between two names without separators can be
      undone: the first separator marks where the first name ended. */
  lemma SplitAtFirstSep(a: string, b: string, a': string, b': string)
    requires NoSep(a) && NoSep(a')
    requires a + [Sep] + b == a' + [Sep] + b'
    ensures a == a' && b == b'
  {
    var p := a + [Sep] + b;
    assert |a| == |a'| by {
      if |a| < |a'| {
        NoSepBeforeSep(a', b', a, b);
        assert false;
      } else if |a'| < |a| {
        NoSepBeforeSep(a, b, a', b');
        assert false;
      }
    }
    assert a == p[..|a|] == a';
    assert b == p[|a| + 1..] == b';
  }

  /** In `x + [Sep] + y` with `x` free of separators, a position inside
      `x` never holds one, while position `|u|` of `u + [Sep] + v` does. */
  lemma NoSepBeforeSep(x: string, y: string, u: string, v: string)
    requires NoSep(x) && |u| < |x|
    ensures (x + [Sep] + y)[|u|] != (u + [Sep] + v)[|u|]
  {
    assert (x + [Sep] + y)[|u|] == x[|u|];
    assert x[|u|] in x;
  }

  // ------------------------------------------------------------ splitext

  /** Whether `os.path.splitext(p)` finds an extension: the last dot lies
      in the last path component and something other than a dot comes
      before it in that component (leading dots do not start one). */
  predicate HasExtension(p: string) {
    var sep := RFind(p, Sep);
    var dot := RFind(p, Dot);
    sep < dot && exists i :: sep < i < dot && p[i] != Dot
  }

  /** `os.path.splitext(p)[0]`: `p` without its extension. */
  function SplitExtRoot(p: string): (root: string)
    ensures root <= p
    ensures root == p <==> !HasExtension(p)
  {
    if HasExtension(p) then p[..RFind(p, Dot)] else p
  }

  /** Dropping the extension leaves the directory part alone. */
  lemma SplitExtRootDir(p: string)
    ensures DirPart(SplitExtRoot(p)) == DirPart(p)
  {
    if HasExtension(p) {
      RFindPrefix(p, RFind(p, Dot), Sep);
    }
  }

  /** A file name `base.ext` in a folder: the root `splitext` returns is
      the folder and `base`, whenever `base` holds a character other than
      a dot and neither part holds a separator and `ext` holds no dot. */
  lemma SplitExtRootOfName(folder: string, base: string, ext: string)
    requires NoSep(base) && NoSep(ext) && Dot !in ext
    requires exists i :: 0 <= i < |base| && base[i] != Dot
    ensures SplitExtRoot(Join(folder, base + [Dot] + ext)) == JoinPrefix(folder) + base
  {
    var a := JoinPrefix(folder);
    var name := base + [Dot] + ext;
    NoSepAppend(base, [Dot]);
    NoSepAppend(base + [Dot], ext);
    JoinName(folder, name);
    var p := a + name;
    assert Join(folder, name) == p;
    var sep := RFind(p, Sep);
    RFindAppend(a, name, Sep);
    assert sep == |a| - 1 by {
      if a == [] { assert RFind(a, Sep) == -1; } else { RFindUnique(a, Sep, |a| - 1); }
    }
    var dot := |a| + |base|;
    assert p[dot] == Dot;
    forall i | dot < i < |p| ensures p[i] != Dot {
      assert p[i] == ext[i - dot - 1];
      assert ext[i - dot - 1] in ext;
    }
    RFindUnique(p, Dot, dot);
    var j :| 0 <= j < |base| && base[j] != Dot;
    assert p[|a| + j] == base[j];
    assert HasExtension(p);
    assert p[..dot] == a + base;
  }
}
