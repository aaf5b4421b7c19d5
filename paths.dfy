/**
  The three `os.path` helpers the script relies on, for POSIX paths:
  `join` of two parts, `basename`, and the extension half of `splitext`,
  plus the ASCII part of `str.lower`.
*/
module Paths {

  /** `os.path.join(a, b)`: an absolute `b` replaces `a`; otherwise one '/' separates them. */
  function Join(a: string, b: string): string
  {
    if |b| > 0 && b[0] == '/' then b
    else if a == [] || a[|a| - 1] == '/' then a + b
    else a + "/" + b
  }

  /**
    The joined path ends with `b`; an absolute `b` is the whole result, and a
    relative one comes after `a`, with a '/' added exactly when `a` is non-empty
    and does not already end in one.
  */
  lemma JoinShape(a: string, b: string)
    ensures |b| > 0 && b[0] == '/' ==> Join(a, b) == b
    ensures |b| <= |Join(a, b)| && Join(a, b)[|Join(a, b)| - |b|..] == b
    ensures (|b| == 0 || b[0] != '/') ==>
      |a| <= |Join(a, b)| <= |a| + 1 + |b| && Join(a, b)[..|a|] == a
    ensures (|b| == 0 || b[0] != '/') && (a == [] || a[|a| - 1] == '/') ==> Join(a, b) == a + b
    ensures (|b| == 0 || b[0] != '/') && a != [] && a[|a| - 1] != '/' ==> Join(a, b) == a + "/" + b
  {
  }

  /** What `Join(a, _)` puts in front of a relative name. */
  function JoinPrefix(a: string): string
  {
    if a == [] || a[|a| - 1] == '/' then a else a + "/"
  }

  /** A name as `os.listdir` can return it: not empty and without a separator. */
  predicate PlainName(n: string)
  {
    |n| > 0 && '/' !in n
  }

  lemma JoinPlain(a: string, n: string)
    requires PlainName(n)
    ensures Join(a, n) == JoinPrefix(a) + n
  {
  }

  /** Joining one directory path with different plain names gives different paths. */
  lemma JoinInjective(a: string, m: string, n: string)
    requires PlainName(m) && PlainName(n)
    requires Join(a, m) == Join(a, n)
    ensures m == n
  {
    var p := JoinPrefix(a);
    assert p + m == p + n;
    assert m == (p + m)[|p|..] && n == (p + n)[|p|..];
  }

  /** The base name of a directory path joined with a plain name is that name. */
  lemma BasenameOfJoin(a: string, n: string)
    requires PlainName(n)
    ensures Basename(Join(a, n)) == n
  {
    JoinPlain(a, n);
    var pre := JoinPrefix(a);
    var p := pre + n;
    if pre == [] {
      assert p == n;
    } else {
      assert p[|pre| - 1] == '/';
      forall k | |pre| - 1 < k < |p| ensures p[k] != '/' {
        assert p[k] == n[k - |pre|];
      }
      LastIndexOfAt(p, '/', |pre| - 1);
      assert p[|pre|..] == n;
    }
  }

  /** `str.rfind(c)`: the index of the last `c` in `p`, or -1. */
  function LastIndexOf(p: string, c: char): (r: int)
    ensures -1 <= r < |p|
    ensures r >= 0 ==> p[r] == c
    ensures forall k :: r < k < |p| ==> p[k] != c
    decreases |p|
  {
    if |p| == 0 then -1
    else if p[|p| - 1] == c then |p| - 1
    else LastIndexOf(p[..|p| - 1], c)
  }

  /** `os.path.basename(p)`: everything after the last '/'. */
  function Basename(p: string): (b: string)
    ensures '/' !in b
    ensures |b| <= |p| && p[|p| - |b|..] == b
    ensures |b| == |p| - 1 - LastIndexOf(p, '/')
  {
    var sep := LastIndexOf(p, '/');
    var b := p[sep + 1..];
    assert '/' !in b by {
      forall i | 0 <= i < |b| ensures b[i] != '/' {
        assert b[i] == p[sep + 1 + i];
      }
    }
    b
  }

  /** The base name is the whole path, or what follows a '/'. */
  lemma BasenameAfterSeparator(p: string)
    ensures |Basename(p)| == |p| || p[|p| - |Basename(p)| - 1] == '/'
  {
  }

  /**
    A base name that `splitext` gives an extension: some '.' comes after a
    character that is not a '.'. Leading dots alone (".bashrc") do not count.
  */
  predicate Dotted(b: string)
  {
    exists j, k :: 0 <= j < k < |b| && b[j] != '.' && b[k] == '.'
  }

  /** The number of '.' characters `b` starts with. */
  function LeadingDots(b: string): (r: nat)
    ensures r <= |b|
    ensures forall i :: 0 <= i < r ==> b[i] == '.'
    ensures r < |b| ==> b[r] != '.'
  {
    if |b| > 0 && b[0] == '.' then 1 + LeadingDots(b[1..]) else 0
  }

  /**
    The second half of `os.path.splitext(p)`: from the last '.' of the base
    name to the end, provided a character other than '.' comes before that
    '.' in the base name; otherwise "". (`splitext` looks for the last '.' of
    the whole path and gives up when it lies before the last '/', so it is
    the last '.' of the base name.)
  */
  function Extension(p: string): (r: string)
    ensures r == [] || r[0] == '.'
  {
    var b := Basename(p);
    var dot := LastIndexOf(b, '.');
    if LeadingDots(b) < dot then b[dot..] else ""
  }

  /** The extension is there exactly for `Dotted` base names; it is a '.' and a dot-free rest, ending the base name. */
  lemma ExtensionShape(p: string)
    ensures Extension(p) != [] <==> Dotted(Basename(p))
    ensures Extension(p) != [] ==> Extension(p)[0] == '.' && '.' !in Extension(p)[1..]
    ensures |Extension(p)| <= |Basename(p)| && Basename(p)[|Basename(p)| - |Extension(p)|..] == Extension(p)
  {
    var b := Basename(p);
    var dot := LastIndexOf(b, '.');
    var lead := LeadingDots(b);
    if lead < dot {
      var e := b[dot..];
      assert b[lead] != '.' && b[dot] == '.';
      forall i | 0 <= i < |e| - 1 ensures e[1..][i] != '.' {
        assert e[1..][i] == b[dot + 1 + i];
      }
    }
  }

  /** A base name `stem.ext`, where `stem` has a character other than '.', has extension ".ext". */
  lemma ExtensionOfStemAndExt(p: string, stem: string, ext: string)
    requires Basename(p) == stem + "." + ext
    requires '.' !in ext
    requires exists j :: 0 <= j < |stem| && stem[j] != '.'
    ensures Extension(p) == "." + ext
  {
    var b := stem + "." + ext;
    assert b[|stem|] == '.';
    assert forall k :: |stem| < k < |b| ==> b[k] == ext[k - |stem| - 1];
    LastIndexOfAt(b, '.', |stem|);
    var j :| 0 <= j < |stem| && stem[j] != '.';
    assert b[j] != '.';
    assert LeadingDots(b) <= j;
    assert b[|stem|..] == "." + ext;
  }

  /** The last occurrence is the one after which `c` no longer appears. */
  lemma LastIndexOfAt(p: string, c: char, i: int)
    requires 0 <= i < |p| && p[i] == c
    requires forall k :: i < k < |p| ==> p[k] != c
    ensures LastIndexOf(p, c) == i
  {
  }

  /** `str.lower` on one character; only ASCII letters are modelled. */
  function LowerChar(c: char): char
  {
    if 'A' <= c <= 'Z' then (c as int + 32) as char else c
  }

  function Lower(s: string): (r: string)
    ensures |r| == |s|
    ensures forall i :: 0 <= i < |s| ==> r[i] == LowerChar(s[i])
  {
    seq(|s|, i requires 0 <= i < |s| => LowerChar(s[i]))
  }

  /** Lower-casing leaves a leading '.' in place. */
  lemma LowerAfterDot(s: string)
    ensures Lower("." + s) == "." + Lower(s)
  {
    assert forall i :: 0 <= i < |s| ==> ("." + s)[i + 1] == s[i];
  }
}
