/** The few Python string operations the scripts rely on, written out over seq<char>. */
module Strings {

  /** `s.startswith(p)` */
  predicate IsPrefix(p: string, s: string) {
    |p| <= |s| && s[..|p|] == p
  }

  /** `s.endswith(t)` */
  predicate IsSuffix(t: string, s: string) {
    |t| <= |s| && s[|s| - |t|..] == t
  }

  /** Python's `sub in s` */
  predicate Contains(s: string, sub: string) {
    exists i :: 0 <= i <= |s| && IsPrefix(sub, s[i..])
  }

  lemma ContainsAt(s: string, sub: string, i: nat)
    requires i + |sub| <= |s| && s[i..i + |sub|] == sub
    ensures Contains(s, sub)
  {
    assert IsPrefix(sub, s[i..]);
  }

  // ---------------------------------------------------------------- str.lower()

  /** Lower-casing of one character; only A-Z matter for the suffix tests in the scripts. */
  function LowerChar(c: char): char {
    if 'A' <= c <= 'Z' then (c as int + 32) as char else c
  }

  function Lower(s: string): (r: string)
    ensures |r| == |s|
    ensures forall i :: 0 <= i < |s| ==> r[i] == LowerChar(s[i])
  {
    seq(|s|, i requires 0 <= i < |s| => LowerChar(s[i]))
  }

  // ---------------------------------------------------------------- str(n) for a non-negative int

  function DigitChar(d: nat): char
    requires d < 10
  {
    (48 + d) as char
  }

  predicate IsDigit(c: char) {
    '0' <= c <= '9'
  }

  /** Decimal notation of n, as Python's `str` and `format` write it. */
  function NatToString(n: nat): (r: string)
    ensures 1 <= |r|
    ensures n >= 10 ==> |r| >= 2
    ensures forall i :: 0 <= i < |r| ==> IsDigit(r[i])
    decreases n
  {
    if n < 10 then [DigitChar(n)] else NatToString(n / 10) + [DigitChar(n % 10)]
  }

  /** Different numbers have different decimal notations. */
  lemma {:induction false} NatToStringInjective(a: nat, b: nat)
    requires NatToString(a) == NatToString(b)
    ensures a == b
    decreases a
  {
    if a >= 10 && b >= 10 {
      var sa, sb := NatToString(a), NatToString(b);
      assert sa[..|sa| - 1] == NatToString(a / 10);
      assert sb[..|sb| - 1] == NatToString(b / 10);
      NatToStringInjective(a / 10, b / 10);
      assert DigitChar(a % 10) == sa[|sa| - 1] == DigitChar(b % 10);
    }
  }

  // ---------------------------------------------------------------- str.rstrip()

  /** The characters for which Python's `str.isspace()` holds; `rstrip()` with no argument removes them. */
  const PythonWhitespace: set<char> := {
    '\t', '\n', '\U{B}', '\U{C}', '\r', '\U{1C}', '\U{1D}', '\U{1E}', '\U{1F}', ' ',
    '\U{85}', '\U{A0}', '\U{1680}', '\U{2000}', '\U{2001}', '\U{2002}', '\U{2003}',
    '\U{2004}', '\U{2005}', '\U{2006}', '\U{2007}', '\U{2008}', '\U{2009}', '\U{200A}',
    '\U{2028}', '\U{2029}', '\U{202F}', '\U{205F}', '\U{3000}'
  }

  predicate IsSpace(c: char) {
    c in PythonWhitespace
  }

  /** `s.rstrip()`: the longest prefix of s that does not end in whitespace. */
  function RStrip(s: string): (r: string)
    ensures IsPrefix(r, s)
    ensures r == [] || !IsSpace(r[|r| - 1])
    ensures forall i :: |r| <= i < |s| ==> IsSpace(s[i])
  {
    if s != [] && IsSpace(s[|s| - 1]) then RStrip(s[..|s| - 1]) else s
  }

  // ---------------------------------------------------------------- os.path.basename

  /** `os.path.basename(p)` on a POSIX path: everything after the last '/'. */
  function Basename(p: string): (r: string)
    ensures IsSuffix(r, p)
    ensures '/' !in r
    ensures |r| < |p| ==> p[|p| - |r| - 1] == '/'
  {
    if p == [] || p[|p| - 1] == '/' then [] else Basename(p[..|p| - 1]) + [p[|p| - 1]]
  }

  /** A suffix without '/' is a suffix of a path exactly when it is a suffix of the path's base name. */
  lemma SuffixOfBasename(x: string, p: string)
    requires '/' !in x
    ensures IsSuffix(x, p) <==> IsSuffix(x, Basename(p))
  {
    var r := Basename(p);
    if IsSuffix(x, r) {
      assert p[|p| - |x|..] == r[|r| - |x|..];
    }
  }

  /** Lower-casing a string with one more character. */
  lemma LowerSnoc(a: string, c: char)
    ensures Lower(a + [c]) == Lower(a) + [LowerChar(c)]
  {
    assert Lower(a + [c])[..|a|] == Lower(a);
  }

  /** Lower-casing commutes with taking the base name ('/' is its own lower case). */
  lemma {:induction false} LowerBasename(p: string)
    ensures Lower(Basename(p)) == Basename(Lower(p))
  {
    if p != [] && p[|p| - 1] != '/' {
      var init, c := p[..|p| - 1], p[|p| - 1];
      assert p == init + [c];
      LowerBasename(init);
      LowerSnoc(init, c);
      LowerSnoc(Basename(init), c);
      var lp := Lower(init) + [LowerChar(c)];
      assert lp[..|lp| - 1] == Lower(init);
    }
  }

  // ---------------------------------------------------------------- ntpath.basename

  predicate IsNtSep(c: char) {
    c == '/' || c == '\\'
  }

  /** Everything after the last '/' or '\\'. */
  function AfterLastNtSep(p: string): (r: string)
    ensures IsSuffix(r, p)
    ensures forall i :: 0 <= i < |r| ==> !IsNtSep(r[i])
    ensures |r| < |p| ==> IsNtSep(p[|p| - |r| - 1])
  {
    if p == [] || IsNtSep(p[|p| - 1]) then [] else AfterLastNtSep(p[..|p| - 1]) + [p[|p| - 1]]
  }

  /**
   * `ntpath.basename(p)` for a path without a UNC prefix: a drive "X:" is split off first,
   * then everything after the last separator is kept.
   */
  function NtBasename(p: string): (r: string)
    ensures IsSuffix(r, p)
    ensures forall i :: 0 <= i < |r| ==> !IsNtSep(r[i])
    ensures |r| < |p| ==> IsNtSep(p[|p| - |r| - 1]) || (|p| >= 2 && p[1] == ':' && |r| == |p| - 2)
  {
    var rest := if |p| >= 2 && p[1] == ':' then p[2..] else p;
    var r := AfterLastNtSep(rest);
    assert p[|p| - |rest|..] == rest;
    assert p[|p| - |r|..] == rest[|rest| - |r|..];
    r
  }
}
