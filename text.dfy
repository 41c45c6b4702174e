/**
 * The string operations the two services rely on, written out: JavaScript's
 * `String(n)` for a document id, `indexOf`, and the parts of Node's `path`
 * module (`basename`, `parse(..).name`) that the services use. Paths use `/`
 * as their only separator.
 */
module Text {

  predicate IsDigit(c: char) { '0' <= c <= '9' }

  /** The class `\w` of JavaScript regular expressions. */
  predicate IsWordChar(c: char) {
    ('a' <= c <= 'z') || ('A' <= c <= 'Z') || IsDigit(c) || c == '_'
  }

  predicate AllDigits(s: string) { forall i :: 0 <= i < |s| ==> IsDigit(s[i]) }

  predicate AllWordChars(s: string) { forall i :: 0 <= i < |s| ==> IsWordChar(s[i]) }

  function DigitChar(d: nat): (c: char)
    requires d < 10
    ensures IsDigit(c) && c as int - '0' as int == d
  {
    (48 + d) as char
  }

  /** The number a string of decimal digits denotes. */
  function DigitsValue(s: string): nat
    requires AllDigits(s)
  {
    if s == [] then 0
    else DigitsValue(s[..|s| - 1]) * 10 + (s[|s| - 1] as int - '0' as int)
  }

  /**
   * `String(n)` for a non-negative integer id below 10^21, where JavaScript
   * writes plain decimal digits with no leading zero.
   */
  function NatToString(n: nat): (s: string)
    ensures |s| > 0 && AllDigits(s)
    ensures s[0] == '0' ==> n == 0
    decreases n
  {
    if n < 10 then [DigitChar(n)] else NatToString(n / 10) + [DigitChar(n % 10)]
  }

  /** Reading back the digits `String(n)` wrote gives `n`. */
  lemma {:induction false} NatToStringValue(n: nat)
    ensures DigitsValue(NatToString(n)) == n
    decreases n
  {
    var s := NatToString(n);
    if n >= 10 {
      assert s[..|s| - 1] == NatToString(n / 10);
      NatToStringValue(n / 10);
    } else {
      assert s[..|s| - 1] == [];
    }
  }

  /** Two ids render to the same text only when they are the same id. */
  lemma NatToStringInjective(a: nat, b: nat)
    requires NatToString(a) == NatToString(b)
    ensures a == b
  {
    NatToStringValue(a);
    NatToStringValue(b);
  }

  predicate StartsWith(s: string, prefix: string) {
    |prefix| <= |s| && s[..|prefix|] == prefix
  }

  /** `pat` occurs in `s` starting at index `i`. */
  predicate OccursAt(s: string, pat: string, i: int) {
    0 <= i && i + |pat| <= |s| && s[i..i + |pat|] == pat
  }

  /** The first occurrence of `pat` in `s` at or after `from`, or -1. */
  function IndexOfFrom(s: string, pat: string, from: nat): (r: int)
    requires from <= |s|
    ensures r == -1 || (from <= r && OccursAt(s, pat, r))
    ensures r == -1 ==> forall i :: from <= i <= |s| ==> !OccursAt(s, pat, i)
    ensures r != -1 ==> forall i :: from <= i < r ==> !OccursAt(s, pat, i)
    decreases |s| - from
  {
    if OccursAt(s, pat, from) then from
    else if from == |s| then -1
    else IndexOfFrom(s, pat, from + 1)
  }

  /** JavaScript's `s.indexOf(pat)`: the first occurrence, or -1 when there is none. */
  function IndexOf(s: string, pat: string): (r: int)
    ensures r == -1 || OccursAt(s, pat, r)
    ensures r == -1 ==> forall i :: 0 <= i <= |s| ==> !OccursAt(s, pat, i)
    ensures r != -1 ==> forall i :: 0 <= i < r ==> !OccursAt(s, pat, i)
  {
    IndexOfFrom(s, pat, 0)
  }

  /** The last index of character `c` in `s`, or -1. */
  function LastIndexOfChar(s: string, c: char): (r: int)
    ensures -1 <= r < |s|
    ensures r >= 0 ==> s[r] == c
    ensures forall i :: r < i < |s| ==> s[i] != c
  {
    if s == [] then -1
    else if s[|s| - 1] == c then |s| - 1
    else LastIndexOfChar(s[..|s| - 1], c)
  }

  /** `basename(path)`: the text after the last `/`. */
  function BaseName(path: string): (b: string)
    ensures '/' !in b
    ensures |b| <= |path| && path[|path| - |b|..] == b
  {
    path[LastIndexOfChar(path, '/') + 1..]
  }

  /**
   * `basename(path, ext)`: the base name with a trailing `ext` removed, unless
   * the base name is exactly `ext`.
   */
  function BaseNameWithout(path: string, ext: string): (b: string)
    ensures b == BaseName(path) || BaseName(path) == b + ext
    ensures b == "" ==> BaseName(path) == ""
  {
    var base := BaseName(path);
    if |base| > |ext| && base[|base| - |ext|..] == ext then base[..|base| - |ext|] else base
  }

  /**
   * `parse(path).name` for a base name: the text before its last `.`, unless
   * that dot is its first character (a dot file) or there is none.
   */
  function Stem(base: string): (n: string)
    ensures |n| <= |base| && base[..|n|] == n
  {
    var d := LastIndexOfChar(base, '.');
    if d > 0 then base[..d] else base
  }

  /** The base name of `dir/name` is `name` when `name` holds no slash. */
  lemma BaseNameOfJoin(dir: string, name: string)
    requires '/' !in name
    ensures BaseName(dir + "/" + name) == name
  {
    var p := dir + "/" + name;
    var r := LastIndexOfChar(p, '/');
    assert p[|dir|] == '/';
    forall i | |dir| < i < |p|
      ensures p[i] != '/'
    {
      assert p[i] == name[i - |dir| - 1];
    }
    assert r == |dir|;
    assert p[r + 1..] == name;
  }

  /** The name part of `stem.ext` is `stem` when the extension holds no dot and the stem is not empty. */
  lemma StemDropsExtension(stem: string, ext: string)
    requires stem != "" && '.' !in ext
    ensures Stem(stem + "." + ext) == stem
  {
    var b := stem + "." + ext;
    assert b[|stem|] == '.';
    forall i | |stem| < i < |b|
      ensures b[i] != '.'
    {
      assert b[i] == ext[i - |stem| - 1];
    }
    assert LastIndexOfChar(b, '.') == |stem|;
    assert b[..|stem|] == stem;
  }

  /**
   * `basename(dir/name + ext, ext)` is `name`: the extension comes off again
   * when the name holds no slash and is not empty.
   */
  lemma BaseNameWithoutOfJoin(dir: string, name: string, ext: string)
    requires name != "" && '/' !in name && '/' !in ext
    ensures BaseNameWithout(dir + "/" + name + ext, ext) == name
  {
    var base := name + ext;
    assert dir + "/" + name + ext == dir + "/" + base;
    BaseNameOfJoin(dir, base);
    assert base[|base| - |ext|..] == ext;
    assert base[..|base| - |ext|] == name;
  }
}
