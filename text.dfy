/**
 * The handful of Python string operations the scraper relies on
 * (`startswith`, `endswith`, `in`, `rstrip(c)`, `strip()`, `split(c)`,
 * `replace`, `lower`), written as functions over `string`.
 */
module Text {

  predicate StartsWith(s: string, prefix: string) {
    |prefix| <= |s| && s[..|prefix|] == prefix
  }

  predicate EndsWith(s: string, suffix: string) {
    |suffix| <= |s| && s[|s| - |suffix|..] == suffix
  }

  /** `sub` occurs in `s` starting at index `i`. */
  predicate OccursAt(s: string, sub: string, i: int) {
    0 <= i && i + |sub| <= |s| && s[i..i + |sub|] == sub
  }

  /** Python's `sub in s` for strings: `sub` starts at some index of `s`. */
  predicate Contains(s: string, sub: string) {
    StartsWith(s, sub) || (|s| > 0 && Contains(s[1..], sub))
  }

  /** The characters for which Python's `str.isspace()` holds. */
  predicate IsSpace(c: char) {
    || c == ' ' || c == '\t' || c == '\n' || c == '\r' || c == '\U{000B}' || c == '\U{000C}'
    || ('\U{001C}' <= c <= '\U{001F}') || c == '\U{0085}' || c == '\U{00A0}' || c == '\U{1680}'
    || ('\U{2000}' <= c <= '\U{200A}') || c == '\U{2028}' || c == '\U{2029}' || c == '\U{202F}'
    || c == '\U{205F}' || c == '\U{3000}'
  }

  /** Neither end of `s` is whitespace. */
  predicate Trimmed(s: string) {
    s == [] || (!IsSpace(s[0]) && !IsSpace(s[|s| - 1]))
  }

  /** Python's `s.rstrip(c)`: drops every trailing `c`. */
  function RStrip(s: string, c: char): (r: string)
    ensures StartsWith(s, r)
    ensures r == [] || r[|r| - 1] != c
    ensures forall i | |r| <= i < |s| :: s[i] == c
  {
    if |s| > 0 && s[|s| - 1] == c then RStrip(s[..|s| - 1], c) else s
  }

  /** Drops trailing whitespace. */
  function TrimEnd(s: string): (r: string)
    ensures StartsWith(s, r)
    ensures r == [] || !IsSpace(r[|r| - 1])
    ensures forall i | |r| <= i < |s| :: IsSpace(s[i])
  {
    if |s| > 0 && IsSpace(s[|s| - 1]) then TrimEnd(s[..|s| - 1]) else s
  }

  /** Drops leading whitespace. */
  function TrimStart(s: string): (r: string)
    ensures EndsWith(s, r)
    ensures r == [] || !IsSpace(r[0])
    ensures r != [] ==> r[|r| - 1] == s[|s| - 1]
    ensures forall i | 0 <= i < |s| - |r| :: IsSpace(s[i])
  {
    if |s| > 0 && IsSpace(s[0]) then TrimStart(s[1..]) else s
  }

  /** Python's `s.strip()`: `s` without its leading and trailing whitespace. */
  function Strip(s: string): (r: string)
    ensures Trimmed(r)
  {
    TrimStart(TrimEnd(s))
  }

  /** `r` occurs in `s` at index `i`, with only whitespace before and after it. */
  predicate StripsAt(s: string, r: string, i: int) {
    && OccursAt(s, r, i)
    && (forall j | 0 <= j < i :: IsSpace(s[j]))
    && (forall j | i + |r| <= j < |s| :: IsSpace(s[j]))
  }

  /**
   * What strip returns is the slice of `s` between its leading and its
   * trailing whitespace: everything before and after it is whitespace.
   */
  lemma StripInfix(s: string)
    ensures exists i :: StripsAt(s, Strip(s), i)
  {
    var start := |TrimEnd(s)| - |Strip(s)|;
    StripSlice(s);
    StripLeading(s);
    assert StripsAt(s, Strip(s), start);
  }

  /** Strip introduces no character. */
  lemma StripChars(s: string)
    ensures forall c | c in Strip(s) :: c in s
  {
    StripSlice(s);
    SliceChars(s, |TrimEnd(s)| - |Strip(s)|, |TrimEnd(s)|);
  }

  /** A slice holds only characters of its string. */
  lemma SliceChars(s: string, i: int, j: int)
    requires 0 <= i <= j <= |s|
    ensures forall c | c in s[i..j] :: c in s
  {
    forall c | c in s[i..j]
      ensures c in s
    {
      var k :| 0 <= k < j - i && s[i..j][k] == c;
      assert s[i + k] == c;
    }
  }

  /** Strip's result sits in `s` where the trailing whitespace begins, less its own length. */
  lemma StripSlice(s: string)
    ensures |Strip(s)| <= |TrimEnd(s)|
    ensures s[|TrimEnd(s)| - |Strip(s)|..|TrimEnd(s)|] == Strip(s)
  {
    var e := TrimEnd(s);
    var r := TrimStart(e);
    assert Strip(s) == r;
    assert e == s[..|e|];
    assert r == e[|e| - |r|..];
  }

  /** What strip drops at the front is whitespace. */
  lemma StripLeading(s: string)
    ensures |Strip(s)| <= |TrimEnd(s)|
    ensures forall j | 0 <= j < |TrimEnd(s)| - |Strip(s)| :: IsSpace(s[j])
  {
    var e := TrimEnd(s);
    assert Strip(s) == TrimStart(e);
    assert forall j | 0 <= j < |e| :: s[j] == e[j];
  }

  /** A string without surrounding whitespace is its own strip. */
  lemma StripTrimmed(s: string)
    requires Trimmed(s)
    ensures Strip(s) == s
  {
    if s != [] {
      assert TrimEnd(s) == s;
      assert TrimStart(s) == s;
    }
  }

  /** `s.split(c)[0]`: everything before the first `c` (all of `s` when there is none). */
  function Before(s: string, c: char): (r: string)
    ensures StartsWith(s, r)
    ensures c !in r
    ensures |r| < |s| ==> s[|r|] == c
    ensures c !in s ==> r == s
  {
    if s == [] || s[0] == c then [] else [s[0]] + Before(s[1..], c)
  }

  /** Everything after the first `c`. */
  function After(s: string, c: char): (r: string)
    requires c in s
    ensures EndsWith(s, r) && |r| < |s|
    ensures s == Before(s, c) + [c] + r
  {
    var b := Before(s, c);
    assert b != s;
    assert s[..|s|] == s;
    var r := s[|b| + 1..];
    assert s == s[..|b|] + [s[|b|]] + r;
    r
  }

  /** `s.split(c)[1]`: the text between the first and the second `c` (or the end). */
  function SecondField(s: string, c: char): (r: string)
    requires c in s
    ensures c !in r
    ensures StartsWith(After(s, c), r)
    ensures |r| < |After(s, c)| ==> After(s, c)[|r|] == c
    ensures c !in After(s, c) ==> r == After(s, c)
  {
    Before(After(s, c), c)
  }

  /** Python's `s.replace(c, "")`. */
  function RemoveAll(s: string, c: char): (r: string)
    ensures c !in r
    ensures |r| <= |s|
    ensures forall x | x in r :: x in s
    ensures c !in s ==> r == s
  {
    if s == [] then []
    else if s[0] == c then RemoveAll(s[1..], c)
    else [s[0]] + RemoveAll(s[1..], c)
  }

  /** Python's `s.replace(a, b)` for two single characters. */
  function ReplaceChar(s: string, a: char, b: char): (r: string)
    ensures |r| == |s|
    ensures forall i | 0 <= i < |s| :: r[i] == (if s[i] == a then b else s[i])
  {
    if s == [] then []
    else [if s[0] == a then b else s[0]] + ReplaceChar(s[1..], a, b)
  }

  function LowerChar(c: char): char {
    if 'A' <= c <= 'Z' then (c as int + 32) as char else c
  }

  /** Python's `s.lower()`, on the ASCII letters. */
  function Lower(s: string): string {
    seq(|s|, i requires 0 <= i < |s| => LowerChar(s[i]))
  }

  lemma BeforeConcat(a: string, c: char, b: string)
    requires c !in a
    ensures Before(a + [c] + b, c) == a
  {
    if a != [] {
      assert (a + [c] + b)[1..] == a[1..] + [c] + b;
      BeforeConcat(a[1..], c, b);
    }
  }

  /** `replace(c, "")` works character by character: on one character, and across a concatenation. */
  lemma RemoveAllOne(x: char, c: char)
    ensures RemoveAll([x], c) == if x == c then [] else [x]
  {
    assert [x][1..] == [];
  }

  lemma {:induction false} RemoveAllConcat(a: string, b: string, c: char)
    ensures RemoveAll(a + b, c) == RemoveAll(a, c) + RemoveAll(b, c)
  {
    if a == [] {
      assert a + b == b;
    } else {
      assert (a + b)[0] == a[0];
      assert (a + b)[1..] == a[1..] + b;
      RemoveAllConcat(a[1..], b, c);
    }
  }

  lemma RemoveAllSnoc(a: string, c: char)
    requires c !in a
    ensures RemoveAll(a + [c], c) == a
  {
    if a == [] {
      assert RemoveAll([c], c) == RemoveAll([], c);
    } else {
      assert (a + [c])[1..] == a[1..] + [c];
      RemoveAllSnoc(a[1..], c);
    }
  }
}
