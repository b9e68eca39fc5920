/** The string operations of Python's `str` and `re` that the package relies on:
    character classes, `strip`, `lower`, `startswith`/`endswith` and `replace`. */
module PyText {

  /** `str.isspace()`; in a `str` pattern `\s` matches exactly these characters. */
  predicate IsSpace(c: char) {
    || c == ' '
    || '\t' <= c <= '\r'
    || '\U{1C}' <= c <= '\U{1F}'
    || c == '\U{85}'
    || c == '\U{A0}'
    || c == '\U{1680}'
    || '\U{2000}' <= c <= '\U{200A}'
    || c == '\U{2028}'
    || c == '\U{2029}'
    || c == '\U{202F}'
    || c == '\U{205F}'
    || c == '\U{3000}'
  }

  predicate IsAsciiAlnum(c: char) {
    'a' <= c <= 'z' || 'A' <= c <= 'Z' || '0' <= c <= '9'
  }

  /** Letters outside ASCII, approximated by blocks: Latin-1 and the scripts up
      to U+1FFF (without the two arithmetic signs and the Ogham space mark),
      kana and CJK ideographs, Hangul syllables. */
  predicate IsNonAsciiLetter(c: char) {
    || ('\U{C0}' <= c < '\U{2000}' && c != '\U{D7}' && c != '\U{F7}' && c != '\U{1680}')
    || '\U{3040}' <= c <= '\U{9FFF}'
    || '\U{AC00}' <= c <= '\U{D7A3}'
  }

  /** `str.isalnum()` on one character. */
  predicate IsAlnum(c: char) {
    IsAsciiAlnum(c) || IsNonAsciiLetter(c)
  }

  /** What `\w` matches in a `str` pattern: alphanumerics and the underscore. */
  predicate IsWordChar(c: char) {
    IsAlnum(c) || c == '_'
  }

  lemma WordCharIsNotSpace(c: char)
    ensures IsWordChar(c) ==> !IsSpace(c)
  {
  }

  /** `s.lstrip(chars)`, with the stripped set given as a predicate. */
  function StripLeft(s: string, strip: char -> bool): (r: string)
    ensures |r| <= |s| && r == s[|s| - |r|..]
    ensures forall i :: 0 <= i < |s| - |r| ==> strip(s[i])
    ensures r == [] || !strip(r[0])
  {
    if s != [] && strip(s[0]) then StripLeft(s[1..], strip) else s
  }

  /** `s.rstrip(chars)`. */
  function StripRight(s: string, strip: char -> bool): (r: string)
    ensures |r| <= |s| && r == s[..|r|]
    ensures forall i :: |r| <= i < |s| ==> strip(s[i])
    ensures r == [] || !strip(r[|r| - 1])
  {
    if s != [] && strip(s[|s| - 1]) then StripRight(s[..|s| - 1], strip) else s
  }

  /** `s.strip(chars)`. */
  function Strip(s: string, strip: char -> bool): string {
    StripRight(StripLeft(s, strip), strip)
  }

  /** `s.strip()` with no argument: surrounding whitespace goes. */
  function StripSpace(s: string): (r: string)
    ensures r == [] <==> forall i :: 0 <= i < |s| ==> IsSpace(s[i])
    ensures |r| <= |s|
  {
    Strip(s, IsSpace)
  }

  /** `str.lower()` on ASCII letters; other characters are kept. */
  function LowerChar(c: char): char {
    if 'A' <= c <= 'Z' then (c as int + 32) as char else c
  }

  function Lower(s: string): (r: string)
    ensures |r| == |s| && forall i :: 0 <= i < |s| ==> r[i] == LowerChar(s[i])
  {
    seq(|s|, i requires 0 <= i < |s| => LowerChar(s[i]))
  }

  predicate StartsWith(s: string, prefix: string) {
    |prefix| <= |s| && s[..|prefix|] == prefix
  }

  predicate EndsWith(s: string, suffix: string) {
    |suffix| <= |s| && s[|s| - |suffix|..] == suffix
  }

  /** `pat` occurs in `s` starting at index i. */
  predicate MatchAt(s: string, pat: string, i: int) {
    0 <= i && i + |pat| <= |s| && s[i..i + |pat|] == pat
  }

  /** `pat in s`. */
  predicate Occurs(s: string, pat: string) {
    exists i | 0 <= i <= |s| :: MatchAt(s, pat, i)
  }

  /** `s.replace(target, repl)`: every occurrence of `target`, scanning left to right
      without overlaps, is replaced by `repl`. */
  function ReplaceAll(s: string, target: string, repl: string): string
    requires target != []
    decreases |s|
  {
    if |s| < |target| then s
    else if s[..|target|] == target then repl + ReplaceAll(s[|target|..], target, repl)
    else [s[0]] + ReplaceAll(s[1..], target, repl)
  }

  /** Without an occurrence, `replace` changes nothing. */
  lemma {:induction false} ReplaceAllWithoutOccurrence(s: string, target: string, repl: string)
    requires target != [] && !Occurs(s, target)
    ensures ReplaceAll(s, target, repl) == s
    decreases |s|
  {
    if |s| >= |target| {
      assert !MatchAt(s, target, 0);
      var t := s[1..];
      assert !Occurs(t, target) by {
        forall i | 0 <= i <= |t| ensures !MatchAt(t, target, i) {
          if MatchAt(t, target, i) {
            assert s[i + 1..i + 1 + |target|] == t[i..i + |target|];
            assert MatchAt(s, target, i + 1);
          }
        }
      }
      ReplaceAllWithoutOccurrence(t, target, repl);
    }
  }

  /** An occurrence at the front is replaced, and scanning goes on after it. */
  lemma ReplaceAllLeading(target: string, rest: string, repl: string)
    requires target != []
    ensures ReplaceAll(target + rest, target, repl) == repl + ReplaceAll(rest, target, repl)
  {
    assert (target + rest)[..|target|] == target;
    assert (target + rest)[|target|..] == rest;
  }

  lemma NoMatchAfterFirst(a: string, b: string, target: string)
    requires a != []
    requires forall i :: 0 <= i < |a| ==> !MatchAt(a + b, target, i)
    ensures forall i :: 0 <= i < |a| - 1 ==> !MatchAt(a[1..] + b, target, i)
  {
    var s, t := a + b, a[1..] + b;
    assert t == s[1..];
    forall i | 0 <= i < |a| - 1 ensures !MatchAt(t, target, i) {
      assert !MatchAt(s, target, i + 1);
      if i + |target| <= |t| {
        assert t[i..i + |target|] == s[i + 1..i + 1 + |target|];
      }
    }
  }

  /** A stretch `a` in which no occurrence starts is copied unchanged. */
  lemma {:induction false} ReplaceAllSkips(a: string, b: string, target: string, repl: string)
    requires target != []
    requires forall i :: 0 <= i < |a| ==> !MatchAt(a + b, target, i)
    ensures ReplaceAll(a + b, target, repl) == a + ReplaceAll(b, target, repl)
    decreases |a|
  {
    if a != [] {
      var s := a + b;
      if |s| < |target| {
        assert ReplaceAll(s, target, repl) == s;
        assert ReplaceAll(b, target, repl) == b;
      } else {
        assert !MatchAt(s, target, 0);
        assert s[0..|target|] == s[..|target|];
        assert s[..|target|] != target;
        assert ReplaceAll(s, target, repl) == [s[0]] + ReplaceAll(s[1..], target, repl);
        var t := a[1..];
        assert s[1..] == t + b;
        NoMatchAfterFirst(a, b, target);
        ReplaceAllSkips(t, b, target, repl);
        assert [s[0]] + t == a;
      }
    } else {
      assert a + b == b;
    }
  }
}
