/**
 * Character classes and string operations shared by every step of the pipeline.
 *
 * Python's `re` module and `str` methods work on Unicode code points; Dafny's `char`
 * is a Unicode scalar value, so `|s|` counts what Python's `len` counts. The classes
 * `\s`, `\d` and `\w` are modelled over the Basic Latin, Latin-1, Latin Extended-A/B
 * and Cyrillic blocks, which is where the customs data lives. `str.lower()` is modelled
 * for the upper-case letters of Basic Latin, Latin-1 and the Cyrillic range U+0400-U+042F;
 * every other character, including the upper-case letters of Latin Extended-A/B and of
 * the Cyrillic supplement, is left as it is.
 */
module Text {
  import opened Wrappers

  /** A match span, as `m.span()` gives it: `start` inclusive, `end` exclusive. */
  datatype Span = Span(start: int, end: int)

  /** `\s` of a `str` pattern, which is also `str.isspace()`. */
  predicate IsSpace(c: char) {
    c == ' ' || ('\t' <= c <= '\r') || ('\U{1C}' <= c <= '\U{1F}') || c == '\U{85}' || c == '\U{A0}'
    || c == '\U{1680}' || ('\U{2000}' <= c <= '\U{200A}') || c == '\U{2028}' || c == '\U{2029}'
    || c == '\U{202F}' || c == '\U{205F}' || c == '\U{3000}'
  }

  predicate IsDigit(c: char) { '0' <= c <= '9' }
  predicate IsAsciiUpper(c: char) { 'A' <= c <= 'Z' }
  predicate IsAsciiLower(c: char) { 'a' <= c <= 'z' }
  predicate IsAsciiLetter(c: char) { IsAsciiUpper(c) || IsAsciiLower(c) }

  /** The regex ranges `А-Яа-я` together with `Ё` and `ё`. */
  predicate IsBasicCyrillic(c: char) { ('А' <= c <= 'я') || c == 'Ё' || c == 'ё' }

  /** `\w`: letters, digits, other numeric characters and the underscore. */
  predicate IsWordChar(c: char) {
    IsAsciiLetter(c) || IsDigit(c) || c == '_' || c == 'ª' || c == 'µ' || c == 'º'
    || c == '²' || c == '³' || c == '¹' || ('¼' <= c <= '¾')
    || ('\U{C0}' <= c <= '\U{24F}' && c != '×' && c != '÷')
    || ('\U{400}' <= c <= '\U{481}') || ('\U{48A}' <= c <= '\U{52F}')
  }

  /** The end of the run of `\w` characters that starts at `i`. */
  function WordRunEnd(t: string, i: nat): (r: nat)
    requires i <= |t|
    ensures i <= r <= |t|
    ensures forall k :: i <= k < r ==> IsWordChar(t[k])
    ensures r < |t| ==> !IsWordChar(t[r])
    decreases |t| - i
  {
    if i < |t| && IsWordChar(t[i]) then WordRunEnd(t, i + 1) else i
  }

  /**
   * `str.lower()` on one character, for A-Z, À-Þ (but not ×), А-Я and Ѐ-Џ. `İ`, which
   * Python lowers to two code points, is left as it is.
   */
  function LowerChar(c: char): char {
    if IsAsciiUpper(c) || ('А' <= c <= 'Я') || ('\U{C0}' <= c <= '\U{DE}' && c != '×') then
      (c as int + 32) as char
    else if '\U{400}' <= c <= '\U{40F}' then
      (c as int + 80) as char
    else
      c
  }

  function Lower(s: string): (r: string)
    ensures |r| == |s|
    ensures forall i :: 0 <= i < |s| ==> r[i] == LowerChar(s[i])
  {
    seq(|s|, i requires 0 <= i < |s| => LowerChar(s[i]))
  }

  /** A string `str.lower()` leaves unchanged. */
  predicate IsLowered(s: string) {
    forall i :: 0 <= i < |s| ==> LowerChar(s[i]) == s[i]
  }

  lemma LowerCharIdempotent(c: char)
    ensures LowerChar(LowerChar(c)) == LowerChar(c)
  {
  }

  lemma LowerIsLowered(s: string)
    ensures IsLowered(Lower(s))
  {
    forall i | 0 <= i < |s| ensures LowerChar(Lower(s)[i]) == Lower(s)[i] {
      LowerCharIdempotent(s[i]);
    }
  }

  /** `str.lower()` only changes letters: spaces and punctuation stay what they were. */
  lemma LowerCharKeepsNonLetters(c: char)
    ensures IsSpace(LowerChar(c)) <==> IsSpace(c)
    ensures IsWordChar(LowerChar(c)) <==> IsWordChar(c)
    ensures !IsWordChar(c) ==> LowerChar(c) == c
  {
  }

  /** The regex assertion `\b` at position `i` of `s`. */
  predicate BoundaryAt(s: string, i: int)
    requires 0 <= i <= |s|
  {
    (i > 0 && IsWordChar(s[i - 1])) != (i < |s| && IsWordChar(s[i]))
  }

  /** `t` occurs in `s` starting at index `i`. */
  predicate PrefixAt(s: string, t: string, i: int) {
    0 <= i && i + |t| <= |s| && s[i..i + |t|] == t
  }

  /** Python's `t in s`. */
  predicate Contains(s: string, t: string) {
    exists i :: 0 <= i <= |s| - |t| && PrefixAt(s, t, i)
  }

  /** The first index at or after `from` where `t` occurs in `s`. */
  function FindFrom(s: string, t: string, from: nat): (r: Option<nat>)
    ensures r.Some? ==> from <= r.value && PrefixAt(s, t, r.value)
    ensures r.Some? ==> forall j :: from <= j < r.value ==> !PrefixAt(s, t, j)
    ensures r.None? ==> forall j :: from <= j ==> !PrefixAt(s, t, j)
    decreases |s| - from
  {
    if from + |t| > |s| then None
    else if s[from..from + |t|] == t then Some(from)
    else FindFrom(s, t, from + 1)
  }

  /** The index of the first occurrence of `t` in `s` (`str.find`). */
  function Find(s: string, t: string): (r: Option<nat>)
    ensures r.Some? <==> Contains(s, t)
    ensures r.Some? ==> PrefixAt(s, t, r.value) && forall j :: 0 <= j < r.value ==> !PrefixAt(s, t, j)
  {
    FindFrom(s, t, 0)
  }

  /** Removes the leading characters that satisfy `drop`. */
  function TrimStart(s: string, drop: char -> bool): (r: string)
    ensures |r| <= |s| && r == s[|s| - |r|..]
    ensures forall k :: 0 <= k < |s| - |r| ==> drop(s[k])
    ensures r != [] ==> !drop(r[0])
    decreases |s|
  {
    if s != [] && drop(s[0]) then TrimStart(s[1..], drop) else s
  }

  /** Removes the trailing characters that satisfy `drop`. */
  function TrimEnd(s: string, drop: char -> bool): (r: string)
    ensures |r| <= |s| && r == s[..|r|]
    ensures forall k :: |r| <= k < |s| ==> drop(s[k])
    ensures r != [] ==> !drop(r[|r| - 1])
    decreases |s|
  {
    if s != [] && drop(s[|s| - 1]) then TrimEnd(s[..|s| - 1], drop) else s
  }

  /** `str.strip()`. */
  function Strip(s: string): (r: string)
    ensures exists a, b :: 0 <= a <= b <= |s| && r == s[a..b]
    ensures r != [] ==> !IsSpace(r[0]) && !IsSpace(r[|r| - 1])
  {
    var t := TrimStart(s, IsSpace);
    var r := TrimEnd(t, IsSpace);
    assert r == s[|s| - |t|..|s| - |t| + |r|];
    r
  }

  /** The number of leading characters of `s` that satisfy `p`. */
  function LeadingCount(s: string, p: char -> bool): (n: nat)
    ensures n <= |s|
    ensures forall k :: 0 <= k < n ==> p(s[k])
    ensures n < |s| ==> !p(s[n])
    decreases |s|
  {
    if s != [] && p(s[0]) then 1 + LeadingCount(s[1..], p) else 0
  }

  /** A leading run of exactly `n` characters satisfying `p` is what `LeadingCount` measures. */
  lemma {:induction false} LeadingCountOfRun(s: string, p: char -> bool, n: nat)
    requires n <= |s|
    requires forall k :: 0 <= k < n ==> p(s[k])
    requires n < |s| ==> !p(s[n])
    ensures LeadingCount(s, p) == n
    decreases n
  {
    if n > 0 {
      LeadingCountOfRun(s[1..], p, n - 1);
    }
  }

  /** `sep.join(parts)`. */
  function Join(parts: seq<string>, sep: string): string
    decreases |parts|
  {
    if |parts| == 0 then ""
    else if |parts| == 1 then parts[0]
    else parts[0] + sep + Join(parts[1..], sep)
  }

  lemma JoinEmpty(parts: seq<string>, sep: string)
    ensures Join(parts, sep) == [] <==> forall k :: 0 <= k < |parts| ==> parts[k] == [] && (|parts| <= 1 || sep == [])
    decreases |parts|
  {
    if |parts| > 1 {
      JoinEmpty(parts[1..], sep);
    }
  }

  /** Index of the first `c` in `s`. */
  function IndexOfChar(s: string, c: char): (i: nat)
    requires c in s
    ensures i < |s| && s[i] == c && c !in s[..i]
  {
    if s[0] == c then 0 else 1 + IndexOfChar(s[1..], c)
  }

  /** `s.split(sep)` for a one-character separator. */
  function SplitOn(s: string, sep: char): (r: seq<string>)
    ensures |r| >= 1
    ensures forall k :: 0 <= k < |r| ==> sep !in r[k]
    ensures Join(r, [sep]) == s
    decreases |s|
  {
    if sep !in s then [s]
    else
      var i := IndexOfChar(s, sep);
      var rest := SplitOn(s[i + 1..], sep);
      assert s == s[..i] + [sep] + s[i + 1..];
      assert ([s[..i]] + rest)[1..] == rest;
      [s[..i]] + rest
  }

  predicate NotSpace(c: char) { !IsSpace(c) }

  /** `s.split()`: the maximal runs of non-whitespace characters. */
  predicate IsSpaceFreeWord(w: string) {
    w != [] && forall j :: 0 <= j < |w| ==> !IsSpace(w[j])
  }

  /** The leading run of non-whitespace characters of `t`. */
  function LeadingWord(t: string): (w: string)
    requires t != [] && !IsSpace(t[0])
    ensures IsSpaceFreeWord(w) && |w| <= |t| && w == t[..|w|]
  {
    var n := LeadingCount(t, NotSpace);
    assert NotSpace(t[0]);
    forall j | 0 <= j < n ensures !IsSpace(t[j]) { assert NotSpace(t[j]); }
    t[..n]
  }

  function SplitWhitespace(s: string): (r: seq<string>)
    ensures forall k :: 0 <= k < |r| ==> IsSpaceFreeWord(r[k])
    decreases |s|
  {
    var t := TrimStart(s, IsSpace);
    if t == [] then []
    else
      var w := LeadingWord(t);
      var rest := SplitWhitespace(t[|w|..]);
      ConsSpaceFree(w, rest);
      [w] + rest
  }

  /** A space-free word in front of space-free words. */
  lemma ConsSpaceFree(w: string, rest: seq<string>)
    requires IsSpaceFreeWord(w) && forall k :: 0 <= k < |rest| ==> IsSpaceFreeWord(rest[k])
    ensures forall k :: 0 <= k < |[w] + rest| ==> IsSpaceFreeWord(([w] + rest)[k])
  {
    forall k | 0 < k <= |rest| ensures IsSpaceFreeWord(([w] + rest)[k]) {
      assert ([w] + rest)[k] == rest[k - 1];
    }
  }

  /** Removes every character of `s` that satisfies `drop`. */
  function RemoveChars(s: string, drop: char -> bool): (r: string)
    ensures |r| <= |s|
    ensures forall k :: 0 <= k < |r| ==> !drop(r[k]) && r[k] in s
    ensures forall k :: 0 <= k < |s| && !drop(s[k]) ==> s[k] in r
    decreases |s|
  {
    if s == [] then []
    else if drop(s[0]) then RemoveChars(s[1..], drop)
    else [s[0]] + RemoveChars(s[1..], drop)
  }

  /** Decimal rendering of a natural number (Python's `str(n)`). */
  function NatToString(n: nat): (r: string)
    ensures r != [] && forall k :: 0 <= k < |r| ==> IsDigit(r[k])
  {
    var d := ['0' + (n % 10) as char];
    if n < 10 then d else NatToString(n / 10) + d
  }
}
