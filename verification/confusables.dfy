/**
 * Repair of tokens that mix Cyrillic letters with their Latin look-alikes
 * (`_normalize_mixed_token` and `normalize_confusables` of the tagging step).
 *
 * A token is a maximal run of digits, ASCII letters, the letters `А-Яа-яЁё` and
 * the characters `-_/.`. A token that holds both scripts and matches none of the
 * "technical code" patterns is rewritten towards its majority script, converting
 * only the 23 letters that have a look-alike in the other script.
 */
module Confusables {
  import opened Wrappers
  import opened Text

  /** The Latin letter -> Cyrillic look-alike table. */
  const LatToCyr: map<char, char> := map[
    'A' := 'А', 'a' := 'а', 'B' := 'В', 'E' := 'Е', 'e' := 'е', 'K' := 'К', 'k' := 'к',
    'M' := 'М', 'm' := 'м', 'H' := 'Н', 'h' := 'н', 'O' := 'О', 'o' := 'о', 'P' := 'Р', 'p' := 'р',
    'C' := 'С', 'c' := 'с', 'T' := 'Т', 't' := 'т', 'X' := 'Х', 'x' := 'х', 'Y' := 'У', 'y' := 'у'
  ]

  /** The inverse table, Cyrillic -> Latin. */
  const CyrToLat: map<char, char> := map[
    'А' := 'A', 'а' := 'a', 'В' := 'B', 'Е' := 'E', 'е' := 'e', 'К' := 'K', 'к' := 'k',
    'М' := 'M', 'м' := 'm', 'Н' := 'H', 'н' := 'h', 'О' := 'O', 'о' := 'o', 'Р' := 'P', 'р' := 'p',
    'С' := 'C', 'с' := 'c', 'Т' := 'T', 'т' := 't', 'Х' := 'X', 'х' := 'x', 'У' := 'Y', 'у' := 'y'
  ]

  /** A character whose Unicode name contains LATIN (the letters of the Latin blocks). */
  predicate IsLatin(c: char) {
    IsAsciiLetter(c) || ('\U{C0}' <= c <= '\U{24F}' && c != '×' && c != '÷')
  }

  /** A character whose Unicode name contains CYRILLIC (the Cyrillic block). */
  predicate IsCyrillic(c: char) {
    '\U{400}' <= c <= '\U{4FF}'
  }

  /** Every key of the Latin table is an ASCII letter whose image is Cyrillic and maps back. */
  lemma LatinKey(k: char)
    requires k in LatToCyr
    ensures IsAsciiLetter(k) && IsCyrillic(LatToCyr[k]) && IsBasicCyrillic(LatToCyr[k])
    ensures LatToCyr[k] in CyrToLat && CyrToLat[LatToCyr[k]] == k
  {
    if k == 'A' || k == 'a' || k == 'B' {
      LatinKeys1(k);
    } else if k == 'E' || k == 'e' || k == 'K' {
      LatinKeys2(k);
    } else if k == 'k' || k == 'M' || k == 'm' {
      LatinKeys3(k);
    } else if k == 'H' || k == 'h' || k == 'O' {
      LatinKeys4(k);
    } else if k == 'o' || k == 'P' || k == 'p' {
      LatinKeys5(k);
    } else if k == 'C' || k == 'c' || k == 'T' {
      LatinKeys6(k);
    } else if k == 't' || k == 'X' || k == 'x' {
      LatinKeys7(k);
    } else {
      LatinKeys8(k);
    }
  }

  /** The table facts, checked a few keys at a time. */
  lemma LatinKeys1(k: char)
    requires k == 'A' || k == 'a' || k == 'B'
    ensures IsAsciiLetter(k) && IsCyrillic(LatToCyr[k]) && IsBasicCyrillic(LatToCyr[k])
    ensures LatToCyr[k] in CyrToLat && CyrToLat[LatToCyr[k]] == k
  {
  }

  lemma LatinKeys2(k: char)
    requires k == 'E' || k == 'e' || k == 'K'
    ensures IsAsciiLetter(k) && IsCyrillic(LatToCyr[k]) && IsBasicCyrillic(LatToCyr[k])
    ensures LatToCyr[k] in CyrToLat && CyrToLat[LatToCyr[k]] == k
  {
  }

  lemma LatinKeys3(k: char)
    requires k == 'k' || k == 'M' || k == 'm'
    ensures IsAsciiLetter(k) && IsCyrillic(LatToCyr[k]) && IsBasicCyrillic(LatToCyr[k])
    ensures LatToCyr[k] in CyrToLat && CyrToLat[LatToCyr[k]] == k
  {
  }

  lemma LatinKeys4(k: char)
    requires k == 'H' || k == 'h' || k == 'O'
    ensures IsAsciiLetter(k) && IsCyrillic(LatToCyr[k]) && IsBasicCyrillic(LatToCyr[k])
    ensures LatToCyr[k] in CyrToLat && CyrToLat[LatToCyr[k]] == k
  {
  }

  lemma LatinKeys5(k: char)
    requires k == 'o' || k == 'P' || k == 'p'
    ensures IsAsciiLetter(k) && IsCyrillic(LatToCyr[k]) && IsBasicCyrillic(LatToCyr[k])
    ensures LatToCyr[k] in CyrToLat && CyrToLat[LatToCyr[k]] == k
  {
  }

  lemma LatinKeys6(k: char)
    requires k == 'C' || k == 'c' || k == 'T'
    ensures IsAsciiLetter(k) && IsCyrillic(LatToCyr[k]) && IsBasicCyrillic(LatToCyr[k])
    ensures LatToCyr[k] in CyrToLat && CyrToLat[LatToCyr[k]] == k
  {
  }

  lemma LatinKeys7(k: char)
    requires k == 't' || k == 'X' || k == 'x'
    ensures IsAsciiLetter(k) && IsCyrillic(LatToCyr[k]) && IsBasicCyrillic(LatToCyr[k])
    ensures LatToCyr[k] in CyrToLat && CyrToLat[LatToCyr[k]] == k
  {
  }

  lemma LatinKeys8(k: char)
    requires k == 'Y' || k == 'y'
    ensures IsAsciiLetter(k) && IsCyrillic(LatToCyr[k]) && IsBasicCyrillic(LatToCyr[k])
    ensures LatToCyr[k] in CyrToLat && CyrToLat[LatToCyr[k]] == k
  {
  }

  /** Every key of the Cyrillic table is a basic Cyrillic letter whose image is Latin and maps back (the table is injective). */
  lemma CyrillicKey(v: char)
    requires v in CyrToLat
    ensures IsBasicCyrillic(v) && IsCyrillic(v) && IsAsciiLetter(CyrToLat[v])
    ensures CyrToLat[v] in LatToCyr && LatToCyr[CyrToLat[v]] == v
  {
    if v == 'А' || v == 'а' || v == 'В' {
      CyrillicKeys1(v);
    } else if v == 'Е' || v == 'е' || v == 'К' {
      CyrillicKeys2(v);
    } else if v == 'к' || v == 'М' || v == 'м' {
      CyrillicKeys3(v);
    } else if v == 'Н' || v == 'н' || v == 'О' {
      CyrillicKeys4(v);
    } else if v == 'о' || v == 'Р' || v == 'р' {
      CyrillicKeys5(v);
    } else if v == 'С' || v == 'с' || v == 'Т' {
      CyrillicKeys6(v);
    } else if v == 'т' || v == 'Х' || v == 'х' {
      CyrillicKeys7(v);
    } else {
      CyrillicKeys8(v);
    }
  }

  lemma CyrillicKeys1(v: char)
    requires v == 'А' || v == 'а' || v == 'В'
    ensures IsBasicCyrillic(v) && IsCyrillic(v) && IsAsciiLetter(CyrToLat[v])
    ensures CyrToLat[v] in LatToCyr && LatToCyr[CyrToLat[v]] == v
  {
  }

  lemma CyrillicKeys2(v: char)
    requires v == 'Е' || v == 'е' || v == 'К'
    ensures IsBasicCyrillic(v) && IsCyrillic(v) && IsAsciiLetter(CyrToLat[v])
    ensures CyrToLat[v] in LatToCyr && LatToCyr[CyrToLat[v]] == v
  {
  }

  lemma CyrillicKeys3(v: char)
    requires v == 'к' || v == 'М' || v == 'м'
    ensures IsBasicCyrillic(v) && IsCyrillic(v) && IsAsciiLetter(CyrToLat[v])
    ensures CyrToLat[v] in LatToCyr && LatToCyr[CyrToLat[v]] == v
  {
  }

  lemma CyrillicKeys4(v: char)
    requires v == 'Н' || v == 'н' || v == 'О'
    ensures IsBasicCyrillic(v) && IsCyrillic(v) && IsAsciiLetter(CyrToLat[v])
    ensures CyrToLat[v] in LatToCyr && LatToCyr[CyrToLat[v]] == v
  {
  }

  lemma CyrillicKeys5(v: char)
    requires v == 'о' || v == 'Р' || v == 'р'
    ensures IsBasicCyrillic(v) && IsCyrillic(v) && IsAsciiLetter(CyrToLat[v])
    ensures CyrToLat[v] in LatToCyr && LatToCyr[CyrToLat[v]] == v
  {
  }

  lemma CyrillicKeys6(v: char)
    requires v == 'С' || v == 'с' || v == 'Т'
    ensures IsBasicCyrillic(v) && IsCyrillic(v) && IsAsciiLetter(CyrToLat[v])
    ensures CyrToLat[v] in LatToCyr && LatToCyr[CyrToLat[v]] == v
  {
  }

  lemma CyrillicKeys7(v: char)
    requires v == 'т' || v == 'Х' || v == 'х'
    ensures IsBasicCyrillic(v) && IsCyrillic(v) && IsAsciiLetter(CyrToLat[v])
    ensures CyrToLat[v] in LatToCyr && LatToCyr[CyrToLat[v]] == v
  {
  }

  lemma CyrillicKeys8(v: char)
    requires v == 'У' || v == 'у'
    ensures IsBasicCyrillic(v) && IsCyrillic(v) && IsAsciiLetter(CyrToLat[v])
    ensures CyrToLat[v] in LatToCyr && LatToCyr[CyrToLat[v]] == v
  {
  }

  /** A character of the token class `[0-9A-Za-zА-Яа-яЁё\-_/\.]`. */
  predicate IsTokenChar(c: char) {
    IsDigit(c) || IsAsciiLetter(c) || IsBasicCyrillic(c) || c == '-' || c == '_' || c == '/' || c == '.'
  }

  /** Two Latin letters at `i` and `i + 1` and a digit at `i + 2`. */
  predicate LettersThenDigitAt(t: string, i: int)
    requires 0 <= i < |t| - 2
  {
    IsAsciiLetter(t[i]) && IsAsciiLetter(t[i + 1]) && IsDigit(t[i + 2])
  }

  /** `[A-Za-z]{2,}\d+` found somewhere: two Latin letters directly followed by a digit. */
  predicate HasLettersThenDigit(t: string) {
    exists i :: 0 <= i < |t| - 2 && LettersThenDigitAt(t, i)
  }

  /** Three upper-case Latin letters from `i` on. */
  predicate UpperRunAt(t: string, i: int)
    requires 0 <= i < |t| - 2
  {
    IsAsciiUpper(t[i]) && IsAsciiUpper(t[i + 1]) && IsAsciiUpper(t[i + 2])
  }

  /** `[A-Z]{3,}` found somewhere: three consecutive upper-case Latin letters. */
  predicate HasUpperRun(t: string) {
    exists i :: 0 <= i < |t| - 2 && UpperRunAt(t, i)
  }

  /** A digit at `i` followed by a Latin letter or a hyphen. */
  predicate DigitThenLetterAt(t: string, i: int)
    requires 0 <= i < |t| - 1
  {
    IsDigit(t[i]) && (IsAsciiLetter(t[i + 1]) || t[i + 1] == '-')
  }

  /** `\d+[A-Za-z\-]+` found somewhere: a digit directly followed by a Latin letter or a hyphen. */
  predicate HasDigitThenLetter(t: string) {
    exists i :: 0 <= i < |t| - 1 && DigitThenLetterAt(t, i)
  }

  /** `https?://|www\.` found somewhere. */
  predicate HasUrl(t: string) {
    Contains(t, "http://") || Contains(t, "https://") || Contains(t, "www.")
  }

  /** Technical codes (DN50, FANUC, 12X18H10T, URLs) are never rewritten. */
  predicate TokenShouldBeSkipped(t: string) {
    HasLettersThenDigit(t) || HasUpperRun(t) || HasDigitThenLetter(t) || HasUrl(t)
  }

  function CountLatin(t: string): (n: nat)
    ensures n <= |t|
    decreases |t|
  {
    if t == [] then 0 else (if IsLatin(t[0]) then 1 else 0) + CountLatin(t[1..])
  }

  function CountCyrillic(t: string): (n: nat)
    ensures n <= |t|
    decreases |t|
  {
    if t == [] then 0 else (if IsCyrillic(t[0]) then 1 else 0) + CountCyrillic(t[1..])
  }

  /** One character of a rewritten token: towards Cyrillic when `toCyr`, towards Latin otherwise. */
  function ConvertChar(toCyr: bool, c: char): (d: char)
    ensures d == c || (toCyr && c in LatToCyr && d == LatToCyr[c]) || (!toCyr && c in CyrToLat && d == CyrToLat[c])
  {
    if toCyr && IsLatin(c) && c in LatToCyr then LatToCyr[c]
    else if !toCyr && IsCyrillic(c) && c in CyrToLat then CyrToLat[c]
    else c
  }

  /** Converting a converted character changes nothing more. */
  lemma ConvertCharIdempotent(toCyr: bool, c: char)
    ensures ConvertChar(toCyr, ConvertChar(toCyr, c)) == ConvertChar(toCyr, c)
  {
    ConvertCharKeepsClass(toCyr, c);
  }

  /** Characters outside the look-alike tables pass through. */
  lemma ConvertCharKeepsClass(toCyr: bool, c: char)
    ensures IsTokenChar(ConvertChar(toCyr, c)) <==> IsTokenChar(c)
    ensures !IsTokenChar(c) ==> ConvertChar(toCyr, c) == c
    ensures toCyr && !IsCyrillic(ConvertChar(toCyr, c)) ==> ConvertChar(toCyr, c) == c
    ensures !toCyr && IsCyrillic(ConvertChar(toCyr, c)) ==> ConvertChar(toCyr, c) == c
    ensures toCyr ==> (IsCyrillic(c) ==> IsCyrillic(ConvertChar(toCyr, c)))
    ensures !toCyr ==> (IsLatin(c) ==> IsLatin(ConvertChar(toCyr, c)))
    ensures !toCyr ==> (IsCyrillic(ConvertChar(toCyr, c)) ==> IsCyrillic(c))
    ensures toCyr ==> (IsLatin(ConvertChar(toCyr, c)) ==> IsLatin(c))
  {
    if c in LatToCyr { LatinKey(c); }
    if c in CyrToLat { CyrillicKey(c); }
  }

  /** Every character of `t` converted in one direction. */
  function Convert(toCyr: bool, t: string): (r: string)
    ensures |r| == |t|
    ensures forall k :: 0 <= k < |t| ==> r[k] == ConvertChar(toCyr, t[k])
    decreases |t|
  {
    if t == [] then [] else [ConvertChar(toCyr, t[0])] + Convert(toCyr, t[1..])
  }

  /** The token after `_normalize_mixed_token`. */
  function NormalizedToken(t: string): string {
    var lat := CountLatin(t);
    var cyr := CountCyrillic(t);
    if lat == 0 || cyr == 0 || TokenShouldBeSkipped(t) then t
    else Convert(cyr >= lat, t)
  }

  /** `_normalize_mixed_token`: the rewriting loop over the characters of one token. */
  method NormalizeMixedToken(tok: string) returns (out: string)
    ensures out == NormalizedToken(tok)
  {
    var lat := CountLatin(tok);
    var cyr := CountCyrillic(tok);
    if lat == 0 || cyr == 0 || TokenShouldBeSkipped(tok) {
      return tok;
    }
    var toCyr := cyr >= lat;
    out := "";
    for i := 0 to |tok|
      invariant |out| == i
      invariant forall k :: 0 <= k < i ==> out[k] == ConvertChar(toCyr, tok[k])
    {
      out := out + [ConvertChar(toCyr, tok[i])];
    }
  }

  /** Converting towards Cyrillic never adds Latin letters nor removes Cyrillic ones. */
  lemma {:induction false} ConvertCounts(toCyr: bool, t: string)
    ensures toCyr ==> CountLatin(Convert(toCyr, t)) <= CountLatin(t) && CountCyrillic(Convert(toCyr, t)) >= CountCyrillic(t)
    ensures !toCyr ==> CountLatin(Convert(toCyr, t)) >= CountLatin(t) && CountCyrillic(Convert(toCyr, t)) <= CountCyrillic(t)
    decreases |t|
  {
    if t != [] {
      ConvertCounts(toCyr, t[1..]);
      ConvertCharKeepsClass(toCyr, t[0]);
      assert Convert(toCyr, t)[1..] == Convert(toCyr, t[1..]);
    }
  }

  lemma ConvertIdempotent(toCyr: bool, t: string)
    ensures Convert(toCyr, Convert(toCyr, t)) == Convert(toCyr, t)
  {
    forall k | 0 <= k < |t| ensures Convert(toCyr, Convert(toCyr, t))[k] == Convert(toCyr, t)[k] {
      ConvertCharIdempotent(toCyr, t[k]);
    }
  }

  /** Where a Cyrillic-bound conversion yields a non-Cyrillic character, that character was already there. */
  lemma ToCyrillicKeepsNonCyrillic(t: string)
    ensures forall k :: 0 <= k < |t| && !IsCyrillic(Convert(true, t)[k]) ==> Convert(true, t)[k] == t[k]
  {
    forall k | 0 <= k < |t| && !IsCyrillic(Convert(true, t)[k]) ensures Convert(true, t)[k] == t[k] {
      ConvertCharKeepsClass(true, t[k]);
    }
  }

  /** A substring free of Cyrillic letters found after a Cyrillic-bound conversion was there before. */
  lemma ToCyrillicKeepsSubstring(t: string, u: string)
    requires Contains(Convert(true, t), u)
    requires forall j :: 0 <= j < |u| ==> !IsCyrillic(u[j])
    ensures Contains(t, u)
  {
    var r := Convert(true, t);
    ToCyrillicKeepsNonCyrillic(t);
    var i :| 0 <= i <= |r| - |u| && PrefixAt(r, u, i);
    assert forall j :: 0 <= j < |u| ==> r[i + j] == u[j];
    assert t[i..i + |u|] == u;
    assert PrefixAt(t, u, i);
  }

  lemma LettersThenDigitBeforeCyrillic(t: string)
    requires HasLettersThenDigit(Convert(true, t))
    ensures HasLettersThenDigit(t)
  {
    var r := Convert(true, t);
    var i :| 0 <= i < |r| - 2 && LettersThenDigitAt(r, i);
    ToCyrillicKeepsNonCyrillic(t);
    assert LettersThenDigitAt(t, i);
  }

  lemma UpperRunBeforeCyrillic(t: string)
    requires HasUpperRun(Convert(true, t))
    ensures HasUpperRun(t)
  {
    var r := Convert(true, t);
    var i :| 0 <= i < |r| - 2 && UpperRunAt(r, i);
    ToCyrillicKeepsNonCyrillic(t);
    assert UpperRunAt(t, i);
  }

  lemma DigitThenLetterBeforeCyrillic(t: string)
    requires HasDigitThenLetter(Convert(true, t))
    ensures HasDigitThenLetter(t)
  {
    var r := Convert(true, t);
    var i :| 0 <= i < |r| - 1 && DigitThenLetterAt(r, i);
    ToCyrillicKeepsNonCyrillic(t);
    assert DigitThenLetterAt(t, i);
  }

  /** A Cyrillic-bound conversion cannot create a technical-code pattern: any it shows was already there. */
  lemma SkippedBeforeCyrillic(t: string)
    requires TokenShouldBeSkipped(Convert(true, t))
    ensures TokenShouldBeSkipped(t)
  {
    var r := Convert(true, t);
    if HasLettersThenDigit(r) { LettersThenDigitBeforeCyrillic(t); }
    else if HasUpperRun(r) { UpperRunBeforeCyrillic(t); }
    else if HasDigitThenLetter(r) { DigitThenLetterBeforeCyrillic(t); }
    else if Contains(r, "http://") { ToCyrillicKeepsSubstring(t, "http://"); }
    else if Contains(r, "https://") { ToCyrillicKeepsSubstring(t, "https://"); }
    else { ToCyrillicKeepsSubstring(t, "www."); }
  }

  /** `_normalize_mixed_token` is idempotent: a repaired token is left alone. */
  lemma NormalizedTokenIdempotent(t: string)
    ensures NormalizedToken(NormalizedToken(t)) == NormalizedToken(t)
  {
    var lat, cyr := CountLatin(t), CountCyrillic(t);
    if !(lat == 0 || cyr == 0 || TokenShouldBeSkipped(t)) {
      var toCyr := cyr >= lat;
      var r := Convert(toCyr, t);
      ConvertCounts(toCyr, t);
      ConvertIdempotent(toCyr, t);
      if toCyr && TokenShouldBeSkipped(r) {
        SkippedBeforeCyrillic(t);
      }
      if !(CountLatin(r) == 0 || CountCyrillic(r) == 0 || TokenShouldBeSkipped(r)) {
        assert (CountCyrillic(r) >= CountLatin(r)) == toCyr;
      }
    }
  }

  /** After repair, the minority script keeps no letter that has a look-alike in the majority script. */
  lemma NormalizedTokenResolvesMinority(t: string)
    requires CountLatin(t) > 0 && CountCyrillic(t) > 0 && !TokenShouldBeSkipped(t)
    ensures var r := NormalizedToken(t);
      |r| == |t| &&
      (CountCyrillic(t) >= CountLatin(t) ==> forall k :: 0 <= k < |r| ==> !(IsLatin(r[k]) && r[k] in LatToCyr)) &&
      (CountCyrillic(t) < CountLatin(t) ==> forall k :: 0 <= k < |r| ==> !(IsCyrillic(r[k]) && r[k] in CyrToLat))
  {
    var r := NormalizedToken(t);
    forall k | 0 <= k < |r|
      ensures CountCyrillic(t) >= CountLatin(t) ==> !(IsLatin(r[k]) && r[k] in LatToCyr)
      ensures CountCyrillic(t) < CountLatin(t) ==> !(IsCyrillic(r[k]) && r[k] in CyrToLat)
    {
      if t[k] in LatToCyr { LatinKey(t[k]); }
      if t[k] in CyrToLat { CyrillicKey(t[k]); }
    }
  }

  /** The length of the token at the start of `t` (the greedy `+` of the token pattern). */
  function TokenLength(t: string): (n: nat)
    ensures n <= |t|
    decreases |t|
  {
    if t != [] && IsTokenChar(t[0]) then 1 + TokenLength(t[1..]) else 0
  }

  /** A leading run of exactly `n` token characters is what `TokenLength` measures. */
  lemma {:induction false} TokenLengthOfRun(u: string, n: nat)
    requires n <= |u|
    requires forall k :: 0 <= k < n ==> IsTokenChar(u[k])
    requires n < |u| ==> !IsTokenChar(u[n])
    ensures TokenLength(u) == n
    decreases n
  {
    if n > 0 {
      TokenLengthOfRun(u[1..], n - 1);
    }
  }

  /** The token at the start of `t` is made of token characters and cannot be extended. */
  lemma {:induction false} TokenLengthIsRun(u: string)
    ensures forall k :: 0 <= k < TokenLength(u) ==> IsTokenChar(u[k])
    ensures TokenLength(u) < |u| ==> !IsTokenChar(u[TokenLength(u)])
    decreases |u|
  {
    if u != [] && IsTokenChar(u[0]) {
      TokenLengthIsRun(u[1..]);
      assert forall k :: 1 <= k < TokenLength(u) ==> u[k] == u[1..][k - 1];
    }
  }

  /** The text with every token `w` replaced by `f(w)` (the `finditer` loop of `normalize_confusables`). */
  function ScanTokens(t: string, f: string -> string): string
    decreases |t|
  {
    if t == [] then []
    else if !IsTokenChar(t[0]) then [t[0]] + ScanTokens(t[1..], f)
    else
      var n := TokenLength(t);
      f(t[..n]) + ScanTokens(t[n..], f)
  }

  function NormalizeTokens(t: string): string {
    ScanTokens(t, NormalizedToken)
  }

  /** `x` stands where `y` stood: both token characters, or the same separator. */
  predicate SameClass(x: char, y: char) {
    (IsTokenChar(x) <==> IsTokenChar(y)) && (!IsTokenChar(y) ==> x == y)
  }

  /** `r` keeps the separators of `t` in place and has token characters exactly where `t` has them. */
  predicate SameSeparators(r: string, t: string) {
    |r| == |t| && forall k :: 0 <= k < |t| ==> SameClass(r[k], t[k])
  }

  lemma SameSeparatorsConcat(r1: string, t1: string, r2: string, t2: string)
    requires SameSeparators(r1, t1) && SameSeparators(r2, t2)
    ensures SameSeparators(r1 + r2, t1 + t2)
  {
    forall k | 0 <= k < |t1| + |t2| ensures SameClass((r1 + r2)[k], (t1 + t2)[k]) {
      if k < |t1| {
        assert (r1 + r2)[k] == r1[k] && (t1 + t2)[k] == t1[k];
        assert SameClass(r1[k], t1[k]);
      } else {
        assert (r1 + r2)[k] == r2[k - |t1|] && (t1 + t2)[k] == t2[k - |t1|];
        assert SameClass(r2[k - |t1|], t2[k - |t1|]);
      }
    }
  }

  lemma NormalizedTokenKeepsClass(t: string)
    ensures SameSeparators(NormalizedToken(t), t)
  {
    if !(CountLatin(t) == 0 || CountCyrillic(t) == 0 || TokenShouldBeSkipped(t)) {
      var toCyr := CountCyrillic(t) >= CountLatin(t);
      var r := Convert(toCyr, t);
      forall k | 0 <= k < |t| ensures SameClass(r[k], t[k]) {
        assert r[k] == ConvertChar(toCyr, t[k]);
        ConvertCharKeepsClass(toCyr, t[k]);
      }
    }
  }

  /** Separators are copied verbatim and token characters stay token characters. */
  lemma {:induction false} NormalizeTokensKeepsSeparators(t: string)
    ensures SameSeparators(NormalizeTokens(t), t)
    decreases |t|
  {
    if t != [] {
      if !IsTokenChar(t[0]) {
        NormalizeTokensKeepsSeparators(t[1..]);
        SameSeparatorsConcat([t[0]], [t[0]], NormalizeTokens(t[1..]), t[1..]);
        assert [t[0]] + t[1..] == t;
      } else {
        var n := TokenLength(t);
        NormalizeTokensKeepsSeparators(t[n..]);
        NormalizedTokenKeepsClass(t[..n]);
        SameSeparatorsConcat(NormalizedToken(t[..n]), t[..n], NormalizeTokens(t[n..]), t[n..]);
        assert t[..n] + t[n..] == t;
      }
    }
  }

  /** Repairing an already repaired text changes nothing. */
  lemma {:induction false} NormalizeTokensIdempotent(t: string)
    ensures NormalizeTokens(NormalizeTokens(t)) == NormalizeTokens(t)
    decreases |t|
  {
    if t != [] {
      var r := NormalizeTokens(t);
      if !IsTokenChar(t[0]) {
        NormalizeTokensIdempotent(t[1..]);
        assert r[1..] == NormalizeTokens(t[1..]);
      } else {
        var n := TokenLength(t);
        var head := NormalizedToken(t[..n]);
        var tail := NormalizeTokens(t[n..]);
        NormalizeTokensIdempotent(t[n..]);
        NormalizeTokensKeepsSeparators(t);
        TokenLengthIsRun(t);
        assert forall k :: 0 <= k < n ==> IsTokenChar(r[k]) by {
          forall k | 0 <= k < n ensures IsTokenChar(r[k]) {
            assert SameClass(r[k], t[k]);
          }
        }
        if n < |t| {
          assert SameClass(r[n], t[n]);
        }
        TokenLengthOfRun(r, n);
        assert r == head + tail;
        assert r[..n] == head && r[n..] == tail;
        NormalizedTokenIdempotent(t[..n]);
      }
    }
  }

  /** A leading token of length `n` is rewritten and the rest of the text is scanned after it. */
  lemma UnfoldToken(u: string, n: nat, f: string -> string)
    requires 0 < n <= |u|
    requires forall k :: 0 <= k < n ==> IsTokenChar(u[k])
    requires n < |u| ==> !IsTokenChar(u[n])
    ensures ScanTokens(u, f) == f(u[..n]) + ScanTokens(u[n..], f)
  {
    TokenLengthOfRun(u, n);
  }

  /** The scan invariant survives copying the separator `t[i]` into the pending gap. */
  lemma ScanSeparator(t: string, f: string -> string, out: string, last: nat, i: nat)
    requires last <= i < |t| && !IsTokenChar(t[i])
    requires out + t[last..i] + ScanTokens(t[i..], f) == ScanTokens(t, f)
    ensures out + t[last..i + 1] + ScanTokens(t[i + 1..], f) == ScanTokens(t, f)
  {
    assert t[i..][1..] == t[i + 1..];
    assert t[last..i + 1] == t[last..i] + [t[i]];
    var a, b, c, d := out, t[last..i], [t[i]], ScanTokens(t[i + 1..], f);
    assert a + b + (c + d) == (a + b + c) + d;
  }

  /** The token `t[i..e]` is rewritten and the scan goes on after it. */
  lemma UnfoldTokenAt(t: string, i: nat, e: nat, f: string -> string)
    requires i < e <= |t|
    requires forall k :: i <= k < e ==> IsTokenChar(t[k])
    requires e < |t| ==> !IsTokenChar(t[e])
    ensures ScanTokens(t[i..], f) == f(t[i..e]) + ScanTokens(t[e..], f)
  {
    var u := t[i..];
    assert forall k :: 0 <= k < e - i ==> u[k] == t[i + k];
    assert e < |t| ==> u[e - i] == t[e];
    UnfoldToken(u, e - i, f);
    assert u[..e - i] == t[i..e] && u[e - i..] == t[e..];
  }

  lemma Regroup(p: string, c: string, d: string, whole: string)
    requires p + (c + d) == whole
    ensures (p + c) + [] + d == whole
  {
    assert (p + c) + [] + d == p + (c + d);
  }

  /** The scan invariant survives flushing the pending gap and the rewritten token `t[i..e]`. */
  lemma ScanToken(t: string, f: string -> string, out: string, last: nat, i: nat, e: nat)
    requires last <= i < e <= |t|
    requires forall k :: i <= k < e ==> IsTokenChar(t[k])
    requires e < |t| ==> !IsTokenChar(t[e])
    requires out + t[last..i] + ScanTokens(t[i..], f) == ScanTokens(t, f)
    ensures (out + t[last..i] + f(t[i..e])) + t[e..e] + ScanTokens(t[e..], f) == ScanTokens(t, f)
  {
    UnfoldTokenAt(t, i, e, f);
    Regroup(out + t[last..i], f(t[i..e]), ScanTokens(t[e..], f), ScanTokens(t, f));
    assert t[e..e] == [];
  }

  /** When the scan has reached the end, the pending gap completes the output. */
  lemma ScanEnd(t: string, f: string -> string, out: string, last: nat)
    requires last <= |t|
    requires out + t[last..|t|] + ScanTokens(t[|t|..], f) == ScanTokens(t, f)
    ensures out + t[last..] == ScanTokens(t, f)
  {
    assert t[|t|..] == [];
    assert out + t[last..|t|] + [] == out + t[last..];
  }

  /** The end of the token that starts at `s`. */
  method TokenEnd(t: string, s: nat) returns (e: nat)
    requires s < |t|
    ensures s <= e <= |t|
    ensures forall k :: s <= k < e ==> IsTokenChar(t[k])
    ensures e < |t| ==> !IsTokenChar(t[e])
  {
    e := s;
    while e < |t| && IsTokenChar(t[e])
      invariant s <= e <= |t|
      invariant forall k :: s <= k < e ==> IsTokenChar(t[k])
      decreases |t| - e
    {
      e := e + 1;
    }
  }

  /** `normalize_confusables`: a value that is not a string is returned as it is. */
  function ConfusablesNormalized(text: Option<string>, nfkc: string -> string): (r: Option<string>)
    ensures r.None? <==> text.None?
  {
    match text
    case None => None
    case Some(s) => Some(NormalizeTokens(nfkc(s)))
  }

  /**
   * `normalize_confusables` on a string: the NFKC normal form (computed by `nfkc`),
   * then the scan that copies the gaps between tokens and repairs each token.
   */
  method NormalizeConfusables(text: string, nfkc: string -> string) returns (out: string)
    ensures Some(out) == ConfusablesNormalized(Some(text), nfkc)
  {
    var t := nfkc(text);
    ghost var f := NormalizedToken;
    out := "";
    var last := 0;
    var i := 0;
    while i < |t|
      invariant 0 <= last <= i <= |t|
      invariant out + t[last..i] + ScanTokens(t[i..], f) == ScanTokens(t, f)
      decreases |t| - i
    {
      if !IsTokenChar(t[i]) {
        ScanSeparator(t, f, out, last, i);
        i := i + 1;
      } else {
        var e := TokenEnd(t, i);
        var tok := NormalizeMixedToken(t[i..e]);
        ScanToken(t, f, out, last, i, e);
        out := out + t[last..i] + tok;
        last := e;
        i := e;
      }
    }
    ScanEnd(t, f, out, last);
    out := out + t[last..];
  }
}
