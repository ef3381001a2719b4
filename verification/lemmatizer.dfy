/**
 * Word tokens and lemmas of the tagging step (`WORD_RE` and `extract_lemmas`).
 *
 * `WORD_RE` is `\b L+ (?:-L+)* \b` with `L` the letters `а-яА-Яa-zA-ZЁё`. It is
 * matched here by hand, with Python's leftmost, greedy, backtracking semantics:
 * the hyphen groups are taken greedily, and when the word is glued to a further
 * `\w` character (a digit, `_`, an accented letter) the last group is given back,
 * so `abc-def1` yields `abc`, and `abc1` yields nothing.
 */
module Lemmatizer {
  import opened Wrappers
  import opened Text
  import opened Confusables

  /** The letter class `[а-яА-Яa-zA-ZЁё]`. */
  predicate IsWordLetter(c: char) {
    IsAsciiLetter(c) || IsBasicCyrillic(c)
  }

  lemma WordLetterIsWordChar(c: char)
    ensures IsWordLetter(c) ==> IsWordChar(c)
  {
  }

  /** The end of the run of letters that starts at `i`. */
  function LetterRunEnd(t: string, i: nat): (r: nat)
    requires i <= |t|
    ensures i <= r <= |t|
    ensures forall k :: i <= k < r ==> IsWordLetter(t[k])
    ensures r < |t| ==> !IsWordLetter(t[r])
    decreases |t| - i
  {
    if i < |t| && IsWordLetter(t[i]) then LetterRunEnd(t, i + 1) else i
  }

  /** Every character of `t[p..e]` is a letter or a hyphen. */
  predicate LettersAndHyphens(t: string, p: nat, e: nat)
    requires p <= e <= |t|
  {
    forall k :: p <= k < e ==> IsWordLetter(t[k]) || t[k] == '-'
  }

  /**
   * The hyphen groups after a run that ends at `a`, taken greedily; `hy` is where
   * the last group taken so far starts. Gives the end of the match, if any.
   */
  function ChainMatch(t: string, p: nat, a: nat, hy: Option<nat>): (r: Option<nat>)
    requires p < a <= |t| && IsWordLetter(t[a - 1]) && LettersAndHyphens(t, p, a)
    requires hy.Some? ==> p < hy.value < a && IsWordLetter(t[hy.value - 1]) && t[hy.value] == '-'
    ensures r.Some? ==> p < r.value <= |t| && LettersAndHyphens(t, p, r.value)
    ensures r.Some? ==> IsWordLetter(t[r.value - 1]) && BoundaryAt(t, r.value)
    decreases |t| - a
  {
    if a + 1 < |t| && t[a] == '-' && IsWordLetter(t[a + 1]) then
      ChainMatch(t, p, LetterRunEnd(t, a + 1), Some(a))
    else if BoundaryAt(t, a) then Some(a)
    else
      // `\b` fails after the greedy chain: give back the last group, if there is one
      match hy
      case None => None
      case Some(h) =>
        assert IsWordChar(t[h - 1]) by { WordLetterIsWordChar(t[h - 1]); }
        Some(h)
  }

  /** The end of the `WORD_RE` match that starts at `p`, if one does. */
  function WordMatchAt(t: string, p: nat): (r: Option<nat>)
    requires p < |t|
    ensures r.Some? ==> p < r.value <= |t| && LettersAndHyphens(t, p, r.value)
    ensures r.Some? ==> IsWordLetter(t[p]) && IsWordLetter(t[r.value - 1])
    ensures r.Some? ==> BoundaryAt(t, p) && BoundaryAt(t, r.value)
  {
    if IsWordLetter(t[p]) && BoundaryAt(t, p) then
      ChainMatch(t, p, LetterRunEnd(t, p), None)
    else None
  }

  /** A word as `WORD_RE` returns it: letters and inner hyphens, a letter at both ends. */
  predicate WordShape(w: string) {
    w != [] && IsWordLetter(w[0]) && IsWordLetter(w[|w| - 1])
    && forall k :: 0 <= k < |w| ==> IsWordLetter(w[k]) || w[k] == '-'
  }

  /** `WORD_RE.findall(t[p..])`, scanning from `p`. */
  function WordsFrom(t: string, p: nat): (r: seq<string>)
    requires p <= |t|
    ensures forall k :: 0 <= k < |r| ==> WordShape(r[k])
    decreases |t| - p
  {
    if p == |t| then []
    else
      match WordMatchAt(t, p)
      case Some(e) =>
        assert WordShape(t[p..e]) by {
          forall k | 0 <= k < e - p ensures IsWordLetter(t[p..e][k]) || t[p..e][k] == '-' {
            assert t[p..e][k] == t[p + k];
          }
        }
        var rest := WordsFrom(t, e);
        assert forall k :: 0 < k <= |rest| ==> ([t[p..e]] + rest)[k] == rest[k - 1];
        [t[p..e]] + rest
      case None => WordsFrom(t, p + 1)
  }

  /** `WORD_RE.findall(t)`. */
  function Words(t: string): (r: seq<string>)
    ensures forall k :: 0 <= k < |r| ==> WordShape(r[k])
  {
    WordsFrom(t, 0)
  }

  /** A word glued to a digit is not a word. */
  lemma GluedDigitExample()
    ensures Words("ab1") == []
  {
    var t := "ab1";
    assert LetterRunEnd(t, 2) == 2;
    assert LetterRunEnd(t, 0) == 2;
    assert WordMatchAt(t, 0) == None;
    assert WordMatchAt(t, 1) == None;
    assert WordMatchAt(t, 2) == None;
  }

  /** When a hyphen group is glued to a digit, the group is given back: `ab-cd1` yields `ab`. */
  lemma GiveBackExample()
    ensures Words("ab-cd1") == ["ab"]
  {
    var t := "ab-cd1";
    assert LetterRunEnd(t, 0) == 2;
    assert LetterRunEnd(t, 3) == 5;
    assert ChainMatch(t, 0, 5, Some(2)) == Some(2);
    assert WordMatchAt(t, 0) == Some(2);
    assert WordMatchAt(t, 2) == None;
    assert WordMatchAt(t, 3) == None;
    assert WordMatchAt(t, 4) == None;
    assert WordMatchAt(t, 5) == None;
    assert WordsFrom(t, 2) == [];
    assert t[0..2] == "ab";
    assert WordsFrom(t, 0) == [t[0..2]] + WordsFrom(t, 2);
  }

  /** The tokens `extract_lemmas` keeps: not stop words and longer than one character. */
  predicate KeptToken(tok: string, stopWords: set<string>) {
    tok !in stopWords && |tok| > 1
  }

  /** The lemmas of `tokens`, in order: the normal form of every kept token. */
  function LemmasOf(tokens: seq<string>, stopWords: set<string>, normalForm: string -> string): (r: seq<string>)
    ensures |r| <= |tokens|
    decreases |tokens|
  {
    if tokens == [] then []
    else
      var init := LemmasOf(tokens[..|tokens| - 1], stopWords, normalForm);
      var tok := tokens[|tokens| - 1];
      if KeptToken(tok, stopWords) then init + [normalForm(tok)] else init
  }

  /** One token gives its normal form when it is kept, and nothing otherwise. */
  lemma LemmasOfSingle(tok: string, stopWords: set<string>, normalForm: string -> string)
    ensures LemmasOf([tok], stopWords, normalForm) == if KeptToken(tok, stopWords) then [normalForm(tok)] else []
  {
    assert [tok][..0] == [];
  }

  /** The lemmas of two token runs are the lemmas of the first followed by those of the second. */
  lemma {:induction false} LemmasOfAppend(a: seq<string>, b: seq<string>, stopWords: set<string>,
                                          normalForm: string -> string)
    ensures LemmasOf(a + b, stopWords, normalForm) == LemmasOf(a, stopWords, normalForm) + LemmasOf(b, stopWords, normalForm)
    decreases |b|
  {
    if b == [] {
      assert a + b == a;
    } else {
      var init, tok := b[..|b| - 1], b[|b| - 1];
      LemmasOfAppend(a, init, stopWords, normalForm);
      assert (a + b)[..|a + b| - 1] == a + init;
      assert (a + b)[|a + b| - 1] == tok;
      var last := if KeptToken(tok, stopWords) then [normalForm(tok)] else [];
      assert LemmasOf(b, stopWords, normalForm) == LemmasOf(init, stopWords, normalForm) + last;
      assert LemmasOf(a + b, stopWords, normalForm) == LemmasOf(a + init, stopWords, normalForm) + last;
    }
  }

  /** Every lemma is the normal form of a kept token, and every kept token gives its lemma. */
  lemma {:induction false} LemmasOfMembers(tokens: seq<string>, stopWords: set<string>, normalForm: string -> string)
    ensures forall l :: l in LemmasOf(tokens, stopWords, normalForm) <==>
      exists k :: 0 <= k < |tokens| && KeptToken(tokens[k], stopWords) && l == normalForm(tokens[k])
    decreases |tokens|
  {
    if tokens != [] {
      var init := tokens[..|tokens| - 1];
      LemmasOfMembers(init, stopWords, normalForm);
      forall l ensures l in LemmasOf(tokens, stopWords, normalForm) <==>
        exists k :: 0 <= k < |tokens| && KeptToken(tokens[k], stopWords) && l == normalForm(tokens[k])
      {
        if exists k :: 0 <= k < |tokens| && KeptToken(tokens[k], stopWords) && l == normalForm(tokens[k]) {
          var k :| 0 <= k < |tokens| && KeptToken(tokens[k], stopWords) && l == normalForm(tokens[k]);
          if k < |tokens| - 1 {
            assert init[k] == tokens[k];
          }
        }
        if l in LemmasOf(init, stopWords, normalForm) {
          var k :| 0 <= k < |init| && KeptToken(init[k], stopWords) && l == normalForm(init[k]);
          assert tokens[k] == init[k];
        }
      }
    }
  }

  /** The text whose words `extract_lemmas` reads: confusables repaired, then lower-cased. */
  function LemmaText(s: string, nfkc: string -> string): string {
    Lower(NormalizeTokens(nfkc(s)))
  }

  /** `extract_lemmas`: no lemmas for a value that is not a string. */
  function ExtractedLemmas(text: Option<string>, nfkc: string -> string, stopWords: set<string>,
                           normalForm: string -> string): (r: seq<string>)
    ensures text.None? ==> r == []
  {
    match text
    case None => []
    case Some(s) => LemmasOf(Words(LemmaText(s, nfkc)), stopWords, normalForm)
  }

  /**
   * `extract_lemmas` on a string: the loop over the words of the repaired, lower-cased
   * text that skips stop words and one-letter words and keeps the normal form
   * (`normalForm`, the morphological analyser's first parse) of the others.
   */
  method ExtractLemmas(text: string, nfkc: string -> string, stopWords: set<string>,
                       normalForm: string -> string) returns (lemmas: seq<string>)
    ensures lemmas == ExtractedLemmas(Some(text), nfkc, stopWords, normalForm)
  {
    var normalized := NormalizeConfusables(text, nfkc);
    var tokens := Words(Lower(normalized));
    lemmas := [];
    for i := 0 to |tokens|
      invariant lemmas == LemmasOf(tokens[..i], stopWords, normalForm)
    {
      assert tokens[..i + 1][..i] == tokens[..i];
      if tokens[i] !in stopWords && |tokens[i]| > 1 {
        lemmas := lemmas + [normalForm(tokens[i])];
      }
    }
    assert tokens[..|tokens|] == tokens;
  }
}
