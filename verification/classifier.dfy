/**
 * `classify_text`: the label of one goods description.
 *
 * The rejected candidates are the lemmas that are rejected words together with the
 * rejected words whose term pattern occurs in the repaired, lower-cased text; the
 * negation filter splits them into positive and negated-only terms. A positive
 * rejected term excludes the record; otherwise an approved lemma approves it;
 * otherwise the record stays undetermined.
 */
module Classifier {
  import opened Wrappers
  import opened Text
  import opened Sorting
  import opened Lemmatizer
  import opened Negation

  const Excluded := "исключено"
  const Approved := "одобрено"
  const Undetermined := "не определено"

  /**
   * What the classifier is given: the approved and rejected words of the tag list
   * (lower-cased), the stop words, and the foreign pieces (NFKC, the morphological
   * analyser's normal form, and the regex engine that runs the negation templates).
   */
  datatype Tagger = Tagger(approved: seq<string>, rejected: seq<string>, stopWords: set<string>,
                           nfkc: string -> string, normalForm: string -> string,
                           finder: (string, string) -> seq<Span>)

  /** The six columns `classify_text` produces. */
  datatype Classification = Classification(classification: string, reason: string, matchedApproved: seq<string>,
                                           matchedRejected: seq<string>, matchedRejectedNegated: seq<string>,
                                           negationTriggers: seq<string>)

  /** A list comprehension with a condition: the elements that pass `keep`, in order. */
  function Filter(xs: seq<string>, keep: string -> bool): (r: seq<string>)
    ensures |r| <= |xs|
    ensures forall y :: y in r <==> y in xs && keep(y)
    decreases |xs|
  {
    if xs == [] then []
    else
      var rest := Filter(xs[1..], keep);
      assert xs == [xs[0]] + xs[1..];
      if keep(xs[0]) then [xs[0]] + rest else rest
  }

  /** The kept elements of two lists joined are the kept elements of each, in order. */
  lemma {:induction false} FilterAppend(a: seq<string>, b: seq<string>, keep: string -> bool)
    ensures Filter(a + b, keep) == Filter(a, keep) + Filter(b, keep)
    decreases |a|
  {
    if a == [] {
      assert a + b == b;
    } else {
      var head := if keep(a[0]) then [a[0]] else [];
      assert a + b == [a[0]] + (a[1..] + b);
      assert a == [a[0]] + a[1..];
      calc {
        Filter(a + b, keep);
        { FilterCons(a[0], a[1..] + b, keep); }
        head + Filter(a[1..] + b, keep);
        { FilterAppend(a[1..], b, keep); }
        head + (Filter(a[1..], keep) + Filter(b, keep));
        (head + Filter(a[1..], keep)) + Filter(b, keep);
        { FilterCons(a[0], a[1..], keep); }
        Filter(a, keep) + Filter(b, keep);
      }
    }
  }

  /** The first kept element is the first element of the list that passes. */
  lemma {:induction false} FilterHead(xs: seq<string>, keep: string -> bool)
    requires Filter(xs, keep) != []
    ensures exists i :: 0 <= i < |xs| && Filter(xs, keep)[0] == xs[i] && keep(xs[i]) && forall j :: 0 <= j < i ==> !keep(xs[j])
    decreases |xs|
  {
    if !keep(xs[0]) {
      FilterHead(xs[1..], keep);
      var i :| 0 <= i < |xs[1..]| && Filter(xs[1..], keep)[0] == xs[1..][i] && keep(xs[1..][i]) &&
               forall j :: 0 <= j < i ==> !keep(xs[1..][j]);
      assert forall j :: 1 <= j < i + 1 ==> xs[j] == xs[1..][j - 1];
      assert xs[i + 1] == xs[1..][i];
    }
  }

  /** The head is kept iff it passes, ahead of the kept tail. */
  lemma FilterCons(x: string, xs: seq<string>, keep: string -> bool)
    ensures Filter([x] + xs, keep) == (if keep(x) then [x] else []) + Filter(xs, keep)
  {
    assert ([x] + xs)[1..] == xs;
  }

  /** `sorted(rej_candidates)`: rejected lemmas and rejected words found by the term pattern. */
  function RejectedCandidates(lemmas: seq<string>, text: string, rejected: seq<string>): (r: seq<string>)
    ensures StrictlySorted(r)
    ensures forall x :: x in r <==> x in rejected && (x in lemmas || TermFound(text, x))
  {
    SortedDistinct(Filter(lemmas, l => l in rejected) + Filter(rejected, term => TermFound(text, term)))
  }

  /** The lemmas of the description. */
  function LemmasOfText(raw: string, tg: Tagger): seq<string> {
    ExtractedLemmas(Some(raw), tg.nfkc, tg.stopWords, tg.normalForm)
  }

  /** `matched_approved`: the lemmas that are approved words, in order. */
  function MatchedApproved(raw: string, tg: Tagger): (r: seq<string>)
    ensures forall x :: x in r <==> x in LemmasOfText(raw, tg) && x in tg.approved
    ensures var lemmas := LemmasOfText(raw, tg);
      r != [] ==> exists i :: 0 <= i < |lemmas| && r[0] == lemmas[i] && lemmas[i] in tg.approved &&
                              forall j :: 0 <= j < i ==> lemmas[j] !in tg.approved
  {
    var r := Filter(LemmasOfText(raw, tg), l => l in tg.approved);
    if r != [] then FilterHead(LemmasOfText(raw, tg), l => l in tg.approved); r else r
  }

  /** The negation filter over the rejected candidates. */
  function RejectedSplit(raw: string, tg: Tagger): NegationResult {
    var candidates := RejectedCandidates(LemmasOfText(raw, tg), NegationText(raw, tg.nfkc), tg.rejected);
    FilteredRejected(Some(raw), candidates, tg.nfkc, tg.finder)
  }

  /** `classify_text`; `None` stands for a missing value (`pd.isna`). */
  function Classify(text: Option<string>, tg: Tagger): (r: Classification)
    ensures text.None? ==> r == Classification(Undetermined, "", [], [], [], [])
    ensures r.classification == Excluded <==> r.matchedRejected != []
    ensures r.classification == Excluded ==> r.reason == r.matchedRejected[0]
    ensures r.classification == Approved <==> r.matchedRejected == [] && r.matchedApproved != []
    ensures r.classification == Approved ==> r.reason == r.matchedApproved[0]
    ensures r.classification == Undetermined <==> r.matchedRejected == [] && r.matchedApproved == []
    ensures r.classification == Undetermined ==> r.reason == ""
    ensures text.Some? ==>
      r.matchedRejected == RejectedSplit(text.value, tg).rejectedPos &&
      r.matchedRejectedNegated == RejectedSplit(text.value, tg).rejectedNeg &&
      r.matchedApproved == MatchedApproved(text.value, tg) &&
      r.negationTriggers == RejectedSplit(text.value, tg).triggers
  {
    match text
    case None => Classification(Undetermined, "", [], [], [], [])
    case Some(raw) =>
      var matchedApproved := MatchedApproved(raw, tg);
      var neg := RejectedSplit(raw, tg);
      if neg.rejectedPos != [] then
        Classification(Excluded, neg.rejectedPos[0], matchedApproved, neg.rejectedPos, neg.rejectedNeg, neg.triggers)
      else if matchedApproved != [] then
        Classification(Approved, matchedApproved[0], matchedApproved, [], neg.rejectedNeg, neg.triggers)
      else
        Classification(Undetermined, "", matchedApproved, [], neg.rejectedNeg, neg.triggers)
  }

  /** A term with a positive or an all-negated occurrence is found by the term pattern. */
  lemma DecidedTermIsFound(text: string, term: string, finder: (string, string) -> seq<Span>)
    ensures PositiveTerm(text, term, finder) || NegatedOnlyTerm(text, term, finder) ==> TermFound(text, term)
  {
    OccurrencesIffFound(text, term);
  }

  /**
   * On a non-empty string, the negation filter over the candidates keeps exactly the
   * rejected words with an occurrence that is not negated, and exactly those that occur
   * only negated. The lemma route to the candidates adds nothing to either list: a
   * candidate that does not occur lands in neither.
   */
  lemma RejectedSplitMembers(raw: string, tg: Tagger)
    requires raw != ""
    ensures var r := RejectedSplit(raw, tg);
      var text := NegationText(raw, tg.nfkc);
      (forall x :: x in r.rejectedPos <==> x in tg.rejected && PositiveTerm(text, x, tg.finder)) &&
      (forall x :: x in r.rejectedNeg <==> x in tg.rejected && NegatedOnlyTerm(text, x, tg.finder)) &&
      (forall x :: x in r.rejectedPos ==> x !in r.rejectedNeg) &&
      StrictlySorted(r.rejectedPos) && StrictlySorted(r.rejectedNeg)
  {
    var text := NegationText(raw, tg.nfkc);
    var candidates := RejectedCandidates(LemmasOfText(raw, tg), text, tg.rejected);
    FilteredRejectedSplit(raw, candidates, tg.nfkc, tg.finder);
    forall x {
      DecidedTermIsFound(text, x, tg.finder);
    }
  }

  /**
   * On a non-empty string, `matched_rejected` is exactly the sorted list of rejected
   * words with an occurrence that is not negated, `matched_rejected_negated` exactly
   * the sorted list of rejected words that occur only negated, the two are disjoint,
   * and `matched_approved` holds exactly the approved lemmas.
   */
  lemma ClassifyMatches(raw: string, tg: Tagger)
    requires raw != ""
    ensures var r := Classify(Some(raw), tg);
      var text := NegationText(raw, tg.nfkc);
      (forall x :: x in r.matchedRejected <==> x in tg.rejected && PositiveTerm(text, x, tg.finder)) &&
      (forall x :: x in r.matchedRejectedNegated <==> x in tg.rejected && NegatedOnlyTerm(text, x, tg.finder)) &&
      (forall x :: x in r.matchedRejected ==> x !in r.matchedRejectedNegated) &&
      StrictlySorted(r.matchedRejected) && StrictlySorted(r.matchedRejectedNegated) &&
      (forall x :: x in r.matchedApproved <==> x in LemmasOfText(raw, tg) && x in tg.approved)
  {
    RejectedSplitMembers(raw, tg);
  }

  /** The negation filter sorts its terms again; on the sorted candidates that changes nothing. */
  lemma CandidatesAlreadySorted(lemmas: seq<string>, text: string, rejected: seq<string>)
    ensures var c := RejectedCandidates(lemmas, text, rejected); SortedDistinct(c) == c
  {
    SortedDistinctOfSorted(RejectedCandidates(lemmas, text, rejected));
  }
}
