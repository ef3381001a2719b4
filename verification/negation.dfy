/**
 * Negation-aware detection of rejected terms (`filter_rejected_with_negation` and
 * its helpers in the tagging step).
 *
 * An occurrence of a rejected term is a match of `\b{term}\w*\b` in the repaired,
 * lower-cased text. It counts as negated when it overlaps a match of one of the
 * ten negation templates, or, failing that, when one of the six words before the
 * first word of its sentence that starts with the term is a negator (`не`, `ни`,
 * `без`) or an exception word (`кроме`, `исключая`). The templates are regular
 * expressions and are run by the `finder` parameter (Python's `finditer`); the
 * term pattern, the sentence splitter and the word pattern are matched by hand.
 */
module Negation {
  import opened Wrappers
  import opened Text
  import opened Sorting
  import opened Confusables
  import opened Lemmatizer

  /** `_spans_overlap`. */
  predicate SpansOverlap(a: Span, b: Span) {
    !(a.end <= b.start || b.end <= a.start)
  }

  /** Position `x` lies inside span `s`. */
  predicate Covers(s: Span, x: int) {
    s.start <= x < s.end
  }

  /** Two non-empty spans overlap exactly when they share a position; spans that only touch do not. */
  lemma SpansOverlapIsSharedPosition(a: Span, b: Span)
    requires a.start < a.end && b.start < b.end
    ensures SpansOverlap(a, b) <==> exists x :: Covers(a, x) && Covers(b, x)
    ensures SpansOverlap(a, b) == SpansOverlap(b, a)
  {
    if SpansOverlap(a, b) {
      var x := if a.start < b.start then b.start else a.start;
      assert Covers(a, x) && Covers(b, x);
    }
  }

  // ---------------------------------------------------------------------------
  // Occurrences of a term: `\b{re.escape(term)}\w*\b`
  // ---------------------------------------------------------------------------

  /**
   * The end of the match of `\b{term}\w*\b` that starts at `p`, if one does. The
   * greedy `\w*` stops before a non-word character, so a shorter `\w*` could only
   * end between two word characters or right after the term; in both cases the
   * greedy end already satisfies `\b` whenever a shorter one would.
   */
  function TermMatchAt(t: string, term: string, p: nat): (r: Option<nat>)
    requires p <= |t|
    ensures r.Some? ==> PrefixAt(t, term, p) && p + |term| <= r.value <= |t|
    ensures r.Some? ==> BoundaryAt(t, p) && BoundaryAt(t, r.value)
  {
    if PrefixAt(t, term, p) && BoundaryAt(t, p) then
      var e := WordRunEnd(t, p + |term|);
      if BoundaryAt(t, e) then Some(e) else None
    else None
  }

  /** `finditer` of the term pattern from `p` on; after an empty match the scan moves one position on. */
  function OccurrencesFrom(t: string, term: string, p: nat): (r: seq<Span>)
    requires p <= |t| + 1
    ensures forall k :: 0 <= k < |r| ==> p <= r[k].start <= r[k].end <= |t|
    ensures forall k :: 0 <= k < |r| ==> TermMatchAt(t, term, r[k].start) == Some(r[k].end as nat)
    decreases |t| + 1 - p
  {
    if p > |t| then []
    else
      match TermMatchAt(t, term, p)
      case Some(e) =>
        var rest := OccurrencesFrom(t, term, if e > p then e else p + 1);
        assert forall k :: 0 < k <= |rest| ==> ([Span(p, e)] + rest)[k] == rest[k - 1];
        [Span(p, e)] + rest
      case None => OccurrencesFrom(t, term, p + 1)
  }

  /** `_term_occurrences`: the spans of all matches of the term pattern. */
  function Occurrences(t: string, term: string): (r: seq<Span>)
    ensures forall k :: 0 <= k < |r| ==> 0 <= r[k].start <= r[k].end <= |t| && PrefixAt(t, term, r[k].start)
  {
    OccurrencesFrom(t, term, 0)
  }

  /** `re.search` of the term pattern succeeds. */
  predicate TermFound(t: string, term: string) {
    exists p :: 0 <= p <= |t| && TermMatchAt(t, term, p).Some?
  }

  /** The term pattern matches at some position from `p` on. */
  predicate MatchFrom(t: string, term: string, p: nat) {
    exists q :: p <= q <= |t| && TermMatchAt(t, term, q).Some?
  }

  /** The scan from `p` finds an occurrence exactly when the pattern matches somewhere from `p` on. */
  lemma {:induction false} OccurrencesFromEmpty(t: string, term: string, p: nat)
    requires p <= |t| + 1
    ensures OccurrencesFrom(t, term, p) != [] <==> MatchFrom(t, term, p)
    decreases |t| + 1 - p
  {
    if p <= |t| {
      if TermMatchAt(t, term, p).Some? {
        assert MatchFrom(t, term, p);
      } else {
        OccurrencesFromEmpty(t, term, p + 1);
        assert OccurrencesFrom(t, term, p) == OccurrencesFrom(t, term, p + 1);
        if MatchFrom(t, term, p) {
          var q :| p <= q <= |t| && TermMatchAt(t, term, q).Some?;
          assert MatchFrom(t, term, p + 1);
        }
        if MatchFrom(t, term, p + 1) {
          var q :| p + 1 <= q <= |t| && TermMatchAt(t, term, q).Some?;
          assert MatchFrom(t, term, p);
        }
      }
    }
  }

  /** The scan finds an occurrence exactly when a search for the term pattern succeeds. */
  lemma OccurrencesIffFound(t: string, term: string)
    ensures Occurrences(t, term) != [] <==> TermFound(t, term)
  {
    OccurrencesFromEmpty(t, term, 0);
  }

  // ---------------------------------------------------------------------------
  // The negation templates
  // ---------------------------------------------------------------------------

  /** The characters `re.escape` puts a backslash before. */
  predicate IsRegexSpecial(c: char) {
    c in "()[]{}?*+-|^$\\.&~# \t\n\r\U{B}\U{C}"
  }

  /** `re.escape`. */
  function Escape(s: string): (r: string)
    ensures |r| >= |s|
    decreases |s|
  {
    if s == [] then []
    else (if IsRegexSpecial(s[0]) then ['\\', s[0]] else [s[0]]) + Escape(s[1..])
  }

  /** A term without special characters (every Cyrillic word) is its own escape. */
  lemma {:induction false} EscapePlain(s: string)
    requires forall k :: 0 <= k < |s| ==> !IsRegexSpecial(s[k])
    ensures Escape(s) == s
    decreases |s|
  {
    if s != [] {
      EscapePlain(s[1..]);
      assert [s[0]] + s[1..] == s;
    }
  }

  /** `s.replace(pat, rep)`: every non-overlapping occurrence, from the left. */
  function Replace(s: string, pat: string, rep: string): string
    requires pat != []
    decreases |s|
  {
    if |s| < |pat| then s
    else if s[..|pat|] == pat then rep + Replace(s[|pat|..], pat, rep)
    else [s[0]] + Replace(s[1..], pat, rep)
  }

  /** `NEGATION_CONTEXT_TEMPLATES`. */
  const NegationTemplates: seq<string> := [
    @"\bне\s+явля\w*\s+{term}\w*\b",
    @"\bи\s+не\s+явля\w*\s+{term}\w*\b",
    @"\bне\s+\w{0,3}\s*явля\w*\s+{term}\w*\b",
    @"\bне\b[^,;:.]{0,80}\b{term}\w*\b",
    @"\bбез\b[^,;:.]{0,80}\b{term}\w*\b",
    @"\bне\s+содерж\w*\b[^,;:.]{0,80}\b{term}\w*\b",
    @"\bкроме\b[^,;:.]{0,80}\b{term}\w*\b",
    @"\bза\s+исключением\b[^,;:.]{0,80}\b{term}\w*\b",
    @"\bисключая\b[^,;:.]{0,80}\b{term}\w*\b",
    @"\b{term}\w*\b[^,;:.]{0,80}\bне\s+(предусмотр\w*|относ\w*|явля\w*)\b"
  ]

  /** The pattern of a template for one term. */
  function TemplatePattern(template: string, term: string): string {
    Replace(template, "{term}", Escape(term))
  }

  /** The name of the template numbered `i`, counting from 1. */
  function TemplateName(i: nat): string {
    "NEG_" + NatToString(i)
  }

  /** The shape of a template name: `NEG_` and digits. */
  predicate IsTemplateName(s: string) {
    |s| > 4 && s[..4] == "NEG_" && forall k :: 4 <= k < |s| ==> IsDigit(s[k])
  }

  lemma TemplateNameShape(i: nat)
    ensures IsTemplateName(TemplateName(i))
  {
    var s := TemplateName(i);
    forall k | 4 <= k < |s| ensures IsDigit(s[k]) {
      assert s[k] == NatToString(i)[k - 4];
    }
  }

  /** A template match with the name of its template. */
  datatype Hit = Hit(span: Span, name: string)

  /** The matches of one template, named. */
  function Named(spans: seq<Span>, name: string): (r: seq<Hit>)
    ensures |r| == |spans|
    ensures forall k :: 0 <= k < |r| ==> r[k] == Hit(spans[k], name)
    decreases |spans|
  {
    if spans == [] then []
    else Named(spans[..|spans| - 1], name) + [Hit(spans[|spans| - 1], name)]
  }

  /** The ten patterns for one term, in template order. */
  function TermPatterns(term: string): (r: seq<string>)
    ensures |r| == |NegationTemplates|
  {
    seq(|NegationTemplates|, i requires 0 <= i < |NegationTemplates| => TemplatePattern(NegationTemplates[i], term))
  }

  /** The hits of the first `n` patterns, pattern by pattern, each in `finditer` order. */
  function HitsUpTo(text: string, patterns: seq<string>, finder: (string, string) -> seq<Span>, n: nat): (r: seq<Hit>)
    requires n <= |patterns|
    ensures forall k :: 0 <= k < |r| ==> IsTemplateName(r[k].name)
    decreases n
  {
    if n == 0 then []
    else
      var before := HitsUpTo(text, patterns, finder, n - 1);
      TemplateNameShape(n);
      var hits := Named(finder(patterns[n - 1], text), TemplateName(n));
      assert forall k :: |before| <= k < |before| + |hits| ==> (before + hits)[k] == hits[k - |before|];
      before + hits
  }

  /** `_find_negation_hits`. */
  function NegationHits(text: string, term: string, finder: (string, string) -> seq<Span>): seq<Hit> {
    var patterns := TermPatterns(term);
    HitsUpTo(text, patterns, finder, |patterns|)
  }

  /** `_find_negation_hits`: the loop over the templates and their matches. */
  method FindNegationHits(text: string, term: string, finder: (string, string) -> seq<Span>) returns (hits: seq<Hit>)
    ensures hits == NegationHits(text, term, finder)
  {
    hits := CollectHits(text, TermPatterns(term), finder);
  }

  /** The two loops of `_find_negation_hits` over any list of patterns. */
  method CollectHits(text: string, patterns: seq<string>, finder: (string, string) -> seq<Span>) returns (hits: seq<Hit>)
    ensures hits == HitsUpTo(text, patterns, finder, |patterns|)
  {
    hits := [];
    for i := 0 to |patterns|
      invariant hits == HitsUpTo(text, patterns, finder, i)
    {
      var spans := finder(patterns[i], text);
      var name := TemplateName(i + 1);
      HitsUpToStep(text, patterns, finder, i);
      hits := AppendNamed(hits, spans, name);
    }
  }

  /** The inner loop of `_find_negation_hits`: one hit per match of one pattern. */
  method AppendNamed(hits0: seq<Hit>, spans: seq<Span>, name: string) returns (hits: seq<Hit>)
    ensures hits == hits0 + Named(spans, name)
  {
    hits := hits0;
    for j := 0 to |spans|
      invariant hits == hits0 + Named(spans[..j], name)
    {
      NamedStep(spans, name, j);
      hits := hits + [Hit(spans[j], name)];
    }
    assert spans[..|spans|] == spans;
  }

  /** One more pattern appends its named matches. */
  lemma HitsUpToStep(text: string, patterns: seq<string>, finder: (string, string) -> seq<Span>, n: nat)
    requires n < |patterns|
    ensures HitsUpTo(text, patterns, finder, n + 1)
      == HitsUpTo(text, patterns, finder, n) + Named(finder(patterns[n], text), TemplateName(n + 1))
  {
  }

  /** One more match appends one named hit. */
  lemma NamedStep(spans: seq<Span>, name: string, j: nat)
    requires j < |spans|
    ensures Named(spans[..j + 1], name) == Named(spans[..j], name) + [Hit(spans[j], name)]
  {
    assert spans[..j + 1][..j] == spans[..j];
  }

  // ---------------------------------------------------------------------------
  // Sentences: `[.;]|(?:\s—\s)|(?:\s-\s)`
  // ---------------------------------------------------------------------------

  /** The end of the sentence-separator match that starts at `p`, if one does. */
  function SeparatorAt(t: string, p: nat): (r: Option<nat>)
    requires p < |t|
    ensures r.Some? ==> p < r.value <= |t|
  {
    if t[p] == '.' || t[p] == ';' then Some(p + 1)
    else if p + 2 < |t| && IsSpace(t[p]) && (t[p + 1] == '—' || t[p + 1] == '-') && IsSpace(t[p + 2]) then Some(p + 3)
    else None
  }

  /** The ends of the separator matches from `p` on. */
  function SeparatorEndsFrom(t: string, p: nat): (r: seq<int>)
    requires p <= |t|
    ensures forall k :: 0 <= k < |r| ==> p < r[k] <= |t|
    decreases |t| - p
  {
    if p == |t| then []
    else
      match SeparatorAt(t, p)
      case Some(e) =>
        var rest := SeparatorEndsFrom(t, e);
        var head: seq<int> := [e];
        assert forall k :: 0 < k <= |rest| ==> (head + rest)[k] == rest[k - 1];
        head + rest
      case None => SeparatorEndsFrom(t, p + 1)
  }

  /** Positions inside `[0, n]`. */
  predicate WithinText(xs: seq<int>, n: int) {
    forall k :: 0 <= k < |xs| ==> 0 <= xs[k] <= n
  }

  /** `sorted(set([0] + ends + [len(text)]))`. */
  function SentenceBounds(t: string): (r: seq<int>)
    ensures Increasing(r) && WithinText(r, |t|)
    ensures 0 in r && |t| in r
  {
    var ends := SeparatorEndsFrom(t, 0);
    var all := [0] + ends + [|t|];
    assert forall x :: x in all ==> 0 <= x <= |t|;
    var r := SortedDistinctInts(all);
    assert forall k :: 0 <= k < |r| ==> r[k] in all;
    r
  }

  /** The first pair of neighbouring bounds from index `i` on that holds `start`; the whole text if none does. */
  function SentenceFrom(bounds: seq<int>, start: int, n: int, i: nat): (r: (int, int))
    requires 0 <= n && WithinText(bounds, n)
    ensures 0 <= r.0 <= r.1 <= n || r == (0, n)
    decreases |bounds| - i
  {
    if i + 1 >= |bounds| then (0, n)
    else if bounds[i] <= start < bounds[i + 1] then (bounds[i], bounds[i + 1])
    else SentenceFrom(bounds, start, n, i + 1)
  }

  /** Inside the text, the sentence found holds the occurrence start and no bound lies within it. */
  lemma {:induction false} SentenceFromHoldsStart(bounds: seq<int>, start: int, n: int, i: nat)
    requires 0 <= n && WithinText(bounds, n) && Increasing(bounds)
    requires i < |bounds| && bounds[i] <= start < n && n in bounds
    ensures var r := SentenceFrom(bounds, start, n, i);
      r.0 <= start < r.1 && r.0 in bounds && r.1 in bounds && forall x :: x in bounds ==> !(r.0 < x < r.1)
    decreases |bounds| - i
  {
    var k :| 0 <= k < |bounds| && bounds[k] == n;
    assert bounds[i] < bounds[k];
    if !(bounds[i] <= start < bounds[i + 1]) {
      SentenceFromHoldsStart(bounds, start, n, i + 1);
    } else {
      forall x | x in bounds ensures !(bounds[i] < x < bounds[i + 1]) {
        var j :| 0 <= j < |bounds| && bounds[j] == x;
        if j <= i { assert bounds[j] <= bounds[i]; } else { assert bounds[i + 1] <= bounds[j]; }
      }
    }
  }

  /** The words of a sentence, lower-cased: `[t.lower() for t in WORD_RE.findall(sent)]`. */
  function SentenceWords(text: string, a: int, b: int): (r: seq<string>)
    requires 0 <= a <= b <= |text|
  {
    var ws := Words(text[a..b]);
    seq(|ws|, k requires 0 <= k < |ws| => Lower(ws[k]))
  }

  // ---------------------------------------------------------------------------
  // `_is_occurrence_negated`
  // ---------------------------------------------------------------------------

  const NegatorTokens: set<string> := {"не", "ни", "без"}
  const ExceptionTokens: set<string> := {"кроме", "исключая"}

  /** Whether an occurrence is negated, and the rule that says so (`""` when it is not). */
  datatype Verdict = Verdict(negated: bool, trigger: string)

  /** The index of the first hit, from `i` on, that overlaps `span`. */
  function FirstOverlap(hits: seq<Hit>, span: Span, i: nat): (r: Option<nat>)
    ensures r.Some? ==> i <= r.value < |hits| && SpansOverlap(span, hits[r.value].span)
    ensures r.Some? ==> forall k :: i <= k < r.value ==> !SpansOverlap(span, hits[k].span)
    ensures r.None? ==> forall k :: i <= k < |hits| ==> !SpansOverlap(span, hits[k].span)
    decreases |hits| - i
  {
    if i >= |hits| then None
    else if SpansOverlap(span, hits[i].span) then Some(i)
    else FirstOverlap(hits, span, i + 1)
  }

  /** `tok.startswith(term)`. */
  predicate StartsWith(tok: string, term: string) {
    |term| <= |tok| && tok[..|term|] == term
  }

  /** The index of the first word, from `i` on, that starts with `term`. */
  function FirstStartingWith(words: seq<string>, term: string, i: nat): (r: Option<nat>)
    ensures r.Some? ==> i <= r.value < |words| && StartsWith(words[r.value], term)
    ensures r.Some? ==> forall k :: i <= k < r.value ==> !StartsWith(words[k], term)
    ensures r.None? ==> forall k :: i <= k < |words| ==> !StartsWith(words[k], term)
    decreases |words| - i
  {
    if i >= |words| then None
    else if StartsWith(words[i], term) then Some(i)
    else FirstStartingWith(words, term, i + 1)
  }

  /** The up to six words before index `idx`. */
  function LeftWindow(words: seq<string>, idx: nat): seq<string>
    requires idx <= |words|
  {
    words[(if idx >= 6 then idx - 6 else 0)..idx]
  }

  /** The fallback of `_is_occurrence_negated` on the words of the sentence. */
  function FallbackVerdict(words: seq<string>, term: string): Verdict {
    match FirstStartingWith(words, term, 0)
    case None => Verdict(false, "")
    case Some(idx) =>
      var left := LeftWindow(words, idx);
      if exists k :: 0 <= k < |left| && left[k] in NegatorTokens then Verdict(true, "NEG_FALLBACK_LEFT_NEGATOR")
      else if exists k :: 0 <= k < |left| && left[k] in ExceptionTokens then Verdict(true, "NEG_FALLBACK_EXCEPTION")
      else if "не" in left then Verdict(true, "NEG_FALLBACK_NE_TERM")
      else Verdict(false, "")
  }

  /** The sentence around position `start`. */
  function SentenceAround(text: string, start: int): (r: (int, int))
    ensures 0 <= r.0 <= r.1 <= |text|
  {
    SentenceFrom(SentenceBounds(text), start, |text|, 0)
  }

  /** `_is_occurrence_negated`. */
  function OccurrenceVerdict(text: string, span: Span, term: string, hits: seq<Hit>): Verdict {
    match FirstOverlap(hits, span, 0)
    case Some(j) => Verdict(true, hits[j].name)
    case None =>
      var (a, b) := SentenceAround(text, span.start);
      FallbackVerdict(SentenceWords(text, a, b), term)
  }

  /** A negated verdict always names the rule that fired. */
  lemma VerdictNamesRule(text: string, span: Span, term: string, hits: seq<Hit>)
    requires forall k :: 0 <= k < |hits| ==> hits[k].name != ""
    ensures OccurrenceVerdict(text, span, term, hits).negated <==> OccurrenceVerdict(text, span, term, hits).trigger != ""
  {
  }

  /** The `"не" in left` rule never fires: `не` is already a negator. */
  lemma NeTermRuleUnreachable(words: seq<string>, term: string)
    ensures FallbackVerdict(words, term).trigger != "NEG_FALLBACK_NE_TERM"
  {
    match FirstStartingWith(words, term, 0)
    case None =>
    case Some(idx) =>
      var left := LeftWindow(words, idx);
      if "не" in left {
        var k :| 0 <= k < |left| && left[k] == "не";
        assert left[k] in NegatorTokens;
      }
  }

  /** The fallback rules are told apart from the templates by name. */
  lemma FallbackNamesAreNotTemplateNames()
    ensures !IsTemplateName("NEG_FALLBACK_LEFT_NEGATOR")
    ensures !IsTemplateName("NEG_FALLBACK_EXCEPTION")
    ensures !IsTemplateName("NEG_FALLBACK_NE_TERM")
  {
    assert !IsDigit("NEG_FALLBACK_LEFT_NEGATOR"[4]);
    assert !IsDigit("NEG_FALLBACK_EXCEPTION"[4]);
    assert !IsDigit("NEG_FALLBACK_NE_TERM"[4]);
  }

  /** The sentence bounds of `_is_occurrence_negated`: 0, every separator end, the length, sorted and distinct. */
  method CollectSentenceBounds(text: string) returns (bounds: seq<int>)
    ensures bounds == SentenceBounds(text)
  {
    var ends := SeparatorEndsFrom(text, 0);
    bounds := [0];
    for k := 0 to |ends|
      invariant bounds == [0] + ends[..k]
    {
      bounds := bounds + [ends[k]];
    }
    assert ends[..|ends|] == ends;
    bounds := SortedDistinctInts(bounds + [|text|]);
  }

  /** `_is_occurrence_negated`: the loop over the hits, the sentence bounds, the sentence lookup and the word lookup. */
  method IsOccurrenceNegated(text: string, span: Span, term: string, hits: seq<Hit>) returns (negated: bool, trigger: string)
    ensures Verdict(negated, trigger) == OccurrenceVerdict(text, span, term, hits)
  {
    for i := 0 to |hits|
      invariant FirstOverlap(hits, span, 0) == FirstOverlap(hits, span, i)
    {
      if SpansOverlap(span, hits[i].span) {
        return true, hits[i].name;
      }
    }

    var bounds := CollectSentenceBounds(text);
    var sentStart, sentEnd := 0, |text|;
    var i := 0;
    while i + 1 < |bounds|
      invariant SentenceFrom(bounds, span.start, |text|, 0) == SentenceFrom(bounds, span.start, |text|, i)
      decreases |bounds| - i
    {
      if bounds[i] <= span.start < bounds[i + 1] {
        sentStart, sentEnd := bounds[i], bounds[i + 1];
        break;
      }
      i := i + 1;
    }
    assert (sentStart, sentEnd) == SentenceAround(text, span.start);

    var words := SentenceWords(text, sentStart, sentEnd);
    negated, trigger := WindowVerdict(words, term);
  }

  /** The word lookup and the three fallback rules of `_is_occurrence_negated`. */
  method WindowVerdict(words: seq<string>, term: string) returns (negated: bool, trigger: string)
    ensures Verdict(negated, trigger) == FallbackVerdict(words, term)
  {
    var termIdx: Option<nat> := None;
    var j := 0;
    while j < |words|
      invariant j <= |words|
      invariant FirstStartingWith(words, term, 0) == FirstStartingWith(words, term, j)
      decreases |words| - j
    {
      if StartsWith(words[j], term) {
        termIdx := Some(j);
        break;
      }
      j := j + 1;
    }
    assert termIdx == FirstStartingWith(words, term, 0);
    if termIdx.None? {
      return false, "";
    }

    var left := LeftWindow(words, termIdx.value);
    if exists k :: 0 <= k < |left| && left[k] in NegatorTokens {
      return true, "NEG_FALLBACK_LEFT_NEGATOR";
    }
    if exists k :: 0 <= k < |left| && left[k] in ExceptionTokens {
      return true, "NEG_FALLBACK_EXCEPTION";
    }
    if "не" in left {
      return true, "NEG_FALLBACK_NE_TERM";
    }
    return false, "";
  }

  // ---------------------------------------------------------------------------
  // `filter_rejected_with_negation`
  // ---------------------------------------------------------------------------

  /** The counts of one term: negated and positive occurrences, and the triggers of the negated ones. */
  datatype Tally = Tally(neg: nat, pos: nat, triggers: seq<string>)

  /** The tally over `occs`, in order, with `verdict` deciding each occurrence. */
  function TallyOf(term: string, verdict: Span -> Verdict, occs: seq<Span>): (r: Tally)
    ensures r.neg + r.pos == |occs|
    ensures r.pos == 0 <==> forall k :: 0 <= k < |occs| ==> verdict(occs[k]).negated
    decreases |occs|
  {
    if occs == [] then Tally(0, 0, [])
    else
      var init := occs[..|occs| - 1];
      var before := TallyOf(term, verdict, init);
      assert forall k :: 0 <= k < |init| ==> init[k] == occs[k];
      var v := verdict(occs[|occs| - 1]);
      if v.negated then
        Tally(before.neg + 1, before.pos, if v.trigger != "" then before.triggers + [term + ":" + v.trigger] else before.triggers)
      else
        Tally(before.neg, before.pos + 1, before.triggers)
  }

  /** `_is_occurrence_negated` for one term and its hits, as a function of the span. */
  function VerdictFor(text: string, term: string, hits: seq<Hit>): Span -> Verdict {
    s => OccurrenceVerdict(text, s, term, hits)
  }

  /** The inner loop of `filter_rejected_with_negation`: one verdict per occurrence, counted. */
  method TallyOccurrences(text: string, term: string, hits: seq<Hit>, occs: seq<Span>) returns (tally: Tally)
    ensures tally == TallyOf(term, VerdictFor(text, term, hits), occs)
  {
    ghost var verdict := VerdictFor(text, term, hits);
    var negCount, posCount := 0, 0;
    var localTriggers: seq<string> := [];
    for j := 0 to |occs|
      invariant Tally(negCount, posCount, localTriggers) == TallyOf(term, verdict, occs[..j])
    {
      assert occs[..j + 1][..j] == occs[..j];
      var isNeg, trig := IsOccurrenceNegated(text, occs[j], term, hits);
      assert Verdict(isNeg, trig) == verdict(occs[j]);
      if isNeg {
        negCount := negCount + 1;
        if trig != "" {
          localTriggers := localTriggers + [term + ":" + trig];
        }
      } else {
        posCount := posCount + 1;
      }
    }
    assert occs[..|occs|] == occs;
    tally := Tally(negCount, posCount, localTriggers);
  }

  /** The three lists `filter_rejected_with_negation` returns. */
  datatype NegationResult = NegationResult(rejectedPos: seq<string>, rejectedNeg: seq<string>, triggers: seq<string>)

  const EmptyResult := NegationResult([], [], [])

  /** The tally of all occurrences of `term` in `text`. */
  function TermTally(text: string, term: string, finder: (string, string) -> seq<Span>): Tally {
    TallyOf(term, VerdictFor(text, term, NegationHits(text, term, finder)), Occurrences(text, term))
  }

  /** Some occurrence gets a verdict that is not negated. */
  predicate SomePositive(verdict: Span -> Verdict, occs: seq<Span>) {
    exists k :: 0 <= k < |occs| && !verdict(occs[k]).negated
  }

  /** There are occurrences, and every one is negated. */
  predicate AllNegated(verdict: Span -> Verdict, occs: seq<Span>) {
    occs != [] && forall k :: 0 <= k < |occs| ==> verdict(occs[k]).negated
  }

  /** The counts tell the two cases apart. */
  lemma TallyClassifies(term: string, verdict: Span -> Verdict, occs: seq<Span>)
    ensures TallyOf(term, verdict, occs).pos > 0 <==> SomePositive(verdict, occs)
    ensures var t := TallyOf(term, verdict, occs); t.pos == 0 && t.neg > 0 <==> AllNegated(verdict, occs)
  {
  }

  /** Some occurrence of `term` in `text` is not negated. */
  predicate PositiveTerm(text: string, term: string, finder: (string, string) -> seq<Span>) {
    SomePositive(VerdictFor(text, term, NegationHits(text, term, finder)), Occurrences(text, term))
  }

  /** `term` occurs in `text`, and every occurrence is negated. */
  predicate NegatedOnlyTerm(text: string, term: string, finder: (string, string) -> seq<Span>) {
    AllNegated(VerdictFor(text, term, NegationHits(text, term, finder)), Occurrences(text, term))
  }

  /** Records `term` by its occurrences and their tally: negated only, positive, or nowhere. */
  function Record(res: NegationResult, term: string, occs: seq<Span>, tally: Tally): NegationResult {
    if occs == [] then res
    else if tally.pos == 0 && tally.neg > 0 then
      res.(rejectedNeg := res.rejectedNeg + [term], triggers := res.triggers + tally.triggers)
    else if tally.pos > 0 then
      res.(rejectedPos := res.rejectedPos + [term], triggers := res.triggers + tally.triggers)
    else res
  }

  /** One turn of the loop over the terms. */
  function TermStep(res: NegationResult, text: string, term: string, finder: (string, string) -> seq<Span>): NegationResult {
    Record(res, term, Occurrences(text, term), TermTally(text, term, finder))
  }

  /** The loop over `terms`, in order. */
  function FilterTerms(text: string, terms: seq<string>, finder: (string, string) -> seq<Span>): NegationResult
    decreases |terms|
  {
    if terms == [] then EmptyResult
    else TermStep(FilterTerms(text, terms[..|terms| - 1], finder), text, terms[|terms| - 1], finder)
  }

  /** One more term is one more step. */
  lemma FilterTermsStep(text: string, terms: seq<string>, finder: (string, string) -> seq<Span>, i: nat)
    requires i < |terms|
    ensures FilterTerms(text, terms[..i + 1], finder) == TermStep(FilterTerms(text, terms[..i], finder), text, terms[i], finder)
  {
    assert terms[..i + 1][..i] == terms[..i];
  }

  /** The text the occurrences are looked for in: confusables repaired, then lower-cased. */
  function NegationText(raw: string, nfkc: string -> string): string {
    Lower(NormalizeTokens(nfkc(raw)))
  }

  /** `filter_rejected_with_negation`: nothing for an empty value or one that is not a string. */
  function FilteredRejected(raw: Option<string>, terms: seq<string>, nfkc: string -> string,
                            finder: (string, string) -> seq<Span>): (r: NegationResult)
    ensures raw.None? || raw.value == "" ==> r == EmptyResult
  {
    if raw.None? || raw.value == "" then EmptyResult
    else FilterTerms(NegationText(raw.value, nfkc), SortedDistinct(terms), finder)
  }

  /** Recording by the tally puts a term in the positive list iff some verdict is positive, and in the negated list iff all are negated. */
  lemma RecordByVerdicts(res: NegationResult, term: string, verdict: Span -> Verdict, occs: seq<Span>)
    ensures var r := Record(res, term, occs, TallyOf(term, verdict, occs));
      r.rejectedPos == res.rejectedPos + (if SomePositive(verdict, occs) then [term] else []) &&
      r.rejectedNeg == res.rejectedNeg + (if AllNegated(verdict, occs) then [term] else [])
  {
    TallyClassifies(term, verdict, occs);
  }

  /** A term goes to `rejected_pos` when it has a positive occurrence and to `rejected_neg` when all its occurrences are negated. */
  lemma TermStepVerdict(res: NegationResult, text: string, term: string, finder: (string, string) -> seq<Span>)
    ensures var r := TermStep(res, text, term, finder);
      r.rejectedPos == res.rejectedPos + (if PositiveTerm(text, term, finder) then [term] else []) &&
      r.rejectedNeg == res.rejectedNeg + (if NegatedOnlyTerm(text, term, finder) then [term] else [])
  {
    RecordByVerdicts(res, term, VerdictFor(text, term, NegationHits(text, term, finder)), Occurrences(text, term));
  }

  /**
   * Over strictly sorted terms, `rejected_pos` holds exactly the terms with a positive
   * occurrence and `rejected_neg` exactly those whose occurrences are all negated;
   * both come out sorted, and no term is in both.
   */
  lemma {:induction false} FilterTermsSplit(text: string, terms: seq<string>, finder: (string, string) -> seq<Span>)
    requires StrictlySorted(terms)
    ensures var r := FilterTerms(text, terms, finder);
      (forall x :: x in r.rejectedPos <==> x in terms && PositiveTerm(text, x, finder)) &&
      (forall x :: x in r.rejectedNeg <==> x in terms && NegatedOnlyTerm(text, x, finder)) &&
      StrictlySorted(r.rejectedPos) && StrictlySorted(r.rejectedNeg)
    decreases |terms|
  {
    if terms != [] {
      var init := terms[..|terms| - 1];
      var last := terms[|terms| - 1];
      SortedInitLast(terms);
      FilterTermsSplit(text, init, finder);
      var before := FilterTerms(text, init, finder);
      var r := TermStep(before, text, last, finder);
      TermStepVerdict(before, text, last, finder);
      KeepSortedStep(before.rejectedPos, r.rejectedPos, init, last, x => PositiveTerm(text, x, finder));
      KeepSortedStep(before.rejectedNeg, r.rejectedNeg, init, last, x => NegatedOnlyTerm(text, x, finder));
    }
  }

  /** Filtering a strictly sorted sequence one element at a time keeps it sorted. */
  lemma KeepSortedStep(before: seq<string>, after: seq<string>, init: seq<string>, last: string, keep: string -> bool)
    requires StrictlySorted(before) && forall x :: x in before <==> x in init && keep(x)
    requires forall x :: x in init ==> Less(x, last)
    requires after == before + (if keep(last) then [last] else [])
    ensures StrictlySorted(after) && forall x :: x in after <==> x in init + [last] && keep(x)
  {
    if keep(last) {
      AppendGreatest(before, last);
    }
  }

  /** A strictly sorted sequence is its strictly sorted front followed by its greatest element. */
  lemma SortedInitLast(xs: seq<string>)
    requires StrictlySorted(xs) && xs != []
    ensures var init, last := xs[..|xs| - 1], xs[|xs| - 1];
      StrictlySorted(init) && (forall x :: x in init ==> Less(x, last)) && xs == init + [last]
  {
  }

  /** Appending an element above all others keeps a sequence strictly sorted. */
  lemma AppendGreatest(xs: seq<string>, x: string)
    requires StrictlySorted(xs) && forall y :: y in xs ==> Less(y, x)
    ensures StrictlySorted(xs + [x])
  {
    forall i, j | 0 <= i < j < |xs| + 1 ensures Less((xs + [x])[i], (xs + [x])[j]) {
      if j == |xs| {
        assert (xs + [x])[i] in xs;
      }
    }
  }

  /**
   * `filter_rejected_with_negation` on a non-empty string: `rejected_pos` is the sorted
   * list of the given terms with an occurrence that is not negated, `rejected_neg` the
   * sorted list of those that occur only negated; a term that does not occur is in neither.
   */
  lemma FilteredRejectedSplit(raw: string, terms: seq<string>, nfkc: string -> string, finder: (string, string) -> seq<Span>)
    requires raw != ""
    ensures var r := FilteredRejected(Some(raw), terms, nfkc, finder);
      var text := NegationText(raw, nfkc);
      (forall x :: x in r.rejectedPos <==> x in terms && PositiveTerm(text, x, finder)) &&
      (forall x :: x in r.rejectedNeg <==> x in terms && NegatedOnlyTerm(text, x, finder)) &&
      StrictlySorted(r.rejectedPos) && StrictlySorted(r.rejectedNeg) &&
      (forall x :: x in r.rejectedPos ==> x !in r.rejectedNeg)
  {
    var text := NegationText(raw, nfkc);
    var sorted := SortedDistinct(terms);
    var r := FilterTerms(text, sorted, finder);
    assert FilteredRejected(Some(raw), terms, nfkc, finder) == r;
    FilterTermsSplit(text, sorted, finder);
    forall x | x in r.rejectedPos ensures x !in r.rejectedNeg {
      PositiveExcludesNegatedOnly(text, x, finder);
    }
  }

  /** No term is both positive and negated-only. */
  lemma PositiveExcludesNegatedOnly(text: string, term: string, finder: (string, string) -> seq<Span>)
    ensures !(PositiveTerm(text, term, finder) && NegatedOnlyTerm(text, term, finder))
  {
  }

  /**
   * `filter_rejected_with_negation`: the loop over the sorted distinct terms and,
   * for each term that occurs, the loop over its occurrences.
   */
  method FilterRejectedWithNegation(raw: Option<string>, terms: seq<string>, nfkc: string -> string,
                                    finder: (string, string) -> seq<Span>) returns (res: NegationResult)
    ensures res == FilteredRejected(raw, terms, nfkc, finder)
  {
    res := EmptyResult;
    if raw.None? || raw.value == "" {
      return;
    }
    var normalized := NormalizeConfusables(raw.value, nfkc);
    var text := Lower(normalized);
    var sorted := SortedDistinct(terms);
    for i := 0 to |sorted|
      invariant res == FilterTerms(text, sorted[..i], finder)
    {
      var term := sorted[i];
      FilterTermsStep(text, sorted, finder, i);
      var occs := Occurrences(text, term);
      if occs == [] {
        continue;
      }
      var hits := FindNegationHits(text, term, finder);
      var tally := TallyOccurrences(text, term, hits, occs);
      assert tally == TermTally(text, term, finder);
      if tally.pos == 0 && tally.neg > 0 {
        res := res.(rejectedNeg := res.rejectedNeg + [term], triggers := res.triggers + tally.triggers);
      } else if tally.pos > 0 {
        res := res.(rejectedPos := res.rejectedPos + [term], triggers := res.triggers + tally.triggers);
      }
    }
    assert sorted[..|sorted|] == sorted;
  }
}
