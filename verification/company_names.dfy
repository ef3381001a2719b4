/**
 * Normalisation of company names (`clean_and_extract`, `normalize_company`).
 *
 * A name is first de-agglutinated: a legal form glued to a following quote, letter
 * or digit gets a space after it. It is then cleaned (punctuation dropped, whitespace
 * collapsed, trimmed, lower-cased) and cut at an "on behalf of" or "via" marker.
 * The legal-form cascade then takes the first pattern, longest pattern source first,
 * that the regex engine (`search`, `re.search` with `IGNORECASE`) finds, records its
 * legal form and removes that one match. A final pass drops dots and commas and
 * collapses whitespace runs.
 */
module CompanyNames {
  import opened Wrappers
  import opened Text
  import opened Sorting

  // ---------------------------------------------------------------------------
  // `clean_and_extract`
  // ---------------------------------------------------------------------------

  /** The characters of `[",«»()&?<>“”|/-]`. */
  predicate IsStrippedPunct(c: char) {
    c in "\",«»()&?<>“”|/-"
  }

  predicate IsApostrophe(c: char) { c == '\'' }

  /** No character `clean_and_extract` removes. */
  predicate NoStripped(s: string) {
    forall k :: 0 <= k < |s| ==> !IsStrippedPunct(s[k]) && !IsApostrophe(s[k])
  }

  /** At `k`: a whitespace character is a plain space, and no whitespace follows it. */
  predicate CollapsedAt(s: string, k: int)
    requires 0 <= k < |s|
  {
    IsSpace(s[k]) ==> s[k] == ' ' && (k + 1 < |s| ==> !IsSpace(s[k + 1]))
  }

  /** Every whitespace run is one plain space. */
  predicate Collapsed(s: string) {
    forall k :: 0 <= k < |s| ==> CollapsedAt(s, k)
  }

  /** Lower-cased, free of the removed characters, whitespace collapsed. */
  predicate Plain(s: string) {
    IsLowered(s) && NoStripped(s) && Collapsed(s)
  }

  /** The shape of every string `clean_and_extract` returns: plain and trimmed. */
  predicate CleanShape(s: string) {
    Plain(s) && (s != [] ==> !IsSpace(s[0]) && !IsSpace(s[|s| - 1]))
  }

  /** `re.sub(r'\s+', ' ', s)`. */
  function CollapseSpaces(s: string): (r: string)
    ensures Collapsed(r)
    ensures forall k :: 0 <= k < |r| && !IsSpace(r[k]) ==> r[k] in s
    ensures r == [] <==> s == []
    ensures r != [] ==> IsSpace(r[0]) == IsSpace(s[0])
    decreases |s|
  {
    if s == [] then []
    else if IsSpace(s[0]) then
      var n := LeadingCount(s, IsSpace);
      var rest := CollapseSpaces(s[n..]);
      var r := [' '] + rest;
      assert forall k :: 0 < k < |r| ==> r[k] == rest[k - 1];
      assert forall k :: 0 < k < |r| ==> CollapsedAt(rest, k - 1) ==> CollapsedAt(r, k);
      r
    else
      var rest := CollapseSpaces(s[1..]);
      var r := [s[0]] + rest;
      assert forall k :: 0 < k < |r| ==> r[k] == rest[k - 1];
      assert forall k :: 0 < k < |r| ==> CollapsedAt(rest, k - 1) ==> CollapsedAt(r, k);
      r
  }

  lemma CollapsedSlice(s: string, a: nat, b: nat)
    requires Collapsed(s) && a <= b <= |s|
    ensures Collapsed(s[a..b])
  {
    forall k | 0 <= k < b - a ensures CollapsedAt(s[a..b], k) {
      assert CollapsedAt(s, a + k);
    }
  }

  lemma PlainSlice(s: string, a: nat, b: nat)
    requires Plain(s) && a <= b <= |s|
    ensures Plain(s[a..b])
  {
    CollapsedSlice(s, a, b);
    forall k | 0 <= k < b - a ensures LowerChar(s[a..b][k]) == s[a..b][k] {
      assert s[a..b][k] == s[a + k];
    }
  }

  /** Stripping a plain string leaves a clean one. */
  lemma StripPlain(s: string)
    requires Plain(s)
    ensures CleanShape(Strip(s))
  {
    var a, b :| 0 <= a <= b <= |s| && Strip(s) == s[a..b];
    PlainSlice(s, a, b);
  }

  /** `str.lower()` keeps the shape. */
  lemma LowerKeepsShape(s: string)
    requires NoStripped(s) && Collapsed(s) && (s != [] ==> !IsSpace(s[0]) && !IsSpace(s[|s| - 1]))
    ensures CleanShape(Lower(s))
  {
    var r := Lower(s);
    LowerIsLowered(s);
    forall k | 0 <= k < |s| ensures !IsStrippedPunct(r[k]) && !IsApostrophe(r[k]) && CollapsedAt(r, k) {
      LowerCharKeepsNonLetters(s[k]);
      if k + 1 < |s| {
        LowerCharKeepsNonLetters(s[k + 1]);
      }
      assert CollapsedAt(s, k);
    }
    if s != [] {
      LowerCharKeepsNonLetters(s[0]);
      LowerCharKeepsNonLetters(s[|s| - 1]);
    }
  }

  /** Stripping keeps a collapsed string without removed characters so, and trims it. */
  lemma StripCollapsed(s: string)
    requires Collapsed(s) && NoStripped(s)
    ensures var r := Strip(s); Collapsed(r) && NoStripped(r)
  {
    var a, b :| 0 <= a <= b <= |s| && Strip(s) == s[a..b];
    CollapsedSlice(s, a, b);
    forall k | 0 <= k < b - a ensures !IsStrippedPunct(s[a..b][k]) && !IsApostrophe(s[a..b][k]) {
      assert s[a..b][k] == s[a + k];
    }
  }

  /** The cleaning half of `clean_and_extract`: punctuation, apostrophes, whitespace, case. */
  function CleanedName(name: string): (r: string)
    ensures CleanShape(r)
  {
    var a := RemoveChars(name, IsStrippedPunct);
    var b := RemoveChars(a, IsApostrophe);
    var c := CollapseSpaces(b);
    assert NoStripped(c) by {
      forall k | 0 <= k < |c| ensures !IsStrippedPunct(c[k]) && !IsApostrophe(c[k]) {
        if !IsSpace(c[k]) {
          assert c[k] in b;
        } else {
          assert CollapsedAt(c, k);
        }
      }
    }
    var d := Strip(c);
    StripCollapsed(c);
    LowerKeepsShape(d);
    Lower(d)
  }

  /** `keywords_after`. */
  const AfterMarkers: seq<string> := ["по поручению", "по поруч", "по пручению", "для", "b/o", "by order", "by"]

  /** `keywords_before`. */
  const BeforeMarkers: seq<string> := ["через"]

  /** The index of the first marker, from `i` on, that occurs in `s`. */
  function FirstMarker(s: string, markers: seq<string>, i: nat): (r: Option<nat>)
    ensures r.Some? ==> i <= r.value < |markers| && Contains(s, markers[r.value])
    ensures r.Some? ==> forall k :: i <= k < r.value ==> !Contains(s, markers[k])
    ensures r.None? ==> forall k :: i <= k < |markers| ==> !Contains(s, markers[k])
    decreases |markers| - i
  {
    if i >= |markers| then None
    else if Contains(s, markers[i]) then Some(i)
    else FirstMarker(s, markers, i + 1)
  }

  /** `s.split(kw, maxsplit=1)[1]`: what follows the first occurrence of `kw`. */
  function After(s: string, kw: string): string
    requires Contains(s, kw)
  {
    var p := Find(s, kw).value;
    s[p + |kw|..|s|]
  }

  /** `s.split(kw, maxsplit=1)[0]`: what precedes the first occurrence of `kw`. */
  function Before(s: string, kw: string): string
    requires Contains(s, kw)
  {
    var p := Find(s, kw).value;
    s[0..p]
  }

  lemma AfterKeepsShape(s: string, kw: string)
    requires CleanShape(s) && Contains(s, kw)
    ensures CleanShape(Strip(After(s, kw)))
  {
    var p := Find(s, kw).value;
    var t := s[p + |kw|..|s|];
    assert After(s, kw) == t;
    PlainSlice(s, p + |kw|, |s|);
    StripPlain(t);
  }

  lemma BeforeKeepsShape(s: string, kw: string)
    requires CleanShape(s) && Contains(s, kw)
    ensures CleanShape(Strip(Before(s, kw)))
  {
    var p := Find(s, kw).value;
    var t := s[0..p];
    assert Before(s, kw) == t;
    PlainSlice(s, 0, p);
    StripPlain(t);
  }

  /** `clean_and_extract`. */
  function CleanAndExtract(name: string): (r: string)
    ensures CleanShape(r)
  {
    var c := CleanedName(name);
    match FirstMarker(c, AfterMarkers, 0)
    case Some(j) =>
      AfterKeepsShape(c, AfterMarkers[j]);
      Strip(After(c, AfterMarkers[j]))
    case None =>
      match FirstMarker(c, BeforeMarkers, 0)
      case Some(j) =>
        BeforeKeepsShape(c, BeforeMarkers[j]);
        Strip(Before(c, BeforeMarkers[j]))
      case None => c
  }

  /**
   * The markers decide in list order: the first after-marker present wins, "через"
   * counts only when no after-marker is present, and without a marker the cleaned
   * name is the result.
   */
  lemma CleanAndExtractMarkers(name: string)
    ensures var c := CleanedName(name);
      var r := CleanAndExtract(name);
      (forall j :: (0 <= j < |AfterMarkers| && Contains(c, AfterMarkers[j]) &&
                    (forall i :: 0 <= i < j ==> !Contains(c, AfterMarkers[i]))) ==>
                   r == Strip(After(c, AfterMarkers[j]))) &&
      ((forall i :: 0 <= i < |AfterMarkers| ==> !Contains(c, AfterMarkers[i])) && Contains(c, "через") ==>
        r == Strip(Before(c, "через"))) &&
      ((forall i :: 0 <= i < |AfterMarkers| ==> !Contains(c, AfterMarkers[i])) && !Contains(c, "через") ==> r == c)
  {
    var c := CleanedName(name);
    match FirstMarker(c, AfterMarkers, 0)
    case Some(j) =>
      forall j' | 0 <= j' < |AfterMarkers| && Contains(c, AfterMarkers[j']) &&
        (forall i :: 0 <= i < j' ==> !Contains(c, AfterMarkers[i]))
        ensures j' == j
      {
      }
    case None =>
      assert BeforeMarkers[0] == "через";
  }

  /** A string lacking one of the characters of `t` does not contain `t`. */
  lemma MissingCharNotContained(s: string, t: string, k: nat)
    requires k < |t| && forall i :: 0 <= i < |s| ==> s[i] != t[k]
    ensures !Contains(s, t)
  {
    forall i | 0 <= i <= |s| - |t| ensures !PrefixAt(s, t, i) {
      assert s[i..i + |t|][k] == s[i + k] != t[k];
    }
  }

  /** The marker "b/o" never fires: the cleaning has already removed every `/`. */
  lemma SlashMarkerNeverFires(name: string)
    ensures !Contains(CleanedName(name), "b/o")
  {
    var c := CleanedName(name);
    assert forall i :: 0 <= i < |c| ==> !IsStrippedPunct(c[i]);
    MissingCharNotContained(c, "b/o", 1);
  }

  // ---------------------------------------------------------------------------
  // De-agglutination: `(\b{opf})([«"“])` and `(\b{opf})([A-Za-zА-Яа-яЁё0-9])`
  // ---------------------------------------------------------------------------

  /** `STICKING_OPFS_CANDIDATES` before deduplication and sorting. */
  const StickingList: seq<string> := [
    "ИП ООО", "АО СП", "ОсОО", "ООО", "АО", "ИП", "ЗАО", "ПАО", "ТОО", "TOO", "ЧП", "ОАО", "ГУП",
    "МУП", "РУП", "ЧТУП", "ЧУП", "ФЛ", "Ф-Л", "СП",
    "LTD", "LLC", "GMBH", "CO", "SA", "SPA", "SRL", "JSC", "LLP", "LP", "GP", "PLC"
  ]

  function Length(s: string): nat { |s| }

  /** `STICKING_OPFS_CANDIDATES`: distinct, longest first. */
  const StickingCandidates: seq<string> := SortByKeyDesc(Dedup(StickingList), Length)

  lemma StickingCandidatesOrdered()
    ensures NonIncreasing(StickingCandidates, Length)
    ensures forall x :: x in StickingCandidates <==> x in StickingList
    ensures forall i, j :: 0 <= i < j < |StickingCandidates| ==> StickingCandidates[i] != StickingCandidates[j]
  {
    var d := Dedup(StickingList);
    var r := StickingCandidates;
    assert multiset(r) == multiset(d);
    forall x ensures x in r <==> x in d {
      assert x in r <==> x in multiset(r);
      assert x in d <==> x in multiset(d);
    }
    forall i, j | 0 <= i < j < |r| ensures r[i] != r[j] {
      if r[i] == r[j] {
        DistinctCountOne(d, r[i]);
        assert multiset(r)[r[i]] >= 2 by { CountTwo(r, i, j); }
        assert false;
      }
    }
  }

  lemma DistinctCountOne(xs: seq<string>, x: string)
    requires forall i, j :: 0 <= i < j < |xs| ==> xs[i] != xs[j]
    ensures multiset(xs)[x] <= 1
    decreases |xs|
  {
    if xs != [] {
      var init := xs[..|xs| - 1];
      assert xs == init + [xs[|xs| - 1]];
      DistinctCountOne(init, x);
      if x == xs[|xs| - 1] {
        assert x !in init;
      }
    }
  }

  lemma CountTwo(xs: seq<string>, i: nat, j: nat)
    requires i < j < |xs| && xs[i] == xs[j]
    ensures multiset(xs)[xs[i]] >= 2
  {
    assert xs == xs[..i] + [xs[i]] + xs[i + 1..j] + [xs[j]] + xs[j + 1..];
  }

  /** `re.IGNORECASE` on one pair of characters. */
  predicate SameIgnoringCase(a: char, b: char) {
    LowerChar(a) == LowerChar(b)
  }

  /** `\b{opf}` matches at `p`, ignoring case. */
  predicate LegalFormAt(s: string, opf: string, p: nat) {
    p + |opf| <= |s| && BoundaryAt(s, p) && forall k :: 0 <= k < |opf| ==> SameIgnoringCase(s[p + k], opf[k])
  }

  predicate IsOpeningQuote(c: char) { c == '«' || c == '"' || c == '“' }

  /** `[A-Za-zА-Яа-яЁё0-9]`. */
  predicate IsGlueChar(c: char) { IsAsciiLetter(c) || IsBasicCyrillic(c) || IsDigit(c) }

  /**
   * `r` is `s` with spaces inserted: deleting the inserted spaces gives `s` back.
   */
  predicate SpacesInserted(r: string, s: string)
    decreases |r|
  {
    if r == [] then s == []
    else (s != [] && r[0] == s[0] && SpacesInserted(r[1..], s[1..])) || (r[0] == ' ' && SpacesInserted(r[1..], s))
  }

  lemma {:induction false} SpacesInsertedRefl(s: string)
    ensures SpacesInserted(s, s)
    decreases |s|
  {
    if s != [] {
      SpacesInsertedRefl(s[1..]);
    }
  }

  lemma {:induction false} SpacesInsertedPrefix(x: string, r: string, s: string)
    requires SpacesInserted(r, s)
    ensures SpacesInserted(x + r, x + s)
    decreases |x|
  {
    if x != [] {
      SpacesInsertedPrefix(x[1..], r, s);
      assert (x + r)[1..] == x[1..] + r && (x + s)[1..] == x[1..] + s;
      assert (x + r)[0] == x[0] == (x + s)[0];
    } else {
      assert x + r == r && x + s == s;
    }
  }

  lemma {:induction false} SpacesInsertedTrans(a: string, b: string, c: string)
    requires SpacesInserted(a, b) && SpacesInserted(b, c)
    ensures SpacesInserted(a, c)
    decreases |a|
  {
    if a != [] {
      if b != [] && a[0] == b[0] && SpacesInserted(a[1..], b[1..]) {
        if c != [] && b[0] == c[0] && SpacesInserted(b[1..], c[1..]) {
          SpacesInsertedTrans(a[1..], b[1..], c[1..]);
        } else {
          SpacesInsertedTrans(a[1..], b[1..], c);
        }
      } else {
        SpacesInsertedTrans(a[1..], b, c);
      }
    }
  }

  /**
   * `re.sub(r'(\b' + opf + ')(' + follow + ')', r'\1 \2', s, flags=re.IGNORECASE)`
   * on `s[p..]`: matches are looked for in the original string, left to right, and
   * the scan resumes after the character that follows each match.
   */
  function SpliceFrom(s: string, opf: string, follow: char -> bool, p: nat): (r: string)
    requires p <= |s|
    ensures SpacesInserted(r, s[p..])
    decreases |s| - p
  {
    if p == |s| then []
    else if opf != [] && LegalFormAt(s, opf, p) && p + |opf| < |s| && follow(s[p + |opf|]) then
      var m := p + |opf|;
      var rest := SpliceFrom(s, opf, follow, m + 1);
      SpacesInsertedPrefix([s[m]], rest, s[m + 1..]);
      assert SpacesInserted([' '] + ([s[m]] + rest), [s[m]] + s[m + 1..]) by {
        assert ([' '] + ([s[m]] + rest))[1..] == [s[m]] + rest;
      }
      SpacesInsertedPrefix(s[p..m], [' '] + ([s[m]] + rest), [s[m]] + s[m + 1..]);
      assert s[p..] == s[p..m] + ([s[m]] + s[m + 1..]);
      s[p..m] + ([' '] + ([s[m]] + rest))
    else
      var rest := SpliceFrom(s, opf, follow, p + 1);
      SpacesInsertedPrefix([s[p]], rest, s[p + 1..]);
      assert s[p..] == [s[p]] + s[p + 1..];
      [s[p]] + rest
  }

  /** The two substitutions for one legal form. */
  function Unstick(s: string, opf: string): (r: string)
    ensures SpacesInserted(r, s)
  {
    var t := SpliceFrom(s, opf, IsOpeningQuote, 0);
    var r := SpliceFrom(t, opf, IsGlueChar, 0);
    assert s[0..] == s && t[0..] == t;
    SpacesInsertedTrans(r, t, s);
    r
  }

  /** The substitutions for every candidate, in order. */
  function UnstickAll(s: string, opfs: seq<string>): (r: string)
    ensures SpacesInserted(r, s)
    decreases |opfs|
  {
    if opfs == [] then
      SpacesInsertedRefl(s);
      s
    else
      var t := Unstick(s, opfs[0]);
      var r := UnstickAll(t, opfs[1..]);
      SpacesInsertedTrans(r, t, s);
      r
  }

  // ---------------------------------------------------------------------------
  // The legal-form cascade
  // ---------------------------------------------------------------------------

  /** An entry of `OPF_MAPPING`: the pattern source and the legal form it stands for. */
  datatype OpfRule = OpfRule(pattern: string, opf: string)

  /** `OPF_MAPPING`, in dictionary order. */
  const OpfMapping: seq<OpfRule> := [
    OpfRule(@"\b(Иностранное\s+предприятие\s+общество\s+с\s+ограниченной\s+ответственностью|ИП\s+ООО)\b", @"ИП ООО"),
    OpfRule(@"\b(Акционерное\s+Общество\s+Совместное\s+Предприятие|АО\s+СП)\b", @"АО СП"),
    OpfRule(@"\b(Общество\s+с\s+Ограниченной\s+Ответственностью|Общество\s+Ограниченной\s+Ответственностью|Общество\s+с\s+ограниченной\s+отстветственностью|Общество\s+с\s+ограниченной\s+ответсвенностью|OOO)\b", @"ООО"),
    OpfRule(@"\b(Публичное\s+Акционерное\s+Общество)\b", @"ПАО"),
    OpfRule(@"\b(Закрытое\s+Акционерное\s+Общество|ЗАО)\b", @"ЗАО"),
    OpfRule(@"\b(Индивидуальный\s+Предприниматель)\b", @"ИП"),
    OpfRule(@"\b(Общество\s+с\s+Дополнительной\s+Ответственностью|ОДО)\b", @"ОДО"),
    OpfRule(@"\b(Федеральное\s+Государственное\s+Унитарное\s+Предприятие|ФГУП)\b", @"ФГУП"),
    OpfRule(@"\b(Государственное\s+Унитарное\s+Предприятие|ГУП)\b", @"ГУП"),
    OpfRule(@"\b(Федеральное\s+Государственное\s+Предприятие|ФГП)\b", @"ФГП"),
    OpfRule(@"\b(Муниципальное\s+Унитарное\s+Предприятие|МУП)\b", @"МУП"),
    OpfRule(@"\b(Непубличное\s+Акционерное\s+Общество|НАО)\b", @"НАО"),
    OpfRule(@"\b(Товарищество\s+с\s+Ограниченной\s+Ответственностью|Товарищество\s+с\s+Ограниченной\s+Отвественностью|ТОО|TOO)\b", @"ТОО"),
    OpfRule(@"\b(Акционерное\s+Общество\s+с\s+Закрытым\s+Акционерным\s+Капиталом|АО\s+ЗАО)\b", @"АО ЗАО"),
    OpfRule(@"\b(Государственное\s+Предприятие|ГП)\b", @"ГП"),
    OpfRule(@"\b(Республиканское\s+Унитарное\s+Предприятие|РУП)\b", @"РУП"),
    OpfRule(@"\b(Коммерческое\s+Унитарное\s+Предприятие|КУП)\b", @"КУП"),
    OpfRule(@"\b(Коллективное\s+Предприятие|КП)\b", @"КП"),
    OpfRule(@"\b(Частное\s+Предприятие|Частное\s+Предриятие|ЧП)\b", @"ЧП"),
    OpfRule(@"\b(Частная\s+Компания|ЧК)\b", @"ЧК"),
    OpfRule(@"\b(ОсОО)\b", @"ОсОО"),
    OpfRule(@"\b(Акционерное\s+Общество|ААТ)\b", @"ААТ"),
    OpfRule(@"\b(Частное\s+торговое\s+унитарное\s+предприятие|ЧТУП)\b", @"ЧТУП"),
    OpfRule(@"\b(Открытое\s+акционерное\s+общество|ОАО)\b", @"ОАО"),
    OpfRule(@"\b(ЧАСТНОЕ\s+ТОРГОВО-ПРОИЗВОДСТВЕННОЕ\s+УНИТАРНОЕ\s+ПРЕДПРИЯТИЕ|ЧТПУП)\b", @"ЧТПУП"),
    OpfRule(@"\b(Частное\s+производственно-торговое\s+унитарное\s+предприятие|ЧПТУП)\b", @"ЧПТУП"),
    OpfRule(@"\b(Частное\s+Унитарное\s+предприятие|ЧУП)\b", @"ЧУП"),
    OpfRule(@"\b(Иностранное\s+унитарное\s+предприятие|ИУП)\b", @"ИУП"),
    OpfRule(@"\b(Унитарное\s+предприятие|УП)\b", @"УП"),
    OpfRule(@"\b(Филиал\s+компании|Филиал\s+корпорации|Филиал\s+партнерства\s+с\s+ограниченной\s+ответственностью|ФИЛИАЛ|ФЛ|Ф-Л)\b", @"ФИЛИАЛ"),
    OpfRule(@"\b(ООО|OOO)\b", @"ООО"),
    OpfRule(@"\b(АО)\b", @"АО"),
    OpfRule(@"\b(ИП)\b", @"ИП"),
    OpfRule(@"\b(ЧДММ)\b", @"ЧДММ"),
    OpfRule(@"\b(ИЧП)\b", @"ИЧП"),
    OpfRule(@"\b(limited\s+liability\s+company|l[.\s]*l[.\s]*c)\b", @"LLC"),
    OpfRule(@"\b(limited|l[.\s]*t[.\s]*d)\b", @"LTD"),
    OpfRule(@"\b(gesellschaft\s+mit\s+beschränkter\s+haftung|g[.\s]*m[.\s]*b[.\s]*h)\b", @"GMBH"),
    OpfRule(@"\b(c[.\s]*o)\b", @"CO"),
    OpfRule(@"\b(s[.\s]*a)\b", @"SA"),
    OpfRule(@"\b(s[.\s]*r[.\s]*l)\b", @"SRL"),
    OpfRule(@"\b(s[.\s]*p[.\s]*a)\b", @"SPA"),
    OpfRule(@"\b(a[.\s]*s)\b", @"AS"),
    OpfRule(@"\b(d[.\s]*o[.\s]*o)\b", @"D.O.O."),
    OpfRule(@"\b(d[.\s]*d[.\s]*o[.\s]*o)\b", @"D.D.O.O."),
    OpfRule(@"\b(s[.\s]*p[.\s]*z[.\s]*o[.\s]*o|spolka\s+z\s+oo|spolka\s+z\s+ograniczona\s+odpowiedzialnoscia)\b", @"SP ZOO"),
    OpfRule(@"\b(free\s+zone\s+company|f[.\s]*z[.\s]*c)\b", @"FZC"),
    OpfRule(@"\b(free\s+zone\s+establishment|f[.\s]*z[.\s]*e)\b", @"FZE"),
    OpfRule(@"\b(sanayi\s+ve\s+ticaret\s+a\.?\s*s\.?|sanayi\s+ve\s+ticaret\s+a\.?\s*ş\.?)\b", @"Sanayi ve Ticaret A.Ş."),
    OpfRule(@"\b(limited\s+liability\s+partnership|l[.\s]*l[.\s]*p)\b", @"LLP"),
    OpfRule(@"\b(joint\s+stock\s+company|j[.\s]*s[.\s]*c)\b", @"JSC"),
    OpfRule(@"\b(c[.\s]*o[.\s]*r[.\s]*p|corporation)\b", @"Corp."),
    OpfRule(@"\b(limited\s+partnership|l[.\s]*p)\b", @"LP"),
    OpfRule(@"\b(general\s+partnership|g[.\s]*p)\b", @"GP"),
    OpfRule(@"\b(sole\s+prop\.|sole\s+proprietorship|s[.\s]*p)\b", @"Sole prop."),
    OpfRule(@"\b(nonprofit\s+corp\.|nonprofit\s+corporation)\b", @"Nonprofit corp."),
    OpfRule(@"\b(public\s+limited\s+company|p[.\s]*l[.\s]*c)\b", @"PLC"),
    OpfRule(@"\b(sole\s+trader)\b", @"Sole Trader"),
    OpfRule(@"\b(one\s+person\s+company|o[.\s]*p[.\s]*c)\b", @"OPC"),
    OpfRule(@"\b(incorporated|i[.\s]*n[.\s]*c)\b", @"INC"),
    OpfRule(@"\b(s[.\s]*i[.\s]*a)\b", @"SIA"),
    OpfRule(@"\b(s[.\s]*r[.\s]*o)\b", @"SRO"),
    OpfRule(@"\b(s[.\s]*l)\b", @"SL"),
    OpfRule(@"\b(u[.\s]*a[.\s]*b)\b", @"UAB"),
    OpfRule(@"\b(a[.\s]*g)\b", @"AG"),
    OpfRule(@"\b(m[.\s]*c[.\s]*h[.\s]*j)\b", @"MCHJ"),
    OpfRule(@"\b(c[.\s]*j[.\s]*s[.\s]*c)\b", @"CJSC"),
    OpfRule(@"\b(s[.\s]*t[.\s]*i)\b", @"STI")
  ]

  function PatternLength(rule: OpfRule): nat { |rule.pattern| }

  /** The regex engine reports spans inside the text it searched. */
  ghost predicate ValidSearch(search: (string, string) -> Option<Span>) {
    forall pattern, text :: search(pattern, text).Some? ==>
      0 <= search(pattern, text).value.start <= search(pattern, text).value.end <= |text|
  }

  /** No pattern of `rules` is found in `s`. */
  predicate NoneFound(rules: seq<OpfRule>, s: string, search: (string, string) -> Option<Span>) {
    forall k :: 0 <= k < |rules| ==> search(rules[k].pattern, s).None?
  }

  /** The index of the first rule, from `i` on, whose pattern the engine finds in `s`. */
  function FirstRule(rules: seq<OpfRule>, s: string, search: (string, string) -> Option<Span>, i: nat): (r: Option<nat>)
    ensures r.Some? ==> i <= r.value < |rules| && search(rules[r.value].pattern, s).Some?
    ensures r.Some? ==> forall k :: i <= k < r.value ==> search(rules[k].pattern, s).None?
    ensures r.None? ==> forall k :: i <= k < |rules| ==> search(rules[k].pattern, s).None?
    decreases |rules| - i
  {
    if i >= |rules| then None
    else if search(rules[i].pattern, s).Some? then Some(i)
    else FirstRule(rules, s, search, i + 1)
  }

  /** `^[\s,-]+`. */
  predicate IsLeadingJunk(c: char) { IsSpace(c) || c == ',' || c == '-' }

  /** The name once the match `m` is removed: `re.sub(..., count=1)`, `.strip()` and `^[\s,-]+`. */
  function WithoutMatch(s: string, m: Span): string
    requires 0 <= m.start <= m.end <= |s|
  {
    TrimStart(Strip(s[..m.start] + s[m.end..]), IsLeadingJunk)
  }

  /** The result of the cascade: the legal form found, if any, and the rest of the name. */
  datatype CascadeResult = CascadeResult(opf: Option<string>, name: string)

  /** The cascade over `rules`: the first rule found wins and only its first match is removed. */
  function Cascade(rules: seq<OpfRule>, s: string, search: (string, string) -> Option<Span>): (r: CascadeResult)
    requires ValidSearch(search)
    ensures r.opf.None? <==> NoneFound(rules, s, search)
    ensures r.opf.None? ==> r.name == s
  {
    match FirstRule(rules, s, search, 0)
    case None => CascadeResult(None, s)
    case Some(k) => CascadeResult(Some(rules[k].opf), WithoutMatch(s, search(rules[k].pattern, s).value))
  }

  /**
   * When the cascade finds a legal form, it is that of the first rule in cascade order
   * whose pattern is found, and only that rule's match is removed from the name.
   */
  lemma CascadeTakesFirstRule(rules: seq<OpfRule>, s: string, search: (string, string) -> Option<Span>, k: nat)
    requires ValidSearch(search)
    requires k < |rules| && search(rules[k].pattern, s).Some?
    requires forall j :: 0 <= j < k ==> search(rules[j].pattern, s).None?
    ensures Cascade(rules, s, search) == CascadeResult(Some(rules[k].opf), WithoutMatch(s, search(rules[k].pattern, s).value))
  {
    var first := FirstRule(rules, s, search, 0);
    assert first == Some(k) by {
      if first.Some? && first.value != k {
        assert first.value < k || search(rules[k].pattern, s).None?;
      }
    }
  }

  // ---------------------------------------------------------------------------
  // Final cleanup: `[.,]` removed, `\s\s+` replaced by a space, stripped
  // ---------------------------------------------------------------------------

  predicate IsDotOrComma(c: char) { c == '.' || c == ',' }

  /** No two whitespace characters in a row. */
  predicate NoSpaceRuns(s: string) {
    forall k :: 0 <= k < |s| ==> NoSpaceRunAt(s, k)
  }

  predicate NoSpaceRunAt(s: string, k: int)
    requires 0 <= k < |s|
  {
    IsSpace(s[k]) ==> k + 1 < |s| ==> !IsSpace(s[k + 1])
  }

  /** `re.sub(r'\s\s+', ' ', s)`: a single whitespace character stays, longer runs become one space. */
  function CollapseRuns(s: string): (r: string)
    ensures NoSpaceRuns(r)
    ensures forall k :: 0 <= k < |r| ==> r[k] == ' ' || r[k] in s
    ensures r == [] <==> s == []
    ensures r != [] ==> IsSpace(r[0]) == IsSpace(s[0])
    decreases |s|
  {
    if s == [] then []
    else
      var n := LeadingCount(s, IsSpace);
      if n >= 2 then
        var rest := CollapseRuns(s[n..]);
        var r := [' '] + rest;
        assert forall k :: 0 < k < |r| ==> r[k] == rest[k - 1];
        assert forall k :: 0 < k < |r| ==> NoSpaceRunAt(rest, k - 1) ==> NoSpaceRunAt(r, k);
        r
      else
        var rest := CollapseRuns(s[1..]);
        var r := [s[0]] + rest;
        assert forall k :: 0 < k < |r| ==> r[k] == rest[k - 1];
        assert forall k :: 0 < k < |r| ==> NoSpaceRunAt(rest, k - 1) ==> NoSpaceRunAt(r, k);
        r
  }

  /** No dot, no comma, no two whitespace characters in a row. */
  predicate FinalShape(s: string) {
    (forall k :: 0 <= k < |s| ==> !IsDotOrComma(s[k])) && NoSpaceRuns(s)
  }

  lemma FinalShapeSlice(s: string, i: nat, j: nat)
    requires FinalShape(s) && i <= j <= |s|
    ensures FinalShape(s[i..j])
  {
    var r := s[i..j];
    forall k | 0 <= k < |r| ensures !IsDotOrComma(r[k]) && NoSpaceRunAt(r, k) {
      assert r[k] == s[i + k];
      assert NoSpaceRunAt(s, i + k);
    }
  }

  lemma FinalShapeStrip(s: string)
    requires FinalShape(s)
    ensures FinalShape(Strip(s))
  {
    var i, j :| 0 <= i <= j <= |s| && Strip(s) == s[i..j];
    FinalShapeSlice(s, i, j);
  }

  /** The final cleanup of the name. */
  function FinalName(s: string): (r: string)
    ensures FinalShape(r)
    ensures r != [] ==> !IsSpace(r[0]) && !IsSpace(r[|r| - 1])
  {
    var b := CollapseRuns(RemoveChars(s, IsDotOrComma));
    FinalShapeStrip(b);
    Strip(b)
  }

  // ---------------------------------------------------------------------------
  // `normalize_company`
  // ---------------------------------------------------------------------------

  /** The two columns `normalize_company` returns: `ОПФ` and `Нормализованное_название`. */
  datatype Company = Company(opf: Option<string>, name: Option<string>)

  /**
   * `normalize_company` on a present name, with the glued legal forms `sticking` and
   * the legal-form table `mapping`, tried longest pattern first, as parameters.
   */
  function NormalizedWith(n: string, sticking: seq<string>, mapping: seq<OpfRule>,
                          search: (string, string) -> Option<Span>): (r: Company)
    requires ValidSearch(search)
    ensures r.name.Some? && FinalShape(r.name.value)
    ensures r.name.value != [] ==> !IsSpace(r.name.value[0]) && !IsSpace(r.name.value[|r.name.value| - 1])
  {
    Finished(Cascade(SortByKeyDesc(mapping, PatternLength), CleanAndExtract(UnstickAll(n, sticking)), search))
  }

  /** The final cleanup of the name the cascade leaves; the legal form is kept. */
  function Finished(cascade: CascadeResult): (r: Company)
    ensures r.opf == cascade.opf
    ensures r.name.Some? && FinalShape(r.name.value)
    ensures r.name.value != [] ==> !IsSpace(r.name.value[0]) && !IsSpace(r.name.value[|r.name.value| - 1])
  {
    Company(cascade.opf, Some(FinalName(cascade.name)))
  }

  /** The legal form is missing exactly when no pattern of the cascade is found in the cleaned name. */
  lemma NormalizedWithOpf(n: string, sticking: seq<string>, mapping: seq<OpfRule>,
                          search: (string, string) -> Option<Span>)
    requires ValidSearch(search)
    ensures NormalizedWith(n, sticking, mapping, search).opf.None? <==>
      NoneFound(SortByKeyDesc(mapping, PatternLength), CleanAndExtract(UnstickAll(n, sticking)), search)
  {
    var cascade := Cascade(SortByKeyDesc(mapping, PatternLength), CleanAndExtract(UnstickAll(n, sticking)), search);
    assert NormalizedWith(n, sticking, mapping, search) == Finished(cascade);
  }

  /** `normalize_company`; `None` stands for a missing value. */
  function NormalizedCompany(name: Option<string>, search: (string, string) -> Option<Span>): (r: Company)
    requires ValidSearch(search)
    ensures name.None? <==> r.name.None?
  {
    match name
    case None => Company(None, None)
    case Some(n) => NormalizedWith(n, StickingCandidates, OpfMapping, search)
  }

  /** The loop of `normalize_company` over the glued legal forms, in order. */
  method UnstickLoop(name: string, opfs: seq<string>) returns (processed: string)
    ensures processed == UnstickAll(name, opfs)
  {
    processed := name;
    for i := 0 to |opfs|
      invariant UnstickAll(processed, opfs[i..]) == UnstickAll(name, opfs)
    {
      assert opfs[i..][1..] == opfs[i + 1..];
      processed := Unstick(processed, opfs[i]);
    }
    assert opfs[|opfs|..] == [];
  }

  /** The loop of `normalize_company` over the cascade, which stops at the first pattern found. */
  method CascadeLoop(rules: seq<OpfRule>, cleaned: string, search: (string, string) -> Option<Span>) returns (r: CascadeResult)
    requires ValidSearch(search)
    ensures r == Cascade(rules, cleaned, search)
  {
    var opf: Option<string> := None;
    var normalized := cleaned;
    var i := 0;
    while i < |rules|
      invariant i <= |rules|
      invariant FirstRule(rules, cleaned, search, 0) == FirstRule(rules, cleaned, search, i)
      decreases |rules| - i
    {
      var found := search(rules[i].pattern, cleaned);
      if found.Some? {
        opf := Some(rules[i].opf);
        normalized := WithoutMatch(cleaned, found.value);
        break;
      }
      i := i + 1;
    }
    r := CascadeResult(opf, normalized);
  }

  /** The body of `normalize_company` on a present name. */
  method NormalizeWith(n: string, sticking: seq<string>, mapping: seq<OpfRule>,
                       search: (string, string) -> Option<Span>) returns (r: Company)
    requires ValidSearch(search)
    ensures r == NormalizedWith(n, sticking, mapping, search)
  {
    var processed := UnstickLoop(n, sticking);
    var cleaned := CleanAndExtract(processed);
    var cascade := CascadeLoop(SortByKeyDesc(mapping, PatternLength), cleaned, search);
    r := Finished(cascade);
  }

  /**
   * `normalize_company`: the de-agglutination loop, the cleaning, the cascade over
   * the patterns sorted by source length, and the final cleanup.
   */
  method NormalizeCompany(name: Option<string>, search: (string, string) -> Option<Span>) returns (r: Company)
    requires ValidSearch(search)
    ensures r == NormalizedCompany(name, search)
  {
    if name.None? {
      return Company(None, None);
    }
    r := NormalizeWith(name.value, StickingCandidates, OpfMapping, search);
  }

  /** Deleting the spaces the de-agglutination inserted gives the name back. */
  lemma UnstickOnlyInsertsSpaces(name: string)
    ensures SpacesInserted(UnstickAll(name, StickingCandidates), name)
  {
  }
}
