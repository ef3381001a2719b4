/**
 * The attribute step: the nominal diameter (DN) and nominal pressure (PN) read
 * after a key word, and the material, product type and sealing found from tables
 * of synonyms, all from the product description.
 *
 * The regular expression `{key}\s*[:\-]?\s*(\d{1,4})` is matched by hand: at a
 * fixed start its greedy parts leave no choice, so a match is the key, blanks, at
 * most one `:` or `-`, blanks, and one to four digits, of which the group keeps the
 * first four.
 */
module Attributes {
  import opened Wrappers
  import opened Text

  /** A cell of the description column: a string, or another value and its `str()`. */
  datatype Cell = Str(s: string) | NonStr(rendered: string)

  /** `DN_KEYS`, with the diameter sign written in lower case so that it can match. */
  const DnKeys: seq<string> :=
    ["ду", "dn", "дн", "диаметр", "внешний диаметр", "diameter", "du", "диаметром", "dn=", "ø", "ду=", "дн="]
  /** `DN_KEYS` as written: the diameter sign is the upper-case `Ø`. */
  const DnKeysAsWritten: seq<string> :=
    ["ду", "dn", "дн", "диаметр", "внешний диаметр", "diameter", "du", "диаметром", "dn=", "Ø", "ду=", "дн="]
  /** `PN_KEYS`. */
  const PnKeys: seq<string> :=
    ["ру", "pn", "давление", "условное давление", "pressure", "nominal pressure", "давлением", "pn=", "ру="]

  // ---------------------------------------------------------------------------
  // `parse_numeric_attribute`
  // ---------------------------------------------------------------------------

  predicate IsColonOrDash(c: char) { c == ':' || c == '-' }

  /** Where the digits start after a key ending at `q`: blanks, an optional `:` or `-`, blanks. */
  function DigitsStart(t: string, q: nat): (d: nat)
    requires q <= |t|
    ensures q <= d <= |t|
  {
    var q1 := q + LeadingCount(t[q..], IsSpace);
    var q2 := if q1 < |t| && IsColonOrDash(t[q1]) then q1 + 1 else q1;
    q2 + LeadingCount(t[q2..], IsSpace)
  }

  /** The group `(\d{1,4})` after a key ending at `q`, if the rest of the pattern matches there. */
  function DigitsAfter(t: string, q: nat): (r: Option<string>)
    requires q <= |t|
    ensures r.Some? ==> 1 <= |r.value| <= 4 && forall k :: 0 <= k < |r.value| ==> IsDigit(r.value[k])
    ensures r.Some? ==> var d := DigitsStart(t, q);
      d + |r.value| <= |t| && r.value == t[d..d + |r.value|] &&
      (|r.value| < 4 ==> d + |r.value| == |t| || !IsDigit(t[d + |r.value|]))
    ensures r.None? <==> DigitsStart(t, q) == |t| || !IsDigit(t[DigitsStart(t, q)])
  {
    var d := DigitsStart(t, q);
    var n := LeadingCount(t[d..], IsDigit);
    if n == 0 then None
    else
      var m := if n < 4 then n else 4;
      assert forall k :: 0 <= k < m ==> t[d..d + m][k] == t[d..][k];
      Some(t[d..d + m])
  }

  /** The pattern of `key` matches at `p`; gives the group. */
  function KeyMatchAt(t: string, key: string, p: nat): Option<string> {
    if PrefixAt(t, key, p) then DigitsAfter(t, p + |key|) else None
  }

  /** The pattern of `key` matches at no position from `p` on. */
  ghost predicate NoMatchFrom(t: string, key: string, p: nat) {
    forall i :: p <= i ==> KeyMatchAt(t, key, i).None?
  }

  /** `re.search` of the pattern of `key` in `t[p..]`: the leftmost match. */
  function KeySearch(t: string, key: string, p: nat): (r: Option<string>)
    ensures r.Some? ==> 1 <= |r.value| <= 4 && forall k :: 0 <= k < |r.value| ==> IsDigit(r.value[k])
    ensures r.None? <==> NoMatchFrom(t, key, p)
    decreases |t| + 1 - p
  {
    if p > |t| then
      assert forall i :: p <= i ==> !PrefixAt(t, key, i);
      None
    else
      match KeyMatchAt(t, key, p)
      case Some(g) => Some(g)
      case None => KeySearch(t, key, p + 1)
  }

  /** The first key, in list order, whose pattern matches somewhere in `t`. */
  function FirstKeyMatch(t: string, keys: seq<string>): (r: Option<string>)
    ensures r.Some? ==> 1 <= |r.value| <= 4 && forall k :: 0 <= k < |r.value| ==> IsDigit(r.value[k])
    ensures r.None? <==> forall i :: 0 <= i < |keys| ==> KeySearch(t, keys[i], 0).None?
    decreases |keys|
  {
    if keys == [] then None
    else
      match KeySearch(t, keys[0], 0)
      case Some(g) => Some(g)
      case None =>
        var r := FirstKeyMatch(t, keys[1..]);
        assert forall i :: 0 < i < |keys| ==> keys[i] == keys[1..][i - 1];
        r
  }

  /** The pattern of `key` matches at `q` with group `g`, and at no position from `p` before `q`. */
  predicate LeftmostMatchAt(t: string, key: string, p: nat, q: nat, g: string) {
    p <= q <= |t| && KeyMatchAt(t, key, q) == Some(g) && forall i :: p <= i < q ==> KeyMatchAt(t, key, i).None?
  }

  /** What `re.search` returns is the group of the leftmost match. */
  lemma {:induction false} KeySearchLeftmost(t: string, key: string, p: nat)
    requires KeySearch(t, key, p).Some?
    ensures exists q: nat :: LeftmostMatchAt(t, key, p, q, KeySearch(t, key, p).value)
    decreases |t| + 1 - p
  {
    var g := KeySearch(t, key, p).value;
    if KeyMatchAt(t, key, p).Some? {
      assert LeftmostMatchAt(t, key, p, p, g);
    } else {
      KeySearchLeftmost(t, key, p + 1);
      var q: nat :| LeftmostMatchAt(t, key, p + 1, q, g);
      LeftmostMatchStep(t, key, p, q, g);
    }
  }

  /** A leftmost match from `p + 1` is the leftmost from `p` when the pattern does not match at `p`. */
  lemma LeftmostMatchStep(t: string, key: string, p: nat, q: nat, g: string)
    requires KeyMatchAt(t, key, p).None? && LeftmostMatchAt(t, key, p + 1, q, g)
    ensures LeftmostMatchAt(t, key, p, q, g)
  {
  }

  /** Key `i` is the first key whose pattern matches somewhere in `t`, and its leftmost group is `g`. */
  predicate FirstMatchingKey(t: string, keys: seq<string>, i: nat, g: string) {
    i < |keys| && KeySearch(t, keys[i], 0) == Some(g) && forall j :: 0 <= j < i ==> KeySearch(t, keys[j], 0).None?
  }

  /** What `FirstKeyMatch` returns is the leftmost group of the first key that matches. */
  lemma {:induction false} FirstKeyMatchFirst(t: string, keys: seq<string>)
    requires FirstKeyMatch(t, keys).Some?
    ensures exists i: nat :: FirstMatchingKey(t, keys, i, FirstKeyMatch(t, keys).value)
    decreases |keys|
  {
    var g := FirstKeyMatch(t, keys).value;
    if KeySearch(t, keys[0], 0).Some? {
      assert FirstMatchingKey(t, keys, 0, g);
    } else {
      FirstKeyMatchFirst(t, keys[1..]);
      var i: nat :| FirstMatchingKey(t, keys[1..], i, g);
      FirstMatchingKeyStep(t, keys, i, g);
    }
  }

  /** The first matching key of `keys[1..]` is the first of `keys` when `keys[0]` does not match. */
  lemma FirstMatchingKeyStep(t: string, keys: seq<string>, i: nat, g: string)
    requires keys != [] && KeySearch(t, keys[0], 0).None? && FirstMatchingKey(t, keys[1..], i, g)
    ensures FirstMatchingKey(t, keys, i + 1, g)
  {
    assert forall j :: 0 < j <= i ==> keys[j] == keys[1..][j - 1];
  }

  /** The text `parse_numeric_attribute` searches: `str()` of a non-string, lower-cased. */
  function NumericText(cell: Cell): string {
    match cell
    case Str(s) => Lower(s)
    case NonStr(rendered) => Lower(rendered)
  }

  /** No key's pattern matches anywhere in `t`. */
  predicate NoKeyMatches(t: string, keys: seq<string>) {
    forall i :: 0 <= i < |keys| ==> KeySearch(t, keys[i], 0).None?
  }

  /**
   * `parse_numeric_attribute`: the group of the leftmost match of the first key that
   * matches the lowered text, or nothing when no key matches.
   */
  function NumericAttribute(cell: Cell, keys: seq<string>): (r: Option<string>)
    ensures r.Some? ==> 1 <= |r.value| <= 4 && forall k :: 0 <= k < |r.value| ==> IsDigit(r.value[k])
    ensures r.Some? ==> exists i: nat :: FirstMatchingKey(NumericText(cell), keys, i, r.value)
    ensures r.None? <==> NoKeyMatches(NumericText(cell), keys)
  {
    var r := FirstKeyMatch(NumericText(cell), keys);
    if r.Some? then FirstKeyMatchFirst(NumericText(cell), keys); r else r
  }

  /** A key with a letter that lower-casing changes never occurs in lower-cased text. */
  lemma UnloweredKeyNeverMatches(s: string, key: string)
    requires !IsLowered(key)
    ensures forall p: nat :: KeyMatchAt(Lower(s), key, p).None?
  {
    var t := Lower(s);
    var j :| 0 <= j < |key| && LowerChar(key[j]) != key[j];
    LowerIsLowered(s);
    forall p: nat ensures !PrefixAt(t, key, p) {
      if p + |key| <= |t| {
        assert t[p..p + |key|][j] == t[p + j];
        assert LowerChar(t[p + j]) == t[p + j];
      }
    }
  }

  /** Some character of `w` does not occur in `t`. */
  predicate HasCharNotIn(w: string, t: string)
    decreases |w|
  {
    w != [] && (w[0] !in t || HasCharNotIn(w[1..], t))
  }

  /** A word with a character that `t` lacks occurs nowhere in `t`. */
  lemma {:induction false} HasCharNotInNeverOccurs(w: string, t: string)
    requires HasCharNotIn(w, t)
    ensures forall i: nat :: !PrefixAt(t, w, i)
    decreases |w|
  {
    var j: nat := 0;
    while w[j] in t
      invariant j < |w| && HasCharNotIn(w[j..], t)
      decreases |w| - j
    {
      assert w[j..][1..] == w[j + 1..];
      j := j + 1;
    }
    forall i: nat ensures !PrefixAt(t, w, i) {
      if i + |w| <= |t| {
        assert t[i..i + |w|][j] == t[i + j];
        assert t[i + j] in t;
      }
    }
  }

  /** The search moves past positions where the first character of the key is absent. */
  lemma {:induction false} KeySearchSkips(t: string, key: string, p: nat, q: nat)
    requires p <= q <= |t| && key != [] && key[0] !in t[p..q]
    ensures KeySearch(t, key, p) == KeySearch(t, key, q)
    decreases q - p
  {
    if p < q {
      assert t[p..q][0] == t[p];
      if p + |key| <= |t| {
        assert t[p..p + |key|][0] == t[p];
      }
      assert KeyMatchAt(t, key, p).None?;
      assert t[p + 1..q] == t[p..q][1..];
      KeySearchSkips(t, key, p + 1, q);
    }
  }

  /** The search moves past a position where the second character of the key differs. */
  lemma KeySearchStep(t: string, key: string, p: nat)
    requires p + 1 < |t| && |key| >= 2 && t[p + 1] != key[1]
    ensures KeySearch(t, key, p) == KeySearch(t, key, p + 1)
  {
    if p + |key| <= |t| {
      assert t[p..p + |key|][1] == t[p + 1];
    }
    assert KeyMatchAt(t, key, p).None?;
  }

  /** A key with a character the text lacks is never found. */
  lemma KeyAbsent(t: string, key: string)
    requires HasCharNotIn(key, t)
    ensures KeySearch(t, key, 0).None?
  {
    HasCharNotInNeverOccurs(key, t);
  }

  /** When the earlier keys are not found, the first key match is that of key `i`. */
  lemma {:induction false} FirstKeyMatchAt(t: string, keys: seq<string>, i: nat)
    requires i < |keys| && KeySearch(t, keys[i], 0).Some?
    requires forall j :: 0 <= j < i ==> KeySearch(t, keys[j], 0).None?
    ensures FirstKeyMatch(t, keys) == KeySearch(t, keys[i], 0)
    decreases i
  {
    if i > 0 {
      assert KeySearch(t, keys[0], 0).None?;
      assert keys[1..][i - 1] == keys[i];
      forall j | 0 <= j < i - 1 ensures KeySearch(t, keys[1..][j], 0).None? {
        assert keys[1..][j] == keys[j + 1];
      }
      FirstKeyMatchAt(t, keys[1..], i - 1);
    }
  }

  /** Every DN key is in lower case, so each can match the lower-cased text. */
  lemma DnKeysLowered()
    ensures forall i :: 0 <= i < |DnKeys| ==> IsLowered(DnKeys[i])
  {
  }

  /** Every PN key is in lower case, so each can match the lower-cased text. */
  lemma PnKeysLowered()
    ensures forall i :: 0 <= i < |PnKeys| ==> IsLowered(PnKeys[i])
  {
  }

  /** The upper-case diameter sign of `DN_KEYS` as written can never match. */
  lemma DiameterSignNeverMatches(cell: Cell)
    ensures DnKeysAsWritten[9] == "Ø"
    ensures KeySearch(NumericText(cell), DnKeysAsWritten[9], 0).None?
  {
    assert !IsLowered(DnKeysAsWritten[9]) by {
      assert LowerChar(DnKeysAsWritten[9][0]) != DnKeysAsWritten[9][0];
    }
    var t := match cell case Str(s) => s case NonStr(rendered) => rendered;
    UnloweredKeyNeverMatches(t, DnKeysAsWritten[9]);
  }

  /** "Ø50": as written no DN is found. */
  lemma DiameterSignAsWritten()
    ensures NumericAttribute(Str("Ø50"), DnKeysAsWritten) == None
  {
    SignText();
    WrittenKeysAbsent("ø50", 0, 3);
    WrittenKeysAbsent("ø50", 3, 6);
    WrittenKeysAbsent("ø50", 6, 9);
    WrittenKeysAbsent("ø50", 9, 12);
  }

  /** The keys `lo` to `hi` of `DN_KEYS` as written each have a character "ø50" lacks. */
  lemma WrittenKeysAbsent(t: string, lo: nat, hi: nat)
    requires t == "ø50" && (lo, hi) in {(0, 3), (3, 6), (6, 9), (9, 12)}
    ensures forall i :: lo <= i < hi ==> KeySearch(t, DnKeysAsWritten[i], 0).None?
  {
    forall i | lo <= i < hi ensures KeySearch(t, DnKeysAsWritten[i], 0).None? {
      assert HasCharNotIn(DnKeysAsWritten[i], t);
      KeyAbsent(t, DnKeysAsWritten[i]);
    }
  }

  /** "Ø50": with the diameter sign in lower case the DN is 50. */
  lemma DiameterSignCorrected()
    ensures NumericAttribute(Str("Ø50"), DnKeys) == Some("50")
  {
    var t := "ø50";
    SignText();
    DnKeysAbsentBefore(t, 0, 3);
    DnKeysAbsentBefore(t, 3, 6);
    DnKeysAbsentBefore(t, 6, 9);
    SignKeyFound(t);
    FirstKeyMatchAt(t, DnKeys, 9);
  }

  /** The lower-cased text of "Ø50". */
  lemma SignText()
    ensures NumericText(Str("Ø50")) == "ø50"
  {
  }

  /** The lower-case diameter sign is found in "ø50", followed by 50. */
  lemma SignKeyFound(t: string)
    requires t == "ø50"
    ensures KeySearch(t, DnKeys[9], 0) == Some("50")
  {
    KeyThenDigits(t, DnKeys[9], 0, 2);
    assert t[1..3] == "50";
  }

  /** The DN keys `lo` to `hi` each have a character "ø50" lacks, so none of them is found there. */
  lemma DnKeysAbsentBefore(t: string, lo: nat, hi: nat)
    requires t == "ø50" && (lo, hi) in {(0, 3), (3, 6), (6, 9)}
    ensures forall i :: lo <= i < hi ==> KeySearch(t, DnKeys[i], 0).None?
  {
    forall i | lo <= i < hi ensures KeySearch(t, DnKeys[i], 0).None? {
      assert HasCharNotIn(DnKeys[i], t);
      KeyAbsent(t, DnKeys[i]);
    }
  }

  /** The key at `p`, directly followed by `n` digits and then no digit, gives those digits. */
  lemma KeyThenDigits(t: string, key: string, p: nat, n: nat)
    requires PrefixAt(t, key, p) && 1 <= n < 4
    requires p + |key| + n <= |t|
    requires forall k :: p + |key| <= k < p + |key| + n ==> IsDigit(t[k])
    requires p + |key| + n == |t| || !IsDigit(t[p + |key| + n])
    ensures KeyMatchAt(t, key, p) == Some(t[p + |key|..p + |key| + n])
  {
    var q := p + |key|;
    assert t[q..][0] == t[q];
    LeadingCountOfRun(t[q..], IsSpace, 0);
    assert DigitsStart(t, q) == q;
    LeadingCountOfRun(t[q..], IsDigit, n);
  }

  /** The lower-cased text of the valve description "Ду50 Ру16". */
  lemma ValveText()
    ensures NumericText(Str("Ду50 Ру16")) == "ду50 ру16"
  {
  }

  /** "Ду50 Ру16": DN 50 through the key "ду". */
  lemma ValveDiameterExample()
    ensures NumericAttribute(Str("Ду50 Ру16"), DnKeys) == Some("50")
  {
    var t := "ду50 ру16";
    ValveText();
    assert t[0..2] == "ду" && t[2..4] == "50" && t[4] == ' ';
    KeyThenDigits(t, "ду", 0, 2);
    FirstKeyMatchAt(t, DnKeys, 0);
  }

  /** In "ду50 ру16" the first match of the key "ру" gives 16. */
  lemma ValvePressureSearch()
    ensures KeySearch("ду50 ру16", "ру", 0) == Some("16")
  {
    var t := "ду50 ру16";
    assert t[7..9] == "16";
    assert t[5..7] == "ру";
    KeyThenDigits(t, "ру", 5, 2);
    assert t[0..5] == "ду50 ";
    KeySearchSkips(t, "ру", 0, 5);
  }

  /** "Ду50 Ру16": PN 16 through the key "ру". */
  lemma ValvePressureExample()
    ensures NumericAttribute(Str("Ду50 Ру16"), PnKeys) == Some("16")
  {
    ValveText();
    ValvePressureSearch();
    FirstKeyMatchAt("ду50 ру16", PnKeys, 0);
  }

  // ---------------------------------------------------------------------------
  // `parse_from_patterns`
  // ---------------------------------------------------------------------------

  /** An entry of a synonym table: the canonical label and its synonyms. */
  datatype Synonyms = Synonyms(canonical: string, synonyms: seq<string>)

  /** Some synonym, lower-cased, is a substring of `t`. */
  predicate AnySynonymIn(t: string, syns: seq<string>) {
    exists k :: 0 <= k < |syns| && Contains(t, Lower(syns[k]))
  }

  /** The label of the first entry, in table order, one of whose synonyms occurs in `t`. */
  function FirstLabel(t: string, table: seq<Synonyms>): (r: Option<string>)
    ensures r.Some? ==> exists i :: 0 <= i < |table| && table[i].canonical == r.value &&
                                    AnySynonymIn(t, table[i].synonyms) &&
                                    forall j :: 0 <= j < i ==> !AnySynonymIn(t, table[j].synonyms)
    ensures r.None? <==> forall i :: 0 <= i < |table| ==> !AnySynonymIn(t, table[i].synonyms)
    decreases |table|
  {
    if table == [] then None
    else if AnySynonymIn(t, table[0].synonyms) then Some(table[0].canonical)
    else
      var r := FirstLabel(t, table[1..]);
      assert forall i :: 0 < i < |table| ==> table[i] == table[1..][i - 1];
      r
  }

  /** `parse_from_patterns`: nothing for a non-string cell, else the first label found. */
  function PatternAttribute(cell: Cell, table: seq<Synonyms>): (r: Option<string>)
    ensures cell.NonStr? ==> r.None?
    ensures cell.Str? ==> r == FirstLabel(Lower(cell.s), table)
    ensures r.Some? ==> exists i :: 0 <= i < |table| && table[i].canonical == r.value
  {
    match cell
    case NonStr(_) => None
    case Str(s) => FirstLabel(Lower(s), table)
  }

  /** `MATERIAL_PATTERNS`, with the comma between "gg25" and "32ч24р" that the source lacks. */
  const MaterialPatterns: seq<Synonyms> := [
    Synonyms("Нержавеющая сталь", ["нержавеющая сталь", "нержавеющей стали", "aisi 304", "aisi 316", "aisi304", "aisi316",
                                   "12х18н10т", "12x18h10t", "08Х18Н10", "ss316", "ss304",
                                   "корозионностойкий", "корозионностойкая", "корозионностойкой", "cf8m"]),
    Synonyms("Углеродистая сталь", ["сталь 20", "углеродистая сталь", "углеродистой стали"]),
    Synonyms("Легированная сталь", ["09г2с", "легированная сталь", "легированной стали"]),
    Synonyms("Чугун", ["чугун", "чугунный", "чугуна", "чугунным", "чуг",
                       "ggg40", "gg40", "gjs400", "gs-400", "ggg50", "gg50", "gg25", "32ч24р", "ci/cd"])
  ]

  /** The synonyms of "Чугун" as written: adjacent literals `'gg25' "32ч24р"` join into one. */
  const CastIronAsWritten: seq<string> :=
    ["чугун", "чугунный", "чугуна", "чугунным", "чуг",
     "ggg40", "gg40", "gjs400", "gs-400", "ggg50", "gg50", "gg2532ч24р", "ci/cd"]

  /** `MATERIAL_PATTERNS` as written. */
  const MaterialPatternsAsWritten: seq<Synonyms> := MaterialPatterns[..3] + [Synonyms("Чугун", CastIronAsWritten)]

  /** `PRODUCT_TYPE_PATTERNS`. */
  const ProductTypePatterns: seq<Synonyms> := [
    Synonyms("Трехэксцентриковый", ["трехэксцентриковый", "треxэксцентриковые", "треxэксцентриковый",
                                    "трехэксцентриковые", "трехэкс", "тройным эксцентриком", "тройным эксцентриситетом",
                                    "тройным экcцентриситетом", "тройным смещением диска", "3х-эксц", "3-Х ЭКСЦЕНТРИКОВЫЙ",
                                    "triple offset", "triple eccentric", "3/эксц"]),
    Synonyms("Двухэксцентриковый", ["двухэксцентриковый", "двухэксцентриковые", "двухэкс", "двойным эксцентриком",
                                    "двойным эксцентриситетом", "двойным смещением диска", "2х-эксц", "double offset",
                                    "double eccentric", "2/эксц"]),
    Synonyms("Безэксцентриковый", ["безэксцентриковый", "безэкс", "осевой", "бабочка", "без смещения диска", "no offset",
                                   "без эксцентриситета", "центрический"]),
    Synonyms("Межфланцевый", ["межфланцевый", "wafer", "lug", "32ч24р", "межфланцевые", "межфланцевой", "межфланц"])
  ]

  /** `SEAL_PATTERNS`. */
  const SealPatterns: seq<Synonyms> := [
    Synonyms("Металл-Металл", ["металл по металлу", "металл-металл", "metal to metal"]),
    Synonyms("EPDM", ["epdm"]),
    Synonyms("ТРГ", ["трг", "терморасширенный графит", "teg"]),
    Synonyms("Резина", ["резина"]),
    Synonyms("NBR", ["nbr", "каучук"])
  ]

  /** No synonym occurs when each has a character the text lacks. */
  lemma SynonymsAbsent(t: string, syns: seq<string>)
    requires forall k :: 0 <= k < |syns| ==> HasCharNotIn(Lower(syns[k]), t)
    ensures !AnySynonymIn(t, syns)
  {
    forall k | 0 <= k < |syns| ensures !Contains(t, Lower(syns[k])) {
      HasCharNotInNeverOccurs(Lower(syns[k]), t);
    }
  }

  /** No synonym occurs when, for each, the character at the given index is lacking from `t`. */
  lemma SynonymsAbsentAt(t: string, syns: seq<string>, idx: seq<nat>)
    requires |idx| == |syns|
    requires forall k :: 0 <= k < |syns| ==> idx[k] < |syns[k]| && LowerChar(syns[k][idx[k]]) !in t
    ensures !AnySynonymIn(t, syns)
  {
    forall k, i | 0 <= k < |syns| && 0 <= i <= |t| - |Lower(syns[k])| ensures !PrefixAt(t, Lower(syns[k]), i) {
      var w := Lower(syns[k]);
      assert t[i..i + |w|][idx[k]] == t[i + idx[k]];
    }
  }

  /** When the earlier entries have no synonym in `t`, the label is that of entry `i`, if it has one. */
  lemma FirstLabelAt(t: string, table: seq<Synonyms>, i: nat)
    requires i < |table| && AnySynonymIn(t, table[i].synonyms)
    requires forall j :: 0 <= j < i ==> !AnySynonymIn(t, table[j].synonyms)
    ensures FirstLabel(t, table) == Some(table[i].canonical)
  {
  }

  /** The materials other than cast iron: none of their synonyms occurs in "gg25". */
  lemma NotOtherMaterial()
    ensures forall i :: 0 <= i < 3 ==> !AnySynonymIn("gg25", MaterialPatterns[i].synonyms)
  {
    SynonymsAbsent("gg25", MaterialPatterns[0].synonyms);
    SynonymsAbsent("gg25", MaterialPatterns[1].synonyms);
    SynonymsAbsent("gg25", MaterialPatterns[2].synonyms);
  }

  /**
   * "gg25", as written: no material is found, since the only cast-iron synonym that
   * mentions it is "gg2532ч24р".
   */
  lemma CastIronAsWrittenExample()
    ensures CastIronAsWritten[11] == "gg25" + "32ч24р"
    ensures PatternAttribute(Str("gg25"), MaterialPatternsAsWritten) == None
  {
    var t := "gg25";
    assert Lower("gg25") == t;
    NotOtherMaterial();
    SynonymsAbsentAt(t, CastIronAsWritten, [0, 0, 0, 0, 0, 3, 2, 1, 1, 4, 3, 4, 0]);
    assert forall i :: 0 <= i < 3 ==> MaterialPatternsAsWritten[i] == MaterialPatterns[i];
    assert MaterialPatternsAsWritten[3].synonyms == CastIronAsWritten;
  }

  /** "gg25", with the comma restored: the material is cast iron. */
  lemma CastIronCorrectedExample()
    ensures PatternAttribute(Str("gg25"), MaterialPatterns) == Some("Чугун")
  {
    var t := "gg25";
    assert Lower("gg25") == t;
    NotOtherMaterial();
    assert MaterialPatterns[3].synonyms[11] == t;
    assert Lower(t) == t;
    assert PrefixAt(t, Lower(MaterialPatterns[3].synonyms[11]), 0);
    assert AnySynonymIn(t, MaterialPatterns[3].synonyms);
    FirstLabelAt(t, MaterialPatterns, 3);
  }

  // ---------------------------------------------------------------------------
  // The attribute columns
  // ---------------------------------------------------------------------------

  /** `attribute_dn`, `attribute_pn`, `attribute_material`, `attribute_prodtype`, `attribute_sealing`. */
  datatype AttributeColumns = AttributeColumns(dn: Option<string>, pn: Option<string>, material: Option<string>,
                                               prodType: Option<string>, sealing: Option<string>)

  /** The five attribute columns of one product description, with the tables as the source writes them. */
  function AttributesOf(details: Cell): (r: AttributeColumns)
    ensures details.NonStr? ==> r.material.None? && r.prodType.None? && r.sealing.None?
    ensures r.dn.None? <==> NoKeyMatches(NumericText(details), DnKeysAsWritten)
    ensures r.pn.None? <==> NoKeyMatches(NumericText(details), PnKeys)
    ensures r.dn.Some? ==> exists i: nat :: FirstMatchingKey(NumericText(details), DnKeysAsWritten, i, r.dn.value)
    ensures r.pn.Some? ==> exists i: nat :: FirstMatchingKey(NumericText(details), PnKeys, i, r.pn.value)
    ensures details.Str? ==> r.material == FirstLabel(Lower(details.s), MaterialPatternsAsWritten)
    ensures details.Str? ==> r.prodType == FirstLabel(Lower(details.s), ProductTypePatterns)
    ensures details.Str? ==> r.sealing == FirstLabel(Lower(details.s), SealPatterns)
  {
    var dn, pn := NumericAttribute(details, DnKeysAsWritten), NumericAttribute(details, PnKeys);
    var material := PatternAttribute(details, MaterialPatternsAsWritten);
    var prodType, sealing := PatternAttribute(details, ProductTypePatterns), PatternAttribute(details, SealPatterns);
    AttributeColumns(dn, pn, material, prodType, sealing)
  }

  /** Diameter and pressure, when present, are one to four digits. */
  lemma AttributeDigits(details: Cell)
    ensures var r := AttributesOf(details);
      (r.dn.Some? ==> 1 <= |r.dn.value| <= 4 && forall k :: 0 <= k < |r.dn.value| ==> IsDigit(r.dn.value[k])) &&
      (r.pn.Some? ==> 1 <= |r.pn.value| <= 4 && forall k :: 0 <= k < |r.pn.value| ==> IsDigit(r.pn.value[k]))
  {
  }

  /** The columns with the diameter sign lowered and the missing comma restored. */
  function AttributesOfCorrected(details: Cell): (r: AttributeColumns)
    ensures details.NonStr? ==> r.material.None? && r.prodType.None? && r.sealing.None?
    ensures r.dn.None? <==> NoKeyMatches(NumericText(details), DnKeys)
    ensures r.pn.None? <==> NoKeyMatches(NumericText(details), PnKeys)
    ensures r.dn.Some? ==> exists i: nat :: FirstMatchingKey(NumericText(details), DnKeys, i, r.dn.value)
    ensures r.pn.Some? ==> exists i: nat :: FirstMatchingKey(NumericText(details), PnKeys, i, r.pn.value)
    ensures details.Str? ==> r.material == FirstLabel(Lower(details.s), MaterialPatterns)
    ensures details.Str? ==> r.prodType == FirstLabel(Lower(details.s), ProductTypePatterns)
    ensures details.Str? ==> r.sealing == FirstLabel(Lower(details.s), SealPatterns)
  {
    var dn, pn := NumericAttribute(details, DnKeys), NumericAttribute(details, PnKeys);
    var material := PatternAttribute(details, MaterialPatterns);
    var prodType, sealing := PatternAttribute(details, ProductTypePatterns), PatternAttribute(details, SealPatterns);
    AttributeColumns(dn, pn, material, prodType, sealing)
  }

  /** Key lists that search alike, key by key, find the same first match. */
  lemma {:induction false} FirstKeyMatchAlike(t: string, k1: seq<string>, k2: seq<string>)
    requires |k1| == |k2|
    requires forall i :: 0 <= i < |k1| ==> KeySearch(t, k1[i], 0) == KeySearch(t, k2[i], 0)
    ensures FirstKeyMatch(t, k1) == FirstKeyMatch(t, k2)
    decreases |k1|
  {
    if k1 != [] && KeySearch(t, k1[0], 0).None? {
      FirstKeyMatchAlike(t, k1[1..], k2[1..]);
    }
  }

  /**
   * Without the lower-case sign "ø" in the text, the diameter as written is the corrected
   * one; pressure, product type and sealing never differ.
   */
  lemma DiameterAgreesWithoutSign(details: Cell)
    requires 'ø' !in NumericText(details)
    ensures AttributesOf(details).dn == AttributesOfCorrected(details).dn
    ensures AttributesOf(details).pn == AttributesOfCorrected(details).pn
    ensures AttributesOf(details).prodType == AttributesOfCorrected(details).prodType
    ensures AttributesOf(details).sealing == AttributesOfCorrected(details).sealing
  {
    var t := NumericText(details);
    DiameterSignNeverMatches(details);
    assert HasCharNotIn(DnKeys[9], t);
    KeyAbsent(t, DnKeys[9]);
    forall i | 0 <= i < |DnKeys| ensures KeySearch(t, DnKeysAsWritten[i], 0) == KeySearch(t, DnKeys[i], 0) {
      if i != 9 {
        assert DnKeysAsWritten[i] == DnKeys[i];
      }
    }
    FirstKeyMatchAlike(t, DnKeysAsWritten, DnKeys);
  }
}
