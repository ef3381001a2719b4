/**
 * The brand step: the alias table read from the brand dictionary, the exact
 * whole-word pass over four text fields, the fuzzy pass over two of them, and the
 * three result columns.
 *
 * The alias table is a Python `dict`, whose iteration order is insertion order and
 * where assigning an existing key keeps its place; it is modelled as a sequence of
 * entries with distinct aliases. The fuzzy library's scorer is a parameter.
 */
module Brands {
  import opened Wrappers
  import opened Text
  import opened Sorting

  /** The label for two or more brands. */
  const Mixed: string := "смешанный"
  /** The label when no brand is found. */
  const Undetermined: string := "не определено"
  /** `FUZZY_MIN_ALIAS_LEN`: shorter aliases are left out of the fuzzy pass. */
  const FuzzyMinAliasLen: nat := 3
  /** The exact pass reads only this many leading characters of a field. */
  const ClipLength: nat := 1000

  // ---------------------------------------------------------------------------
  // The alias table
  // ---------------------------------------------------------------------------

  datatype AliasEntry = AliasEntry(alias: string, brand: string)

  /** `alias_to_brand`, in insertion order. */
  type AliasMap = seq<AliasEntry>

  function Keys(m: AliasMap): (r: seq<string>)
    ensures |r| == |m| && forall i :: 0 <= i < |m| ==> r[i] == m[i].alias
  {
    seq(|m|, i requires 0 <= i < |m| => m[i].alias)
  }

  predicate Distinct(xs: seq<string>) {
    forall i, j :: 0 <= i < j < |xs| ==> xs[i] != xs[j]
  }

  /** The first position of `x` in `ks`. */
  function FirstIndex(ks: seq<string>, x: string): (i: nat)
    requires x in ks
    ensures i < |ks| && ks[i] == x && x !in ks[..i]
  {
    if ks[0] == x then 0
    else
      var i := 1 + FirstIndex(ks[1..], x);
      assert ks[..i] == [ks[0]] + ks[1..][..i - 1];
      i
  }

  /** A position holding `x` with no `x` before it is the first position. */
  lemma FirstIndexUnique(ks: seq<string>, x: string, i: nat)
    requires i < |ks| && ks[i] == x && x !in ks[..i]
    ensures FirstIndex(ks, x) == i
  {
    var j := FirstIndex(ks, x);
    assert ks[..j + 1][j] == x;
    assert ks[..i + 1][i] == x;
  }

  /** `alias_to_brand.get(a)`. */
  function Lookup(m: AliasMap, a: string): (r: Option<string>)
    ensures r.Some? <==> a in Keys(m)
  {
    if a in Keys(m) then Some(m[FirstIndex(Keys(m), a)].brand) else None
  }

  /** `alias_to_brand[a] = b`: a new key goes last, an existing one keeps its place. */
  function Put(m: AliasMap, a: string, b: string): (r: AliasMap)
    ensures Keys(r) == if a in Keys(m) then Keys(m) else Keys(m) + [a]
  {
    if a in Keys(m) then
      var r := m[FirstIndex(Keys(m), a) := AliasEntry(a, b)];
      assert Keys(r) == Keys(m);
      r
    else
      var r := m + [AliasEntry(a, b)];
      assert Keys(r) == Keys(m) + [a];
      r
  }

  /** After `alias_to_brand[a] = b`, `a` maps to `b` and every other alias is unchanged. */
  lemma PutLookup(m: AliasMap, a: string, b: string, x: string)
    ensures Lookup(Put(m, a, b), x) == if x == a then Some(b) else Lookup(m, x)
  {
    var r := Put(m, a, b);
    if x in Keys(m) {
      var j := FirstIndex(Keys(m), x);
      assert Keys(r)[..j] == Keys(m)[..j];
      FirstIndexUnique(Keys(r), x, j);
    } else if x == a {
      FirstIndexUnique(Keys(r), x, |m|);
    }
  }

  /** A row of the brand dictionary; `None` is an empty cell. */
  datatype BrandRow = BrandRow(brand: Option<string>, aliases: Option<string>)

  /** `.str.strip().str.lower()` on the brand cell. */
  function CleanBrand(b: string): string {
    Lower(Strip(b))
  }

  /** The comma-separated pieces of an alias cell, each stripped and lower-cased. */
  function AliasPieces(cell: string): (r: seq<string>) {
    var parts := SplitOn(cell, ',');
    seq(|parts|, i requires 0 <= i < |parts| => Lower(Strip(parts[i])))
  }

  /** A key of the alias table: not empty, lower-cased, no whitespace at either end. */
  predicate AliasShape(a: string) {
    a != [] && IsLowered(a) && !IsSpace(a[0]) && !IsSpace(a[|a| - 1])
  }

  lemma CleanPieceShape(p: string)
    requires Lower(Strip(p)) != []
    ensures AliasShape(Lower(Strip(p)))
  {
    var s := Strip(p);
    LowerIsLowered(s);
    LowerCharKeepsNonLetters(s[0]);
    LowerCharKeepsNonLetters(s[|s| - 1]);
  }

  predicate AllShaped(ks: seq<string>) {
    forall i :: 0 <= i < |ks| ==> AliasShape(ks[i])
  }

  /** Stores every non-empty alias of `aliases` under `b`, in order. */
  function PutAll(m: AliasMap, aliases: seq<string>, b: string): (r: AliasMap)
    requires Distinct(Keys(m))
    ensures Distinct(Keys(r))
    ensures forall k :: k in Keys(r) <==> k in Keys(m) || (k != [] && k in aliases)
    decreases |aliases|
  {
    if aliases == [] then m
    else
      var init := PutAll(m, aliases[..|aliases| - 1], b);
      var a := aliases[|aliases| - 1];
      assert aliases == aliases[..|aliases| - 1] + [a];
      if a != [] then Put(init, a, b) else init
  }

  /** Lookups after `PutAll`: the aliases just stored win. */
  lemma {:induction false} PutAllLookup(m: AliasMap, aliases: seq<string>, b: string, x: string)
    requires Distinct(Keys(m))
    ensures Lookup(PutAll(m, aliases, b), x) == if x != [] && x in aliases then Some(b) else Lookup(m, x)
    decreases |aliases|
  {
    if aliases != [] {
      var init := aliases[..|aliases| - 1];
      var a := aliases[|aliases| - 1];
      PutAllLookup(m, init, b, x);
      PutAllLast(m, aliases, b, x);
    }
  }

  /** Lookups after the last alias of `PutAll`, in terms of those before it. */
  lemma PutAllLast(m: AliasMap, aliases: seq<string>, b: string, x: string)
    requires Distinct(Keys(m)) && aliases != []
    ensures var init, a := aliases[..|aliases| - 1], aliases[|aliases| - 1];
      Lookup(PutAll(m, aliases, b), x) == if x == a && a != [] then Some(b) else Lookup(PutAll(m, init, b), x)
    ensures x in aliases <==> x in aliases[..|aliases| - 1] || x == aliases[|aliases| - 1]
  {
    var init, a := aliases[..|aliases| - 1], aliases[|aliases| - 1];
    if a != [] {
      PutLookup(PutAll(m, init, b), a, b, x);
    }
    assert aliases == init + [a];
  }

  /** `load_brand_aliases` over the rows of the brand dictionary, in order. */
  function LoadedAliases(rows: seq<BrandRow>): (r: AliasMap)
    ensures Distinct(Keys(r))
    ensures AllShaped(Keys(r))
    decreases |rows|
  {
    if rows == [] then []
    else
      var m := LoadedAliases(rows[..|rows| - 1]);
      var row := rows[|rows| - 1];
      if row.brand.None? || row.aliases.None? then m
      else
        var pieces := AliasPieces(row.aliases.value);
        var r := PutAll(m, pieces, CleanBrand(row.brand.value));
        forall i | 0 <= i < |r| ensures AliasShape(Keys(r)[i]) {
          var k := Keys(r)[i];
          if k !in Keys(m) {
            var j :| 0 <= j < |pieces| && pieces[j] == k;
            CleanPieceShape(SplitOn(row.aliases.value, ',')[j]);
          } else {
            var j :| 0 <= j < |m| && Keys(m)[j] == k;
          }
        }
        r
  }

  /**
   * A later row overwrites an earlier one: after one more row, an alias maps to that
   * row's brand when the row has both cells and lists the alias, and to what it
   * mapped to before otherwise.
   */
  lemma LoadedAliasesStep(rows: seq<BrandRow>, row: BrandRow, x: string)
    ensures Lookup(LoadedAliases(rows + [row]), x) ==
      if row.brand.Some? && row.aliases.Some? && x != [] && x in AliasPieces(row.aliases.value)
      then Some(CleanBrand(row.brand.value))
      else Lookup(LoadedAliases(rows), x)
  {
    assert (rows + [row])[..|rows|] == rows;
    if row.brand.Some? && row.aliases.Some? {
      PutAllLookup(LoadedAliases(rows), AliasPieces(row.aliases.value), CleanBrand(row.brand.value), x);
    }
  }

  /**
   * `load_brand_aliases`: rows with an empty brand or alias cell are skipped, every
   * non-empty stripped, lower-cased piece of the alias cell is stored under the
   * stripped, lower-cased brand.
   */
  method LoadBrandAliases(rows: seq<BrandRow>) returns (m: AliasMap)
    ensures m == LoadedAliases(rows)
  {
    m := [];
    for i := 0 to |rows|
      invariant m == LoadedAliases(rows[..i])
    {
      LoadedStep(rows, i);
      var row := rows[i];
      if row.brand.Some? && row.aliases.Some? {
        m := PutPieces(m, AliasPieces(row.aliases.value), CleanBrand(row.brand.value));
      }
    }
    assert rows[..|rows|] == rows;
  }

  /** The inner loop of `load_brand_aliases`: every non-empty piece is stored under `brand`. */
  method PutPieces(m0: AliasMap, aliases: seq<string>, brand: string) returns (m: AliasMap)
    requires Distinct(Keys(m0))
    ensures m == PutAll(m0, aliases, brand)
  {
    m := m0;
    for j := 0 to |aliases|
      invariant m == PutAll(m0, aliases[..j], brand)
    {
      PutAllStep(m0, aliases, brand, j);
      if aliases[j] != [] {
        m := Put(m, aliases[j], brand);
      }
    }
    assert aliases[..|aliases|] == aliases;
  }

  /** One more row of the file is one more step of the loading. */
  lemma LoadedStep(rows: seq<BrandRow>, i: nat)
    requires i < |rows|
    ensures var m, row := LoadedAliases(rows[..i]), rows[i];
      LoadedAliases(rows[..i + 1]) ==
        if row.brand.None? || row.aliases.None? then m
        else PutAll(m, AliasPieces(row.aliases.value), CleanBrand(row.brand.value))
  {
    assert rows[..i + 1][..i] == rows[..i];
  }

  /** One more alias piece is one more `Put`, unless the piece is empty. */
  lemma PutAllStep(m: AliasMap, aliases: seq<string>, b: string, j: nat)
    requires Distinct(Keys(m)) && j < |aliases|
    ensures var init := PutAll(m, aliases[..j], b);
      PutAll(m, aliases[..j + 1], b) == if aliases[j] != [] then Put(init, aliases[j], b) else init
  {
    assert aliases[..j + 1][..j] == aliases[..j];
  }

  // ---------------------------------------------------------------------------
  // The adaptive threshold
  // ---------------------------------------------------------------------------

  /** `get_adaptive_threshold`: the fuzzy score a token of this length must reach. */
  function AdaptiveThreshold(token: string): (r: int)
    ensures 90 <= r <= 100
    ensures r == 100 <==> |token| <= 3
    ensures 3 < |token| <= 5 ==> r == 97
    ensures 5 < |token| <= 7 ==> r == 95
    ensures r == 90 <==> |token| > 7
  {
    if |token| <= 3 then 100
    else if |token| <= 5 then 97
    else if |token| <= 7 then 95
    else 90
  }

  /** A longer token never needs a higher score. */
  lemma ThresholdNonIncreasing(a: string, b: string)
    requires |a| <= |b|
    ensures AdaptiveThreshold(b) <= AdaptiveThreshold(a)
    ensures AdaptiveThreshold(a) in {90, 95, 97, 100}
  {
  }

  // ---------------------------------------------------------------------------
  // The exact pass
  // ---------------------------------------------------------------------------

  /** `re.search(r'\b' + re.escape(w) + r'\b', v)` matches at `i`. */
  predicate WholeWordAt(v: string, w: string, i: int) {
    PrefixAt(v, w, i) && BoundaryAt(v, i) && BoundaryAt(v, i + |w|)
  }

  predicate WholeWordFound(v: string, w: string) {
    exists i :: 0 <= i <= |v| - |w| && WholeWordAt(v, w, i)
  }

  /** Every whitespace-separated word of `alias` is found as a whole word in `v`. */
  predicate AllWordsFound(v: string, alias: string) {
    var words := SplitWhitespace(alias);
    forall k :: 0 <= k < |words| ==> WholeWordFound(v, words[k])
  }

  /** `str(val).lower()[:1000]`. */
  function Clip(v: string): (r: string)
    ensures |r| <= |v| && |r| <= ClipLength && r == v[..|r|]
  {
    if |v| <= ClipLength then v else v[..ClipLength]
  }

  /** The brands, in table order, whose alias has all its words in `v`. */
  function ExactHits(v: string, m: AliasMap): seq<string>
    decreases |m|
  {
    if m == [] then []
    else
      var init := ExactHits(v, m[..|m| - 1]);
      var e := m[|m| - 1];
      if AllWordsFound(v, e.alias) then init + [e.brand] else init
  }

  /** A brand is hit iff one of its entries has all its alias words in `v`. */
  lemma {:induction false} ExactHitsMembers(v: string, m: AliasMap, b: string)
    ensures b in ExactHits(v, m) <==> exists i :: 0 <= i < |m| && m[i].brand == b && AllWordsFound(v, m[i].alias)
    decreases |m|
  {
    if m != [] {
      var init := m[..|m| - 1];
      ExactHitsMembers(v, init, b);
      if exists i :: 0 <= i < |m| && m[i].brand == b && AllWordsFound(v, m[i].alias) {
        var i :| 0 <= i < |m| && m[i].brand == b && AllWordsFound(v, m[i].alias);
        if i < |m| - 1 {
          assert init[i] == m[i];
        }
      }
      if b in ExactHits(v, init) {
        var i :| 0 <= i < |init| && init[i].brand == b && AllWordsFound(v, init[i].alias);
        assert m[i] == init[i];
      }
    }
  }

  /** What a pass has gathered: the brands added, and the field name added with each. */
  datatype Pass = Pass(found: seq<string>, reasons: seq<string>)

  function Repeat(x: string, n: nat): (r: seq<string>)
    ensures |r| == n && forall i :: 0 <= i < n ==> r[i] == x
  {
    if n == 0 then [] else Repeat(x, n - 1) + [x]
  }

  /** Adds the brands `hits`, each with the field name `name`. */
  function AddHits(p: Pass, name: string, hits: seq<string>): (r: Pass)
    ensures |r.found| - |r.reasons| == |p.found| - |p.reasons|
  {
    Pass(p.found + hits, p.reasons + Repeat(name, |hits|))
  }

  /** Adding one more hit adds its brand and one more field name. */
  lemma AddHitsSnoc(p: Pass, name: string, hits: seq<string>, b: string)
    ensures AddHits(p, name, hits + [b]) == Pass(AddHits(p, name, hits).found + [b], AddHits(p, name, hits).reasons + [name])
  {
    assert Repeat(name, |hits| + 1) == Repeat(name, |hits|) + [name];
  }

  /** A row of the declarations table, restricted to the columns the brand step reads. */
  datatype Row = Row(prodBrand: Option<string>, prodMan: Option<string>,
                     exporterName: Option<string>, prodDetails: Option<string>)

  datatype Field = Field(name: string, value: Option<string>)

  /** The fields of the exact pass, in order. */
  function SearchFields(row: Row): seq<Field> {
    [Field("prod_brand", row.prodBrand), Field("prod_man", row.prodMan),
     Field("exporter_name", row.exporterName), Field("prod_details", row.prodDetails)]
  }

  /** The fields of the fuzzy pass, in order. */
  function FuzzyFields(row: Row): seq<Field> {
    [Field("prod_brand", row.prodBrand), Field("prod_man", row.prodMan)]
  }

  /** The exact pass over `fields`: missing fields are skipped. */
  function ExactPass(fields: seq<Field>, m: AliasMap): (r: Pass)
    ensures |r.found| == |r.reasons|
    decreases |fields|
  {
    if fields == [] then Pass([], [])
    else
      var p := ExactPass(fields[..|fields| - 1], m);
      var f := fields[|fields| - 1];
      match f.value
      case None => p
      case Some(v) => AddHits(p, f.name, ExactHits(Clip(Lower(v)), m))
  }

  /** The field is present and its clipped, lower-cased text hits brand `b`. */
  predicate FieldHits(f: Field, m: AliasMap, b: string) {
    f.value.Some? && b in ExactHits(Clip(Lower(f.value.value)), m)
  }

  /** A brand is found by the exact pass iff some present field hits it. */
  lemma {:induction false} ExactPassMembers(fields: seq<Field>, m: AliasMap, b: string)
    ensures b in ExactPass(fields, m).found <==> exists f :: 0 <= f < |fields| && FieldHits(fields[f], m, b)
    decreases |fields|
  {
    if fields != [] {
      var init := fields[..|fields| - 1];
      ExactPassMembers(init, m, b);
      if exists f :: 0 <= f < |fields| && FieldHits(fields[f], m, b) {
        var f :| 0 <= f < |fields| && FieldHits(fields[f], m, b);
        if f < |fields| - 1 {
          assert init[f] == fields[f];
        }
      }
      if b in ExactPass(init, m).found {
        var f :| 0 <= f < |init| && FieldHits(init[f], m, b);
        assert fields[f] == init[f];
      }
    }
  }

  // ---------------------------------------------------------------------------
  // The fuzzy pass
  // ---------------------------------------------------------------------------

  /** A token of the fuzzy pass: three or more word characters. */
  predicate LongToken(w: string) {
    |w| >= 3 && forall k :: 0 <= k < |w| ==> IsWordChar(w[k])
  }

  /** `re.findall(r'\b\w{3,}\b', t[p..])`: whole runs of at least three word characters. */
  function LongTokensFrom(t: string, p: nat): (r: seq<string>)
    requires p <= |t|
    ensures forall k :: 0 <= k < |r| ==> LongToken(r[k])
    decreases |t| - p
  {
    if p == |t| then []
    else
      var e := WordRunEnd(t, p);
      if IsWordChar(t[p]) && BoundaryAt(t, p) && e - p >= 3 then
        assert LongToken(t[p..e]) by {
          forall k | 0 <= k < e - p ensures IsWordChar(t[p..e][k]) {
            assert t[p..e][k] == t[p + k];
          }
        }
        var rest := LongTokensFrom(t, e);
        assert forall k :: 0 < k <= |rest| ==> ([t[p..e]] + rest)[k] == rest[k - 1];
        [t[p..e]] + rest
      else LongTokensFrom(t, p + 1)
  }

  function LongTokens(t: string): (r: seq<string>)
    ensures forall k :: 0 <= k < |r| ==> LongToken(r[k])
  {
    LongTokensFrom(t, 0)
  }

  /** The index of the first choice with the highest score. */
  function BestIndex(q: string, choices: seq<string>, score: (string, string) -> int): (r: Option<nat>)
    ensures r.None? <==> choices == []
    ensures r.Some? ==> r.value < |choices|
    ensures r.Some? ==> forall k :: 0 <= k < |choices| ==> score(q, choices[k]) <= score(q, choices[r.value])
    ensures r.Some? ==> forall k :: 0 <= k < r.value ==> score(q, choices[k]) < score(q, choices[r.value])
    decreases |choices|
  {
    if choices == [] then None
    else
      var init := choices[..|choices| - 1];
      var last := |choices| - 1;
      var b := BestIndex(q, init, score);
      assert forall k :: 0 <= k < last ==> choices[k] == init[k];
      if b.None? || score(q, choices[last]) > score(q, choices[b.value]) then Some(last)
      else b
  }

  /**
   * `process.extractOne(q, choices, score_cutoff=cutoff)`: the first best-scoring
   * choice, if its score reaches the cutoff.
   */
  function ExtractOne(q: string, choices: seq<string>, cutoff: int, score: (string, string) -> int): (r: Option<string>)
    ensures r.Some? ==> r.value in choices && score(q, r.value) >= cutoff
    ensures r.Some? ==> forall k :: 0 <= k < |choices| ==> score(q, choices[k]) <= score(q, r.value)
    ensures r.None? <==> forall k :: 0 <= k < |choices| ==> score(q, choices[k]) < cutoff
  {
    match BestIndex(q, choices, score)
    case None => None
    case Some(i) => if score(q, choices[i]) >= cutoff then Some(choices[i]) else None
  }

  /**
   * The brands the fuzzy pass adds for `tokens`, in order; `None` when a matched
   * alias is not a key of the table (the `KeyError` of `alias_to_brand[match]`).
   */
  function FuzzyHits(tokens: seq<string>, m: AliasMap, keys: seq<string>, score: (string, string) -> int): (r: Option<seq<string>>)
    decreases |tokens|
  {
    if tokens == [] then Some([])
    else
      match FuzzyHits(tokens[..|tokens| - 1], m, keys, score)
      case None => None
      case Some(hits) =>
        var t := tokens[|tokens| - 1];
        match ExtractOne(t, keys, AdaptiveThreshold(t), score)
        case None => Some(hits)
        case Some(k) =>
          match Lookup(m, k)
          case None => None
          case Some(b) => Some(hits + [b])
  }

  /**
   * Every brand of the fuzzy pass comes from a token and an alias whose score reaches
   * the token's threshold, and the alias maps to that brand.
   */
  lemma {:induction false} FuzzyHitsJustified(tokens: seq<string>, m: AliasMap, keys: seq<string>,
                                              score: (string, string) -> int, b: string)
    requires FuzzyHits(tokens, m, keys, score).Some? && b in FuzzyHits(tokens, m, keys, score).value
    ensures exists t, k :: t in tokens && k in keys && score(t, k) >= AdaptiveThreshold(t) && Lookup(m, k) == Some(b)
    decreases |tokens|
  {
    var init := tokens[..|tokens| - 1];
    var t := tokens[|tokens| - 1];
    var hits := FuzzyHits(init, m, keys, score).value;
    if b in hits {
      FuzzyHitsJustified(init, m, keys, score, b);
      var t', k :| t' in init && k in keys && score(t', k) >= AdaptiveThreshold(t') && Lookup(m, k) == Some(b);
      assert t' in tokens;
    } else {
      var k := ExtractOne(t, keys, AdaptiveThreshold(t), score).value;
      assert t in tokens && k in keys && score(t, k) >= AdaptiveThreshold(t) && Lookup(m, k) == Some(b);
    }
  }

  /** `[alias for alias in alias_to_brand.keys() if len(alias) >= FUZZY_MIN_ALIAS_LEN]`. */
  function FuzzyKeys(ks: seq<string>): (r: seq<string>)
    ensures forall k :: k in r <==> k in ks && |k| >= FuzzyMinAliasLen
    decreases |ks|
  {
    if ks == [] then []
    else
      var init := FuzzyKeys(ks[..|ks| - 1]);
      var k := ks[|ks| - 1];
      assert ks == ks[..|ks| - 1] + [k];
      if |k| >= FuzzyMinAliasLen then init + [k] else init
  }

  /** The comprehension keeps the table's key order: it distributes over concatenation. */
  lemma {:induction false} FuzzyKeysAppend(a: seq<string>, b: seq<string>)
    ensures FuzzyKeys(a + b) == FuzzyKeys(a) + FuzzyKeys(b)
    decreases |b|
  {
    if b == [] {
      assert a + b == a;
    } else {
      assert (a + b)[..|a + b| - 1] == a + b[..|b| - 1];
      FuzzyKeysAppend(a, b[..|b| - 1]);
    }
  }

  /** With the keys `assign_brands` derives from the table, every match is a key. */
  lemma {:induction false} FuzzyHitsNeverMiss(tokens: seq<string>, m: AliasMap, score: (string, string) -> int)
    ensures FuzzyHits(tokens, m, FuzzyKeys(Keys(m)), score).Some?
    decreases |tokens|
  {
    if tokens != [] {
      FuzzyHitsNeverMiss(tokens[..|tokens| - 1], m, score);
    }
  }

  /** The fuzzy pass over `fields`, continuing from `start`; `None` on a missing key. */
  function FuzzyPass(fields: seq<Field>, m: AliasMap, keys: seq<string>, score: (string, string) -> int,
                     start: Pass): (r: Option<Pass>)
    ensures r.Some? ==> |r.value.found| - |r.value.reasons| == |start.found| - |start.reasons|
    decreases |fields|
  {
    if fields == [] then Some(start)
    else
      match FuzzyPass(fields[..|fields| - 1], m, keys, score, start)
      case None => None
      case Some(p) =>
        var f := fields[|fields| - 1];
        match f.value
        case None => Some(p)
        case Some(v) =>
          match FuzzyHits(LongTokens(Lower(v)), m, keys, score)
          case None => None
          case Some(hits) => Some(AddHits(p, f.name, hits))
  }

  lemma {:induction false} FuzzyPassNeverMisses(fields: seq<Field>, m: AliasMap, score: (string, string) -> int, start: Pass)
    ensures FuzzyPass(fields, m, FuzzyKeys(Keys(m)), score, start).Some?
    decreases |fields|
  {
    if fields != [] {
      FuzzyPassNeverMisses(fields[..|fields| - 1], m, score, start);
      var f := fields[|fields| - 1];
      if f.value.Some? {
        FuzzyHitsNeverMiss(LongTokens(Lower(f.value.value)), m, score);
      }
    }
  }

  // ---------------------------------------------------------------------------
  // The result of `extract_brand_from_row`
  // ---------------------------------------------------------------------------

  /** `(brand, candidates, column reasons)`. */
  datatype BrandResult = BrandResult(brand: string, candidates: seq<string>, reasons: string)

  /** Every brand `found` holds is `b`: the pass found one brand only. */
  predicate OnlyBrand(found: seq<string>, b: string) {
    b in found && forall x :: x in found ==> x == b
  }

  /**
   * The result for a pass that found something. The tuple is built left to right, so
   * with one distinct brand `found.pop()` empties the set before `sorted(found)` reads
   * it: that brand comes back with an empty candidate list.
   */
  function Decided(p: Pass): (r: BrandResult)
    requires p.found != []
    ensures r.reasons == Join(p.reasons, ", ")
    ensures r.candidates == [] <==> OnlyBrand(p.found, p.found[0])
    ensures r.candidates == [] ==> OnlyBrand(p.found, r.brand)
    ensures r.candidates != [] ==> r.brand == Mixed && |r.candidates| >= 2 && StrictlySorted(r.candidates)
    ensures forall b :: b in r.candidates <==> b in p.found && r.candidates != []
  {
    var brands := SortedDistinct(p.found);
    assert p.found[0] in brands;
    if |brands| == 1 then
      BrandResult(brands[0], [], Join(p.reasons, ", "))
    else
      assert !OnlyBrand(p.found, p.found[0]) by {
        assert brands[0] in p.found && brands[1] in p.found;
        LessIrreflexive(brands[0]);
      }
      BrandResult(Mixed, brands, Join(p.reasons, ", "))
  }

  /** The result `extract_brand_from_row` evidently means to give: every found brand is a candidate. */
  function DecidedIntended(p: Pass): (r: BrandResult)
    requires p.found != []
    ensures StrictlySorted(r.candidates) && r.candidates != []
    ensures forall b :: b in r.candidates <==> b in p.found
    ensures |r.candidates| == 1 ==> r.brand == r.candidates[0]
    ensures |r.candidates| >= 2 ==> r.brand == Mixed
  {
    var candidates := SortedDistinct(p.found);
    assert p.found[0] in candidates;
    BrandResult(if |candidates| == 1 then candidates[0] else Mixed, candidates, Join(p.reasons, ", "))
  }

  /** A single found brand is returned without its candidate list, where the intended result lists it. */
  lemma SingleBrandCandidates(p: Pass)
    requires p.found != [] && OnlyBrand(p.found, p.found[0])
    ensures Decided(p).brand == DecidedIntended(p).brand == p.found[0]
    ensures Decided(p).candidates == [] && DecidedIntended(p).candidates == [p.found[0]]
  {
    var c := DecidedIntended(p).candidates;
    if |c| >= 2 {
      assert c[0] in p.found && c[1] in p.found;
      LessIrreflexive(c[0]);
    }
    assert c[0] in p.found;
  }

  /** With two or more distinct brands the code and its intent agree. */
  lemma SeveralBrandsAgree(p: Pass)
    requires p.found != [] && !OnlyBrand(p.found, p.found[0])
    ensures Decided(p) == DecidedIntended(p)
  {
    var x :| x in p.found && x != p.found[0];
    var c := SortedDistinct(p.found);
    assert x in c && p.found[0] in c;
    assert |c| != 1;
  }

  /** `extract_brand_from_row`. */
  function BrandFromRow(row: Row, m: AliasMap, keys: seq<string>, score: (string, string) -> int): (r: BrandResult)
    ensures StrictlySorted(r.candidates)
    ensures r.candidates != [] ==> |r.candidates| >= 2 && r.brand == Mixed
    ensures r.brand == Undetermined ==> r.candidates == []
  {
    var exact := ExactPass(SearchFields(row), m);
    if exact.found != [] then Decided(exact)
    else
      match FuzzyPass(FuzzyFields(row), m, keys, score, exact)
      case None => BrandResult(Undetermined, [], "")
      case Some(p) =>
        if p.found == [] then
          assert p.reasons == [];
          BrandResult(Undetermined, [], Join(p.reasons, ", "))
        else Decided(p)
  }

  /** The intended `extract_brand_from_row`: `DecidedIntended` in place of `Decided`. */
  function BrandFromRowIntended(row: Row, m: AliasMap, keys: seq<string>, score: (string, string) -> int): (r: BrandResult)
    ensures StrictlySorted(r.candidates)
    ensures r.candidates == [] ==> r.brand == Undetermined && r.reasons == ""
    ensures |r.candidates| == 1 ==> r.brand == r.candidates[0]
    ensures |r.candidates| >= 2 ==> r.brand == Mixed
  {
    var exact := ExactPass(SearchFields(row), m);
    if exact.found != [] then DecidedIntended(exact)
    else
      match FuzzyPass(FuzzyFields(row), m, keys, score, exact)
      case None => BrandResult(Undetermined, [], "")
      case Some(p) =>
        if p.found == [] then
          assert p.reasons == [];
          BrandResult(Undetermined, [], Join(p.reasons, ", "))
        else DecidedIntended(p)
  }

  /**
   * When the exact pass finds a brand, the fuzzy pass does not run: the scorer is never
   * consulted and the exact hits alone decide the result.
   */
  lemma ExactHitSkipsFuzzy(row: Row, m: AliasMap, keys: seq<string>, s1: (string, string) -> int, s2: (string, string) -> int)
    requires ExactPass(SearchFields(row), m).found != []
    ensures BrandFromRow(row, m, keys, s1) == BrandFromRow(row, m, keys, s2)
    ensures BrandFromRow(row, m, keys, s1) == Decided(ExactPass(SearchFields(row), m))
  {
  }

  /**
   * Without an exact hit the fuzzy hits decide; when the fuzzy pass finds nothing or
   * meets a missing key, the row is "не определено" with no candidates and no reasons.
   */
  lemma NoExactHit(row: Row, m: AliasMap, keys: seq<string>, score: (string, string) -> int)
    requires ExactPass(SearchFields(row), m).found == []
    ensures var q := FuzzyPass(FuzzyFields(row), m, keys, score, ExactPass(SearchFields(row), m));
      BrandFromRow(row, m, keys, score) ==
        if q.Some? && q.value.found != [] then Decided(q.value) else BrandResult(Undetermined, [], "")
  {
  }

  /** With the fuzzy keys `assign_brands` derives from the table, the error result never occurs. */
  lemma AssignedKeysNeverFail(row: Row, m: AliasMap, score: (string, string) -> int)
    ensures FuzzyPass(FuzzyFields(row), m, FuzzyKeys(Keys(m)), score, ExactPass(SearchFields(row), m)).Some?
  {
    FuzzyPassNeverMisses(FuzzyFields(row), m, score, ExactPass(SearchFields(row), m));
  }

  /** The exact pass of `extract_brand_from_row`. */
  method ExactPassLoop(fields: seq<Field>, m: AliasMap) returns (found: seq<string>, reasons: seq<string>)
    ensures Pass(found, reasons) == ExactPass(fields, m)
  {
    found, reasons := [], [];
    for i := 0 to |fields|
      invariant Pass(found, reasons) == ExactPass(fields[..i], m)
    {
      var field := fields[i];
      ExactPassSnoc(fields[..i], field, m);
      assert fields[..i + 1] == fields[..i] + [field];
      if field.value.Some? {
        found, reasons := ExactFieldLoop(Clip(Lower(field.value.value)), field.name, m, found, reasons);
      }
    }
    assert fields[..|fields|] == fields;
  }

  lemma ExactPassSnoc(fields: seq<Field>, f: Field, m: AliasMap)
    ensures ExactPass(fields + [f], m) ==
      if f.value.Some? then AddHits(ExactPass(fields, m), f.name, ExactHits(Clip(Lower(f.value.value)), m))
      else ExactPass(fields, m)
  {
    assert (fields + [f])[..|fields|] == fields;
  }

  /** The loop of the exact pass over the alias table, for one field. */
  method ExactFieldLoop(v: string, name: string, m: AliasMap, found0: seq<string>, reasons0: seq<string>)
    returns (found: seq<string>, reasons: seq<string>)
    ensures Pass(found, reasons) == AddHits(Pass(found0, reasons0), name, ExactHits(v, m))
  {
    found, reasons := found0, reasons0;
    for j := 0 to |m|
      invariant Pass(found, reasons) == AddHits(Pass(found0, reasons0), name, ExactHits(v, m[..j]))
    {
      assert m[..j + 1][..j] == m[..j];
      if AllWordsFound(v, m[j].alias) {
        AddHitsSnoc(Pass(found0, reasons0), name, ExactHits(v, m[..j]), m[j].brand);
        found := found + [m[j].brand];
        reasons := reasons + [name];
      }
    }
    assert m[..|m|] == m;
  }

  /** The fuzzy pass of `extract_brand_from_row`; `ok` is false on a missing key. */
  method FuzzyPassLoop(fields: seq<Field>, m: AliasMap, keys: seq<string>, score: (string, string) -> int,
                       start: Pass) returns (ok: bool, found: seq<string>, reasons: seq<string>)
    ensures ok <==> FuzzyPass(fields, m, keys, score, start).Some?
    ensures ok ==> Pass(found, reasons) == FuzzyPass(fields, m, keys, score, start).value
  {
    found, reasons := start.found, start.reasons;
    for i := 0 to |fields|
      invariant FuzzyPass(fields[..i], m, keys, score, start) == Some(Pass(found, reasons))
    {
      FuzzyPassStep(fields, m, keys, score, start, i);
      var field := fields[i];
      if field.value.Some? {
        var tokens := LongTokens(Lower(field.value.value));
        ghost var before := Pass(found, reasons);
        for j := 0 to |tokens|
          invariant FuzzyHits(tokens[..j], m, keys, score).Some?
          invariant Pass(found, reasons) == AddHits(before, field.name, FuzzyHits(tokens[..j], m, keys, score).value)
        {
          FuzzyHitsStep(tokens, m, keys, score, j);
          var token := tokens[j];
          var threshold := AdaptiveThreshold(token);
          var result := ExtractOne(token, keys, threshold, score);
          if result.Some? {
            var brand := Lookup(m, result.value);
            if brand.None? {
              FuzzyPassFails(fields, m, keys, score, start, i, tokens[..j + 1]);
              return false, found, reasons;
            }
            AddHitsSnoc(before, field.name, FuzzyHits(tokens[..j], m, keys, score).value, brand.value);
            found := found + [brand.value];
            reasons := reasons + [field.name];
          }
        }
        assert tokens[..|tokens|] == tokens;
      }
    }
    assert fields[..|fields|] == fields;
    ok := true;
  }

  /** One more field is one more step of the fuzzy pass. */
  lemma FuzzyPassStep(fields: seq<Field>, m: AliasMap, keys: seq<string>, score: (string, string) -> int,
                      start: Pass, i: nat)
    requires i < |fields|
    ensures var p, f := FuzzyPass(fields[..i], m, keys, score, start), fields[i];
      FuzzyPass(fields[..i + 1], m, keys, score, start) ==
        if p.None? then None
        else if f.value.None? then p
        else
          var hits := FuzzyHits(LongTokens(Lower(f.value.value)), m, keys, score);
          if hits.None? then None else Some(AddHits(p.value, f.name, hits.value))
  {
    assert fields[..i + 1][..i] == fields[..i];
  }

  /** One more token is one more step of the fuzzy hits. */
  lemma FuzzyHitsStep(tokens: seq<string>, m: AliasMap, keys: seq<string>, score: (string, string) -> int, j: nat)
    requires j < |tokens|
    ensures var h, t := FuzzyHits(tokens[..j], m, keys, score), tokens[j];
      var k := ExtractOne(t, keys, AdaptiveThreshold(t), score);
      FuzzyHits(tokens[..j + 1], m, keys, score) ==
        if h.None? then None
        else if k.None? then h
        else if Lookup(m, k.value).None? then None
        else Some(h.value + [Lookup(m, k.value).value])
  {
    assert tokens[..j + 1][..j] == tokens[..j];
  }

  /** A missing key in the tokens of one field makes the whole fuzzy pass fail. */
  lemma FuzzyPassFails(fields: seq<Field>, m: AliasMap, keys: seq<string>, score: (string, string) -> int,
                       start: Pass, i: nat, prefix: seq<string>)
    requires i < |fields| && fields[i].value.Some?
    requires prefix <= LongTokens(Lower(fields[i].value.value))
    requires FuzzyHits(prefix, m, keys, score).None?
    ensures FuzzyPass(fields, m, keys, score, start).None?
  {
    FuzzyHitsFailPrefix(LongTokens(Lower(fields[i].value.value)), m, keys, score, prefix);
    FuzzyPassFailsFrom(fields, m, keys, score, start, i + 1);
  }

  /** A failure on a prefix of the tokens is a failure on all of them. */
  lemma {:induction false} FuzzyHitsFailPrefix(tokens: seq<string>, m: AliasMap, keys: seq<string>,
                                               score: (string, string) -> int, prefix: seq<string>)
    requires prefix <= tokens && FuzzyHits(prefix, m, keys, score).None?
    ensures FuzzyHits(tokens, m, keys, score).None?
    decreases |tokens|
  {
    if |tokens| > |prefix| {
      assert prefix <= tokens[..|tokens| - 1];
      FuzzyHitsFailPrefix(tokens[..|tokens| - 1], m, keys, score, prefix);
    } else {
      assert prefix == tokens;
    }
  }

  /** If the field at `n - 1` fails, the pass over `fields[..n]` and all longer prefixes fails. */
  lemma {:induction false} FuzzyPassFailsFrom(fields: seq<Field>, m: AliasMap, keys: seq<string>,
                                              score: (string, string) -> int, start: Pass, n: nat)
    requires 0 < n <= |fields| && fields[n - 1].value.Some?
    requires FuzzyHits(LongTokens(Lower(fields[n - 1].value.value)), m, keys, score).None?
    ensures FuzzyPass(fields, m, keys, score, start).None?
    decreases |fields|
  {
    if |fields| > n {
      FuzzyPassFailsFrom(fields[..|fields| - 1], m, keys, score, start, n);
    } else {
      assert fields[..|fields| - 1] + [fields[n - 1]] == fields;
    }
  }

  /**
   * `extract_brand_from_row`: the exact pass, and only when it finds nothing, the
   * fuzzy pass; a missing key gives the error result of the `except` branch.
   */
  method ExtractBrandFromRow(row: Row, m: AliasMap, keys: seq<string>, score: (string, string) -> int)
    returns (res: BrandResult)
    ensures res == BrandFromRow(row, m, keys, score)
  {
    var found, reasons := ExactPassLoop(SearchFields(row), m);
    if found != [] {
      res := DecideFound(found, reasons);
      return;
    }
    var ok;
    ok, found, reasons := FuzzyPassLoop(FuzzyFields(row), m, keys, score, Pass(found, reasons));
    if !ok {
      return BrandResult(Undetermined, [], "");
    }
    if found == [] {
      return BrandResult(Undetermined, [], Join(reasons, ", "));
    }
    res := DecideFound(found, reasons);
  }

  /**
   * The `return` of a pass that found something: `found.pop()` is evaluated first, and
   * for a single brand it leaves the set empty for `sorted(found)`.
   */
  method DecideFound(found: seq<string>, reasons: seq<string>) returns (res: BrandResult)
    requires found != []
    ensures res == Decided(Pass(found, reasons))
  {
    var brands := SortedDistinct(found);
    if |brands| == 1 {
      var brand := brands[0];
      brands := [];
      res := BrandResult(brand, brands, Join(reasons, ", "));
    } else {
      res := BrandResult(Mixed, brands, Join(reasons, ", "));
    }
  }

  // ---------------------------------------------------------------------------
  // The columns of `assign_brands`
  // ---------------------------------------------------------------------------

  /** `brand_extracted`, `brand_candidates`, `brand_mixed`, `brand_column_reason`. */
  datatype BrandColumns = BrandColumns(extracted: string, candidates: string, mixed: bool, columnReason: string)

  function Columns(r: BrandResult): (c: BrandColumns)
    ensures c.mixed <==> c.extracted == Mixed
    ensures c.extracted == r.brand && c.columnReason == r.reasons
    ensures r.candidates == [] ==> c.candidates == ""
    ensures |r.candidates| == 1 ==> c.candidates == r.candidates[0]
    ensures c.candidates == Join(r.candidates, ", ")
  {
    BrandColumns(r.brand, if r.candidates != [] then Join(r.candidates, ", ") else "", r.brand == Mixed, r.reasons)
  }

  /** `assign_brands`: every row gets its columns, with the fuzzy keys taken from the table. */
  function AssignBrands(rows: seq<Row>, m: AliasMap, score: (string, string) -> int): (r: seq<BrandColumns>)
    ensures |r| == |rows|
    ensures forall i :: 0 <= i < |rows| ==> r[i] == Columns(BrandFromRow(rows[i], m, FuzzyKeys(Keys(m)), score))
  {
    var keys := FuzzyKeys(Keys(m));
    seq(|rows|, i requires 0 <= i < |rows| => Columns(BrandFromRow(rows[i], m, keys, score)))
  }

  /**
   * A row with candidates is mixed and lists two or more of them; a row that is not
   * mixed, a single brand among them, leaves `brand_candidates` empty.
   */
  lemma AssignedMixed(rows: seq<Row>, m: AliasMap, score: (string, string) -> int, i: nat)
    requires i < |rows|
    ensures var r, c := BrandFromRow(rows[i], m, FuzzyKeys(Keys(m)), score), AssignBrands(rows, m, score)[i];
      (r.candidates != [] ==> c.mixed && |r.candidates| >= 2) && (!c.mixed ==> c.candidates == "")
  {
  }

  /** A row whose exact pass finds one brand only is labelled with it and gets no candidates. */
  lemma AssignedSingleBrand(rows: seq<Row>, m: AliasMap, score: (string, string) -> int, i: nat, b: string)
    requires i < |rows|
    requires OnlyBrand(ExactPass(SearchFields(rows[i]), m).found, b)
    ensures AssignBrands(rows, m, score)[i].extracted == b
    ensures AssignBrands(rows, m, score)[i].candidates == ""
  {
    var found := ExactPass(SearchFields(rows[i]), m).found;
    assert found[0] in found;
    ExactHitSkipsFuzzy(rows[i], m, FuzzyKeys(Keys(m)), score, score);
  }
}
