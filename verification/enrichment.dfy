/**
 * The enrichment step: country names brought to one Russian spelling, suspect
 * companies flagged from their share of excluded records, the manual blacklist
 * applied, and over-long HS codes cut by one character.
 *
 * A data frame is a map from column names to columns of equal height. A cell is a
 * string, a number, a boolean or missing (pandas' `NaN`); pandas compares a missing
 * cell unequal to everything.
 */
module Enrichment {
  import opened Wrappers
  import opened Text

  datatype Value = Text(s: string) | Number(n: int) | Flag(b: bool) | Missing

  type Table = map<string, seq<Value>>

  /** Every column has `n` rows. */
  predicate Rectangular(t: Table, n: nat) {
    forall c :: c in t ==> |t[c]| == n
  }

  // ---------------------------------------------------------------------------
  // `unify_country_names`
  // ---------------------------------------------------------------------------

  /** `country_mapping`, in the order written, in six parts; its keys are distinct. */
  const CountryMapping: seq<(string, string)> :=
    CountriesA + CountriesB + CountriesC + CountriesD + CountriesE + CountriesF

  const CountriesA: seq<(string, string)> := [
    ("AM - АРМЕНИЯ", "Армения"), ("Armenia", "Армения"), ("Azerbaijan", "Азербайджан"),
    ("Belarus", "Беларусь"), ("BY - БЕЛАРУСЬ", "Беларусь"), ("DE - ГЕРМАНИЯ", "Германия"),
    ("Germany", "Германия"), ("Georgia", "Грузия"), ("IT - ИТАЛИЯ", "Италия"),
    ("Italy", "Италия"), ("Kazakhstan", "Казахстан"), ("KZ - КАЗАХСТАН", "Казахстан"),
    ("KG - КИРГИЗИЯ", "Кыргызстан"), ("KG - КЫРГЫЗСТАН", "Кыргызстан"), ("Kyrgyzstan", "Кыргызстан"),
    ("Mongolia", "Монголия"), ("PA - ПАНАМА", "Панама"), ("Panama", "Панама"),
    ("RU - РОССИЯ", "Россия"), ("Russian Federation", "Россия"), ("Tajikistan", "Таджикистан"),
    ("TJ - ТАДЖИКИСТАН", "Таджикистан"), ("Uzbekistan", "Узбекистан"), ("Argentina", "Аргентина"),
    ("AR - АРГЕНТИНА", "Аргентина"), ("Australia", "Австралия")
  ]

  const CountriesB: seq<(string, string)> := [
    ("Austria", "Австрия"), ("AT - АВСТРИЯ", "Австрия"), ("Bahrain", "Бахрейн"),
    ("Belgium", "Бельгия"), ("BE - БЕЛЬГИЯ", "Бельгия"), ("Bolivia", "Боливия"),
    ("Brazil", "Бразилия"), ("BR - БРАЗИЛИЯ", "Бразилия"), ("Bulgaria", "Болгария"),
    ("BG - БОЛГАРИЯ", "Болгария"), ("Canada", "Канада"), ("China", "Китай"),
    ("CN - КИТАЙ", "Китай"), ("Colombia", "Колумбия"), ("Costa Rica", "Коста-Рика"),
    ("Croatia", "Хорватия"), ("HR - ХОРВАТИЯ", "Хорватия"), ("Cyprus", "Кипр"),
    ("Czech Republic", "Чехия"), ("CZ - ЧЕХИЯ", "Чехия"), ("Denmark", "Дания"),
    ("DK - ДАНИЯ", "Дания"), ("Egypt", "Египет"), ("Estonia", "Эстония"),
    ("EE - ЭСТОНИЯ", "Эстония"), ("Finland", "Финляндия")
  ]

  const CountriesC: seq<(string, string)> := [
    ("FI - ФИНЛЯНДИЯ", "Финляндия"), ("France", "Франция"), ("FR - ФРАНЦИЯ", "Франция"),
    ("Greece", "Греция"), ("GR - ГРЕЦИЯ", "Греция"), ("Hong Kong", "Гонконг"),
    ("Hungary", "Венгрия"), ("HU - ВЕНГРИЯ", "Венгрия"), ("India", "Индия"),
    ("IN - ИНДИЯ", "Индия"), ("Indonesia", "Индонезия"), ("ID - ИНДОНЕЗИЯ", "Индонезия"),
    ("Iran", "Иран"), ("IR - ИРАН (ИСЛАМСКАЯ РЕСПУБЛИКА)", "Иран"), ("Ireland", "Ирландия"),
    ("IE - ИРЛАНДИЯ", "Ирландия"), ("Israel", "Израиль"), ("IL - ИЗРАИЛЬ", "Израиль"),
    ("Japan", "Япония"), ("JP - ЯПОНИЯ", "Япония"), ("Latvia", "Латвия"),
    ("LV - ЛАТВИЯ", "Латвия"), ("Lebanon", "Ливан"), ("Liechtenstein", "Лихтенштейн"),
    ("Lithuania", "Литва"), ("LT - ЛИТВА", "Литва")
  ]

  const CountriesD: seq<(string, string)> := [
    ("Luxembourg", "Люксембург"), ("Macedonia", "Северная Македония"), ("Malaysia", "Малайзия"),
    ("MY - МАЛАЙЗИЯ", "Малайзия"), ("Malta", "Мальта"), ("Mauritius", "Маврикий"),
    ("Mexico", "Мексика"), ("MX - МЕКСИКА", "Мексика"), ("Moldova", "Молдова"),
    ("Morocco", "Марокко"), ("MA - МАРОККО", "Марокко"), ("Netherlands", "Нидерланды"),
    ("NL - НИДЕРЛАНДЫ", "Нидерланды"), ("НИДЕРЛАНДЫ, КОРОЛЕВСТВО", "Нидерланды"), ("New Zealand", "Новая Зеландия"),
    ("Norway", "Норвегия"), ("NO - НОРВЕГИЯ", "Норвегия"), ("Peru", "Перу"),
    ("Philippines", "Филиппины"), ("PH - ФИЛИППИНЫ", "Филиппины"), ("Poland", "Польша"),
    ("PL - ПОЛЬША", "Польша"), ("Portugal", "Португалия"), ("PT - ПОРТУГАЛИЯ", "Португалия"),
    ("Qatar", "Катар"), ("Romania", "Румыния")
  ]

  const CountriesE: seq<(string, string)> := [
    ("RO - РУМЫНИЯ", "Румыния"), ("Serbia", "Сербия"), ("RS - СЕРБИЯ", "Сербия"),
    ("Seychelles", "Сейшельские Острова"), ("Singapore", "Сингапур"), ("SG - СИНГАПУР", "Сингапур"),
    ("Slovakia", "Словакия"), ("SK - СЛОВАКИЯ", "Словакия"), ("Slovenia", "Словения"),
    ("SI - СЛОВЕНИЯ", "Словения"), ("South African Republic", "Южно-Африканская Республика"), ("ZA - ЮЖНАЯ АФРИКА", "Южно-Африканская Республика"),
    ("ZA - ЮЖНАЯАФРИКА", "Южно-Африканская Республика"), ("South Korea", "Южная Корея"), ("KR - КОРЕЯ, РЕСПУБЛИКА", "Южная Корея"),
    ("Spain", "Испания"), ("ES - ИСПАНИЯ", "Испания"), ("Sweden", "Швеция"),
    ("SE - ШВЕЦИЯ", "Швеция"), ("Switzerland", "Швейцария"), ("CH - ШВЕЙЦЕРИЯ", "Швейцария"),
    ("Taiwan", "Тайвань"), ("TW - КИТАЙСКАЯ ПРОВИНЦИЯ ТАЙВАНЬ", "Тайвань"), ("TW - ТАЙВАНЬ (КИТАЙ)", "Тайвань"),
    ("Thailand", "Таиланд"), ("TH - ТАИЛАНД", "Таиланд")
  ]

  const CountriesF: seq<(string, string)> := [
    ("Turkiye", "Турция"), ("TR - ТУРЦИЯ", "Турция"), ("Turkmenistan", "Туркменистан"),
    ("Ukraine", "Украина"), ("UA - УКРАИНА", "Украина"), ("United Arab Emirates", "Объединенные Арабские Эмираты"),
    ("United Kingdom", "Великобритания"), ("GB - СОЕДИНЕННОЕ КОРОЛЕВСТВО", "Великобритания"), ("United States", "США"),
    ("US - СОЕДИНЕННЫЕ ШТАТЫ", "США"), ("Viet Nam", "Вьетнам"), ("VN - ВЬЕТНАМ", "Вьетнам"),
    ("Andorra", "Андорра"), ("Bosnia And Herzegovina", "Босния и Герцеговина"), ("Dominica", "Доминика"),
    ("Dominican Republic", "Доминиканская Республика"), ("DZ - АЛЖИР", "Алжир"), ("EC - ЭКВАДОР", "Эквадор"),
    ("EU - СТРАНЫ ЕВРОСОЮЗА", "Страны Евросоюза"), ("Honduras", "Гондурас"), ("MO - МАКАО", "Макао"),
    ("RW - РУАНДА", "Руанда"), ("Saudi Arabia", "Саудовская Аравия"), ("Sierra Leone", "Сьерра-Леоне"),
    ("Tunisia", "Тунис")
  ]

  /** `mapping.get(x)` on a table with distinct keys: the value paired with `x`. */
  function MappedName(mapping: seq<(string, string)>, x: string): (r: Option<string>)
    ensures r.Some? ==> exists i :: 0 <= i < |mapping| && mapping[i] == (x, r.value)
    ensures r.None? <==> forall i :: 0 <= i < |mapping| ==> mapping[i].0 != x
    decreases |mapping|
  {
    if mapping == [] then None
    else if mapping[0].0 == x then Some(mapping[0].1)
    else
      var r := MappedName(mapping[1..], x);
      assert forall i :: 0 < i < |mapping| ==> mapping[i] == mapping[1..][i - 1];
      r
  }

  /** No value of the mapping is also one of its keys. */
  predicate NoValueIsKey(mapping: seq<(string, string)>) {
    forall i, j :: 0 <= i < |mapping| && 0 <= j < |mapping| ==> mapping[i].1 != mapping[j].0
  }

  /** The cell function of `unify_country_names`: a mapped string is replaced, all else is kept. */
  function UnifyCell(mapping: seq<(string, string)>, v: Value): (r: Value)
    ensures v.Text? && MappedName(mapping, v.s).Some? ==> r == Text(MappedName(mapping, v.s).value)
    ensures !v.Text? || MappedName(mapping, v.s).None? ==> r == v
  {
    match v
    case Text(s) => (match MappedName(mapping, s) case Some(c) => Text(c) case None => v)
    case _ => v
  }

  /** Unifying a cell twice is unifying it once, when no value of the mapping is a key. */
  lemma UnifyCellIdempotent(mapping: seq<(string, string)>, v: Value)
    requires NoValueIsKey(mapping)
    ensures UnifyCell(mapping, UnifyCell(mapping, v)) == UnifyCell(mapping, v)
  {
    if v.Text? && MappedName(mapping, v.s).Some? {
      var i :| 0 <= i < |mapping| && mapping[i] == (v.s, MappedName(mapping, v.s).value);
      assert forall j :: 0 <= j < |mapping| ==> mapping[j].0 != mapping[i].1;
    }
  }

  /** `df[col].apply(...)`: the cell function on every row. */
  function UnifyColumn(mapping: seq<(string, string)>, col: seq<Value>): (r: seq<Value>)
    ensures |r| == |col|
    ensures forall i :: 0 <= i < |col| ==> r[i] == UnifyCell(mapping, col[i])
  {
    seq(|col|, i requires 0 <= i < |col| => UnifyCell(mapping, col[i]))
  }

  lemma UnifyColumnIdempotent(mapping: seq<(string, string)>, col: seq<Value>)
    requires NoValueIsKey(mapping)
    ensures UnifyColumn(mapping, UnifyColumn(mapping, col)) == UnifyColumn(mapping, col)
  {
    forall i | 0 <= i < |col| ensures UnifyCell(mapping, UnifyCell(mapping, col[i])) == UnifyCell(mapping, col[i]) {
      UnifyCellIdempotent(mapping, col[i]);
    }
  }

  /**
   * The frame after the loop over `columns`: each present column is unified, once
   * however often it is listed, and the absent ones are skipped.
   */
  function Unified(t: Table, columns: seq<string>, mapping: seq<(string, string)>): (r: Table)
    requires NoValueIsKey(mapping)
    ensures r.Keys == t.Keys
    ensures forall c :: c in t && c in columns ==> r[c] == UnifyColumn(mapping, t[c])
    ensures forall c :: c in t && c !in columns ==> r[c] == t[c]
    decreases |columns|
  {
    if columns == [] then t
    else
      var prev := Unified(t, columns[..|columns| - 1], mapping);
      var c := columns[|columns| - 1];
      assert forall d :: d in columns <==> d in columns[..|columns| - 1] || d == c;
      if c in prev then
        UnifyColumnIdempotent(mapping, t[c]);
        prev[c := UnifyColumn(mapping, prev[c])]
      else prev
  }

  /** Unifying the same columns a second time changes nothing. */
  lemma UnifiedIdempotent(t: Table, columns: seq<string>, mapping: seq<(string, string)>)
    requires NoValueIsKey(mapping)
    ensures Unified(Unified(t, columns, mapping), columns, mapping) == Unified(t, columns, mapping)
  {
    var once := Unified(t, columns, mapping);
    var twice := Unified(once, columns, mapping);
    forall c | c in t && c in columns ensures twice[c] == once[c] {
      UnifyColumnIdempotent(mapping, t[c]);
    }
  }

  /** The frame whose columns `unify_country_names` reassigns in place. */
  class Frame {
    var columns: Table

    constructor(t: Table)
      ensures columns == t
    {
      columns := t;
    }

    /** `unify_country_names(df, columns_to_process)`, with the mapping as a parameter. */
    method UnifyCountryNamesWith(toProcess: seq<string>, mapping: seq<(string, string)>)
      requires NoValueIsKey(mapping)
      modifies this
      ensures columns == Unified(old(columns), toProcess, mapping)
    {
      ghost var start := columns;
      for k := 0 to |toProcess|
        invariant columns == Unified(start, toProcess[..k], mapping)
      {
        var c := toProcess[k];
        assert toProcess[..k + 1][..k] == toProcess[..k];
        if c in columns {
          columns := columns[c := UnifyColumn(mapping, columns[c])];
        }
      }
      assert toProcess[..|toProcess|] == toProcess;
    }

    /** `unify_country_names(df, columns_to_process)`. */
    method UnifyCountryNames(toProcess: seq<string>)
      modifies this
      ensures NoValueIsKey(CountryMapping)
      ensures columns == Unified(old(columns), toProcess, CountryMapping)
    {
      CountryMappingNoValueIsKey();
      UnifyCountryNamesWith(toProcess, CountryMapping);
    }
  }

  /** Every key of the country mapping starts with a Latin capital or has `И` second. */
  predicate CountryKeyShape(k: string) {
    |k| > 1 && (IsAsciiUpper(k[0]) || k[1] == 'И')
  }

  /** Every value of the country mapping starts with a Cyrillic capital and has no `И` second. */
  predicate CountryValueShape(v: string) {
    |v| > 1 && 'А' <= v[0] <= 'Я' && v[1] != 'И'
  }

  /** Every key of `part` has the key shape and every value the value shape. */
  predicate Shaped(part: seq<(string, string)>) {
    forall i :: 0 <= i < |part| ==> CountryKeyShape(part[i].0) && CountryValueShape(part[i].1)
  }

  lemma CountriesAShaped()
    ensures Shaped(CountriesA)
  {
  }

  lemma CountriesBShaped()
    ensures Shaped(CountriesB)
  {
  }

  lemma CountriesCShaped()
    ensures Shaped(CountriesC)
  {
  }

  lemma CountriesDShaped()
    ensures Shaped(CountriesD)
  {
  }

  lemma CountriesEShaped()
    ensures Shaped(CountriesE)
  {
  }

  lemma CountriesFShaped()
    ensures Shaped(CountriesF)
  {
  }

  /** Shaped tables have no value that is a key. */
  lemma ShapedNoValueIsKey(m: seq<(string, string)>)
    requires Shaped(m)
    ensures NoValueIsKey(m)
  {
    forall i, j | 0 <= i < |m| && 0 <= j < |m| ensures m[i].1 != m[j].0 {
      assert CountryValueShape(m[i].1) && CountryKeyShape(m[j].0);
    }
  }

  /** No mapped country name is itself a key of `country_mapping`. */
  lemma CountryMappingNoValueIsKey()
    ensures NoValueIsKey(CountryMapping)
  {
    CountriesAShaped();
    CountriesBShaped();
    CountriesCShaped();
    CountriesDShaped();
    CountriesEShaped();
    CountriesFShaped();
    var m := CountriesA + CountriesB + CountriesC + CountriesD + CountriesE + CountriesF;
    assert Shaped(m);
    ShapedNoValueIsKey(m);
  }

  // ---------------------------------------------------------------------------
  // `truncate_long_prod_hsc`
  // ---------------------------------------------------------------------------

  const HscColumn: string := "prod_hsc"
  /** HS codes longer than this lose their last character. */
  const HscMaxLength: nat := 10

  /** The cell function: a string longer than ten characters loses its last one. */
  function TruncateCell(v: Value): (r: Value)
    ensures v.Text? && |v.s| > HscMaxLength ==> r.Text? && |r.s| == |v.s| - 1 && r.s == v.s[..|r.s|]
    ensures !(v.Text? && |v.s| > HscMaxLength) ==> r == v
  {
    if v.Text? && |v.s| > HscMaxLength then Text(v.s[..|v.s| - 1]) else v
  }

  /** `truncate_long_prod_hsc`: a copy of the frame with the cell function on `prod_hsc`, if present. */
  function TruncateLongProdHsc(t: Table): (r: Table)
    ensures r.Keys == t.Keys
    ensures forall c :: c in t && c != HscColumn ==> r[c] == t[c]
    ensures HscColumn in t ==> |r[HscColumn]| == |t[HscColumn]|
    ensures HscColumn in t ==> forall i :: 0 <= i < |t[HscColumn]| ==> r[HscColumn][i] == TruncateCell(t[HscColumn][i])
  {
    if HscColumn in t then
      t[HscColumn := seq(|t[HscColumn]|, i requires 0 <= i < |t[HscColumn]| => TruncateCell(t[HscColumn][i]))]
    else t
  }

  /** A second pass changes a cell exactly when it held a string of twelve or more characters. */
  lemma TruncateTwice(v: Value)
    ensures TruncateCell(TruncateCell(v)) == TruncateCell(v) <==> !(v.Text? && |v.s| > HscMaxLength + 1)
  {
    if v.Text? && |v.s| > HscMaxLength + 1 {
      assert |TruncateCell(TruncateCell(v)).s| == |v.s| - 2;
    }
  }

  // ---------------------------------------------------------------------------
  // `flag_suspect_companies`
  // ---------------------------------------------------------------------------

  const ImporterColumn: string := "importer_name"
  const ExporterColumn: string := "exporter_name"
  const ClassificationColumn: string := "classification"
  /** The classification label of a rejected record. */
  const ExcludedLabel: string := "исключено"
  /** `min_records`' default. */
  const MinRecords: nat := 10

  /**
   * The loop's `['importer_name', 'exporter_name']`, each with its flag column
   * `f'is_bad_{entity.split("_")[0]}'` written out.
   */
  const SuspectEntities: seq<(string, string)> :=
    [(ImporterColumn, BadImporterColumn), (ExporterColumn, BadExporterColumn)]
  const BadImporterColumn: string := "is_bad_importer"
  const BadExporterColumn: string := "is_bad_exporter"

  /**
   * The rows of company `c` that `value_counts` counts: those whose classification
   * is present. A missing company is no group at all.
   */
  function Total(names: seq<Value>, classes: seq<Value>, c: Value): (n: nat)
    requires |names| == |classes|
    ensures n <= |names|
    decreases |names|
  {
    if names == [] then 0
    else Total(names[1..], classes[1..], c) + (if names[0] == c && !classes[0].Missing? then 1 else 0)
  }

  /** The rows of company `c` classified as excluded. */
  function ExcludedCount(names: seq<Value>, classes: seq<Value>, c: Value): (n: nat)
    requires |names| == |classes|
    ensures n <= Total(names, classes, c)
    decreases |names|
  {
    if names == [] then 0
    else ExcludedCount(names[1..], classes[1..], c) + (if names[0] == c && classes[0] == Text(ExcludedLabel) then 1 else 0)
  }

  /**
   * `total >= min_records and excluded_ratio > 0.9`, the ratio compared without
   * division: `excluded / total > 9 / 10` is `10 * excluded > 9 * total`.
   */
  predicate Suspect(names: seq<Value>, classes: seq<Value>, c: Value, minRecords: nat)
    requires |names| == |classes|
  {
    !c.Missing? && Total(names, classes, c) >= minRecords &&
    10 * ExcludedCount(names, classes, c) > 9 * Total(names, classes, c)
  }

  /** `df[entity].isin(suspects)`: one flag per row. */
  function SuspectColumn(names: seq<Value>, classes: seq<Value>, minRecords: nat): (r: seq<Value>)
    requires |names| == |classes|
    ensures |r| == |names|
    ensures forall i :: 0 <= i < |names| ==> r[i] == Flag(Suspect(names, classes, names[i], minRecords))
  {
    seq(|names|, i requires 0 <= i < |names| => Flag(Suspect(names, classes, names[i], minRecords)))
  }

  /** Every row of one company carries the same flag. */
  lemma SameCompanySameFlag(names: seq<Value>, classes: seq<Value>, minRecords: nat, i: nat, j: nat)
    requires |names| == |classes| && i < |names| && j < |names| && names[i] == names[j]
    ensures SuspectColumn(names, classes, minRecords)[i] == SuspectColumn(names, classes, minRecords)[j]
  {
  }

  /** With at least ten records, a flagged company has at least ten excluded ones. */
  lemma SuspectHasTenExclusions(names: seq<Value>, classes: seq<Value>, c: Value, minRecords: nat)
    requires |names| == |classes| && minRecords >= MinRecords
    requires Suspect(names, classes, c, minRecords)
    ensures ExcludedCount(names, classes, c) >= MinRecords
  {
  }

  /** A company with no present classification, or with none excluded, is never flagged. */
  lemma {:induction false} NoExclusionsNoFlag(names: seq<Value>, classes: seq<Value>, c: Value, minRecords: nat)
    requires |names| == |classes|
    requires forall i :: 0 <= i < |names| && names[i] == c ==> classes[i] != Text(ExcludedLabel)
    ensures !Suspect(names, classes, c, minRecords)
  {
    ExcludedNone(names, classes, c);
  }

  lemma {:induction false} ExcludedNone(names: seq<Value>, classes: seq<Value>, c: Value)
    requires |names| == |classes|
    requires forall i :: 0 <= i < |names| && names[i] == c ==> classes[i] != Text(ExcludedLabel)
    ensures ExcludedCount(names, classes, c) == 0
    decreases |names|
  {
    if names != [] {
      assert forall i :: 0 <= i < |names| - 1 ==> names[1..][i] == names[i + 1] && classes[1..][i] == classes[i + 1];
      ExcludedNone(names[1..], classes[1..], c);
    }
  }

  /** The frame after the first `k` rounds of the loop over the entities. */
  function FlaggedUpTo(t: Table, k: nat, minRecords: nat): (r: Table)
    requires ImporterColumn in t && ExporterColumn in t && ClassificationColumn in t
    requires k <= |SuspectEntities|
    requires |t[ImporterColumn]| == |t[ClassificationColumn]| == |t[ExporterColumn]|
    ensures forall c :: c in t ==> c in r
    ensures forall c :: c in t && c != BadImporterColumn && c != BadExporterColumn ==> r[c] == t[c]
  {
    if k == 0 then t
    else
      var (entity, flag) := SuspectEntities[k - 1];
      FlaggedUpTo(t, k - 1, minRecords)[flag := SuspectColumn(t[entity], t[ClassificationColumn], minRecords)]
  }

  /**
   * `flag_suspect_companies(df)`: a copy of the frame with `is_bad_importer` and
   * `is_bad_exporter` added. The entity and classification columns must exist.
   */
  method FlagSuspectCompanies(t: Table, n: nat, minRecords: nat) returns (r: Table)
    requires Rectangular(t, n) && ImporterColumn in t && ExporterColumn in t && ClassificationColumn in t
    ensures r.Keys == t.Keys + {BadImporterColumn, BadExporterColumn}
    ensures r[BadImporterColumn] == SuspectColumn(t[ImporterColumn], t[ClassificationColumn], minRecords)
    ensures r[BadExporterColumn] == SuspectColumn(t[ExporterColumn], t[ClassificationColumn], minRecords)
    ensures forall c :: c in t && c != BadImporterColumn && c != BadExporterColumn ==> r[c] == t[c]
  {
    r := t;
    for k := 0 to |SuspectEntities|
      invariant r == FlaggedUpTo(t, k, minRecords)
    {
      var (entity, flag) := SuspectEntities[k];
      r := r[flag := SuspectColumn(r[entity], r[ClassificationColumn], minRecords)];
    }
  }

  // ---------------------------------------------------------------------------
  // `apply_manual_blacklist`
  // ---------------------------------------------------------------------------

  const BlacklistFlagColumn: string := "is_blacklisted_manual"
  const BlacklistReasonColumn: string := "blacklist_reason"

  /**
   * A row of the blacklist sheet: `company_name`, `type`, and `row.get("reason", "")`,
   * which the caller gives as `Text("")` when the sheet has no `reason` column.
   */
  datatype BlacklistEntry = BlacklistEntry(name: Value, kind: Value, reason: Value)

  /**
   * What one entry does in the loop: nothing (dropped by `dropna`, or of another
   * type), mark the rows whose `column` holds its name, or raise. `.lower()` on a
   * non-string raises, and so does a missing `importer_name` or `exporter_name`
   * column; the `except` then ends the loop.
   */
  datatype EntryEffect = Skip | Mark(column: string) | Fail

  function EffectOf(t: Table, e: BlacklistEntry): (r: EntryEffect)
    ensures r.Mark? ==> r.column in t && (r.column == ImporterColumn || r.column == ExporterColumn)
  {
    if e.name.Missing? || e.kind.Missing? then Skip
    else if !e.kind.Text? then Fail
    else if Lower(e.kind.s) == "importer" then (if ImporterColumn in t then Mark(ImporterColumn) else Fail)
    else if Lower(e.kind.s) == "exporter" then (if ExporterColumn in t then Mark(ExporterColumn) else Fail)
    else Skip
  }

  /** Entry `e` marks row `i`: its mask `df[column] == name` holds there. */
  predicate Hits(t: Table, n: nat, e: BlacklistEntry, i: nat)
    requires Rectangular(t, n) && i < n
  {
    EffectOf(t, e).Mark? && t[EffectOf(t, e).column][i] == e.name
  }

  /** The two new columns and whether the loop was ended by an exception. */
  datatype Marks = Marks(flags: seq<Value>, reasons: seq<Value>, failed: bool)

  /** The columns after the loop has run over `es`, stopping at the first exception. */
  function Applied(t: Table, n: nat, es: seq<BlacklistEntry>): (m: Marks)
    requires Rectangular(t, n)
    ensures |m.flags| == n && |m.reasons| == n
    decreases |es|
  {
    if es == [] then Marks(seq(n, _ => Flag(false)), seq(n, _ => Text("")), false)
    else
      var m := Applied(t, n, es[..|es| - 1]);
      var e := es[|es| - 1];
      if m.failed then m
      else
        match EffectOf(t, e)
        case Skip => m
        case Fail => m.(failed := true)
        case Mark(_) =>
          Marks(seq(n, i requires 0 <= i < n => if Hits(t, n, e, i) then Flag(true) else m.flags[i]),
                seq(n, i requires 0 <= i < n => if Hits(t, n, e, i) then e.reason else m.reasons[i]),
                false)
  }

  /** No entry before `j` raised, so entry `j` is reached. */
  predicate Reached(t: Table, es: seq<BlacklistEntry>, j: nat)
    requires j <= |es|
  {
    forall k :: 0 <= k < j ==> !EffectOf(t, es[k]).Fail?
  }

  /** Entry `j` is reached and marks row `i`. */
  predicate HitAt(t: Table, n: nat, es: seq<BlacklistEntry>, j: nat, i: nat)
    requires Rectangular(t, n) && j < |es| && i < n
  {
    Reached(t, es, j) && Hits(t, n, es[j], i)
  }

  /** The loop ends by an exception exactly when some entry raises. */
  lemma {:induction false} AppliedFailed(t: Table, n: nat, es: seq<BlacklistEntry>)
    requires Rectangular(t, n)
    ensures Applied(t, n, es).failed <==> !Reached(t, es, |es|)
    decreases |es|
  {
    if es != [] {
      var es0 := es[..|es| - 1];
      AppliedFailed(t, n, es0);
      assert forall k :: 0 <= k < |es0| ==> es0[k] == es[k];
    }
  }

  /** Some reached entry before `c` marks row `i`. */
  predicate MarkedBefore(t: Table, n: nat, es: seq<BlacklistEntry>, c: nat, i: nat)
    requires Rectangular(t, n) && c <= |es| && i < n
  {
    exists j :: 0 <= j < c && HitAt(t, n, es, j, i)
  }

  /** Entry `j` is the last reached entry before `c` that marks row `i`. */
  predicate LastMarkBefore(t: Table, n: nat, es: seq<BlacklistEntry>, c: nat, j: nat, i: nat)
    requires Rectangular(t, n) && c <= |es| && i < n
  {
    j < c && HitAt(t, n, es, j, i) && forall k :: j < k < c ==> !HitAt(t, n, es, k, i)
  }

  /**
   * A row is blacklisted exactly when some reached entry marks it; its reason is
   * that of the last such entry, and an unmarked row keeps `False` and `""`.
   */
  lemma AppliedRow(t: Table, n: nat, es: seq<BlacklistEntry>, i: nat)
    requires Rectangular(t, n) && i < n
    ensures Applied(t, n, es).flags[i] == Flag(MarkedBefore(t, n, es, |es|, i))
    ensures !MarkedBefore(t, n, es, |es|, i) ==> Applied(t, n, es).reasons[i] == Text("")
    ensures forall j: nat :: LastMarkBefore(t, n, es, |es|, j, i) ==> Applied(t, n, es).reasons[i] == es[j].reason
  {
    AppliedRowUpTo(t, n, es, |es|, i);
    assert es[..|es|] == es;
  }

  /** `AppliedRow` for the first `c` entries, with the entries counted in the whole list. */
  lemma {:induction false} AppliedRowUpTo(t: Table, n: nat, es: seq<BlacklistEntry>, c: nat, i: nat)
    requires Rectangular(t, n) && c <= |es| && i < n
    ensures Applied(t, n, es[..c]).flags[i] == Flag(MarkedBefore(t, n, es, c, i))
    ensures !MarkedBefore(t, n, es, c, i) ==> Applied(t, n, es[..c]).reasons[i] == Text("")
    ensures forall j: nat :: LastMarkBefore(t, n, es, c, j, i) ==> Applied(t, n, es[..c]).reasons[i] == es[j].reason
    decreases c
  {
    if c == 0 {
      assert es[..0] == [];
    } else {
      var p := c - 1;
      var m := Applied(t, n, es[..c]);
      AppliedRowUpTo(t, n, es, p, i);
      AppliedStepRow(t, n, es, p, i);
      if HitAt(t, n, es, p, i) {
        assert MarkedBefore(t, n, es, c, i);
        forall j: nat | LastMarkBefore(t, n, es, c, j, i) ensures m.reasons[i] == es[j].reason {
          assert j == p;
        }
      } else {
        if MarkedBefore(t, n, es, c, i) {
          var j :| 0 <= j < c && HitAt(t, n, es, j, i);
          assert j < p;
        }
        forall j: nat | LastMarkBefore(t, n, es, c, j, i) ensures m.reasons[i] == es[j].reason {
          assert LastMarkBefore(t, n, es, p, j, i);
        }
      }
    }
  }

  /** Row `i` after entry `p`: marked with its reason if that entry is reached and hits, else as before. */
  lemma AppliedStepRow(t: Table, n: nat, es: seq<BlacklistEntry>, p: nat, i: nat)
    requires Rectangular(t, n) && p < |es| && i < n
    ensures var m0, m := Applied(t, n, es[..p]), Applied(t, n, es[..p + 1]);
      if HitAt(t, n, es, p, i) then m.flags[i] == Flag(true) && m.reasons[i] == es[p].reason
      else m.flags[i] == m0.flags[i] && m.reasons[i] == m0.reasons[i]
  {
    assert es[..p + 1][..p] == es[..p];
    AppliedFailed(t, n, es[..p]);
    assert Reached(t, es[..p], p) <==> Reached(t, es, p) by {
      assert forall k :: 0 <= k < p ==> es[..p][k] == es[k];
    }
  }

  /** Once an entry has raised, later entries change nothing. */
  lemma {:induction false} AppliedAfterFailure(t: Table, n: nat, es: seq<BlacklistEntry>, k: nat)
    requires Rectangular(t, n) && k <= |es| && Applied(t, n, es[..k]).failed
    ensures Applied(t, n, es) == Applied(t, n, es[..k])
    decreases |es| - k
  {
    if k < |es| {
      assert es[..k + 1][..k] == es[..k];
      AppliedAfterFailure(t, n, es, k + 1);
    } else {
      assert es[..k] == es;
    }
  }

  /**
   * `apply_manual_blacklist(df, path)`, with the sheet's rows given: a copy of the
   * frame with `is_blacklisted_manual` and `blacklist_reason` set.
   */
  method ApplyManualBlacklist(t: Table, n: nat, entries: seq<BlacklistEntry>) returns (r: Table)
    requires Rectangular(t, n)
    ensures r == t[BlacklistFlagColumn := Applied(t, n, entries).flags][BlacklistReasonColumn := Applied(t, n, entries).reasons]
  {
    var flags: seq<Value> := seq(n, _ => Flag(false));
    var reasons: seq<Value> := seq(n, _ => Text(""));
    var failed := false;
    var k := 0;
    while k < |entries| && !failed
      invariant k <= |entries|
      invariant Applied(t, n, entries[..k]) == Marks(flags, reasons, failed)
    {
      var e := entries[k];
      assert entries[..k + 1][..k] == entries[..k];
      if e.name.Missing? || e.kind.Missing? {
        // dropped by `dropna`
      } else if !e.kind.Text? {
        failed := true;
      } else {
        var kind := Lower(e.kind.s);
        var column := "";
        if kind == "importer" {
          column := ImporterColumn;
        } else if kind == "exporter" {
          column := ExporterColumn;
        }
        if column != "" {
          if column !in t {
            failed := true;
          } else {
            var mask := seq(n, i requires 0 <= i < n => t[column][i] == e.name);
            flags := seq(n, i requires 0 <= i < n => if mask[i] then Flag(true) else flags[i]);
            reasons := seq(n, i requires 0 <= i < n => if mask[i] then e.reason else reasons[i]);
          }
        }
      }
      k := k + 1;
    }
    if failed {
      AppliedAfterFailure(t, n, entries, k);
    } else {
      assert entries[..k] == entries;
    }
    r := t[BlacklistFlagColumn := flags][BlacklistReasonColumn := reasons];
  }
}
