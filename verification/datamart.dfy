/**
 * The datamart step: the relevance flag of each record, 'ИСТИНА' or 'ЛОЖЬ', and,
 * for an irrelevant record, the names of the conditions that made it so.
 */
module Datamart {
  import opened Text

  /** The columns the relevance of a record is decided from. */
  datatype FlagRow = FlagRow(isValid: bool, badImporter: bool, badExporter: bool, blacklisted: bool,
                             classification: string)

  const Relevant: string := "ИСТИНА"
  const NotRelevant: string := "ЛОЖЬ"
  /** The classification label of a rejected record. */
  const ExcludedLabel: string := "исключено"

  /** The keys of `conditions`, in the order written. */
  const ConditionNames: seq<string> :=
    ["is_valid", "is_bad_importer", "is_bad_exporter", "is_blacklisted_manual", "classification"]

  /** The value of `conditions`: condition `k` holds for `row`. */
  predicate Condition(row: FlagRow, k: nat)
    requires k < |ConditionNames|
  {
    match k
    case 0 => !row.isValid
    case 1 => row.badImporter
    case 2 => row.badExporter
    case 3 => row.blacklisted
    case _ => row.classification == ExcludedLabel
  }

  /** The `is_relevant` column: the negated disjunction, mapped to 'ИСТИНА' / 'ЛОЖЬ'. */
  function IsRelevant(row: FlagRow): (r: string)
    ensures r == Relevant || r == NotRelevant
  {
    if !(!row.isValid || row.badImporter || row.badExporter || row.blacklisted || row.classification == ExcludedLabel)
    then Relevant
    else NotRelevant
  }

  /** The names of the conditions among the first `k` that hold, in the order of `conditions`. */
  function Failing(row: FlagRow, k: nat): (r: seq<string>)
    requires k <= |ConditionNames|
    ensures |r| <= k
    ensures forall x :: x in r <==> exists j :: 0 <= j < k && Condition(row, j) && ConditionNames[j] == x
    decreases k
  {
    if k == 0 then []
    else Failing(row, k - 1) + (if Condition(row, k - 1) then [ConditionNames[k - 1]] else [])
  }

  /** `get_reasons(row)`: the loop over `conditions` and the join with ", ". */
  method GetReasons(row: FlagRow) returns (s: string)
    ensures s == Join(Failing(row, |ConditionNames|), ", ")
  {
    var rowReasons: seq<string> := [];
    for k := 0 to |ConditionNames|
      invariant rowReasons == Failing(row, k)
    {
      if Condition(row, k) {
        rowReasons := rowReasons + [ConditionNames[k]];
      }
    }
    s := Join(rowReasons, ", ");
  }

  /** The two columns `add_is_relevant_column` adds to one record. */
  function RelevanceOf(row: FlagRow): (r: (string, string))
    ensures r.0 == IsRelevant(row)
    ensures r.0 == Relevant ==> r.1 == ""
  {
    var relevant := IsRelevant(row);
    (relevant, if relevant == NotRelevant then Join(Failing(row, |ConditionNames|), ", ") else "")
  }

  /** The mask and the `conditions` table agree: a record is relevant exactly when no condition holds. */
  lemma RelevantIffNoCondition(row: FlagRow)
    ensures IsRelevant(row) == Relevant <==> Failing(row, |ConditionNames|) == []
  {
    var f := Failing(row, |ConditionNames|);
    forall j | 0 <= j < |ConditionNames| && Condition(row, j) ensures ConditionNames[j] in f && IsRelevant(row) == NotRelevant {
    }
    assert IsRelevant(row) == NotRelevant ==>
      (Condition(row, 0) || Condition(row, 1) || Condition(row, 2) || Condition(row, 3) || Condition(row, 4));
    if f != [] {
      assert f[0] in f;
    }
  }

  /** The reason is empty exactly when the record is relevant. */
  lemma ReasonIffNotRelevant(row: FlagRow)
    ensures RelevanceOf(row).1 != "" <==> RelevanceOf(row).0 == NotRelevant
  {
    var f := Failing(row, |ConditionNames|);
    RelevantIffNoCondition(row);
    JoinEmpty(f, ", ");
    if f != [] {
      assert f[0] in f;
      assert forall j :: 0 <= j < |ConditionNames| ==> ConditionNames[j] != [];
    }
  }

  /** `add_is_relevant_column(df)`: the two columns for every record; the input is left as it was. */
  method AddIsRelevantColumn(rows: seq<FlagRow>) returns (relevant: seq<string>, reasons: seq<string>)
    ensures |relevant| == |rows| && |reasons| == |rows|
    ensures forall i :: 0 <= i < |rows| ==> (relevant[i], reasons[i]) == RelevanceOf(rows[i])
  {
    relevant := seq(|rows|, i requires 0 <= i < |rows| => IsRelevant(rows[i]));
    reasons := [];
    for i := 0 to |rows|
      invariant |reasons| == i
      invariant forall j :: 0 <= j < i ==> reasons[j] == RelevanceOf(rows[j]).1
    {
      var reason := "";
      if relevant[i] == NotRelevant {
        reason := GetReasons(rows[i]);
      }
      reasons := reasons + [reason];
    }
  }
}
