/**
 * The older GenDataSetService: one entry per column, keyed by the column's position
 * and name, with no title substitution and no Pno list.
 */
module LegacyGenDataSetService {
  import opened Outcomes
  import opened Bogus
  import opened DataFormatTypes
  import opened CustomRules
  import opened Tables
  import LineId
  import PartId
  import LegacyStepId
  import StepId
  import CustomDataToString

  /** The older key: the column's position and its name. */
  type Key = (int, string)

  /** What each value generated for `column` looks like. */
  ghost predicate Conforms(column: CustomColumn, v: string)
  {
    match column.dataType
    case StdLineId => LineId.IsLineCode(v, 4)
    case StdPartId => PartId.IsPartCode(v)
    case StdStepId => StepId.IsStepCode(v)
    case CustomDataToString =>
      column.options.minLength <= |v| <= NumberMax(column.options.minLength, column.options.maxLength)
      && DrawnFrom(v, ToDataFormatString(column.options.formatType))
    case _ => v == ""
  }

  /**
   * The older switch: no CustomDataToNumber arm, so that tag joins the discard arm
   * of empty strings; every arm throws on a negative count.
   */
  function GenerateDatas(column: CustomColumn, faker: Faker, dataCnt: int): (r: Result<seq<string>>)
    ensures dataCnt < 0 ==> r.Err?
    ensures dataCnt >= 0 && !column.dataType.CustomDataToString? ==> r.Ok?
    ensures r.Ok? ==> |r.value| == dataCnt && forall k :: 0 <= k < dataCnt ==> Conforms(column, r.value[k])
  {
    match column.dataType
    case StdLineId => LineId.GetFaker(faker, dataCnt)
    case StdPartId => PartId.GetFaker(faker, dataCnt)
    case StdStepId => LegacyStepId.GetFaker(faker, dataCnt)
    case CustomDataToString => CustomDataToString.GetFaker(faker, column.options, dataCnt)
    case _ => if dataCnt < 0 then Err(NegativeCount) else Ok(seq(dataCnt, _ => ""))
  }

  /**
   * Every column's generator outcome, column `i` drawing from the fresh faker `fakers(i)`.
   * It has the shape of GenDataSetService.Generations but calls this service's own
   * switch, whose arms differ, so the two are kept apart.
   */
  function Generations(columns: seq<CustomColumn>, dataCnt: int, fakers: nat -> Faker): (gens: seq<Result<seq<string>>>)
    ensures |gens| == |columns|
    ensures forall i :: 0 <= i < |columns| ==> gens[i] == GenerateDatas(columns[i], fakers(i), dataCnt)
  {
    seq(|columns|, i requires 0 <= i < |columns| => GenerateDatas(columns[i], fakers(i), dataCnt))
  }

  /** The loop from column `i` on, adding to `t`, given every column's generator outcome. */
  function Fold(t: Table<Key>, columns: seq<CustomColumn>, gens: seq<Result<seq<string>>>, i: nat): Result<Table<Key>>
    requires |gens| == |columns|
    decreases |columns| - i
  {
    if i >= |columns| then Ok(t)
    else
      match gens[i]
      case Err(e) => Err(e)
      case Ok(datas) =>
        match Add(t, (i, columns[i].name), datas)
        case Err(e) => Err(e)
        case Ok(t') => Fold(t', columns, gens, i + 1)
  }

  /** The whole request: the loop from an empty table. */
  function Generate(columns: seq<CustomColumn>, dataCnt: int, fakers: nat -> Faker): Result<Table<Key>>
  {
    Fold([], columns, Generations(columns, dataCnt, fakers), 0)
  }

  /** GenerateDataSets: add each column under `(idx++, Name)`. */
  method GenerateDataSets(columns: seq<CustomColumn>, dataCnt: int, fakers: nat -> Faker) returns (r: Result<Table<Key>>)
    ensures r == Generate(columns, dataCnt, fakers)
  {
    ghost var gens := Generations(columns, dataCnt, fakers);
    var dataSets: Table<Key> := [];
    var idx := 0;
    while idx < |columns|
      invariant 0 <= idx <= |columns|
      invariant Fold(dataSets, columns, gens, idx) == Fold([], columns, gens, 0)
    {
      var datas := GenerateDatas(columns[idx], fakers(idx), dataCnt);
      assert datas == gens[idx];
      if datas.Err? {
        return Err(datas.fault);
      }
      var added := Add(dataSets, (idx, columns[idx].name), datas.value);
      if added.Err? {
        return Err(added.fault);
      }
      dataSets := added.value;
      idx := idx + 1;
    }
    return Ok(dataSets);
  }

  /** With every key so far below position `i`, the loop fails only when a generator does. */
  lemma {:induction false} FoldSucceeds(t: Table<Key>, columns: seq<CustomColumn>, gens: seq<Result<seq<string>>>, i: nat)
    requires |gens| == |columns|
    requires forall k :: 0 <= k < |t| ==> t[k].0.0 < i
    ensures Fold(t, columns, gens, i).Ok? <==> forall j :: i <= j < |columns| ==> gens[j].Ok?
    decreases |columns| - i
  {
    if i < |columns| && gens[i].Ok? {
      var key := (i, columns[i].name);
      assert key !in Keys(t);
      FoldSucceeds(t + [(key, gens[i].value)], columns, gens, i + 1);
    }
  }

  /** ... and on success it appends one entry per column, in order. */
  lemma {:induction false} FoldEntries(t: Table<Key>, columns: seq<CustomColumn>, gens: seq<Result<seq<string>>>, i: nat)
    requires |gens| == |columns| && i <= |columns|
    requires forall k :: 0 <= k < |t| ==> t[k].0.0 < i
    requires Fold(t, columns, gens, i).Ok?
    ensures |Fold(t, columns, gens, i).value| == |t| + |columns| - i
    ensures Fold(t, columns, gens, i).value[..|t|] == t
    ensures forall j :: i <= j < |columns| ==>
      gens[j].Ok? && Fold(t, columns, gens, i).value[|t| + j - i] == ((j, columns[j].name), gens[j].value)
    decreases |columns| - i
  {
    if i < |columns| {
      var key := (i, columns[i].name);
      assert key !in Keys(t);
      assert gens[i].Ok?;
      var t': Table<Key> := Add(t, key, gens[i].value).value;
      assert t' == t + [(key, gens[i].value)];
      FoldEntries(t', columns, gens, i + 1);
      var r := Fold(t', columns, gens, i + 1).value;
      assert r[..|t|] == r[..|t'|][..|t|];
      assert r[|t|] == r[..|t'|][|t|];
      forall j | i < j < |columns|
        ensures gens[j].Ok? && r[|t| + j - i] == ((j, columns[j].name), gens[j].value)
      {
        assert |t| + j - i == |t'| + j - (i + 1);
      }
    }
  }

  /** The older service throws only when a generator does, never on a duplicate name. */
  lemma GenerateSucceeds(columns: seq<CustomColumn>, dataCnt: int, fakers: nat -> Faker)
    ensures Generate(columns, dataCnt, fakers).Ok?
      <==> forall j :: 0 <= j < |columns| ==> GenerateDatas(columns[j], fakers(j), dataCnt).Ok?
  {
    var gens := Generations(columns, dataCnt, fakers);
    FoldSucceeds([], columns, gens, 0);
    assert (forall j :: 0 <= j < |columns| ==> gens[j].Ok?)
      <==> forall j :: 0 <= j < |columns| ==> GenerateDatas(columns[j], fakers(j), dataCnt).Ok?;
  }

  /** On success its table holds entry `j` under key `(j, Name)` with column `j`'s values. */
  lemma GenerateEntries(columns: seq<CustomColumn>, dataCnt: int, fakers: nat -> Faker)
    requires Generate(columns, dataCnt, fakers).Ok?
    ensures var t := Generate(columns, dataCnt, fakers).value;
      |t| == |columns| && forall j :: 0 <= j < |columns| ==>
        GenerateDatas(columns[j], fakers(j), dataCnt).Ok?
        && t[j] == ((j, columns[j].name), GenerateDatas(columns[j], fakers(j), dataCnt).value)
  {
    var gens := Generations(columns, dataCnt, fakers);
    var t := Fold([], columns, gens, 0).value;
    FoldEntries([], columns, gens, 0);
    forall j | 0 <= j < |columns|
      ensures GenerateDatas(columns[j], fakers(j), dataCnt).Ok?
        && t[j] == ((j, columns[j].name), GenerateDatas(columns[j], fakers(j), dataCnt).value)
    {
      assert gens[j] == GenerateDatas(columns[j], fakers(j), dataCnt);
      assert t[0 + j - 0] == ((j, columns[j].name), gens[j].value);
    }
  }

  /**
   * The older service throws only when a generator does (never on a duplicate
   * name); its table holds entry `j` under key `(j, Name)` with column `j`'s values.
   */
  lemma GenerateOutcome(columns: seq<CustomColumn>, dataCnt: int, fakers: nat -> Faker)
    ensures var r := Generate(columns, dataCnt, fakers);
      r.Ok? <==> forall j :: 0 <= j < |columns| ==> GenerateDatas(columns[j], fakers(j), dataCnt).Ok?
    ensures var r := Generate(columns, dataCnt, fakers);
      r.Ok? ==> (|r.value| == |columns|
        && forall j :: 0 <= j < |columns| ==>
          r.value[j] == ((j, columns[j].name), GenerateDatas(columns[j], fakers(j), dataCnt).value))
  {
    GenerateSucceeds(columns, dataCnt, fakers);
    if Generate(columns, dataCnt, fakers).Ok? {
      GenerateEntries(columns, dataCnt, fakers);
    }
  }

  /** Without CustomDataToString columns, the older service succeeds exactly for a non-negative count. */
  lemma SucceedsOnNonNegativeCount(columns: seq<CustomColumn>, dataCnt: int, fakers: nat -> Faker)
    requires |columns| > 0
    requires forall j :: 0 <= j < |columns| ==> !columns[j].dataType.CustomDataToString?
    ensures Generate(columns, dataCnt, fakers).Ok? <==> dataCnt >= 0
  {
    GenerateOutcome(columns, dataCnt, fakers);
    assert GenerateDatas(columns[0], fakers(0), dataCnt).Ok? ==> dataCnt >= 0;
  }
}
