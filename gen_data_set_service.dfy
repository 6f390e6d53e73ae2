/**
 * GenDataSetService: builds the named value lists of a generation request and
 * substitutes title columns into the file-name template.
 */
module GenDataSetService {
  import opened Outcomes
  import opened Strings
  import opened Bogus
  import opened DataFormatTypes
  import opened CustomRules
  import opened Tables
  import LineId
  import PartId
  import StepId
  import CustomDataToString

  /** The key under which a StepId column's run counters are stored. */
  const PnoKey: string := "Pno"

  /** A decimal rendering of a whole number in `[lo, hi]`. */
  ghost predicate IsNumberIn(v: string, lo: int, hi: int)
  {
    exists n :: lo <= n <= hi && v == IntToString(n)
  }

  /** `n` whole numbers in `[lo, hi]` drawn one after another. */
  function Numbers(f: Faker, n: nat, lo: int, hi: int): (r: seq<int>)
    requires lo <= hi
    ensures |r| == n && forall k :: 0 <= k < n ==> lo <= r[k] <= hi
    decreases n
  {
    if n == 0 then []
    else
      var drawn := Int(f, lo, hi).value;
      [drawn.0] + Numbers(drawn.1, n - 1, lo, hi)
  }

  /** The bounds of the CustomDataToNumber draw, in either order. */
  function Low(options: FieldOptions): int
  {
    if options.minValue <= options.maxValue then options.minValue else options.maxValue
  }

  function High(options: FieldOptions): int
  {
    if options.minValue <= options.maxValue then options.maxValue else options.minValue
  }

  /** The numbers of decimals decimal.Round accepts. */
  const MaxDecimals: int := 28

  /**
   * CustomDataToNumber rows rendered as text. A negative count throws, and so does
   * the first row when Decimal lies outside 0..MaxDecimals (decimal.Round's check);
   * with no rows nothing is drawn or rounded.
   */
  function NumberRows(f: Faker, options: FieldOptions, count: int): (r: Result<seq<string>>)
    ensures r.Ok? <==> count == 0 || (count > 0 && 0 <= options.decimal <= MaxDecimals)
    ensures count > 0 && !(0 <= options.decimal <= MaxDecimals) ==> r == Err(DecimalsOutOfRange)
    ensures r.Ok? ==> |r.value| == count && forall k :: 0 <= k < count ==> IsNumberIn(r.value[k], Low(options), High(options))
  {
    if count < 0 then Err(NegativeCount)
    else if count > 0 && !(0 <= options.decimal <= MaxDecimals) then Err(DecimalsOutOfRange)
    else
      var numbers := Numbers(f, count, Low(options), High(options));
      var rows := seq(count, k requires 0 <= k < count => IntToString(numbers[k]));
      assert forall k :: 0 <= k < count ==> rows[k] == IntToString(numbers[k]);
      Ok(rows)
  }

  /** What each value generated for `column` looks like. */
  ghost predicate Conforms(column: CustomColumn, v: string)
  {
    match column.dataType
    case StdLineId => LineId.IsLineCode(v, 4)
    case StdPartId => PartId.IsPartCode(v)
    case StdStepId => StepId.IsStepCode(v)
    case CustomDataToString =>
      column.options.minLength <= |v| <= NumberMax(column.options.minLength, column.options.maxLength)
      && DrawnFrom(v, ToDataFormatString(column.options.formatType))
    case CustomDataToNumber => IsNumberIn(v, Low(column.options), High(column.options))
    case Unmatched(_) => v == ""
  }

  /**
   * The switch on the column's data type, with a fresh faker. StepId yields an
   * empty list for a non-positive count; the other arms throw on a negative one.
   * A tag with no arm (CustomDataToString2 among them) yields empty strings.
   */
  function GenerateDatas(column: CustomColumn, faker: Faker, dataCnt: int): (r: Result<seq<string>>)
    ensures r.Ok? ==> |r.value| == RowCount(dataCnt) && forall k :: 0 <= k < |r.value| ==> Conforms(column, r.value[k])
    ensures dataCnt < 0 ==> (r.Ok? <==> column.dataType.StdStepId?)
    ensures dataCnt >= 0 && !column.dataType.CustomDataToString? && !column.dataType.CustomDataToNumber? ==> r.Ok?
    ensures column.dataType.CustomDataToNumber? ==>
      (r.Ok? <==> dataCnt == 0 || (dataCnt > 0 && 0 <= column.options.decimal <= MaxDecimals))
    ensures column.dataType.StdStepId? ==> r == Ok(StepId.Values(faker, dataCnt, column.options.pno))
  {
    match column.dataType
    case StdLineId => LineId.GetFaker(faker, dataCnt)
    case StdPartId => PartId.GetFaker(faker, dataCnt)
    case StdStepId =>
      StepId.ValuesShape(faker, dataCnt, column.options.pno);
      Ok(StepId.Values(faker, dataCnt, column.options.pno))
    case CustomDataToString => CustomDataToString.GetFaker(faker, column.options, dataCnt)
    case CustomDataToNumber => NumberRows(faker, column.options, dataCnt)
    case Unmatched(_) => if dataCnt < 0 then Err(NegativeCount) else Ok(seq(dataCnt, _ => ""))
  }

  /** The value the scan compares `s[i]` with: the previous value, or the empty string before the first. */
  function Previous(s: seq<string>, i: nat): string
    requires i <= |s|
  {
    if i == 0 then "" else s[i - 1]
  }

  /**
   * The run counter after reading `s[i]`: reset to 0 on a value different from
   * Previous(s, i), otherwise one more than the counter before it (0 at the start).
   */
  function Counter(s: seq<string>, i: nat): nat
    requires i < |s|
    decreases i, 1
  {
    if s[i] != Previous(s, i) then 0 else CounterBefore(s, i) + 1
  }

  /** The counter before `s[i]` is read. */
  function CounterBefore(s: seq<string>, i: nat): nat
    requires i <= |s|
    decreases i, 0
  {
    if i == 0 then 0 else Counter(s, i - 1)
  }

  /** The Pno list: one rendered counter per step value. */
  function PnoDatas(s: seq<string>): (r: seq<string>)
    ensures |r| == |s|
  {
    seq(|s|, i requires 0 <= i < |s| => NatToString(Counter(s, i)))
  }

  /** GeneratePnoDatas: a scan that keeps the previous value and the counter. */
  method GeneratePnoDatas(stepDatas: seq<string>) returns (pnoDatas: seq<string>)
    ensures pnoDatas == PnoDatas(stepDatas)
  {
    pnoDatas := [];
    var preStepId := "";
    var pno: nat := 0;
    for i := 0 to |stepDatas|
      invariant |pnoDatas| == i
      invariant forall k :: 0 <= k < i ==> pnoDatas[k] == NatToString(Counter(stepDatas, k))
      invariant preStepId == Previous(stepDatas, i)
      invariant pno == CounterBefore(stepDatas, i)
    {
      var stepId := stepDatas[i];
      if stepId != preStepId {
        pno := 0;
        preStepId := stepId;
        pnoDatas := pnoDatas + [NatToString(pno)];
      } else {
        pno := pno + 1;
        pnoDatas := pnoDatas + [NatToString(pno)];
      }
    }
    PnoDatasPointwise(stepDatas, pnoDatas);
  }

  /** A list with the rendered counter at every position is the Pno list. */
  lemma PnoDatasPointwise(s: seq<string>, r: seq<string>)
    requires |r| == |s| && forall k :: 0 <= k < |s| ==> r[k] == NatToString(Counter(s, k))
    ensures r == PnoDatas(s)
  {
  }

  /**
   * The counter is one less than the length of the longest block of equal values
   * ending at `s[i]` in the list with an empty string put in front.
   */
  lemma {:induction false} CounterIsRunLength(s: seq<string>, i: nat)
    requires i < |s|
    ensures Counter(s, i) <= i + 1
    ensures forall k :: i + 1 - Counter(s, i) <= k <= i + 1 ==> ([""] + s)[k] == s[i]
    ensures Counter(s, i) <= i ==> ([""] + s)[i - Counter(s, i)] != s[i]
    decreases i
  {
    if i > 0 {
      CounterIsRunLength(s, i - 1);
      assert CounterBefore(s, i) == Counter(s, i - 1);
    }
  }

  /** Read back as a number, each Pno is its counter. */
  lemma ParsedPno(s: seq<string>, i: nat)
    requires i < |s|
    ensures ParseNat(PnoDatas(s)[i]) == Counter(s, i)
  {
    ParseNatToString(Counter(s, i));
  }

  /** Read back as numbers, each Pno is the previous one plus one on a repeat, else 0. */
  lemma PnoRecurrence(s: seq<string>, i: nat)
    requires 0 < i < |s|
    ensures ParseNat(PnoDatas(s)[i]) == if s[i] == s[i - 1] then ParseNat(PnoDatas(s)[i - 1]) + 1 else 0
  {
    var now := PnoDatas(s)[i];
    var before := PnoDatas(s)[i - 1];
    ParsedPno(s, i);
    ParsedPno(s, i - 1);
    if s[i] == s[i - 1] {
      assert ParseNat(now) == ParseNat(before) + 1;
    } else {
      assert ParseNat(now) == 0;
    }
  }

  /** The first Pno is "1" exactly when the first step value is the empty string, else "0". */
  lemma FirstPno(s: seq<string>)
    requires |s| > 0
    ensures ParseNat(PnoDatas(s)[0]) == if s[0] == "" then 1 else 0
  {
    ParsedPno(s, 0);
  }

  /** Generated step codes are never empty, so a StepId column's Pno list starts at "0". */
  lemma StepPnoStartsAtZero(column: CustomColumn, faker: Faker, dataCnt: int)
    requires column.dataType.StdStepId? && dataCnt > 0
    ensures PnoDatas(GenerateDatas(column, faker, dataCnt).value)[0] == "0"
  {
    var datas := GenerateDatas(column, faker, dataCnt).value;
    assert Conforms(column, datas[0]);
  }

  /** What GenerateDataSets returns: the substituted file name and the table. */
  datatype Generated = Generated(fileName: string, dataSets: Table<string>)

  /** The placeholder a title column fills in: its name in braces. */
  function Token(name: string): (t: string)
    ensures |t| == |name| + 2 && t[0] == '{'
  {
    "{" + name + "}"
  }

  /** Every column's generator outcome, column `i` drawing from the fresh faker `fakers(i)`. */
  function Generations(columns: seq<CustomColumn>, dataCnt: int, fakers: nat -> Faker): (gens: seq<Result<seq<string>>>)
    ensures |gens| == |columns|
    ensures forall i :: 0 <= i < |columns| ==> gens[i] == GenerateDatas(columns[i], fakers(i), dataCnt)
  {
    seq(|columns|, i requires 0 <= i < |columns| => GenerateDatas(columns[i], fakers(i), dataCnt))
  }

  /** A plain column is added under its name; a title column fills its token with its first value. */
  function Place(state: Generated, column: CustomColumn, datas: seq<string>): Result<Generated>
  {
    if !column.options.useTitle then
      match Add(state.dataSets, column.name, datas)
      case Err(e) => Err(e)
      case Ok(t) => Ok(Generated(state.fileName, t))
    else if |datas| == 0 then Err(EmptySequence)
    else Ok(Generated(Replace(state.fileName, Token(column.name), datas[0]), state.dataSets))
  }

  /** The rest of an iteration, once the column's values are generated: place them, then add the Pno list. */
  function Apply(state: Generated, column: CustomColumn, datas: seq<string>): Result<Generated>
  {
    match Place(state, column, datas)
    case Err(e) => Err(e)
    case Ok(placed) =>
      if column.dataType.StdStepId? then
        match Add(placed.dataSets, PnoKey, PnoDatas(datas))
        case Err(e) => Err(e)
        case Ok(t) => Ok(Generated(placed.fileName, t))
      else Ok(placed)
  }

  /** One iteration of the loop over the columns, given the column's generator outcome. */
  function Step(state: Generated, column: CustomColumn, gen: Result<seq<string>>): Result<Generated>
  {
    match gen
    case Err(e) => Err(e)
    case Ok(datas) => Apply(state, column, datas)
  }

  /** The loop from column `i` on. */
  function Fold(state: Generated, columns: seq<CustomColumn>, gens: seq<Result<seq<string>>>, i: nat): Result<Generated>
    requires |gens| == |columns|
    decreases |columns| - i
  {
    if i >= |columns| then Ok(state)
    else
      match Step(state, columns[i], gens[i])
      case Err(e) => Err(e)
      case Ok(next) => Fold(next, columns, gens, i + 1)
  }

  /** The whole request: the loop from the template and an empty table. */
  function Generate(fileName: string, columns: seq<CustomColumn>, dataCnt: int, fakers: nat -> Faker): Result<Generated>
  {
    Fold(Generated(fileName, []), columns, Generations(columns, dataCnt, fakers), 0)
  }

  /** The body of the loop over the columns, for one column with its values already generated. */
  method PlaceColumn(fileName: string, dataSets: Table<string>, column: CustomColumn, datas: seq<string>)
    returns (r: Result<Generated>)
    ensures r == Apply(Generated(fileName, dataSets), column, datas)
  {
    var name := fileName;
    var table := dataSets;
    if !column.options.useTitle {
      var added := Add(table, column.name, datas);
      if added.Err? {
        return Err(added.fault);
      }
      table := added.value;
    } else {
      if |datas| == 0 {
        return Err(EmptySequence);
      }
      name := Replace(name, Token(column.name), datas[0]);
    }
    if column.dataType.StdStepId? {
      var pnoDatas := GeneratePnoDatas(datas);
      var added := Add(table, PnoKey, pnoDatas);
      if added.Err? {
        return Err(added.fault);
      }
      table := added.value;
    }
    return Ok(Generated(name, table));
  }

  /** GenerateDataSets: the loop over the columns, stopping at the first exception. */
  method GenerateDataSets(fileName: string, columns: seq<CustomColumn>, dataCnt: int, fakers: nat -> Faker)
    returns (r: Result<Generated>)
    ensures r == Generate(fileName, columns, dataCnt, fakers)
  {
    ghost var gens := Generations(columns, dataCnt, fakers);
    var name := fileName;
    var dataSets: Table<string> := [];
    var i := 0;
    while i < |columns|
      invariant 0 <= i <= |columns|
      invariant Fold(Generated(name, dataSets), columns, gens, i) == Fold(Generated(fileName, []), columns, gens, 0)
    {
      var datas := GenerateDatas(columns[i], fakers(i), dataCnt);
      assert datas == gens[i];
      if datas.Err? {
        return Err(datas.fault);
      }
      var placed := PlaceColumn(name, dataSets, columns[i], datas.value);
      if placed.Err? {
        return Err(placed.fault);
      }
      name := placed.value.fileName;
      dataSets := placed.value.dataSets;
      i := i + 1;
    }
    return Ok(Generated(name, dataSets));
  }

  /** The keys a column adds: its name unless it is a title column, then "Pno" if it is a StepId column. */
  function ColumnKeys(column: CustomColumn): seq<string>
  {
    (if !column.options.useTitle then [column.name] else [])
    + (if column.dataType.StdStepId? then [PnoKey] else [])
  }

  /** The keys of columns `i` on, in declaration order. */
  function ExpectedKeys(columns: seq<CustomColumn>, i: nat): seq<string>
    decreases |columns| - i
  {
    if i >= |columns| then [] else ColumnKeys(columns[i]) + ExpectedKeys(columns, i + 1)
  }

  /** A column raises nothing of its own: its generator succeeds, with a first value if it is a title column. */
  predicate ColumnOk(column: CustomColumn, gen: Result<seq<string>>)
  {
    gen.Ok? && (column.options.useTitle ==> |gen.value| > 0)
  }

  predicate ColumnsOk(columns: seq<CustomColumn>, gens: seq<Result<seq<string>>>, i: nat)
    requires |gens| == |columns|
  {
    forall j :: i <= j < |columns| ==> ColumnOk(columns[j], gens[j])
  }

  /** The entries a column with values `datas` adds to the table, in order. */
  function NewEntries(column: CustomColumn, datas: seq<string>): seq<Entry<string>>
  {
    (if !column.options.useTitle then [(column.name, datas)] else [])
    + (if column.dataType.StdStepId? then [(PnoKey, PnoDatas(datas))] else [])
  }

  function ColumnEntries(column: CustomColumn, gen: Result<seq<string>>): seq<Entry<string>>
  {
    match gen
    case Err(_) => []
    case Ok(datas) => NewEntries(column, datas)
  }

  function Entries(columns: seq<CustomColumn>, gens: seq<Result<seq<string>>>, i: nat): seq<Entry<string>>
    requires |gens| == |columns|
    decreases |columns| - i
  {
    if i >= |columns| then [] else ColumnEntries(columns[i], gens[i]) + Entries(columns, gens, i + 1)
  }

  lemma NewEntriesKeys(column: CustomColumn, datas: seq<string>)
    ensures Keys(NewEntries(column, datas)) == ColumnKeys(column)
  {
    assert |Keys(NewEntries(column, datas))| == |ColumnKeys(column)|;
  }

  lemma {:induction false} EntriesKeys(columns: seq<CustomColumn>, gens: seq<Result<seq<string>>>, i: nat)
    requires |gens| == |columns| && ColumnsOk(columns, gens, i)
    ensures Keys(Entries(columns, gens, i)) == ExpectedKeys(columns, i)
    decreases |columns| - i
  {
    if i < |columns| {
      var head := ColumnEntries(columns[i], gens[i]);
      var rest := Entries(columns, gens, i + 1);
      assert Entries(columns, gens, i) == head + rest;
      assert ExpectedKeys(columns, i) == ColumnKeys(columns[i]) + ExpectedKeys(columns, i + 1);
      assert ColumnOk(columns[i], gens[i]);
      NewEntriesKeys(columns[i], gens[i].value);
      assert Keys(head) == ColumnKeys(columns[i]);
      EntriesKeys(columns, gens, i + 1);
      KeysAppend(head, rest);
    }
  }

  /** Placing a plain column appends its entry, unless its name is taken. */
  lemma PlaceOutcome(state: Generated, column: CustomColumn, datas: seq<string>)
    ensures !column.options.useTitle ==>
      (Place(state, column, datas).Ok? <==> Distinct(Keys(state.dataSets + [(column.name, datas)])))
    ensures !column.options.useTitle && Place(state, column, datas).Ok? ==>
      Place(state, column, datas).value.dataSets == state.dataSets + [(column.name, datas)]
    ensures column.options.useTitle ==>
      (Place(state, column, datas).Ok? <==> |datas| > 0)
    ensures column.options.useTitle && Place(state, column, datas).Ok? ==>
      Place(state, column, datas).value.dataSets == state.dataSets
  {
    var t := state.dataSets;
    if !column.options.useTitle {
      KeysAppend(t, [(column.name, datas)]);
      assert Keys([(column.name, datas)]) == [column.name];
      DistinctSnoc(Keys(t), column.name);
    }
  }

  /** Dictionary.Add appends, unless the key is taken. */
  lemma AddOutcome(t: Table<string>, key: string, values: seq<string>)
    ensures Add(t, key, values).Ok? <==> Distinct(Keys(t + [(key, values)]))
    ensures Add(t, key, values).Ok? ==> Add(t, key, values).value == t + [(key, values)]
  {
    KeysAppend(t, [(key, values)]);
    assert Keys([(key, values)]) == [key];
    DistinctSnoc(Keys(t), key);
    if key !in Keys(t) {
      assert Add(t, key, values).value[..|t|] == t;
    }
  }

  /** An iteration with values `datas` succeeds exactly when a title column has a first value and its keys are new. */
  lemma ApplyOutcome(state: Generated, column: CustomColumn, datas: seq<string>)
    ensures Apply(state, column, datas).Ok?
      <==> (column.options.useTitle ==> |datas| > 0) && Distinct(Keys(state.dataSets + NewEntries(column, datas)))
    ensures Apply(state, column, datas).Ok?
      ==> Apply(state, column, datas).value.dataSets == state.dataSets + NewEntries(column, datas)
  {
    var t := state.dataSets;
    var e := NewEntries(column, datas);
    var named := [(column.name, datas)];
    var pnos := [(PnoKey, PnoDatas(datas))];
    PlaceOutcome(state, column, datas);
    var placed := Place(state, column, datas);
    if column.options.useTitle && !column.dataType.StdStepId? {
      assert t + e == t;
    } else if column.options.useTitle {
      assert e == pnos;
      if placed.Ok? {
        AddOutcome(t, PnoKey, PnoDatas(datas));
      }
    } else if !column.dataType.StdStepId? {
      assert e == named;
    } else {
      assert t + e == (t + named) + pnos;
      if placed.Ok? {
        AddOutcome(t + named, PnoKey, PnoDatas(datas));
      }
      if Distinct(Keys(t + e)) {
        KeysAppend(t + named, pnos);
        assert Keys(pnos) == [PnoKey];
        DistinctSnoc(Keys(t + named), PnoKey);
      }
    }
  }

  /** Distinctness of a list carries over to both halves. */
  lemma DistinctPrefix<K>(a: seq<K>, b: seq<K>)
    requires Distinct(a + b)
    ensures Distinct(a) && Distinct(b)
  {
    assert forall i :: 0 <= i < |a| ==> (a + b)[i] == a[i];
    assert forall i :: 0 <= i < |b| ==> (a + b)[|a| + i] == b[i];
  }

  /**
   * The loop from column `i` on succeeds exactly when no column raises anything of
   * its own and no key repeats; the table it leaves is the entries appended in order.
   */
  lemma {:induction false} FoldOutcome(state: Generated, columns: seq<CustomColumn>, gens: seq<Result<seq<string>>>, i: nat)
    requires |gens| == |columns|
    ensures Fold(state, columns, gens, i).Ok?
      <==> ColumnsOk(columns, gens, i) && Distinct(Keys(state.dataSets + Entries(columns, gens, i)))
    ensures Fold(state, columns, gens, i).Ok?
      ==> Fold(state, columns, gens, i).value.dataSets == state.dataSets + Entries(columns, gens, i)
    decreases |columns| - i
  {
    if i >= |columns| {
      assert state.dataSets + [] == state.dataSets;
    } else {
      var e := ColumnEntries(columns[i], gens[i]);
      var rest := Entries(columns, gens, i + 1);
      assert state.dataSets + (e + rest) == (state.dataSets + e) + rest;
      if gens[i].Ok? {
        ApplyOutcome(state, columns[i], gens[i].value);
      }
      var step := Step(state, columns[i], gens[i]);
      KeysAppend(state.dataSets + e, rest);
      if step.Ok? {
        FoldOutcome(step.value, columns, gens, i + 1);
      }
      if Distinct(Keys(state.dataSets + e + rest)) {
        DistinctPrefix(Keys(state.dataSets + e), Keys(rest));
      }
    }
  }

  /** Column `j` raises nothing of its own for this count and faker. */
  predicate ColumnSucceeds(column: CustomColumn, faker: Faker, dataCnt: int)
  {
    ColumnOk(column, GenerateDatas(column, faker, dataCnt))
  }

  /**
   * GenerateDataSets succeeds exactly when every column's generator succeeds, every
   * title column has a first value, and the expected keys are all different; the
   * table then holds each column's entries in declaration order.
   */
  lemma GenerateOutcome(fileName: string, columns: seq<CustomColumn>, dataCnt: int, fakers: nat -> Faker)
    ensures Generate(fileName, columns, dataCnt, fakers).Ok?
      <==> ((forall j :: 0 <= j < |columns| ==> ColumnSucceeds(columns[j], fakers(j), dataCnt))
            && Distinct(ExpectedKeys(columns, 0)))
    ensures Generate(fileName, columns, dataCnt, fakers).Ok? ==>
      Generate(fileName, columns, dataCnt, fakers).value.dataSets == Entries(columns, Generations(columns, dataCnt, fakers), 0)
      && Keys(Generate(fileName, columns, dataCnt, fakers).value.dataSets) == ExpectedKeys(columns, 0)
  {
    var gens := Generations(columns, dataCnt, fakers);
    var empty: Table<string> := [];
    FoldOutcome(Generated(fileName, empty), columns, gens, 0);
    assert empty + Entries(columns, gens, 0) == Entries(columns, gens, 0);
    assert ColumnsOk(columns, gens, 0) <==> forall j :: 0 <= j < |columns| ==> ColumnSucceeds(columns[j], fakers(j), dataCnt);
    if ColumnsOk(columns, gens, 0) {
      EntriesKeys(columns, gens, 0);
    }
  }

  /** Every key of column `j` is among the expected keys from any earlier position on. */
  lemma {:induction false} ColumnKeysIncluded(columns: seq<CustomColumn>, i: nat, j: nat, key: string)
    requires i <= j < |columns| && key in ColumnKeys(columns[j])
    ensures key in ExpectedKeys(columns, i)
    decreases j - i
  {
    if i < j {
      ColumnKeysIncluded(columns, i + 1, j, key);
    }
  }

  /** Distinct expected keys mean that no two columns share a key. */
  lemma {:induction false} DistinctKeysDisjoint(columns: seq<CustomColumn>, i: nat, j: nat, k: nat, key: string)
    requires i <= j < k < |columns|
    requires key in ColumnKeys(columns[j]) && key in ColumnKeys(columns[k])
    ensures !Distinct(ExpectedKeys(columns, i))
    decreases j - i
  {
    var head := ColumnKeys(columns[i]);
    var tail := ExpectedKeys(columns, i + 1);
    if i == j {
      ColumnKeysIncluded(columns, i + 1, k, key);
      SharedNotDistinct(head, tail, key);
    } else {
      DistinctKeysDisjoint(columns, i + 1, j, k, key);
      if Distinct(head + tail) {
        DistinctPrefix(head, tail);
      }
    }
  }

  /**
   * Two columns adding the same key make the request throw: two plain columns with
   * one name, two StepId columns, or a plain column named "Pno" and a StepId column.
   */
  lemma SharedKeyFails(fileName: string, columns: seq<CustomColumn>, dataCnt: int, fakers: nat -> Faker, j: nat, k: nat, key: string)
    requires j < k < |columns|
    requires key in ColumnKeys(columns[j]) && key in ColumnKeys(columns[k])
    ensures Generate(fileName, columns, dataCnt, fakers).Err?
  {
    GenerateOutcome(fileName, columns, dataCnt, fakers);
    DistinctKeysDisjoint(columns, 0, j, k, key);
  }

  /** Two StepId columns both add "Pno", so the request throws. */
  lemma TwoStepIdColumnsFail(fileName: string, columns: seq<CustomColumn>, dataCnt: int, fakers: nat -> Faker, j: nat, k: nat)
    requires j < k < |columns|
    requires columns[j].dataType.StdStepId? && columns[k].dataType.StdStepId?
    ensures Generate(fileName, columns, dataCnt, fakers).Err?
  {
    SharedKeyFails(fileName, columns, dataCnt, fakers, j, k, PnoKey);
  }

  /** A title column has no first value to substitute without a positive count, so the request throws. */
  lemma TitleNeedsRows(fileName: string, columns: seq<CustomColumn>, dataCnt: int, fakers: nat -> Faker, j: nat)
    requires j < |columns| && columns[j].options.useTitle && dataCnt <= 0
    ensures Generate(fileName, columns, dataCnt, fakers).Err?
  {
    GenerateOutcome(fileName, columns, dataCnt, fakers);
    assert !ColumnSucceeds(columns[j], fakers(j), dataCnt);
  }

  /** Replacing a braced token in a string with no '{' changes nothing. */
  lemma ReplaceTokenAbsent(s: string, name: string, value: string)
    requires '{' !in s
    ensures Replace(s, Token(name), value) == s
  {
    var t := Token(name);
    forall i ensures !OccursAt(s, t, i) {
      if 0 <= i && i + |t| <= |s| {
        assert s[i..i + |t|][0] == s[i];
      }
    }
    ReplaceAbsent(s, t, value);
  }

  /** A brace token between two brace-free strings is replaced by the value, and nothing else changes. */
  lemma ReplaceToken(a: string, name: string, value: string, b: string)
    requires '{' !in a && '{' !in b
    ensures Replace(a + Token(name) + b, Token(name), value) == a + value + b
  {
    ReplaceAfterPrefix(a, Token(name), value, b);
    ReplaceTokenAbsent(b, name, value);
  }

  /**
   * Every occurrence of the token is replaced: a template made of brace-free pieces
   * joined by `{Name}` becomes those pieces joined by the value.
   */
  lemma ReplaceTokens(parts: seq<string>, name: string, value: string)
    requires forall k :: 0 <= k < |parts| ==> '{' !in parts[k]
    ensures Replace(Join(Token(name), parts), Token(name), value) == Join(value, parts)
  {
    ReplaceJoin(parts, Token(name), value);
  }

  /** "{line}-{line}.csv" has both of its tokens replaced. */
  lemma RepeatedTokenExample(value: string)
    ensures Replace(Token("line") + "-" + Token("line") + ".csv", Token("line"), value) == value + "-" + value + ".csv"
  {
    var t := Token("line");
    var rest := "-" + t + ".csv";
    assert t + "-" + t + ".csv" == [] + t + rest;
    ReplaceAfterPrefix([], t, value, rest);
    assert '{' !in "-" && '{' !in ".csv";
    ReplaceToken("-", "line", value, ".csv");
    assert [] + value + ("-" + value + ".csv") == value + "-" + value + ".csv";
  }

  /**
   * From column `i` on, with column `j` the only title column and the name made of
   * brace-free pieces joined by its token, a successful loop leaves those pieces
   * joined by column `j`'s first value.
   */
  lemma {:induction false} FoldFillsTitle(state: Generated, columns: seq<CustomColumn>, gens: seq<Result<seq<string>>>,
                                          i: nat, j: nat, parts: seq<string>)
    requires |gens| == |columns| && i <= j < |columns| && columns[j].options.useTitle
    requires forall k :: i <= k < |columns| && k != j ==> !columns[k].options.useTitle
    requires forall k :: 0 <= k < |parts| ==> '{' !in parts[k]
    requires state.fileName == Join(Token(columns[j].name), parts)
    ensures Fold(state, columns, gens, i).Ok? ==>
      gens[j].Ok? && |gens[j].value| > 0 && Fold(state, columns, gens, i).value.fileName == Join(gens[j].value[0], parts)
    decreases j - i
  {
    var step := Step(state, columns[i], gens[i]);
    if step.Ok? {
      if i < j {
        assert step.value.fileName == state.fileName;
        FoldFillsTitle(step.value, columns, gens, i + 1, j, parts);
      } else {
        ReplaceTokens(parts, columns[j].name, gens[j].value[0]);
        assert step.value.fileName == Join(gens[j].value[0], parts);
        FoldKeepsName(step.value, columns, gens, i + 1);
      }
    }
  }

  /**
   * With one title column, a template made of brace-free pieces joined by its
   * `{Name}` token (once, several times or not at all) becomes those pieces joined by
   * the column's first generated value; a successful request then had a positive count.
   */
  lemma TitleFilled(parts: seq<string>, columns: seq<CustomColumn>, dataCnt: int, fakers: nat -> Faker, j: nat)
    requires j < |columns| && columns[j].options.useTitle
    requires forall k :: 0 <= k < |columns| && k != j ==> !columns[k].options.useTitle
    requires forall k :: 0 <= k < |parts| ==> '{' !in parts[k]
    ensures var r := Generate(Join(Token(columns[j].name), parts), columns, dataCnt, fakers);
      var datas := GenerateDatas(columns[j], fakers(j), dataCnt);
      r.Ok? ==> dataCnt > 0 && datas.Ok? && |datas.value| > 0 && r.value.fileName == Join(datas.value[0], parts)
  {
    var name := Join(Token(columns[j].name), parts);
    var gens := Generations(columns, dataCnt, fakers);
    var r := Fold(Generated(name, []), columns, gens, 0);
    assert Generate(name, columns, dataCnt, fakers) == r;
    FoldFillsTitle(Generated(name, []), columns, gens, 0, j, parts);
    if r.Ok? {
      var datas := GenerateDatas(columns[j], fakers(j), dataCnt);
      assert gens[j] == datas;
      assert |datas.value| == RowCount(dataCnt);
    }
  }

  /** A CustomDataToNumber column with Decimal outside 0..28 and rows to fill makes the request throw. */
  lemma BadDecimalsFail(fileName: string, columns: seq<CustomColumn>, dataCnt: int, fakers: nat -> Faker, j: nat)
    requires j < |columns| && columns[j].dataType.CustomDataToNumber? && dataCnt > 0
    requires !(0 <= columns[j].options.decimal <= MaxDecimals)
    ensures Generate(fileName, columns, dataCnt, fakers).Err?
  {
    GenerateOutcome(fileName, columns, dataCnt, fakers);
    assert !ColumnSucceeds(columns[j], fakers(j), dataCnt);
  }

  /** Without title columns, or without a '{' in the template, the file name comes back as it was. */
  lemma {:induction false} FoldKeepsName(state: Generated, columns: seq<CustomColumn>, gens: seq<Result<seq<string>>>, i: nat)
    requires |gens| == |columns|
    requires (forall j :: i <= j < |columns| ==> !columns[j].options.useTitle) || '{' !in state.fileName
    ensures Fold(state, columns, gens, i).Ok? ==> Fold(state, columns, gens, i).value.fileName == state.fileName
    decreases |columns| - i
  {
    if i < |columns| {
      if gens[i].Ok? && columns[i].options.useTitle && |gens[i].value| > 0 {
        ReplaceTokenAbsent(state.fileName, columns[i].name, gens[i].value[0]);
      }
      var step := Step(state, columns[i], gens[i]);
      if step.Ok? {
        assert step.value.fileName == state.fileName;
        FoldKeepsName(step.value, columns, gens, i + 1);
      }
    }
  }

  lemma NameKept(fileName: string, columns: seq<CustomColumn>, dataCnt: int, fakers: nat -> Faker)
    requires (forall j :: 0 <= j < |columns| ==> !columns[j].options.useTitle) || '{' !in fileName
    ensures Generate(fileName, columns, dataCnt, fakers).Ok? ==> Generate(fileName, columns, dataCnt, fakers).value.fileName == fileName
  {
    FoldKeepsName(Generated(fileName, []), columns, Generations(columns, dataCnt, fakers), 0);
  }

  /**
   * A "{line}.csv" template with a single LineId title column named "line" becomes
   * the first generated line code followed by ".csv", and the table stays empty.
   */
  lemma LineTitleExample(options: FieldOptions, dataCnt: int, fakers: nat -> Faker)
    requires options.useTitle && dataCnt > 0
    ensures var r := Generate("{line}.csv", [CustomColumn("line", StdLineId, options)], dataCnt, fakers);
      r.Ok? && |r.value.fileName| == 8 && LineId.IsLineCode(r.value.fileName[..4], 4)
      && r.value.fileName[4..] == ".csv" && r.value.dataSets == []
  {
    var column := CustomColumn("line", StdLineId, options);
    var gens := Generations([column], dataCnt, fakers);
    var datas := gens[0].value;
    var code := datas[0];
    assert Conforms(column, code);
    var template := "{line}.csv";
    assert template[..|Token("line")|] == Token("line");
    assert template[|Token("line")|..] == ".csv";
    assert Replace(template, Token("line"), code) == code + ".csv";
    assert (code + ".csv")[..4] == code;
    var start := Generated(template, []);
    var done := Generated(code + ".csv", []);
    assert Place(start, column, datas) == Ok(done);
    assert Apply(start, column, datas) == Ok(done);
    assert Step(start, column, gens[0]) == Ok(done);
    assert Fold(start, [column], gens, 0) == Fold(done, [column], gens, 1);
  }

  /** With every successful outcome holding `n` values, every stored list holds `n` values. */
  lemma {:induction false} EntriesFull(columns: seq<CustomColumn>, gens: seq<Result<seq<string>>>, i: nat, n: nat)
    requires |gens| == |columns|
    requires forall j :: 0 <= j < |gens| && gens[j].Ok? ==> |gens[j].value| == n
    ensures forall k :: 0 <= k < |Entries(columns, gens, i)| ==> |Entries(columns, gens, i)[k].1| == n
    decreases |columns| - i
  {
    if i < |columns| {
      EntriesFull(columns, gens, i + 1, n);
      var head := ColumnEntries(columns[i], gens[i]);
      var rest := Entries(columns, gens, i + 1);
      assert forall k :: 0 <= k < |head| ==> |head[k].1| == n;
      forall k | 0 <= k < |head + rest| ensures |(head + rest)[k].1| == n {
        if k >= |head| {
          assert (head + rest)[k] == rest[k - |head|];
        }
      }
    }
  }

  /** Every list a successful generation stores has exactly one value per row. */
  lemma GeneratedColumnsFull(fileName: string, columns: seq<CustomColumn>, dataCnt: int, fakers: nat -> Faker)
    requires Generate(fileName, columns, dataCnt, fakers).Ok?
    ensures var t := Generate(fileName, columns, dataCnt, fakers).value.dataSets;
      forall k :: 0 <= k < |t| ==> |t[k].1| == RowCount(dataCnt)
  {
    GenerateOutcome(fileName, columns, dataCnt, fakers);
    EntriesFull(columns, Generations(columns, dataCnt, fakers), 0, RowCount(dataCnt));
  }
}
