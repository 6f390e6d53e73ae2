/** The older DataPivotConverter.ColumnToRow: the same pivot over a key snapshot taken once. */
module LegacyDataPivotConverter {
  import opened Outcomes
  import opened Strings
  import opened Tables
  import DataPivotConverter
  import CustomRules

  /** The inner foreach over the snapshot `keys`: the `i`-th value of each column, or the index failure. */
  method RowValues(dataSets: Table<string>, keys: seq<string>, i: nat) returns (r: Result<seq<string>>)
    requires keys == Keys(dataSets)
    ensures r.Ok? <==> forall k :: 0 <= k < |dataSets| ==> i < |dataSets[k].1|
    ensures r.Ok? ==> r.value == DataPivotConverter.Row(dataSets, i)
    ensures r.Err? ==> r.fault == IndexOutOfRange
  {
    var values := [];
    for k := 0 to |keys|
      invariant |values| == k
      invariant forall j :: 0 <= j < k ==> i < |dataSets[j].1| && values[j] == dataSets[j].1[i]
    {
      var column := Lookup(dataSets, keys[k]).value;
      if i >= |column| {
        return Err(IndexOutOfRange);
      }
      values := values + [column[i]];
    }
    return Ok(values);
  }

  /** ColumnToRow over `keys`, the key list copied once before the loop. */
  method ColumnToRow(dataSets: Table<string>, dataCnt: int) returns (r: Result<seq<string>>)
    ensures r == DataPivotConverter.Pivot(dataSets, dataCnt)
  {
    var keys := Keys(dataSets);
    var rows := [Join(",", keys)];
    var i := 0;
    while i < dataCnt
      invariant 0 <= i <= CustomRules.RowCount(dataCnt)
      invariant forall k :: 0 <= k < |dataSets| ==> i <= |dataSets[k].1|
      invariant |rows| == i + 1 && rows[0] == Join(",", keys)
      invariant forall j :: 0 <= j < i ==> rows[j + 1] == Join(",", DataPivotConverter.Row(dataSets, j))
    {
      var values := RowValues(dataSets, keys, i);
      if values.Err? {
        assert !DataPivotConverter.Covers(dataSets, dataCnt);
        return Err(values.fault);
      }
      rows := rows + [Join(",", values.value)];
      i := i + 1;
    }
    assert DataPivotConverter.Covers(dataSets, dataCnt);
    ghost var expected := DataPivotConverter.Pivot(dataSets, dataCnt).value;
    assert |expected| == |rows|;
    forall j | 0 < j < |rows| ensures rows[j] == expected[j] {
      assert rows[(j - 1) + 1] == Join(",", DataPivotConverter.Row(dataSets, j - 1));
    }
    assert rows == expected;
    return Ok(rows);
  }
}
