/** DataPivotConverter.ColumnToRow: turns the name-to-values table into comma-joined lines. */
module DataPivotConverter {
  import opened Outcomes
  import opened Strings
  import opened Tables
  import opened CustomRules

  /** Every column has at least `dataCnt` values. */
  predicate Covers(t: seq<Entry<string>>, dataCnt: int)
  {
    forall k :: 0 <= k < |t| ==> dataCnt <= |t[k].1|
  }

  /** The `i`-th value of every column, in key order. */
  function Row(t: seq<Entry<string>>, i: nat): (r: seq<string>)
    requires forall k :: 0 <= k < |t| ==> i < |t[k].1|
    ensures |r| == |t| && forall k :: 0 <= k < |t| ==> r[k] == t[k].1[i]
  {
    seq(|t|, k requires 0 <= k < |t| => t[k].1[i])
  }

  /**
   * The lines ColumnToRow returns: the header of keys, then one line per row index
   * below `dataCnt`; a column too short for some row index throws.
   */
  function Pivot(t: seq<Entry<string>>, dataCnt: int): (r: Result<seq<string>>)
  {
    if !Covers(t, dataCnt) then Err(IndexOutOfRange)
    else Ok([Join(",", Keys(t))] + seq(RowCount(dataCnt), i requires 0 <= i < RowCount(dataCnt) => Join(",", Row(t, i))))
  }

  /** The inner foreach over the keys: the `i`-th value of each column, looked up by key, or the index failure. */
  method RowValues(dataSets: Table<string>, i: nat) returns (r: Result<seq<string>>)
    ensures r.Ok? <==> forall k :: 0 <= k < |dataSets| ==> i < |dataSets[k].1|
    ensures r.Ok? ==> r.value == Row(dataSets, i)
    ensures r.Err? ==> r.fault == IndexOutOfRange
  {
    var values := [];
    for k := 0 to |dataSets|
      invariant |values| == k
      invariant forall j :: 0 <= j < k ==> i < |dataSets[j].1| && values[j] == dataSets[j].1[i]
    {
      var column := Lookup(dataSets, dataSets[k].0).value;
      if i >= |column| {
        return Err(IndexOutOfRange);
      }
      values := values + [column[i]];
    }
    return Ok(values);
  }

  /** ColumnToRow: the header, then a loop over the row indices below `dataCnt`. */
  method ColumnToRow(dataSets: Table<string>, dataCnt: int) returns (r: Result<seq<string>>)
    ensures r == Pivot(dataSets, dataCnt)
  {
    var names := Keys(dataSets);
    var rows := [Join(",", names)];
    var i := 0;
    while i < dataCnt
      invariant 0 <= i <= RowCount(dataCnt)
      invariant forall k :: 0 <= k < |dataSets| ==> i <= |dataSets[k].1|
      invariant |rows| == i + 1 && rows[0] == Join(",", names)
      invariant forall j :: 0 <= j < i ==> rows[j + 1] == Join(",", Row(dataSets, j))
    {
      var values := RowValues(dataSets, i);
      if values.Err? {
        assert !Covers(dataSets, dataCnt);
        return Err(values.fault);
      }
      rows := rows + [Join(",", values.value)];
      i := i + 1;
    }
    assert Covers(dataSets, dataCnt);
    ghost var expected := Pivot(dataSets, dataCnt).value;
    assert |expected| == |rows|;
    forall j | 0 < j < |rows| ensures rows[j] == expected[j] {
      assert rows[(j - 1) + 1] == Join(",", Row(dataSets, j - 1));
    }
    assert rows == expected;
    return Ok(rows);
  }

  /** A successful pivot has one line per row plus the header, and fails exactly on a short column. */
  lemma PivotShape(t: seq<Entry<string>>, dataCnt: int)
    ensures Pivot(t, dataCnt).Ok? <==> forall k :: 0 <= k < |t| ==> dataCnt <= |t[k].1|
    ensures Pivot(t, dataCnt).Ok? ==> |Pivot(t, dataCnt).value| == RowCount(dataCnt) + 1
  {
  }

  /** With no comma in any key, the header splits back into the keys. */
  lemma HeaderSplits(t: seq<Entry<string>>, dataCnt: int)
    requires |t| > 0 && Pivot(t, dataCnt).Ok?
    requires forall k :: 0 <= k < |t| ==> ',' !in t[k].0
    ensures Split(Pivot(t, dataCnt).value[0], ',') == Keys(t)
  {
    SplitJoin(Keys(t), ',');
  }

  /**
   * No quoting: line `i + 1` splits back into row `i` when no value contains a comma,
   * and it has exactly one field per column only then.
   */
  lemma RowSplits(t: seq<Entry<string>>, dataCnt: int, i: nat)
    requires |t| > 0 && Pivot(t, dataCnt).Ok? && i < RowCount(dataCnt)
    ensures var fields := Split(Pivot(t, dataCnt).value[i + 1], ',');
      |fields| >= |t|
      && (|fields| == |t| <==> forall k :: 0 <= k < |t| ==> ',' !in t[k].1[i])
      && ((forall k :: 0 <= k < |t| ==> ',' !in t[k].1[i]) ==> fields == Row(t, i))
  {
    var row := Row(t, i);
    SplitJoinFieldCount(row, ',');
    if forall k :: 0 <= k < |t| ==> ',' !in t[k].1[i] {
      SplitJoin(row, ',');
    }
  }

  /** An empty table gives an empty header and `dataCnt` empty lines. */
  lemma EmptyTable(dataCnt: int)
    ensures Pivot([], dataCnt) == Ok(seq(RowCount(dataCnt) + 1, _ => ""))
  {
    var lines := Pivot([], dataCnt).value;
    forall i | 0 < i < |lines| ensures lines[i] == "" {
      assert Row([], i - 1) == [];
    }
    assert Keys<string>([]) == [];
    assert lines == seq(RowCount(dataCnt) + 1, _ => "");
  }
}
