/** PreviewTestData: generate the table for a request and return it as comma-joined lines. */
module PreviewTestData {
  import opened Outcomes
  import opened Strings
  import opened Bogus
  import opened CustomRules
  import GenDataSetService
  import DataPivotConverter

  datatype Request = Request(fileName: string, columns: seq<CustomColumn>, dataCnt: int)
  datatype Response = Response(fileName: string, dataSets: seq<string>)

  /** Handler.GenDataSets: the service, then the pivot of its table; an exception of either propagates. */
  function GenDataSets(request: Request, fakers: nat -> Faker): (r: Result<Response>)
    ensures var generated := GenDataSetService.Generate(request.fileName, request.columns, request.dataCnt, fakers);
      generated.Err? ==> r == Err(generated.fault)
    ensures var generated := GenDataSetService.Generate(request.fileName, request.columns, request.dataCnt, fakers);
      r.Ok? ==>
        (generated.Ok? && r.value.fileName == generated.value.fileName
         && |r.value.dataSets| == RowCount(request.dataCnt) + 1)
  {
    match GenDataSetService.Generate(request.fileName, request.columns, request.dataCnt, fakers)
    case Err(e) => Err(e)
    case Ok(generated) =>
      match DataPivotConverter.Pivot(generated.dataSets, request.dataCnt)
      case Err(e) => Err(e)
      case Ok(lines) => Ok(Response(generated.fileName, lines))
  }

  /**
   * A preview fails exactly when the service does (the pivot of a generated table
   * never fails); it returns the substituted name unchanged, the header of the
   * expected keys, and one line per row.
   */
  lemma PreviewOutcome(request: Request, fakers: nat -> Faker)
    ensures var generated := GenDataSetService.Generate(request.fileName, request.columns, request.dataCnt, fakers);
      GenDataSets(request, fakers).Ok? <==> generated.Ok?
    ensures var generated := GenDataSetService.Generate(request.fileName, request.columns, request.dataCnt, fakers);
      var r := GenDataSets(request, fakers);
      r.Ok? ==>
        (r.value.fileName == generated.value.fileName
         && |r.value.dataSets| == RowCount(request.dataCnt) + 1
         && r.value.dataSets[0] == Join(",", GenDataSetService.ExpectedKeys(request.columns, 0)))
  {
    var generated := GenDataSetService.Generate(request.fileName, request.columns, request.dataCnt, fakers);
    if generated.Ok? {
      GenDataSetService.GeneratedColumnsFull(request.fileName, request.columns, request.dataCnt, fakers);
      GenDataSetService.GenerateOutcome(request.fileName, request.columns, request.dataCnt, fakers);
      assert DataPivotConverter.Covers(generated.value.dataSets, request.dataCnt);
    }
  }

  /** Without title columns, or with no '{' in the template, the preview keeps the requested name. */
  lemma PreviewKeepsName(request: Request, fakers: nat -> Faker)
    requires (forall j :: 0 <= j < |request.columns| ==> !request.columns[j].options.useTitle) || '{' !in request.fileName
    ensures GenDataSets(request, fakers).Ok? ==> GenDataSets(request, fakers).value.fileName == request.fileName
  {
    GenDataSetService.NameKept(request.fileName, request.columns, request.dataCnt, fakers);
  }
}
