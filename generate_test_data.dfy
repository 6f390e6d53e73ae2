/** GenerateTestData: the preview's lines as one CSV text, under a `.csv` file name. */
module GenerateTestData {
  import opened Outcomes
  import opened Strings
  import opened Bogus
  import opened CustomRules
  import GenDataSetService
  import DataPivotConverter
  import PreviewTestData

  /** The requested file format; the handler never reads it. */
  datatype FileFormatType = FileFormatType(ordinal: int)

  datatype Request = Request(fileName: string, columns: seq<CustomColumn>, dataCnt: int, fileFormatType: FileFormatType)
  datatype Response = Response(fileName: string, content: string, contentType: string)

  const ContentType: string := "text/csv"
  const Extension: string := ".csv"

  /** Position just after the last '/', or 0 when there is none. */
  function NameStart(path: string): (i: nat)
    ensures i <= |path| && '/' !in path[i..]
    ensures i > 0 ==> path[i - 1] == '/'
  {
    if |path| == 0 then 0
    else if path[|path| - 1] == '/' then |path|
    else
      var i := NameStart(path[..|path| - 1]);
      assert path[i..] == path[..|path| - 1][i..] + [path[|path| - 1]];
      i
  }

  /** Path.GetFileName with '/' as the only directory separator: the text after the last '/', or the whole path without one. */
  function GetFileName(path: string): (name: string)
    ensures '/' !in name && |name| <= |path| && name == path[|path| - |name|..]
    ensures |name| < |path| ==> path[|path| - |name| - 1] == '/'
  {
    path[NameStart(path)..]
  }

  /** Position of the last '.', if any. */
  function LastDot(s: string): (r: int)
    ensures -1 <= r < |s|
    ensures r >= 0 ==> s[r] == '.' && '.' !in s[r + 1..]
    ensures r < 0 ==> '.' !in s
  {
    if |s| == 0 then -1
    else if s[|s| - 1] == '.' then |s| - 1
    else
      var r := LastDot(s[..|s| - 1]);
      assert r >= 0 ==> s[r + 1..] == s[..|s| - 1][r + 1..] + [s[|s| - 1]];
      assert r < 0 ==> s == s[..|s| - 1] + [s[|s| - 1]];
      r
  }

  /**
   * Path.GetFileNameWithoutExtension: the file name (the text after the last '/')
   * cut before its last '.', or whole when it has no '.'.
   */
  function GetFileNameWithoutExtension(path: string): (stem: string)
    ensures '/' !in stem && |stem| <= |path|
    ensures var name := GetFileName(path);
      stem <= name && (|stem| == |name| <==> '.' !in name)
    ensures var name := GetFileName(path);
      |stem| < |name| ==> name[|stem|] == '.' && '.' !in name[|stem| + 1..]
  {
    var name := GetFileName(path);
    var dot := LastDot(name);
    if dot < 0 then name else name[..dot]
  }

  /** The handler's file-name rule: a blank name becomes "dataset-<timestamp>.csv", any other its stem plus ".csv". */
  function CsvFileName(name: string, timestamp: string): (r: string)
    ensures |r| >= 4 && r[|r| - 4..] == Extension
    ensures '/' !in timestamp ==> '/' !in r
    ensures IsNullOrWhiteSpace(name) ==> |r| == 12 + |timestamp| && r[..8] == "dataset-" && timestamp <= r[8..]
    ensures !IsNullOrWhiteSpace(name) ==> r[..|r| - 4] == GetFileNameWithoutExtension(name)
  {
    if IsNullOrWhiteSpace(name) then "dataset-" + timestamp + Extension
    else GetFileNameWithoutExtension(name) + Extension
  }

  /** Handler.GenDataSets; DateTime.Now is the `timestamp` parameter, rendered as yyyyMMddHHmmss. */
  function GenDataSets(request: Request, fakers: nat -> Faker, timestamp: string): (r: Result<Response>)
    ensures var generated := GenDataSetService.Generate(request.fileName, request.columns, request.dataCnt, fakers);
      generated.Err? ==> r == Err(generated.fault)
    ensures r.Ok? ==>
      (r.value.contentType == ContentType
       && |r.value.fileName| >= 4 && r.value.fileName[|r.value.fileName| - 4..] == Extension)
  {
    match GenDataSetService.Generate(request.fileName, request.columns, request.dataCnt, fakers)
    case Err(e) => Err(e)
    case Ok(generated) =>
      match DataPivotConverter.Pivot(generated.dataSets, request.dataCnt)
      case Err(e) => Err(e)
      case Ok(csvLines) => Ok(Response(CsvFileName(generated.fileName, timestamp), Join("\n", csvLines), ContentType))
  }

  lemma {:induction false} NameStartWithoutSlash(path: string)
    requires '/' !in path
    ensures NameStart(path) == 0
  {
    if |path| > 0 {
      assert path[|path| - 1] in path;
      NameStartWithoutSlash(path[..|path| - 1]);
    }
  }

  lemma {:induction false} LastDotWithoutDot(s: string)
    requires '.' !in s
    ensures LastDot(s) == -1
  {
    if |s| > 0 {
      assert s[|s| - 1] in s;
      LastDotWithoutDot(s[..|s| - 1]);
    }
  }

  /** The stem of a name without '/' and '.' is the name itself. */
  lemma StemOfPlainName(name: string)
    requires '/' !in name && '.' !in name
    ensures GetFileNameWithoutExtension(name) == name
  {
    NameStartWithoutSlash(name);
    LastDotWithoutDot(name);
  }

  /** A stem followed by ".csv" has that stem back. */
  lemma StemOfCsv(stem: string)
    requires '/' !in stem
    ensures GetFileNameWithoutExtension(stem + Extension) == stem
  {
    var s := stem + Extension;
    NameStartWithoutSlash(s);
    var cs := stem + ".cs";
    var c := stem + ".c";
    var dot := stem + ".";
    assert LastDot(dot) == |stem|;
    assert c[..|c| - 1] == dot && c[|c| - 1] == 'c';
    assert LastDot(c) == |stem|;
    assert cs[..|cs| - 1] == c && cs[|cs| - 1] == 's';
    assert LastDot(cs) == |stem|;
    assert s[..|s| - 1] == cs && s[|s| - 1] == 'v';
    assert LastDot(s) == |stem|;
    assert s[..|stem|] == stem;
  }

  /** Normalising a normalised name changes nothing more. */
  lemma CsvFileNameIdempotent(name: string, timestamp: string)
    requires '/' !in timestamp
    ensures CsvFileName(CsvFileName(name, timestamp), timestamp) == CsvFileName(name, timestamp)
  {
    var first := CsvFileName(name, timestamp);
    var stem := first[..|first| - 4];
    assert first == stem + Extension;
    assert first[|first| - 4] == '.' && !IsWhiteSpace('.');
    StemOfCsv(stem);
  }

  /** The requested file format makes no difference to the response. */
  lemma FormatIgnored(request: Request, other: FileFormatType, fakers: nat -> Faker, timestamp: string)
    ensures GenDataSets(request, fakers, timestamp) == GenDataSets(request.(fileFormatType := other), fakers, timestamp)
  {
  }

  /**
   * The download is the preview of the same request: it fails exactly when the
   * preview does, its content is the preview's lines joined by "\n", its name is
   * the preview's name normalised to ".csv", and its content type is "text/csv".
   */
  lemma DownloadIsPreview(request: Request, fakers: nat -> Faker, timestamp: string)
    ensures var preview := PreviewTestData.GenDataSets(PreviewTestData.Request(request.fileName, request.columns, request.dataCnt), fakers);
      GenDataSets(request, fakers, timestamp).Ok? <==> preview.Ok?
    ensures var preview := PreviewTestData.GenDataSets(PreviewTestData.Request(request.fileName, request.columns, request.dataCnt), fakers);
      var r := GenDataSets(request, fakers, timestamp);
      r.Ok? ==>
        (r.value.content == Join("\n", preview.value.dataSets)
         && r.value.fileName == CsvFileName(preview.value.fileName, timestamp)
         && r.value.contentType == "text/csv")
  {
    PreviewTestData.PreviewOutcome(PreviewTestData.Request(request.fileName, request.columns, request.dataCnt), fakers);
  }

  /** When no line holds a newline, splitting the content on '\n' gives back the preview's lines. */
  lemma ContentSplitsIntoLines(request: Request, fakers: nat -> Faker, timestamp: string)
    requires GenDataSets(request, fakers, timestamp).Ok?
    ensures var preview := PreviewTestData.GenDataSets(PreviewTestData.Request(request.fileName, request.columns, request.dataCnt), fakers);
      var lines := preview.value.dataSets;
      (forall k :: 0 <= k < |lines| ==> '\n' !in lines[k]) ==>
        Split(GenDataSets(request, fakers, timestamp).value.content, '\n') == lines
  {
    var preview := PreviewTestData.GenDataSets(PreviewTestData.Request(request.fileName, request.columns, request.dataCnt), fakers);
    DownloadIsPreview(request, fakers, timestamp);
    var lines := preview.value.dataSets;
    if forall k :: 0 <= k < |lines| ==> '\n' !in lines[k] {
      assert |lines| > 0;
      SplitJoin(lines, '\n');
    }
  }
}
