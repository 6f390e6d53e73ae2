/** CustomDataToString2.GetFaker: values picked from the options' CustomValues list. */
module CustomDataToString2 {
  import opened Outcomes
  import opened Bogus
  import opened CustomRules

  /**
   * One pick: an index drawn with Random.Int(0, Count - 1), then the value at that
   * index. For an empty list the draw returns 0, and indexing the list throws.
   */
  function Pick(f: Faker, values: seq<string>): (r: Result<(string, Faker)>)
    ensures r.Ok? <==> |values| > 0
    ensures r.Ok? ==> r.value.0 in values
    ensures |values| == 0 ==> r == Err(IndexOutOfRange)
  {
    match Int(f, 0, |values| - 1)
    case Err(e) => Err(e)
    case Ok(drawn) =>
      if drawn.0 < |values| then Ok((values[drawn.0], drawn.1)) else Err(IndexOutOfRange)
  }

  /** `n` picks made one after another from `f`. */
  function Picks(f: Faker, n: nat, values: seq<string>): (r: Result<seq<string>>)
    ensures r.Ok? <==> n == 0 || |values| > 0
    ensures r.Ok? ==> |r.value| == n && forall k :: 0 <= k < n ==> r.value[k] in values
    decreases n
  {
    if n == 0 then Ok([])
    else
      match Pick(f, values)
      case Err(e) => Err(e)
      case Ok(drawn) =>
        match Picks(drawn.1, n - 1, values)
        case Err(e) => Err(e)
        case Ok(rest) => Ok([drawn.0] + rest)
  }

  /** `count` values, each an element of CustomValues; a negative count, or an empty list with rows to fill, throws. */
  function GetFaker(faker: Faker, options: FieldOptions, count: int): (r: Result<seq<string>>)
    ensures r.Ok? <==> count == 0 || (count > 0 && |options.customValues| > 0)
    ensures r.Ok? ==> |r.value| == count && forall k :: 0 <= k < count ==> r.value[k] in options.customValues
  {
    if count < 0 then Err(NegativeCount) else Picks(faker, count, options.customValues)
  }
}
