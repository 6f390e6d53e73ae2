/** LineId.GetFaker: line codes of upper-case letters. */
module LineId {
  import opened Outcomes
  import opened Bogus
  import Constants

  /** A line code: `length` letters of UpperString. */
  predicate IsLineCode(s: string, length: int)
  {
    |s| == length && DrawnFrom(s, Constants.UpperString)
  }

  /** `n` codes drawn one after another from `f`. */
  function Codes(f: Faker, n: nat, length: int): (r: Result<seq<string>>)
    ensures r.Ok? <==> n == 0 || length >= 0
    ensures r.Ok? ==> |r.value| == n && forall k :: 0 <= k < n ==> IsLineCode(r.value[k], length)
    decreases n
  {
    if n == 0 then Ok([])
    else
      match String2(f, length, Constants.UpperString)
      case Err(e) => Err(e)
      case Ok((code, g)) =>
        match Codes(g, n - 1, length)
        case Err(e) => Err(e)
        case Ok(rest) => Ok([code] + rest)
  }

  /** `count` codes of `length` upper-case letters; a negative count throws. */
  function GetFaker(faker: Faker, count: int, length: int := 4): (r: Result<seq<string>>)
    ensures count < 0 ==> r == Err(NegativeCount)
    ensures r.Ok? <==> count == 0 || (count > 0 && length >= 0)
    ensures r.Ok? ==> |r.value| == count && forall k :: 0 <= k < count ==> IsLineCode(r.value[k], length)
  {
    if count < 0 then Err(NegativeCount) else Codes(faker, count, length)
  }
}
