/** The older StepId.GetFaker: one independently drawn step code per row, with no repeats. */
module LegacyStepId {
  import opened Outcomes
  import opened Bogus
  import StepId

  /** `n` codes drawn one after another from `f`. */
  function Codes(f: Faker, n: nat): (r: seq<string>)
    ensures |r| == n && forall k :: 0 <= k < n ==> StepId.IsStepCode(r[k])
    decreases n
  {
    if n == 0 then []
    else
      var drawn := StepId.DrawCode(f);
      [drawn.0] + Codes(drawn.1, n - 1)
  }

  /** `count` step codes; `length` is never read; a negative count throws. */
  function GetFaker(faker: Faker, count: int, length: int := 8): (r: Result<seq<string>>)
    ensures r.Ok? <==> count >= 0
    ensures r.Ok? ==> |r.value| == count && forall k :: 0 <= k < count ==> StepId.IsStepCode(r.value[k])
  {
    if count < 0 then Err(NegativeCount) else Ok(Codes(faker, count))
  }

  /** The older generator draws exactly what the current one draws with no grouping (`pno` not positive). */
  lemma {:induction false} CodesAreUngroupedRuns(f: Faker, n: nat)
    ensures Codes(f, n) == StepId.Expand(StepId.Runs(f, n, 0))
    decreases n
  {
    if n > 0 {
      var drawn := StepId.DrawCode(f);
      var runs := StepId.Runs(f, n, 0);
      assert runs == [StepId.Run(drawn.0, 1, 1)] + StepId.Runs(drawn.1, n - 1, 0);
      assert runs[1..] == StepId.Runs(drawn.1, n - 1, 0);
      CodesAreUngroupedRuns(drawn.1, n - 1);
    }
  }

  /** For a non-negative count, the older generator equals the current one called with `pno` = 0. */
  lemma UngroupedStepIds(f: Faker, count: int)
    requires count >= 0
    ensures GetFaker(f, count) == Ok(StepId.Values(f, count, 0))
  {
    CodesAreUngroupedRuns(f, count);
  }
}
