/**
 * StepId.GetFaker: step codes emitted in runs. Each outer iteration draws a code
 * and a repeat count between 1 and `pno`, then emits the code that many times,
 * cutting the run short when `count` values are out.
 */
module StepId {
  import opened Bogus
  import Constants

  /** A step code: two letters of UpperString followed by six of DigitsString. */
  predicate IsStepCode(s: string)
  {
    && |s| == 8
    && (forall k :: 0 <= k < 2 ==> s[k] in Constants.UpperString)
    && (forall k :: 2 <= k < 8 ==> s[k] in Constants.DigitsString)
  }

  /** One code: string.Concat of the two draws. */
  function DrawCode(f: Faker): (r: (string, Faker))
    ensures IsStepCode(r.0)
  {
    var letters := String2(f, 2, Constants.UpperString).value;
    var digits := String2(letters.1, 6, Constants.DigitsString).value;
    (letters.0 + digits.0, digits.1)
  }

  /** The longest run a `pno` allows: `pno` itself, or 1 when it is not positive. */
  function MaxRun(pno: int): nat
  {
    if pno > 0 then pno else 1
  }

  /** The repeat count: Random.Int(1, pno) when `pno` is positive, otherwise 1 without a draw. */
  function DrawRepeat(f: Faker, pno: int): (r: (int, Faker))
    ensures 1 <= r.0 <= MaxRun(pno)
  {
    if pno > 0 then Int(f, 1, pno).value else (1, f)
  }

  /** One run of the output: the code, the repeat count drawn for it, and how many copies were emitted. */
  datatype Run = Run(code: string, drawn: int, emitted: nat)

  /** The runs that emit the next `remaining` values. */
  function Runs(f: Faker, remaining: nat, pno: int): seq<Run>
    decreases remaining
  {
    if remaining == 0 then []
    else
      var (code, g) := DrawCode(f);
      var (repeat, h) := DrawRepeat(g, pno);
      var emitted := Emitted(repeat, remaining);
      [Run(code, repeat, emitted)] + Runs(h, remaining - emitted, pno)
  }

  /** `n` copies of `code`. */
  function Repeat(code: string, n: nat): (r: seq<string>)
    ensures |r| == n && forall k :: 0 <= k < n ==> r[k] == code
  {
    if n == 0 then [] else [code] + Repeat(code, n - 1)
  }

  /** The values the runs emit, in order. */
  function Expand(runs: seq<Run>): seq<string>
  {
    if |runs| == 0 then [] else Repeat(runs[0].code, runs[0].emitted) + Expand(runs[1..])
  }

  /** The values GetFaker returns for a given count: none when the count is not positive. */
  function Values(f: Faker, count: int, pno: int): seq<string>
  {
    Expand(Runs(f, if count > 0 then count else 0, pno))
  }

  /** How many copies a run emits when `remaining` values are still due. */
  function Emitted(repeat: int, remaining: nat): nat
  {
    if repeat < remaining then if repeat < 0 then 0 else repeat else remaining
  }

  /** What the loop returns once it holds `result` and `f` is the Faker's state: the outer iteration, unrolled. */
  function Completion(f: Faker, result: seq<string>, count: int, pno: int): seq<string>
    decreases count - |result|
  {
    if |result| >= count then result
    else
      var drawn := DrawCode(f);
      var repeat := DrawRepeat(drawn.1, pno);
      Completion(repeat.1, result + Repeat(drawn.0, Emitted(repeat.0, count - |result|)), count, pno)
  }

  /** The loop's completion is what it already holds followed by the runs still due. */
  lemma {:induction false} CompletionIsRuns(f: Faker, result: seq<string>, count: int, pno: int)
    requires |result| <= count
    ensures Completion(f, result, count, pno) == result + Expand(Runs(f, count - |result|, pno))
    decreases count - |result|
  {
    if |result| < count {
      var drawn := DrawCode(f);
      var repeat := DrawRepeat(drawn.1, pno);
      var remaining := count - |result|;
      var emitted := Emitted(repeat.0, remaining);
      var next := result + Repeat(drawn.0, emitted);
      CompletionIsRuns(repeat.1, next, count, pno);
      var runs := Runs(f, remaining, pno);
      assert runs[1..] == Runs(repeat.1, remaining - emitted, pno);
      assert Expand(runs) == Repeat(drawn.0, emitted) + Expand(runs[1..]);
    }
  }

  /** One more copy goes at the end. */
  lemma {:induction false} RepeatAppend(code: string, n: nat)
    ensures Repeat(code, n + 1) == Repeat(code, n) + [code]
  {
    if n > 0 {
      RepeatAppend(code, n - 1);
    }
  }

  /** The inner loop: appends `stepId` until `repeatCount` copies are out or `count` values are reached. */
  method AppendRun(start: seq<string>, stepId: string, repeatCount: int, count: int) returns (result: seq<string>)
    requires |start| < count
    ensures result == start + Repeat(stepId, Emitted(repeatCount, count - |start|))
  {
    ghost var emitted := Emitted(repeatCount, count - |start|);
    result := start;
    var i := 0;
    while i < repeatCount && |result| < count
      invariant 0 <= i <= emitted
      invariant result == start + Repeat(stepId, i)
    {
      RepeatAppend(stepId, i);
      result := result + [stepId];
      i := i + 1;
    }
  }

  method GetFaker(faker: Faker, count: int, pno: int := 1, length: int := 8) returns (result: seq<string>)
    ensures result == Values(faker, count, pno)
  {
    result := [];
    var f := faker;
    while |result| < count
      invariant Completion(f, result, count, pno) == Completion(faker, [], count, pno)
      decreases count - |result|
    {
      var drawn := DrawCode(f);
      var stepId := drawn.0;
      var repeat := DrawRepeat(drawn.1, pno);
      var repeatCount := repeat.0;
      f := repeat.1;
      result := AppendRun(result, stepId, repeatCount, count);
    }
    if count > 0 {
      CompletionIsRuns(faker, [], count, pno);
    }
  }

  /** The runs emit exactly the values still due. */
  lemma {:induction false} RunsLength(f: Faker, remaining: nat, pno: int)
    ensures |Expand(Runs(f, remaining, pno))| == remaining
    decreases remaining
  {
    if remaining > 0 {
      var drawn := DrawCode(f);
      var repeat := DrawRepeat(drawn.1, pno);
      var emitted := Emitted(repeat.0, remaining);
      var runs := Runs(f, remaining, pno);
      var rest := Runs(repeat.1, remaining - emitted, pno);
      assert runs == [Run(drawn.0, repeat.0, emitted)] + rest;
      assert runs[1..] == rest;
      assert Expand(runs) == Repeat(drawn.0, emitted) + Expand(rest);
      RunsLength(repeat.1, remaining - emitted, pno);
    }
  }

  /**
   * Every run carries a step code and emits between 1 and MaxRun(pno) copies;
   * every run but the last emits all the copies drawn for it.
   */
  lemma {:induction false} RunsShape(f: Faker, remaining: nat, pno: int)
    ensures forall k :: 0 <= k < |Runs(f, remaining, pno)| ==>
      var run := Runs(f, remaining, pno)[k];
      IsStepCode(run.code) && 1 <= run.emitted <= run.drawn <= MaxRun(pno)
    ensures forall k :: 0 <= k < |Runs(f, remaining, pno)| - 1 ==>
      Runs(f, remaining, pno)[k].emitted == Runs(f, remaining, pno)[k].drawn
    decreases remaining
  {
    if remaining > 0 {
      var drawn := DrawCode(f);
      var repeat := DrawRepeat(drawn.1, pno);
      var emitted := Emitted(repeat.0, remaining);
      var runs := Runs(f, remaining, pno);
      var rest := Runs(repeat.1, remaining - emitted, pno);
      assert runs == [Run(drawn.0, repeat.0, emitted)] + rest;
      RunsShape(repeat.1, remaining - emitted, pno);
      forall k | 0 <= k < |runs|
        ensures IsStepCode(runs[k].code) && 1 <= runs[k].emitted <= runs[k].drawn <= MaxRun(pno)
      {
        if k > 0 { assert runs[k] == rest[k - 1]; }
      }
      forall k | 0 <= k < |runs| - 1
        ensures runs[k].emitted == runs[k].drawn
      {
        if k > 0 {
          assert runs[k] == rest[k - 1];
        }
      }
    }
  }

  /** With `pno` at most 1 (including its default), every run is a single value. */
  lemma SingleValueRuns(f: Faker, remaining: nat, pno: int)
    requires pno <= 1
    ensures forall k :: 0 <= k < |Runs(f, remaining, pno)| ==> Runs(f, remaining, pno)[k].emitted == 1
  {
    RunsShape(f, remaining, pno);
  }

  /** The values of runs that all carry step codes are step codes. */
  lemma {:induction false} ExpandCodes(runs: seq<Run>)
    requires forall k :: 0 <= k < |runs| ==> IsStepCode(runs[k].code)
    ensures forall k :: 0 <= k < |Expand(runs)| ==> IsStepCode(Expand(runs)[k])
  {
    if |runs| > 0 {
      ExpandCodes(runs[1..]);
      var head := Repeat(runs[0].code, runs[0].emitted);
      assert Expand(runs) == head + Expand(runs[1..]);
      forall k | 0 <= k < |Expand(runs)| ensures IsStepCode(Expand(runs)[k]) {
        if k >= |head| {
          assert Expand(runs)[k] == Expand(runs[1..])[k - |head|];
        }
      }
    }
  }

  /** GetFaker returns `count` step codes when `count` is positive, none otherwise. */
  lemma ValuesShape(f: Faker, count: int, pno: int)
    ensures |Values(f, count, pno)| == if count > 0 then count else 0
    ensures forall k :: 0 <= k < |Values(f, count, pno)| ==> IsStepCode(Values(f, count, pno)[k])
  {
    var remaining := if count > 0 then count else 0;
    RunsLength(f, remaining, pno);
    RunsShape(f, remaining, pno);
    ExpandCodes(Runs(f, remaining, pno));
  }
}
