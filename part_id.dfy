/** PartId.GetFaker: eight-character part codes. */
module PartId {
  import opened Outcomes
  import opened Bogus
  import Constants

  /** A part code: a letter, six letters or digits, a letter. */
  predicate IsPartCode(s: string)
  {
    && |s| == 8
    && s[0] in Constants.UpperString
    && (forall k :: 1 <= k < 7 ==> s[k] in Constants.UpperString + Constants.DigitsString)
    && s[7] in Constants.UpperString
  }

  /** One code: string.Concat of the three draws. */
  function Code(f: Faker): (r: (string, Faker))
    ensures IsPartCode(r.0)
  {
    var head := String2(f, 1, Constants.UpperString).value;
    var body := String2(head.1, 6, Constants.UpperString + Constants.DigitsString).value;
    var tail := String2(body.1, 1, Constants.UpperString).value;
    (head.0 + body.0 + tail.0, tail.1)
  }

  /** `n` codes drawn one after another from `f`. */
  function Codes(f: Faker, n: nat): (r: seq<string>)
    ensures |r| == n && forall k :: 0 <= k < n ==> IsPartCode(r[k])
    decreases n
  {
    if n == 0 then []
    else
      var (code, g) := Code(f);
      [code] + Codes(g, n - 1)
  }

  /** `count` part codes; `length` is never read; a negative count throws. */
  function GetFaker(faker: Faker, count: int, length: int := 6): (r: Result<seq<string>>)
    ensures r.Ok? <==> count >= 0
    ensures r.Ok? ==> |r.value| == count && forall k :: 0 <= k < count ==> IsPartCode(r.value[k])
  {
    if count < 0 then Err(NegativeCount) else Ok(Codes(faker, count))
  }

  /** The declared `length` makes no difference to what is drawn. */
  lemma LengthUnused(faker: Faker, count: int, length: int)
    ensures GetFaker(faker, count, length) == GetFaker(faker, count)
  {
  }
}
