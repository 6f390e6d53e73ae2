/**
 * The random source the generators draw from (Bogus's Faker). Only what the
 * generators rely on is modelled: a draw is taken from an unbounded stream of
 * raw values, so every property proved below holds whatever values are drawn.
 */
module Bogus {
  import opened Outcomes

  /** A Faker: the stream of raw draws and the position of the next one. */
  datatype Faker = Faker(raw: nat -> nat, cursor: nat)

  /** Takes the next raw draw. */
  function Next(f: Faker): (nat, Faker)
  {
    (f.raw(f.cursor), f.(cursor := f.cursor + 1))
  }

  /** Every character of `s` is one of `chars`. */
  predicate DrawnFrom(s: string, chars: string)
  {
    forall k :: 0 <= k < |s| ==> s[k] in chars
  }

  /**
   * The largest value Random.Int(min, max) can return. Bogus draws with
   * Random.Next(min, max + 1), whose range is empty when min == max + 1: it then
   * returns min itself.
   */
  function NumberMax(min: int, max: int): int
  {
    if min <= max then max else min
  }

  /**
   * Random.Int(min, max): a whole number between the two bounds, both included;
   * `min` itself when min == max + 1; an exception when min > max + 1.
   */
  function Int(f: Faker, min: int, max: int): (r: Result<(int, Faker)>)
    ensures r.Ok? <==> min <= max + 1
    ensures r.Ok? ==> min <= r.value.0 <= NumberMax(min, max)
  {
    if min > max + 1 then Err(InvalidDraw)
    else if min == max + 1 then Ok((min, f))
    else
      var (d, g) := Next(f);
      Ok((min + d % (max - min + 1), g))
  }

  /** Random.String2(length, chars): `length` characters, each drawn from `chars`. */
  function String2(f: Faker, length: int, chars: string): (r: Result<(string, Faker)>)
    ensures r.Ok? <==> 0 <= length && (length == 0 || |chars| > 0)
    ensures r.Ok? ==> |r.value.0| == length && DrawnFrom(r.value.0, chars)
    decreases if length < 0 then 0 else length
  {
    if length < 0 then Err(InvalidDraw)
    else if length == 0 then Ok(([], f))
    else if |chars| == 0 then Err(IndexOutOfRange)
    else
      var (d, g) := Next(f);
      var rest := String2(g, length - 1, chars);
      Ok(([chars[d % |chars|]] + rest.value.0, rest.value.1))
  }

  /**
   * Random.String2(minLength, maxLength, chars): a length drawn with Random.Int,
   * then that many characters from `chars`.
   */
  function String2Range(f: Faker, minLength: int, maxLength: int, chars: string): (r: Result<(string, Faker)>)
    ensures minLength > maxLength + 1 ==> r.Err?
    ensures 0 <= minLength <= maxLength + 1 && |chars| > 0 ==> r.Ok?
    ensures r.Ok? ==> minLength <= |r.value.0| <= NumberMax(minLength, maxLength) && DrawnFrom(r.value.0, chars)
  {
    match Int(f, minLength, maxLength)
    case Err(e) => Err(e)
    case Ok((length, g)) => String2(g, length, chars)
  }
}
