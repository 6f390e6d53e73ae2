/** CustomDataToString.GetFaker: strings of a drawn length over the options' character class. */
module CustomDataToString {
  import opened Outcomes
  import opened Bogus
  import opened DataFormatTypes
  import opened CustomRules

  /** `n` strings drawn one after another from `f`. */
  function Strings(f: Faker, n: nat, minLength: int, maxLength: int, chars: string): (r: Result<seq<string>>)
    ensures n > 0 && minLength > maxLength + 1 ==> r.Err?
    ensures 0 <= minLength <= maxLength + 1 && |chars| > 0 ==> r.Ok?
    ensures r.Ok? ==> |r.value| == n && forall k :: 0 <= k < n ==>
      minLength <= |r.value[k]| <= NumberMax(minLength, maxLength) && DrawnFrom(r.value[k], chars)
    decreases n
  {
    if n == 0 then Ok([])
    else
      match String2Range(f, minLength, maxLength, chars)
      case Err(e) => Err(e)
      case Ok(drawn) =>
        match Strings(drawn.1, n - 1, minLength, maxLength, chars)
        case Err(e) => Err(e)
        case Ok(rest) => Ok([drawn.0] + rest)
  }

  /**
   * `count` strings, each of a length between MinLength and MaxLength drawn from
   * the FormatType's alphabet (MinLength itself when MaxLength is one less); a
   * negative count throws.
   */
  function GetFaker(faker: Faker, options: FieldOptions, count: int): (r: Result<seq<string>>)
    ensures count < 0 ==> r == Err(NegativeCount)
    ensures count == 0 ==> r == Ok([])
    ensures count > 0 && options.minLength > options.maxLength + 1 ==> r.Err?
    ensures count > 0 && 0 <= options.minLength <= options.maxLength + 1 && !options.formatType.Undeclared? ==> r.Ok?
    ensures r.Ok? ==> |r.value| == count && forall k :: 0 <= k < count ==>
      options.minLength <= |r.value[k]| <= NumberMax(options.minLength, options.maxLength)
      && DrawnFrom(r.value[k], ToDataFormatString(options.formatType))
  {
    if count < 0 then Err(NegativeCount)
    else Strings(faker, count, options.minLength, options.maxLength, ToDataFormatString(options.formatType))
  }

  /** Every character generated belongs to the format's character class. */
  lemma CharactersInClass(faker: Faker, options: FieldOptions, count: int)
    ensures var r := GetFaker(faker, options, count);
      r.Ok? ==> forall k, j :: 0 <= k < |r.value| && 0 <= j < |r.value[k]| ==> InClass(options.formatType, r.value[k][j])
  {
    FormatStringIsClass(options.formatType);
  }

  /** Only MinLength, MaxLength and FormatType are read from the options. */
  lemma ReadsOnlyLengthsAndFormat(faker: Faker, a: FieldOptions, b: FieldOptions, count: int)
    requires a.minLength == b.minLength && a.maxLength == b.maxLength && a.formatType == b.formatType
    ensures GetFaker(faker, a, count) == GetFaker(faker, b, count)
  {
  }

  /**
   * MaxLength one below MinLength is no error: the drawn length is MinLength, so
   * every string has exactly MinLength characters.
   */
  lemma OnePastMaxLength(faker: Faker, options: FieldOptions, count: int)
    requires count > 0 && options.minLength >= 0 && options.maxLength == options.minLength - 1
    requires !options.formatType.Undeclared?
    ensures var r := GetFaker(faker, options, count);
      r.Ok? && forall k :: 0 <= k < count ==> |r.value[k]| == options.minLength
  {
    assert NumberMax(options.minLength, options.maxLength) == options.minLength;
  }
}
