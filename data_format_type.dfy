/** The DataFormatType enum and its mapping to a character class. */
module DataFormatTypes {
  import Constants

  /**
   * The enum's three members; a value outside them (an enum in C# may hold
   * any int) is kept with its ordinal.
   */
  datatype DataFormatType = UpperString | LowerString | DigitsString | Undeclared(ordinal: int)

  /** Only one representation per ordinal: undeclared values avoid the members' ordinals. */
  predicate Canonical(t: DataFormatType)
  {
    t.Undeclared? ==> t.ordinal !in {0, 1, 2}
  }

  /** The enum's underlying value: members are numbered 0, 1, 2 in declaration order. */
  function Ordinal(t: DataFormatType): int
  {
    match t
    case UpperString => 0
    case LowerString => 1
    case DigitsString => 2
    case Undeclared(n) => n
  }

  /** Casting an int to the enum. */
  function FromOrdinal(n: int): (t: DataFormatType)
    ensures Canonical(t) && Ordinal(t) == n
  {
    if n == 0 then UpperString
    else if n == 1 then LowerString
    else if n == 2 then DigitsString
    else Undeclared(n)
  }

  /** Casting the underlying value back gives the enum value. */
  lemma FromOrdinalOfOrdinal(t: DataFormatType)
    requires Canonical(t)
    ensures FromOrdinal(Ordinal(t)) == t
  {
  }

  /** ToDataFormatString: the alphabet of each member, the empty string for any other value. */
  function ToDataFormatString(t: DataFormatType): (r: string)
    ensures r == "" <==> t.Undeclared?
  {
    match t
    case UpperString => Constants.UpperString
    case LowerString => Constants.LowerString
    case DigitsString => Constants.DigitsString
    case Undeclared(_) => ""
  }

  /** The character class each format stands for. */
  predicate InClass(t: DataFormatType, c: char)
  {
    match t
    case UpperString => 'A' <= c <= 'Z'
    case LowerString => 'a' <= c <= 'z'
    case DigitsString => '0' <= c <= '9'
    case Undeclared(_) => false
  }

  /** The mapped alphabet holds exactly the characters of the format's class. */
  lemma FormatStringIsClass(t: DataFormatType)
    ensures forall c :: c in ToDataFormatString(t) <==> InClass(t, c)
  {
    match t
    case UpperString => Constants.UpperStringIsAToZ();
    case LowerString => Constants.LowerStringIsAToZ();
    case DigitsString => Constants.DigitsStringIsZeroToNine();
    case Undeclared(_) =>
  }
}
