/** The character classes the generators draw from (Constants.DataFormat). */
module Constants {
  import opened Tables

  const UpperString: string := "ABCDEFGHIJKLMNOPQRSTUVWXYZ"
  const LowerString: string := "abcdefghijklmnopqrstuvwxyz"
  const DigitsString: string := "0123456789"

  /** `s` lists the characters from `first` onwards, each exactly once and in code-point order. */
  predicate Consecutive(s: string, first: char)
  {
    forall k :: 0 <= k < |s| ==> s[k] as int == first as int + k
  }

  /** A string of consecutive characters holds exactly the characters of its range, once each. */
  lemma ConsecutiveRange(s: string, first: char)
    requires Consecutive(s, first)
    ensures Distinct(s)
    ensures forall c :: c in s <==> first as int <= c as int < first as int + |s|
  {
    forall c | first as int <= c as int < first as int + |s| ensures c in s {
      assert s[c as int - first as int] == c;
    }
  }

  /** UpperString is A..Z: 26 distinct characters. */
  lemma UpperStringIsAToZ()
    ensures |UpperString| == 26 && Distinct(UpperString)
    ensures forall c :: c in UpperString <==> 'A' <= c <= 'Z'
  {
    assert Consecutive(UpperString, 'A');
    ConsecutiveRange(UpperString, 'A');
  }

  /** LowerString is a..z: 26 distinct characters. */
  lemma LowerStringIsAToZ()
    ensures |LowerString| == 26 && Distinct(LowerString)
    ensures forall c :: c in LowerString <==> 'a' <= c <= 'z'
  {
    assert Consecutive(LowerString, 'a');
    ConsecutiveRange(LowerString, 'a');
  }

  /** DigitsString is 0..9: 10 distinct characters. */
  lemma DigitsStringIsZeroToNine()
    ensures |DigitsString| == 10 && Distinct(DigitsString)
    ensures forall c :: c in DigitsString <==> '0' <= c <= '9'
  {
    assert Consecutive(DigitsString, '0');
    ConsecutiveRange(DigitsString, '0');
  }

  /** The three alphabets share no character. */
  lemma AlphabetsDisjoint()
    ensures forall c :: c in UpperString ==> c !in LowerString && c !in DigitsString
    ensures forall c :: c in LowerString ==> c !in DigitsString
  {
    UpperStringIsAToZ();
    LowerStringIsAToZ();
    DigitsStringIsZeroToNine();
  }
}
