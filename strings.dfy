/** The System.String operations the pipeline relies on, over `seq<char>`. */
module Strings {

  /** The summed lengths of the parts. */
  function TotalLength(parts: seq<string>): nat
  {
    if |parts| == 0 then 0 else |parts[0]| + TotalLength(parts[1..])
  }

  /**
   * string.Join(sep, parts): the parts with `sep` between neighbours, so it begins
   * with the first part and holds every character of the parts plus one separator
   * per pair of neighbours.
   */
  function Join(sep: string, parts: seq<string>): (r: string)
    ensures |parts| == 0 ==> r == ""
    ensures |parts| > 0 ==> |r| == TotalLength(parts) + (|parts| - 1) * |sep| && parts[0] <= r
  {
    if |parts| == 0 then ""
    else if |parts| == 1 then parts[0]
    else parts[0] + sep + Join(sep, parts[1..])
  }

  /** string.Split(c): the fields between occurrences of `c`; an empty string is one empty field. */
  function Split(s: string, c: char): (r: seq<string>)
    ensures |r| >= 1
  {
    if |s| == 0 then [""]
    else
      var rest := Split(s[1..], c);
      if s[0] == c then [""] + rest else [[s[0]] + rest[0]] + rest[1..]
  }

  /** Number of occurrences of `c` in `s`. */
  function CountChar(s: string, c: char): nat
  {
    if |s| == 0 then 0 else (if s[0] == c then 1 else 0) + CountChar(s[1..], c)
  }

  lemma {:induction false} CountCharAppend(a: string, b: string, c: char)
    ensures CountChar(a + b, c) == CountChar(a, c) + CountChar(b, c)
  {
    if |a| > 0 {
      assert (a + b)[1..] == a[1..] + b;
      CountCharAppend(a[1..], b, c);
    } else {
      assert a + b == b;
    }
  }

  lemma {:induction false} CountCharZero(s: string, c: char)
    ensures CountChar(s, c) == 0 <==> c !in s
  {
    if |s| > 0 {
      CountCharZero(s[1..], c);
      assert forall x :: x in s <==> x == s[0] || x in s[1..];
    }
  }

  /** A split yields one field more than there are separators. */
  lemma {:induction false} SplitFieldCount(s: string, c: char)
    ensures |Split(s, c)| == CountChar(s, c) + 1
  {
    if |s| > 0 {
      SplitFieldCount(s[1..], c);
    }
  }

  /** A string free of the separator is a single field. */
  lemma {:induction false} SplitFree(s: string, c: char)
    requires c !in s
    ensures Split(s, c) == [s]
  {
    if |s| > 0 {
      assert c !in s[1..] by { assert forall x :: x in s[1..] ==> x in s; }
      SplitFree(s[1..], c);
      assert [s[0]] + s[1..] == s;
    }
  }

  /** Splitting at the first separator: the text before it, then the split of the rest. */
  lemma {:induction false} SplitAtFirst(a: string, b: string, c: char)
    requires c !in a
    ensures Split(a + [c] + b, c) == [a] + Split(b, c)
  {
    if |a| == 0 {
      assert a + [c] + b == [c] + b;
      assert ([c] + b)[1..] == b;
    } else {
      assert (a + [c] + b)[1..] == a[1..] + [c] + b;
      assert c !in a[1..] by { assert forall x :: x in a[1..] ==> x in a; }
      SplitAtFirst(a[1..], b, c);
      assert [a[0]] + a[1..] == a;
    }
  }

  /** Joining fields that hold no separator and splitting again gives the fields back. */
  lemma {:induction false} SplitJoin(parts: seq<string>, c: char)
    requires |parts| > 0
    requires forall k :: 0 <= k < |parts| ==> c !in parts[k]
    ensures Split(Join([c], parts), c) == parts
  {
    if |parts| == 1 {
      SplitFree(parts[0], c);
    } else {
      SplitJoin(parts[1..], c);
      SplitAtFirst(parts[0], Join([c], parts[1..]), c);
      assert [parts[0]] + parts[1..] == parts;
    }
  }

  /** The separators in a join: those between neighbours plus those inside the parts. */
  lemma {:induction false} JoinCountChar(parts: seq<string>, c: char)
    requires |parts| > 0
    ensures CountChar(Join([c], parts), c) >= |parts| - 1
    ensures CountChar(Join([c], parts), c) == |parts| - 1 <==> forall k :: 0 <= k < |parts| ==> c !in parts[k]
  {
    if |parts| == 1 {
      CountCharZero(parts[0], c);
    } else {
      JoinCountChar(parts[1..], c);
      CountCharAppend(parts[0] + [c], Join([c], parts[1..]), c);
      CountCharAppend(parts[0], [c], c);
      CountCharZero(parts[0], c);
      assert CountChar([c], c) == 1;
      if forall k :: 0 <= k < |parts| ==> c !in parts[k] {
        assert forall k :: 0 <= k < |parts| - 1 ==> c !in parts[1..][k] by {
          forall k | 0 <= k < |parts| - 1 ensures c !in parts[1..][k] { assert parts[1..][k] == parts[k + 1]; }
        }
      } else {
        var k :| 0 <= k < |parts| && c in parts[k];
        if k > 0 { assert parts[1..][k - 1] == parts[k]; }
      }
    }
  }

  /** A joined line splits into exactly one field per part iff no part holds the separator. */
  lemma SplitJoinFieldCount(parts: seq<string>, c: char)
    requires |parts| > 0
    ensures |Split(Join([c], parts), c)| >= |parts|
    ensures |Split(Join([c], parts), c)| == |parts| <==> forall k :: 0 <= k < |parts| ==> c !in parts[k]
  {
    SplitFieldCount(Join([c], parts), c);
    JoinCountChar(parts, c);
  }

  /** Whether `pattern` occurs in `s` starting at `i`. */
  predicate OccursAt(s: string, pattern: string, i: int)
  {
    0 <= i && i + |pattern| <= |s| && s[i..i + |pattern|] == pattern
  }

  /**
   * string.Replace(pattern, replacement) with ordinal comparison: every occurrence,
   * scanning left to right and resuming after each replaced one.
   */
  function Replace(s: string, pattern: string, replacement: string): (r: string)
    requires |pattern| > 0
    ensures |replacement| <= |pattern| ==> |r| <= |s|
    ensures |replacement| >= |pattern| ==> |r| >= |s|
    decreases |s|
  {
    if |s| < |pattern| then s
    else if s[..|pattern|] == pattern then replacement + Replace(s[|pattern|..], pattern, replacement)
    else [s[0]] + Replace(s[1..], pattern, replacement)
  }

  /** A string in which the pattern does not occur comes back unchanged. */
  lemma {:induction false} ReplaceAbsent(s: string, pattern: string, replacement: string)
    requires |pattern| > 0
    requires forall i :: !OccursAt(s, pattern, i)
    ensures Replace(s, pattern, replacement) == s
  {
    if |s| >= |pattern| {
      assert !OccursAt(s, pattern, 0);
      forall i ensures !OccursAt(s[1..], pattern, i) {
        if OccursAt(s[1..], pattern, i) {
          assert s[1..][i..i + |pattern|] == s[i + 1..i + 1 + |pattern|];
          assert OccursAt(s, pattern, i + 1);
        }
      }
      ReplaceAbsent(s[1..], pattern, replacement);
      assert [s[0]] + s[1..] == s;
    }
  }

  /** A character that cannot start the pattern is copied, and the scan moves on by one. */
  lemma ReplaceSkip(c: char, rest: string, pattern: string, replacement: string)
    requires |pattern| > 0 && c != pattern[0]
    ensures Replace([c] + rest, pattern, replacement) == [c] + Replace(rest, pattern, replacement)
  {
    var s := [c] + rest;
    assert s[1..] == rest;
    if |s| >= |pattern| {
      assert s[..|pattern|][0] == c;
    }
  }

  /** An occurrence at the start is replaced, and the scan resumes just past it. */
  lemma ReplaceAtStart(pattern: string, rest: string, replacement: string)
    requires |pattern| > 0
    ensures Replace(pattern + rest, pattern, replacement) == replacement + Replace(rest, pattern, replacement)
  {
    var s := pattern + rest;
    assert s[..|pattern|] == pattern && s[|pattern|..] == rest;
  }

  /** Regrouping a three-part concatenation after its first character. */
  lemma ConsConcat(c: char, x: string, y: string, z: string)
    ensures [c] + (x + y + z) == [c] + x + y + z
  {
  }

  /** A prefix free of the pattern's first character is copied; the occurrence after it is replaced. */
  lemma {:induction false} ReplaceAfterPrefix(a: string, pattern: string, replacement: string, b: string)
    requires |pattern| > 0 && pattern[0] !in a
    ensures Replace(a + pattern + b, pattern, replacement) == a + replacement + Replace(b, pattern, replacement)
    decreases |a|
  {
    if |a| == 0 {
      assert a + pattern + b == pattern + b;
      ReplaceAtStart(pattern, b, replacement);
      assert a + replacement + Replace(b, pattern, replacement) == replacement + Replace(b, pattern, replacement);
    } else {
      var c, tail := a[0], a[1..];
      var done := Replace(b, pattern, replacement);
      assert a == [c] + tail;
      ConsConcat(c, tail, pattern, b);
      assert c in a;
      ReplaceSkip(c, tail + pattern + b, pattern, replacement);
      assert pattern[0] !in tail by { assert forall x :: x in tail ==> x in a; }
      ReplaceAfterPrefix(tail, pattern, replacement, b);
      ConsConcat(c, tail, replacement, done);
    }
  }

  /** A string free of the pattern's first character comes back unchanged. */
  lemma ReplaceFirstAbsent(s: string, pattern: string, replacement: string)
    requires |pattern| > 0 && pattern[0] !in s
    ensures Replace(s, pattern, replacement) == s
  {
    forall i ensures !OccursAt(s, pattern, i) {
      if 0 <= i && i + |pattern| <= |s| {
        assert s[i..i + |pattern|][0] == s[i];
      }
    }
    ReplaceAbsent(s, pattern, replacement);
  }

  /**
   * Every occurrence is replaced: pieces free of the pattern's first character,
   * joined by the pattern, become the same pieces joined by the replacement.
   */
  lemma {:induction false} ReplaceJoin(parts: seq<string>, pattern: string, replacement: string)
    requires |pattern| > 0
    requires forall k :: 0 <= k < |parts| ==> pattern[0] !in parts[k]
    ensures Replace(Join(pattern, parts), pattern, replacement) == Join(replacement, parts)
  {
    if |parts| == 1 {
      ReplaceFirstAbsent(parts[0], pattern, replacement);
    } else if |parts| > 1 {
      var rest := parts[1..];
      assert forall k :: 0 <= k < |rest| ==> pattern[0] !in rest[k] by {
        forall k | 0 <= k < |rest| ensures pattern[0] !in rest[k] { assert rest[k] == parts[k + 1]; }
      }
      ReplaceJoin(rest, pattern, replacement);
      ReplaceAfterPrefix(parts[0], pattern, replacement, Join(pattern, rest));
    }
  }

  /** The decimal digit for 0..9. */
  function DigitChar(d: nat): (c: char)
    requires d < 10
    ensures '0' <= c <= '9'
  {
    (d + '0' as int) as char
  }

  /** int.ToString() for a non-negative number: its decimal digits, most significant first. */
  function NatToString(n: nat): (s: string)
    ensures |s| >= 1
    ensures forall k :: 0 <= k < |s| ==> '0' <= s[k] <= '9'
  {
    if n < 10 then [DigitChar(n)] else NatToString(n / 10) + [DigitChar(n % 10)]
  }

  /** int.ToString() for any number: a minus sign before the digits of a negative one. */
  function IntToString(n: int): string
  {
    if n < 0 then "-" + NatToString(-n) else NatToString(n)
  }

  /** int.Parse for a string of decimal digits. */
  function ParseNat(s: string): nat
  {
    if |s| == 0 then 0
    else
      var d := s[|s| - 1] as int - '0' as int;
      ParseNat(s[..|s| - 1]) * 10 + (if 0 <= d < 10 then d else 0)
  }

  /** Rendering a counter and parsing it back gives the counter. */
  lemma {:induction false} ParseNatToString(n: nat)
    ensures ParseNat(NatToString(n)) == n
  {
    if n >= 10 {
      var s := NatToString(n);
      assert s[..|s| - 1] == NatToString(n / 10);
      ParseNatToString(n / 10);
    }
  }

  /** char.IsWhiteSpace: the Unicode space separators, line and paragraph separators, and U+0009..U+000D, U+0085. */
  predicate IsWhiteSpace(c: char)
  {
    var n := c as int;
    || (0x09 <= n <= 0x0D) || n == 0x20 || n == 0x85 || n == 0xA0 || n == 0x1680
    || (0x2000 <= n <= 0x200A) || n == 0x2028 || n == 0x2029 || n == 0x202F || n == 0x205F || n == 0x3000
  }

  /** string.IsNullOrWhiteSpace for a non-null string: the empty string is blank, and a blank one holds no visible ASCII character. */
  predicate IsNullOrWhiteSpace(s: string): (b: bool)
    ensures |s| == 0 ==> b
    ensures b ==> forall k :: 0 <= k < |s| ==> !('!' <= s[k] <= '~')
  {
    forall k :: 0 <= k < |s| ==> IsWhiteSpace(s[k])
  }
}
