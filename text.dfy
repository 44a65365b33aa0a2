/**
 * The handful of .NET string operations the view-models and the credential
 * verifier rely on: blank tests, lower-casing, ordinal substring search,
 * prefix tests and joining.  Strings are sequences of Unicode scalar values.
 */
module Text {

  /** `char.IsWhiteSpace`: the Unicode separators plus the C0/C1 controls .NET counts as blank. */
  predicate IsWhiteSpace(c: char)
  {
    || ('\t' <= c <= '\r')
    || c == ' '
    || c == '\U{0085}'
    || c == '\U{00A0}'
    || c == '\U{1680}'
    || ('\U{2000}' <= c <= '\U{200A}')
    || c == '\U{2028}'
    || c == '\U{2029}'
    || c == '\U{202F}'
    || c == '\U{205F}'
    || c == '\U{3000}'
  }

  /** `string.IsNullOrWhiteSpace` (a null string is modelled as the empty one). */
  predicate IsNullOrWhiteSpace(s: string)
  {
    forall i :: 0 <= i < |s| ==> IsWhiteSpace(s[i])
  }

  /** An upper-case letter of the ranges `LowerChar` folds. */
  predicate IsUpperLetter(c: char)
  {
    || ('A' <= c <= 'Z')
    || ('À' <= c <= 'Þ' && c != '×')
    || ('Ѐ' <= c <= 'Я')
  }

  /**
   * `char.ToLower` restricted to Basic Latin, Latin-1 and the basic Cyrillic
   * block: the letters the application's data and literals use.
   */
  function LowerChar(c: char): (r: char)
    ensures !IsUpperLetter(r)
    ensures IsUpperLetter(c) <==> r != c
  {
    if 'A' <= c <= 'Z' || ('À' <= c <= 'Þ' && c != '×') || ('А' <= c <= 'Я') then
      (c as int + 32) as char
    else if 'Ѐ' <= c <= 'Џ' then
      (c as int + 80) as char
    else
      c
  }

  /** `string.ToLower()`, character by character. */
  function ToLower(s: string): (r: string)
    ensures |r| == |s|
    ensures forall i :: 0 <= i < |s| ==> r[i] == LowerChar(s[i])
  {
    if s == [] then [] else [LowerChar(s[0])] + ToLower(s[1..])
  }

  /** No letter of a lower-cased string is upper case. */
  lemma ToLowerHasNoUpper(s: string, i: int)
    requires 0 <= i < |s|
    ensures !IsUpperLetter(ToLower(s)[i])
  {
  }

  predicate StartsWith(s: string, prefix: string)
  {
    |prefix| <= |s| && s[..|prefix|] == prefix
  }

  /** Ordinal `string.Contains(sub)`: `sub` occurs at some position of `s`. */
  predicate Contains(s: string, sub: string)
    decreases |s|
  {
    StartsWith(s, sub) || (|s| > 0 && Contains(s[1..], sub))
  }

  /** `sub` occurs in `s` starting at position `k`. */
  predicate OccursAt(s: string, sub: string, k: int)
  {
    0 <= k <= |s| - |sub| && s[k..k + |sub|] == sub
  }

  /** `Contains` holds exactly when there is a position where `sub` occurs. */
  lemma {:induction false} ContainsAt(s: string, sub: string)
    ensures Contains(s, sub) <==> exists k :: OccursAt(s, sub, k)
    decreases |s|
  {
    if StartsWith(s, sub) {
      assert OccursAt(s, sub, 0);
    } else if |s| > 0 {
      ContainsAt(s[1..], sub);
      if Contains(s[1..], sub) {
        var k :| OccursAt(s[1..], sub, k);
        assert s[k + 1..k + 1 + |sub|] == s[1..][k..k + |sub|];
        assert OccursAt(s, sub, k + 1);
      }
      if exists k :: OccursAt(s, sub, k) {
        var k :| OccursAt(s, sub, k);
        assert k != 0;
        assert s[1..][k - 1..k - 1 + |sub|] == s[k..k + |sub|];
        assert OccursAt(s[1..], sub, k - 1);
      }
    }
  }

  /** Every string contains itself and the empty string. */
  lemma ContainsSelfAndEmpty(s: string)
    ensures Contains(s, s) && Contains(s, "")
  {
    assert StartsWith(s, s);
    assert StartsWith(s, "");
  }

  /** `string.Join(sep, parts)`. */
  function Join(sep: string, parts: seq<string>): (r: string)
    ensures parts == [] ==> r == ""
    ensures |parts| == 1 ==> r == parts[0]
  {
    if parts == [] then ""
    else if |parts| == 1 then parts[0]
    else parts[0] + sep + Join(sep, parts[1..])
  }

  /** Where the `i`-th part starts in the joined text. */
  function JoinOffset(sep: string, parts: seq<string>, i: nat): nat
    requires i < |parts|
  {
    if i == 0 then 0 else |parts[0]| + |sep| + JoinOffset(sep, parts[1..], i - 1)
  }

  /** Each part appears, unchanged, at its offset in the joined text. */
  lemma {:induction false} JoinPartAt(sep: string, parts: seq<string>, i: nat)
    requires i < |parts|
    ensures OccursAt(Join(sep, parts), parts[i], JoinOffset(sep, parts, i))
  {
    var r := Join(sep, parts);
    if |parts| == 1 {
      assert r[0..|parts[0]|] == parts[0];
    } else if i == 0 {
      assert r[0..|parts[0]|] == parts[0];
    } else {
      var rest := Join(sep, parts[1..]);
      JoinPartAt(sep, parts[1..], i - 1);
      var o := JoinOffset(sep, parts[1..], i - 1);
      var d := |parts[0]| + |sep|;
      assert r == parts[0] + sep + rest;
      assert r[d + o..d + o + |parts[i]|] == rest[o..o + |parts[i]|];
    }
  }

  /** A decimal digit character. */
  predicate IsDigit(c: char)
  {
    '0' <= c <= '9'
  }

  /**
   * `int.ToString()` on a count: the decimal digits, most significant first,
   * without leading zeros (a non-negative value has no sign to format).
   */
  function Decimal(n: nat): (r: string)
    ensures |r| >= 1
    ensures forall i :: 0 <= i < |r| ==> IsDigit(r[i])
    ensures r[0] == '0' ==> n == 0
  {
    if n < 10 then [('0' as int + n) as char]
    else Decimal(n / 10) + [('0' as int + n % 10) as char]
  }

  /** The value of a string of decimal digits. */
  function DecimalValue(s: string): nat
    requires forall i :: 0 <= i < |s| ==> IsDigit(s[i])
  {
    if s == [] then 0
    else
      assert IsDigit(s[|s| - 1]);
      10 * DecimalValue(s[..|s| - 1]) + (s[|s| - 1] as int - '0' as int)
  }

  /** Reading the formatted count gives the count back. */
  lemma {:induction false} DecimalRoundTrip(n: nat)
    ensures DecimalValue(Decimal(n)) == n
  {
    var r := Decimal(n);
    if n >= 10 {
      DecimalRoundTrip(n / 10);
      assert r[..|r| - 1] == Decimal(n / 10);
    }
  }
}
