/**
 * The string operations of Go's standard library that the backend relies on
 * (`strings.LastIndex`, `strings.HasSuffix`, `strings.TrimSuffix`,
 * `strings.ToLower` and the `%d` verb of `fmt`), on strings of characters.
 */
module GoStrings {

  /** `strings.HasSuffix(s, suffix)`. */
  predicate HasSuffix(s: string, suffix: string) {
    |suffix| <= |s| && s[|s| - |suffix|..] == suffix
  }

  /** `strings.TrimSuffix(s, suffix)`: `s` without `suffix` when it ends with it, else `s`. */
  function TrimSuffix(s: string, suffix: string): (r: string)
    ensures HasSuffix(s, suffix) ==> r + suffix == s
    ensures !HasSuffix(s, suffix) ==> r == s
  {
    if HasSuffix(s, suffix) then s[..|s| - |suffix|] else s
  }

  /**
   * `strings.LastIndex(s, string(c))`: the index of the last occurrence of `c`
   * in `s`, or -1 when `c` does not occur.
   */
  function LastIndex(s: string, c: char): (r: int)
    ensures -1 <= r < |s|
    ensures r == -1 <==> c !in s
    ensures r >= 0 ==> s[r] == c && c !in s[r + 1..]
  {
    if s == [] then -1
    else if s[|s| - 1] == c then |s| - 1
    else
      assert s == s[..|s| - 1] + [s[|s| - 1]];
      LastIndex(s[..|s| - 1], c)
  }

  /** The ASCII lower-case form of one character; every other character is kept. */
  function LowerChar(c: char): (r: char)
    ensures 'A' <= c <= 'Z' ==> r as int == c as int + 32
    ensures !('A' <= c <= 'Z') ==> r == c
    ensures !('A' <= r <= 'Z')
  {
    if 'A' <= c <= 'Z' then (c as int - 'A' as int + 'a' as int) as char else c
  }

  /** A lower-case letter comes from itself or from its upper-case form, and from nothing else. */
  lemma LowerCharIs(c: char, lower: char)
    requires 'a' <= lower <= 'z'
    ensures LowerChar(c) == lower <==> c == lower || c as int == lower as int - 32
  {
  }

  /** `strings.ToLower`, restricted to ASCII letters. */
  function ToLower(s: string): (r: string)
    ensures |r| == |s|
    ensures forall i :: 0 <= i < |s| ==> r[i] == LowerChar(s[i])
  {
    seq(|s|, i requires 0 <= i < |s| => LowerChar(s[i]))
  }

  predicate IsDigit(c: char) {
    '0' <= c <= '9'
  }

  /** The number a string of decimal digits denotes, most significant digit first. */
  function DigitsValue(s: string): int
    decreases |s|
  {
    if s == [] then 0 else DigitsValue(s[..|s| - 1]) * 10 + (s[|s| - 1] as int - '0' as int)
  }

  function DigitChar(d: nat): (c: char)
    requires d < 10
    ensures IsDigit(c)
  {
    ('0' as int + d) as char
  }

  /** The decimal digits of a natural number, most significant first, without leading zeros. */
  function NatDigits(n: nat): (r: string)
    ensures r != []
    ensures forall i :: 0 <= i < |r| ==> IsDigit(r[i])
    ensures n > 0 ==> r[0] != '0'
    decreases n
  {
    if n < 10 then [DigitChar(n)] else NatDigits(n / 10) + [DigitChar(n % 10)]
  }

  /** The digits of a natural number denote that number. */
  lemma {:induction false} NatDigitsValue(n: nat)
    ensures DigitsValue(NatDigits(n)) == n
    decreases n
  {
    if n >= 10 {
      var r := NatDigits(n);
      assert r[..|r| - 1] == NatDigits(n / 10);
      NatDigitsValue(n / 10);
    }
  }

  /**
   * The `%d` rendering of an integer: the digits of its magnitude, without
   * leading zeros, preceded by `-` when it is negative. It holds only digits and
   * a leading minus sign, so in particular it never holds an underscore.
   */
  function Decimal(v: int): (r: string)
    ensures r != []
    ensures forall i :: 0 <= i < |r| ==> IsDigit(r[i]) || (i == 0 && r[i] == '-')
    ensures '_' !in r
  {
    if v < 0 then "-" + NatDigits(-v) else NatDigits(v)
  }

  /**
   * The value `%d` writes: for a non-negative integer, digits denoting it with
   * no leading zero; for a negative one, a minus sign and then digits denoting
   * its magnitude, again with no leading zero.
   */
  lemma DecimalValue(v: int)
    ensures var r := Decimal(v);
      (v >= 0 ==> r[0] != '-' && DigitsValue(r) == v && (r[0] == '0' ==> r == "0")) &&
      (v < 0 ==> |r| >= 2 && r[0] == '-' && r[1] != '0' && DigitsValue(r[1..]) == -v)
  {
    if v < 0 {
      NatDigitsValue(-v);
      assert Decimal(v)[1..] == NatDigits(-v);
    } else {
      NatDigitsValue(v);
    }
  }

  /** Different integers have different `%d` forms. */
  lemma DecimalInjective(a: int, b: int)
    requires Decimal(a) == Decimal(b)
    ensures a == b
  {
    var r := Decimal(a);
    DecimalValue(a);
    DecimalValue(b);
    if a >= 0 && b >= 0 {
      assert DigitsValue(r) == a && DigitsValue(r) == b;
    } else if a < 0 && b < 0 {
      assert DigitsValue(r[1..]) == -a && DigitsValue(r[1..]) == -b;
    }
  }
}
