// Decimal numerals as package strconv writes and reads them.
module Decimal {
  import opened Wrappers

  const INT64_MIN := -0x8000_0000_0000_0000
  const INT64_MAX := 0x7fff_ffff_ffff_ffff

  predicate IsDigit(c: char) {
    '0' <= c <= '9'
  }

  predicate AllDigits(s: string) {
    forall i :: 0 <= i < |s| ==> IsDigit(s[i])
  }

  function Digit(d: nat): (c: char)
    requires d < 10
    ensures IsDigit(c) && c as int - '0' as int == d
  {
    ('0' as int + d) as char
  }

  function Dec(n: nat): (s: string)
    ensures |s| > 0 && AllDigits(s)
  {
    if n < 10 then [Digit(n)] else Dec(n / 10) + [Digit(n % 10)]
  }

  function Value(s: string): nat
    requires AllDigits(s)
  {
    if s == "" then 0 else Value(s[..|s| - 1]) * 10 + (s[|s| - 1] as int - '0' as int)
  }

  // fmt.Sprint of an integer.
  function Print(n: int): string {
    if n < 0 then "-" + Dec(-n) else Dec(n)
  }

  // strconv.ParseInt(s, 10, 64)
  function ParseInt(s: string): Option<int> {
    if s == "" then None
    else
      var body := if s[0] == '-' || s[0] == '+' then s[1..] else s;
      if body == "" || !AllDigits(body) then None
      else
        var v: int := Value(body);
        var n := if s[0] == '-' then -v else v;
        if INT64_MIN <= n <= INT64_MAX then Some(n) else None
  }

  lemma {:induction false} ValueDec(n: nat)
    ensures Value(Dec(n)) == n
  {
    if n >= 10 {
      ValueDec(n / 10);
      assert Dec(n)[..|Dec(n)| - 1] == Dec(n / 10);
    }
  }

  // Printing and parsing are inverse on all 64-bit integers, and no others parse.
  lemma ParsePrint(n: int)
    ensures ParseInt(Print(n)) == if INT64_MIN <= n <= INT64_MAX then Some(n) else None
  {
    if n < 0 {
      ValueDec(-n);
      assert Print(n)[1..] == Dec(-n);
    } else {
      ValueDec(n);
      assert IsDigit(Dec(n)[0]);
    }
  }

  // ---- Which text is printed ----

  // Digits without a leading zero.
  predicate IsNumeral(s: string) {
    s != "" && AllDigits(s) && (|s| > 1 ==> s[0] != '0')
  }

  lemma {:induction false} PositiveValue(s: string)
    requires AllDigits(s) && s != "" && s[0] != '0'
    ensures Value(s) > 0
  {
    if |s| > 1 {
      PositiveValue(s[..|s| - 1]);
    }
  }

  lemma {:induction false} DecIsNumeral(n: nat)
    ensures IsNumeral(Dec(n)) && (n > 0 ==> Dec(n)[0] != '0')
  {
    if n >= 10 {
      DecIsNumeral(n / 10);
    }
  }

  // A number has one numeral, which is what is printed.
  lemma {:induction false} NumeralIsDec(s: string)
    requires IsNumeral(s)
    ensures Dec(Value(s)) == s
  {
    var n := |s| - 1;
    assert s == s[..n] + [s[n]];
    if n > 0 {
      PositiveValue(s[..n]);
      NumeralIsDec(s[..n]);
      DigitOf(s[n]);
      assert Value(s) / 10 == Value(s[..n]);
    } else {
      assert s[..0] == "" && Value(s) == s[0] as int - '0' as int;
      DigitOf(s[0]);
    }
  }

  lemma DigitOf(c: char)
    requires IsDigit(c)
    ensures Digit(c as int - '0' as int) == c
  {
  }

  // A number is printed as its numeral, a negative one behind a minus sign.
  lemma PrintIs(numeral: string)
    requires IsNumeral(numeral)
    ensures Print(Value(numeral)) == numeral
    ensures Value(numeral) > 0 ==> Print(0 - Value(numeral)) == "-" + numeral
  {
    NumeralIsDec(numeral);
  }

  // The digits count ones, tens and so on from the right.
  lemma ValueSnoc(s: string, d: char)
    requires AllDigits(s) && IsDigit(d)
    ensures Value(s + [d]) == 10 * Value(s) + (d as int - 48)
  {
    assert (s + [d])[..|s|] == s;
  }

  function Checked64(n: int): Option<int> {
    if -9223372036854775808 <= n <= 9223372036854775807 then Some(n) else None
  }

  // Digits parse, leading zeros included, with or without a sign, as far as the
  // value fits in 64 bits.
  lemma ParseDigits(digits: string)
    requires digits != "" && AllDigits(digits)
    ensures ParseInt(digits) == ParseInt("+" + digits) == Checked64(Value(digits))
    ensures ParseInt("-" + digits) == Checked64(0 - Value(digits))
  {
    assert IsDigit(digits[0]);
    assert ("+" + digits)[1..] == digits && ("-" + digits)[1..] == digits;
  }

  // And nothing else parses.
  lemma OnlyDigitsParse(s: string)
    requires ParseInt(s).Some?
    ensures exists digits :: digits != "" && AllDigits(digits)
              && (s == digits || s == "+" + digits || s == "-" + digits)
  {
    var digits := if s[0] == '-' || s[0] == '+' then s[1..] else s;
    assert s == [s[0]] + s[1..];
    assert digits != "" && AllDigits(digits) && (s == digits || s == "+" + digits || s == "-" + digits);
  }
}
