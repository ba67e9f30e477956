/**
 * The decimal text of an integer as `int.ToString()` writes it with the
 * invariant culture: a leading '-' for a negative value, no leading zeros,
 * "0" for zero. The controller passes a workflow id to the loader API in this
 * form; `ParseDecimal` reads such text back and is the reference the
 * formatting is checked against.
 */
module Decimal {
  import opened Wrappers

  predicate IsDigit(c: char) {
    '0' <= c <= '9'
  }

  function DigitValue(c: char): nat
    requires IsDigit(c)
  {
    c as int - '0' as int
  }

  function DigitChar(d: nat): (c: char)
    requires d < 10
    ensures IsDigit(c) && DigitValue(c) == d
  {
    "0123456789"[d]
  }

  predicate AllDigits(s: string) {
    forall i :: 0 <= i < |s| ==> IsDigit(s[i])
  }

  /** Canonical digits: at least one, and no leading zero unless the text is "0". */
  predicate IsDigitString(s: string) {
    |s| > 0 && AllDigits(s) && (s[0] == '0' ==> |s| == 1)
  }

  /** The digits of a natural number, most significant first. */
  function Digits(n: nat): string {
    if n < 10 then [DigitChar(n)] else Digits(n / 10) + [DigitChar(n % 10)]
  }

  /** `int.ToString()`. */
  function DecimalString(n: int): string {
    if n < 0 then "-" + Digits(-n) else Digits(n)
  }

  /** The value of a string of digits, read most significant first. */
  function DigitsValue(s: string): nat
    requires AllDigits(s)
  {
    if s == [] then 0 else DigitsValue(s[..|s| - 1]) * 10 + DigitValue(s[|s| - 1])
  }

  /** Canonical decimal text back to its integer; anything else is refused. */
  function ParseDecimal(s: string): (r: Option<int>)
    ensures r.Some? ==> |s| > 0
  {
    if |s| > 1 && s[0] == '-' && IsDigitString(s[1..]) && s[1..] != "0" then Some(0 - DigitsValue(s[1..]))
    else if IsDigitString(s) then Some(DigitsValue(s))
    else None
  }

  /** The digits of `n` are canonical, read back as `n`, and start with '0' only for zero. */
  lemma {:induction false} DigitsCanonical(n: nat)
    ensures IsDigitString(Digits(n))
    ensures DigitsValue(Digits(n)) == n
    ensures Digits(n)[0] == '0' <==> n == 0
  {
    var s := Digits(n);
    if n >= 10 {
      DigitsCanonical(n / 10);
      var init, c := Digits(n / 10), DigitChar(n % 10);
      assert s == init + [c];
      assert s[..|s| - 1] == init;
      assert s[0] == init[0];
    }
  }

  /** Digits whose value is zero are all '0'. */
  lemma {:induction false} ZeroValueAllZeros(s: string)
    requires AllDigits(s)
    ensures DigitsValue(s) == 0 ==> forall i :: 0 <= i < |s| ==> s[i] == '0'
  {
    if s != [] {
      var init := s[..|s| - 1];
      ZeroValueAllZeros(init);
      assert forall i :: 0 <= i < |s| - 1 ==> s[i] == init[i];
    }
  }

  /** The only canonical digits worth zero are "0". */
  lemma CanonicalZero(s: string)
    requires IsDigitString(s)
    ensures DigitsValue(s) == 0 ==> s == "0"
  {
    ZeroValueAllZeros(s);
    assert s[0] == '0' ==> s == [s[0]];
  }

  /** Canonical digits are the digits of their own value. */
  lemma {:induction false} DigitsOfValue(s: string)
    requires IsDigitString(s)
    ensures Digits(DigitsValue(s)) == s
  {
    var last := s[|s| - 1];
    if |s| == 1 {
      assert s == [last];
      assert DigitChar(DigitValue(last)) == last;
    } else {
      var init := s[..|s| - 1];
      assert init[0] == s[0];
      assert IsDigitString(init);
      DigitsOfValue(init);
      CanonicalZero(init);
      var v := DigitsValue(s);
      assert v / 10 == DigitsValue(init) && v % 10 == DigitValue(last);
      assert DigitChar(DigitValue(last)) == last;
      assert s == init + [last];
    }
  }

  /** Round trip: the text of `n` reads back as `n`. */
  lemma DecimalRoundTrip(n: int)
    ensures ParseDecimal(DecimalString(n)) == Some(n)
  {
    if n < 0 {
      NegativeRoundTrip(n);
    } else {
      DigitsCanonical(n);
      assert IsDigit(DecimalString(n)[0]);
    }
  }

  /** The text of a negative number is '-' and canonical digits other than "0". */
  lemma NegativeRoundTrip(n: int)
    requires n < 0
    ensures ParseDecimal(DecimalString(n)) == Some(n)
  {
    var t := Digits(-n);
    DigitsCanonical(-n);
    var s := "-" + t;
    assert s[1..] == t && s[0] == '-';
    assert t != "0" by {
      assert DigitsValue(t) != 0;
    }
  }

  /** The other direction: text that reads back as `n` is exactly the text of `n`. */
  lemma ParseIsCanonical(s: string, n: int)
    requires ParseDecimal(s) == Some(n)
    ensures DecimalString(n) == s
  {
    if |s| > 1 && s[0] == '-' && IsDigitString(s[1..]) && s[1..] != "0" {
      var t := s[1..];
      DigitsOfValue(t);
      CanonicalZero(t);
      assert s == "-" + t;
    } else {
      DigitsOfValue(s);
    }
  }

  /** Different ids never share a text, so the id the API receives determines the workflow. */
  lemma DecimalInjective(a: int, b: int)
    requires DecimalString(a) == DecimalString(b)
    ensures a == b
  {
    DecimalRoundTrip(a);
    DecimalRoundTrip(b);
  }

  /** The texts of zero and of a negative id. */
  lemma DecimalSamples()
    ensures DecimalString(0) == "0"
    ensures DecimalString(-1) == "-1"
  {
  }

  /** The text of the largest id. */
  lemma MaxIdText()
    ensures DecimalString(2147483647) == "2147483647"
  {
    DigitsOfBound();
  }

  /** The text of the smallest id. */
  lemma MinIdText()
    ensures DecimalString(-2147483648) == "-" + "2147483648"
  {
    DigitsOfBound();
  }

  /** The digits of 2^31 - 1 and of 2^31, built one digit at a time. */
  lemma DigitsOfBound()
    ensures Digits(2147483647) == "2147483647"
    ensures Digits(2147483648) == "2147483648"
  {
    DigitsSnoc(2, 1);
    assert Digits(21) == "21";
    DigitsSnoc(21, 4);
    assert Digits(214) == "214";
    DigitsSnoc(214, 7);
    assert Digits(2147) == "2147";
    DigitsSnoc(2147, 4);
    assert Digits(21474) == "21474";
    DigitsSnoc(21474, 8);
    assert Digits(214748) == "214748";
    DigitsSnoc(214748, 3);
    assert Digits(2147483) == "2147483";
    DigitsSnoc(2147483, 6);
    assert Digits(21474836) == "21474836";
    DigitsSnoc(21474836, 4);
    assert Digits(214748364) == "214748364";
    DigitsSnoc(214748364, 7);
    DigitsSnoc(214748364, 8);
  }

  /** One more digit at the end of a positive number is one more character at the end of its text. */
  lemma DigitsSnoc(m: nat, d: nat)
    requires m > 0 && d < 10
    ensures Digits(m * 10 + d) == Digits(m) + [DigitChar(d)]
  {
    assert (m * 10 + d) / 10 == m && (m * 10 + d) % 10 == d;
  }
}
