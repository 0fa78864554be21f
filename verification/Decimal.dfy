/** Decimal text, as `std::to_string` and `String(number)` print it and JSON numbers are read. */
module Decimal {
  import opened Basics

  function Digit(d: nat): char
    requires d < 10
  {
    '0' + d as char
  }

  predicate IsDigit(c: char) { '0' <= c <= '9' }

  function DigitValue(c: char): nat
    requires IsDigit(c)
  {
    (c - '0') as nat
  }

  /** A natural number without leading zeros. */
  function PrintNat(n: nat): (s: string)
    ensures s != "" && forall c :: c in s ==> IsDigit(c)
  {
    if n < 10 then [Digit(n)] else PrintNat(n / 10) + [Digit(n % 10)]
  }

  function PrintInt(n: int): string {
    if n < 0 then "-" + PrintNat(-n) else PrintNat(n)
  }

  function ParseNat(s: string): nat
    requires forall c :: c in s ==> IsDigit(c)
  {
    if s == "" then 0 else 10 * ParseNat(s[..|s| - 1]) + DigitValue(s[|s| - 1])
  }

  /** An optional sign and at least one digit. */
  function ParseInt(s: string): Option<int> {
    var digits := if s != "" && (s[0] == '-' || s[0] == '+') then s[1..] else s;
    if digits == "" || exists c :: c in digits && !IsDigit(c) then None
    else
      var value: int := ParseNat(digits);
      Some(if s[0] == '-' then -value else value)
  }

  lemma DigitsAreDecimal(d: nat)
    requires d < 10
    ensures Digit(d) == "0123456789"[d] && DigitValue(Digit(d)) == d
  {
  }

  /** The last digit printed is the last digit of the number, and no other number than zero is printed
      with a leading zero. */
  lemma {:induction false} PrintedWithoutLeadingZero(n: nat)
    ensures PrintNat(n)[0] == '0' <==> n == 0
    ensures PrintNat(n)[|PrintNat(n)| - 1] == "0123456789"[n % 10]
    ensures n < 10 <==> |PrintNat(n)| == 1
  {
    DigitsAreDecimal(n % 10);
    if n >= 10 {
      PrintedWithoutLeadingZero(n / 10);
    }
  }

  /** A minus sign is printed for negative numbers only, so not for zero. */
  lemma SignIsPrinted(n: int)
    ensures PrintInt(n)[0] == '-' <==> n < 0
    ensures n < 0 ==> PrintInt(n)[1..] == PrintInt(0 - n)
  {
    if n >= 0 {
      assert PrintNat(n)[0] in PrintNat(n);
    }
  }

  lemma {:induction false} ParsePrintedNat(n: nat)
    ensures ParseNat(PrintNat(n)) == n
  {
    var s := PrintNat(n);
    if n >= 10 {
      ParsePrintedNat(n / 10);
      assert s[..|s| - 1] == PrintNat(n / 10);
    } else {
      assert s[..0] == "";
    }
  }

  lemma ParsePrinted(n: int)
    ensures ParseInt(PrintInt(n)) == Some(n)
  {
    var m: nat := if n < 0 then -n else n;
    ParsePrintedNat(m);
    if n < 0 {
      assert PrintInt(n)[1..] == PrintNat(m);
    } else {
      assert PrintNat(m)[0] in PrintNat(m);
    }
  }

  lemma {:induction false} LeadingZerosDoNotCount(zeros: nat, s: string)
    requires forall c :: c in s ==> IsDigit(c)
    ensures ParseNat(seq(zeros, _ => '0') + s) == ParseNat(s)
    decreases zeros + |s|
  {
    var text := seq(zeros, _ => '0') + s;
    if s != "" {
      assert text[..|text| - 1] == seq(zeros, _ => '0') + s[..|s| - 1];
      LeadingZerosDoNotCount(zeros, s[..|s| - 1]);
    } else if zeros > 0 {
      assert text[..|text| - 1] == seq(zeros - 1, _ => '0') + s;
      LeadingZerosDoNotCount(zeros - 1, s);
    } else {
      assert text == s;
    }
  }

  /** A plus sign and leading zeros do not change the number read. */
  lemma SignAndZerosAreRead(n: nat, zeros: nat)
    ensures ParseInt("+" + PrintNat(n)) == Some(n)
    ensures ParseInt(seq(zeros, _ => '0') + PrintNat(n)) == Some(n)
  {
    ParsePrintedNat(n);
    assert ("+" + PrintNat(n))[1..] == PrintNat(n);
    LeadingZerosDoNotCount(zeros, PrintNat(n));
    var padded := seq(zeros, _ => '0') + PrintNat(n);
    assert padded[0] in padded && forall c :: c in padded ==> IsDigit(c);
  }

  /** A text without digits, or with anything else behind the sign, is no number. */
  lemma OtherTextsAreNoNumbers(s: string, i: nat)
    ensures ParseInt("") == ParseInt("-") == ParseInt("+") == None
    ensures 0 < i < |s| && !('0' <= s[i] <= '9') ==> ParseInt(s) == None
  {
    if 0 < i < |s| && !('0' <= s[i] <= '9') {
      assert s[1..][i - 1] == s[i] && s[1..] != "";
      assert s[i] in s[1..] && s[i] in s && !IsDigit(s[i]);
    }
  }

  lemma PrintNatIsInjective(m: nat, n: nat)
    requires PrintNat(m) == PrintNat(n)
    ensures m == n
  {
    ParsePrintedNat(m);
    ParsePrintedNat(n);
  }
}
