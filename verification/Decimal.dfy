/** Decimal text of natural numbers, as streams print it and the parsers read it. */
module Decimal {

  predicate IsDigit(c: char) {
    '0' <= c <= '9'
  }

  function DigitOf(n: nat): char
    requires n < 10
  {
    '0' + n as char
  }

  function ValueOf(c: char): nat
    requires IsDigit(c)
  {
    (c - '0') as nat
  }

  ghost predicate AllDigits(s: string) {
    forall k :: 0 <= k < |s| ==> IsDigit(s[k])
  }

  function ToText(n: nat): (r: string)
    ensures r != "" && AllDigits(r)
    ensures n > 0 ==> r[0] != '0'
  {
    if n < 10 then [DigitOf(n)] else ToText(n / 10) + [DigitOf(n % 10)]
  }

  function ToNumber(s: string): nat
    requires AllDigits(s)
  {
    if s == "" then 0 else 10 * ToNumber(s[..|s| - 1]) + ValueOf(s[|s| - 1])
  }

  /** Reading back what was printed. */
  lemma {:induction false} NumberOfText(n: nat)
    ensures ToNumber(ToText(n)) == n
  {
    if n < 10 {
      assert [DigitOf(n)][..0] == "";
    } else {
      NumberOfText(n / 10);
      var s := ToText(n);
      assert s[..|s| - 1] == ToText(n / 10);
    }
  }

  // ----- signed numbers of 32 bits

  const INT_MIN := -0x8000_0000
  const INT_MAX := 0x7FFF_FFFF

  type Int32 = n: int | INT_MIN <= n <= INT_MAX

  function IntText(n: int): string {
    if n < 0 then "-" + ToText(-n) else ToText(n)
  }

  function Clamp(n: int): Int32 {
    if n < INT_MIN then INT_MIN else if n > INT_MAX then INT_MAX else n
  }

  function DigitPrefix(s: string): (r: string)
    ensures AllDigits(r)
  {
    if s == "" || !IsDigit(s[0]) then "" else [s[0]] + DigitPrefix(s[1..])
  }

  /** strtol in base 10: leading white space, one sign, the digits that follow; nothing readable gives 0 and what
      does not fit a 32-bit long gives its limit. */
  function ReadInt(s: string): Int32 {
    if s == "" then 0
    else if s[0] in " \t\n\r" || s[0] == 11 as char || s[0] == 12 as char then ReadInt(s[1..])
    else if s[0] == '-' then Clamp(0 - ToNumber(DigitPrefix(s[1..])))
    else if s[0] == '+' then Clamp(ToNumber(DigitPrefix(s[1..])))
    else Clamp(ToNumber(DigitPrefix(s)))
  }

  lemma {:induction false} DigitPrefixAll(s: string)
    requires AllDigits(s)
    ensures DigitPrefix(s) == s
  {
    if s != "" {
      DigitPrefixAll(s[1..]);
      assert [s[0]] + s[1..] == s;
    }
  }

  /** Reading back a printed signed number. */
  lemma ReadIntText(n: Int32)
    ensures ReadInt(IntText(n)) == n
  {
    var signed: int := n;
    var magnitude: nat := if signed < 0 then 0 - signed else signed;
    var digits := ToText(magnitude);
    NumberOfText(magnitude);
    DigitPrefixAll(digits);
    if n < 0 {
      assert IntText(n)[1..] == digits;
    } else {
      assert IsDigit(digits[0]);
    }
  }

  // ----- any text

  lemma ValueOfDigit(c: char)
    requires IsDigit(c)
    ensures ValueOf(c) < 10 && DigitOf(ValueOf(c)) == c
  {
  }

  /** Digits without a leading zero are the decimal text of their number. */
  lemma {:induction false} TextOfNumber(s: string)
    requires s != "" && AllDigits(s) && (|s| == 1 || s[0] != '0')
    ensures ToText(ToNumber(s)) == s
    decreases |s|
  {
    var init, last := s[..|s| - 1], s[|s| - 1];
    ValueOfDigit(last);
    assert s == init + [last];
    if init == "" {
      assert ToNumber(init) == 0;
    } else {
      TextOfNumber(init);
      assert ToText(0) == [DigitOf(0)] && ToText(0)[0] == '0';
      var m, d := ToNumber(init), ValueOf(last);
      assert (10 * m + d) / 10 == m && (10 * m + d) % 10 == d;
    }
  }

  lemma {:induction false} DigitPrefixIs(digits: string, rest: string)
    requires AllDigits(digits) && (rest == "" || !IsDigit(rest[0]))
    ensures DigitPrefix(digits + rest) == digits
    decreases |digits|
  {
    if digits == "" {
      assert digits + rest == rest;
    } else {
      assert (digits + rest)[1..] == digits[1..] + rest;
      DigitPrefixIs(digits[1..], rest);
      assert [digits[0]] + digits[1..] == digits;
    }
  }

  predicate IsBlank(c: char) {
    c == ' ' || c == '\t' || c == '\n' || c == '\r' || c == 11 as char || c == 12 as char
  }

  /** strtol on any text: blanks, a sign, digits, and whatever cannot go on with them. */
  lemma {:induction false} ReadIntIs(blanks: string, sign: string, digits: string, rest: string)
    requires (forall k :: 0 <= k < |blanks| ==> IsBlank(blanks[k])) && (sign == "" || sign == "+" || sign == "-")
    requires AllDigits(digits) && (rest == "" || !IsDigit(rest[0]))
    requires sign == "" && digits == "" && rest != "" ==> !IsBlank(rest[0]) && rest[0] != '+' && rest[0] != '-'
    ensures var n: int := if sign == "-" then 0 - ToNumber(digits) else ToNumber(digits);
            ReadInt(blanks + (sign + (digits + rest)))
            == if n < -2_147_483_648 then -2_147_483_648 else if n > 2_147_483_647 then 2_147_483_647 else n
    decreases |blanks|
  {
    var tail := sign + (digits + rest);
    var s := blanks + tail;
    DigitPrefixIs(digits, rest);
    if blanks != "" {
      assert s[1..] == blanks[1..] + tail && s[0] == blanks[0];
      ReadIntIs(blanks[1..], sign, digits, rest);
    } else {
      assert s == tail;
      if sign == "" { assert tail == digits + rest; } else { assert tail[1..] == digits + rest && tail[0] == sign[0]; }
    }
  }
}
