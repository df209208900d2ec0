// Decimal numbers as text, printed and parsed as the C library does it.

module Decimal {
  predicate IsDigit(c: char) { '0' <= c <= '9' }

  predicate AllDigits(s: string) { forall k | 0 <= k < |s| :: IsDigit(s[k]) }

  function Digit(n: nat): char
    requires n < 10
  {
    '0' + n as char
  }

  // The text printed for a number.
  function Print(n: nat): (s: string)
    ensures s != [] && AllDigits(s)
    ensures s[0] == '0' ==> n == 0
  {
    if n < 10 then [Digit(n)] else Print(n / 10) + [Digit(n % 10)]
  }

  // The value of a run of digits.
  function Value(s: string): nat
    requires AllDigits(s)
  {
    if s == [] then 0 else 10 * Value(s[..|s| - 1]) + (s[|s| - 1] - '0') as nat
  }

  lemma {:induction false} ValueOfPrint(n: nat)
    ensures Value(Print(n)) == n
  {
    if n >= 10 {
      ValueOfPrint(n / 10);
      var s := Print(n);
      assert s[..|s| - 1] == Print(n / 10);
    } else {
      assert [Digit(n)][..0] == [];
    }
  }

  // How many leading characters are digits.
  function DigitRun(s: string): (k: nat)
    ensures k <= |s| && AllDigits(s[..k]) && (k < |s| ==> !IsDigit(s[k]))
  {
    if s == [] || !IsDigit(s[0]) then 0
    else
      var k := DigitRun(s[1..]);
      assert forall i | 1 <= i < k + 1 :: s[i] == s[1..][..k][i - 1];
      k + 1
  }

  predicate IsBlank(c: char) { c == ' ' || '\t' <= c <= '\r' }

  predicate IsSign(c: char) { c == '-' || c == '+' }

  // How many leading characters are white space.
  function BlankRun(s: string): (k: nat)
    ensures k <= |s| && (k < |s| ==> !IsBlank(s[k]))
  {
    if s == [] || !IsBlank(s[0]) then 0 else BlankRun(s[1..]) + 1
  }

  // White space, a sign, digits, and what follows them.
  datatype Numeral = Numeral(negative: bool, digits: string, end: nat)

  function Split(s: string): (n: Numeral)
    ensures AllDigits(n.digits) && n.end <= |s|
  {
    var i := BlankRun(s);
    var j := if i < |s| && IsSign(s[i]) then i + 1 else i;
    var k := DigitRun(s[j..]);
    Numeral(i < |s| && s[i] == '-', s[j..][..k], if k == 0 then 0 else j + k)
  }

  // strtoul and _strtoui64 for numbers up to max: a value beyond saturates, and a minus sign negates
  // modulo max + 1. The end is 0 when there are no digits.
  function ParseUpTo(s: string, max: nat): (v: nat)
    ensures v <= max
  {
    var n := Split(s);
    var v := Value(n.digits);
    if v > max then max else if n.negative && v > 0 then max + 1 - v else v
  }

  // atoi, saturating at either end.
  function ParseInt(s: string, max: nat): int {
    var n := Split(s);
    var v: int, top: int := Value(n.digits), max;
    if n.negative then (if v > top + 1 then -top - 1 else -v) else if v > top then top else v
  }

  lemma {:induction false} AllDigitsRun(s: string)
    requires AllDigits(s)
    ensures DigitRun(s) == |s|
  {
  }

  lemma {:induction false} SplitOfDigits(s: string)
    requires s != [] && AllDigits(s)
    ensures Split(s) == Numeral(false, s, |s|)
  {
    assert BlankRun(s) == 0;
    assert s[0..] == s && s[..|s|] == s;
    AllDigitsRun(s);
  }

  lemma {:induction false} SplitOfNegative(s: string)
    requires s != [] && AllDigits(s)
    ensures Split("-" + s) == Numeral(true, s, |s| + 1)
  {
    var t := "-" + s;
    assert t[0] == '-' && BlankRun(t) == 0;
    assert t[1..] == s && s[..|s|] == s;
    AllDigitsRun(s);
  }

  lemma {:induction false} ParseOfPrint(n: nat, max: nat)
    requires n <= max
    ensures ParseUpTo(Print(n), max) == n && ParseInt(Print(n), max) == n
  {
    SplitOfDigits(Print(n));
    ValueOfPrint(n);
  }

  // A text that is white space, at most one sign and at least one digit, and nothing else.
  ghost predicate IsNumeralOf(s: string, blanks: string, sign: string, digits: string) {
    && s == blanks + sign + digits && (forall k | 0 <= k < |blanks| :: IsBlank(blanks[k]))
    && |sign| <= 1 && (sign != [] ==> IsSign(sign[0])) && digits != [] && AllDigits(digits)
  }

  // White space is a space or one of the control characters 9 to 13.
  lemma {:induction false} CharacterClasses(c: char)
    ensures IsBlank(c) <==> c == ' ' || 9 <= c as int <= 13
    ensures IsSign(c) <==> c in "-+"
    ensures IsDigit(c) <==> c in "0123456789"
  {
  }

  // The program takes the whole text for a number.
  predicate IsNumeral(s: string) { s != "" && Split(s).end == |s| }

  // The number such a text writes.
  function NumberWritten(s: string): int {
    if Split(s).negative then -(Value(Split(s).digits) as int) else Value(Split(s).digits)
  }

  lemma {:induction false} BlanksRun(blanks: string, rest: string)
    requires forall k | 0 <= k < |blanks| :: IsBlank(blanks[k])
    requires rest != [] && !IsBlank(rest[0])
    ensures BlankRun(blanks + rest) == |blanks|
  {
    if blanks == [] {
      assert blanks + rest == rest;
    } else {
      assert (blanks + rest)[1..] == blanks[1..] + rest;
      BlanksRun(blanks[1..], rest);
    }
  }

  lemma {:induction false} BlankPart(s: string)
    ensures forall k | 0 <= k < BlankRun(s) :: IsBlank(s[k])
  {
    if s != [] && IsBlank(s[0]) {
      BlankPart(s[1..]);
      assert forall k | 1 <= k < BlankRun(s) :: s[k] == s[1..][k - 1];
    }
  }

  lemma {:induction false} SplitOfNumeral(s: string, blanks: string, sign: string, digits: string)
    requires IsNumeralOf(s, blanks, sign, digits)
    ensures Split(s) == Numeral(sign == "-", digits, |s|)
  {
    var rest := sign + digits;
    assert rest[0] == if sign == [] then digits[0] else sign[0];
    assert s == blanks + rest;
    BlanksRun(blanks, rest);
    var i, j := |blanks|, |blanks| + |sign|;
    assert s[i] == rest[0];
    assert s[j..] == digits && digits[..|digits|] == digits;
    AllDigitsRun(digits);
  }

  lemma {:induction false} NumeralParts(s: string) returns (blanks: string, sign: string, digits: string)
    requires IsNumeral(s)
    ensures IsNumeralOf(s, blanks, sign, digits)
  {
    var i := BlankRun(s);
    var j := if i < |s| && IsSign(s[i]) then i + 1 else i;
    BlankPart(s);
    blanks, sign, digits := s[..i], s[i..j], s[j..];
    assert j + DigitRun(digits) == |s|;
    assert digits[..|digits|] == digits;
    ThreeParts(s, i, j);
  }

  lemma {:induction false} ThreeParts(s: string, i: nat, j: nat)
    requires i <= j <= |s|
    ensures s == s[..i] + s[i..j] + s[j..]
  {
  }

  // The program takes exactly those texts for a number that are one.
  lemma {:induction false} NumeralIff(s: string)
    ensures IsNumeral(s) <==> exists blanks, sign, digits :: IsNumeralOf(s, blanks, sign, digits)
  {
    if IsNumeral(s) {
      var blanks, sign, digits := NumeralParts(s);
    } else if exists blanks, sign, digits :: IsNumeralOf(s, blanks, sign, digits) {
      var blanks, sign, digits :| IsNumeralOf(s, blanks, sign, digits);
      SplitOfNumeral(s, blanks, sign, digits);
    }
  }

  // How strtoul reads a numeral: as the number written if and only if that is neither negative nor
  // beyond the maximum; one beyond it in size saturates, a smaller negative one wraps.
  lemma {:induction false} ParseOfNumeral(s: string, max: nat)
    ensures var n: int, top: int, parsed: int := NumberWritten(s), max, ParseUpTo(s, max);
            && (parsed == n <==> 0 <= n <= top)
            && (n > top || n < -top ==> parsed == top)
            && (-top <= n < 0 ==> parsed == top + 1 + n)
            && (parsed == 0 <==> n == 0 || top == 0)
  {
  }

  // How atoi reads one: as the number written, or as the nearest number within the bounds.
  lemma {:induction false} IntOfNumeral(s: string, max: nat)
    ensures var n: int, top: int, parsed: int := NumberWritten(s), max, ParseInt(s, max);
            -top - 1 <= parsed <= top && (parsed < n ==> parsed == top) && (parsed > n ==> parsed == -top - 1)
  {
  }

  // Zeros in front change nothing, and every further digit counts ten times what came before.
  lemma {:induction false} ValueOfLonger(s: string, d: char)
    requires AllDigits(s) && IsDigit(d)
    ensures Value(s + [d]) == 10 * Value(s) + (d as int - '0' as int)
    ensures Value(['0'] + s) == Value(s)
  {
    assert (s + [d])[..|s|] == s;
    ZeroInFront(s);
  }

  lemma {:induction false} ZeroInFront(s: string)
    requires AllDigits(s)
    ensures Value(['0'] + s) == Value(s)
  {
    if s == [] {
      assert ['0'] + s == ['0'] && ['0'][..0] == [];
    } else {
      var n := |s| - 1;
      ZeroInFront(s[..n]);
      assert (['0'] + s)[..n + 1] == ['0'] + s[..n];
    }
  }
}
