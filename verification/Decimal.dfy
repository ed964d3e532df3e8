/** Decimal text of integers: std::to_string, and std::stol / std::stoi / std::stoll. */
module Decimal {

  datatype Option<+T> = None | Some(value: T)

  predicate IsDigit(ch: char) {
    '0' <= ch <= '9'
  }

  predicate IsSpace(ch: char) {
    ch == ' ' || '\t' <= ch <= '\r'
  }

  function Digit(d: nat): (ch: char)
    requires d < 10
    ensures IsDigit(ch)
  {
    '0' + d as char
  }

  function DigitValue(ch: char): (d: nat)
    requires IsDigit(ch)
    ensures d < 10 && Digit(d) == ch
  {
    ch as int - '0' as int
  }

  predicate AllDigits(s: string) {
    forall i | 0 <= i < |s| :: IsDigit(s[i])
  }

  function NatText(n: nat): (s: string)
    ensures s != "" && AllDigits(s)
  {
    if n < 10 then [Digit(n)] else NatText(n / 10) + [Digit(n % 10)]
  }

  /** std::to_string. */
  function Text(n: int): (s: string)
    ensures s != ""
    ensures forall ch | ch in s :: IsDigit(ch) || ch == '-'
  {
    if n < 0 then "-" + NatText(-n) else NatText(n)
  }

  function NatValue(s: string): nat
    requires AllDigits(s)
  {
    if s == "" then 0 else 10 * NatValue(s[..|s| - 1]) + DigitValue(s[|s| - 1])
  }

  /** Length of the leading run of digits. */
  function DigitRun(s: string): (n: nat)
    ensures n <= |s| && AllDigits(s[..n])
  {
    if s == "" || !IsDigit(s[0]) then 0
    else
      var n := 1 + DigitRun(s[1..]);
      assert s[..n] == [s[0]] + s[1..][..n - 1];
      n
  }

  function Negated(v: Option<int>): Option<int> {
    match v
    case None => None
    case Some(n) => Some(-n)
  }

  function ParseUnsigned(s: string): Option<int> {
    var n := DigitRun(s);
    if n == 0 then None else Some(NatValue(s[..n]))
  }

  /**
   * std::stol: leading white space, an optional sign, then the longest run of
   * digits; what follows is ignored. None stands for std::invalid_argument.
   */
  function Parse(s: string): Option<int> {
    if s != "" && IsSpace(s[0]) then Parse(s[1..])
    else if s != "" && s[0] == '-' then
      Negated(ParseUnsigned(s[1..]))
    else
      ParseUnsigned(if s != "" && s[0] == '+' then s[1..] else s)
  }

  lemma {:induction false} NatRoundTrip(n: nat)
    ensures NatValue(NatText(n)) == n
  {
    if n < 10 {
      assert NatText(n)[..0] == "";
      assert NatValue("") == 0;
    } else {
      NatRoundTrip(n / 10);
      assert NatText(n)[..|NatText(n)| - 1] == NatText(n / 10);
    }
  }

  lemma {:induction false} DigitRunIs(s: string, rest: string)
    requires AllDigits(s) && (rest == "" || !IsDigit(rest[0]))
    ensures DigitRun(s + rest) == |s|
  {
    if s == "" {
      assert s + rest == rest;
    } else {
      assert (s + rest)[1..] == s[1..] + rest;
      DigitRunIs(s[1..], rest);
    }
  }

  lemma ParseNatText(n: nat, rest: string)
    requires rest == "" || !IsDigit(rest[0])
    ensures ParseUnsigned(NatText(n) + rest) == Some(n)
  {
    DigitRunIs(NatText(n), rest);
    assert (NatText(n) + rest)[..|NatText(n)|] == NatText(n);
    NatRoundTrip(n);
  }

  /** Reading back the printed integer, whatever non-digit follows it. */
  lemma RoundTrip(n: int, rest: string)
    requires rest == "" || !IsDigit(rest[0])
    ensures Parse(Text(n) + rest) == Some(n)
  {
    hide Parse, ParseUnsigned, NatText;
    if n < 0 {
      SignInFront(NatText(-n), rest);
      ParseNegative(NatText(-n) + rest);
      ParseNatText(-n, rest);
    } else {
      ParsePlain(NatText(n), rest);
      ParseNatText(n, rest);
    }
  }

  lemma SignInFront(digits: string, rest: string)
    ensures "-" + digits + rest == ['-'] + (digits + rest)
  {
  }

  lemma ParseNegative(s: string)
    ensures Parse(['-'] + s) == Negated(ParseUnsigned(s))
  {
    assert (['-'] + s)[1..] == s;
  }

  lemma ParsePlain(s: string, rest: string)
    requires s != "" && IsDigit(s[0])
    ensures Parse(s + rest) == ParseUnsigned(s + rest)
  {
    assert (s + rest)[0] == s[0];
  }

  lemma ParseText(n: int)
    ensures Parse(Text(n)) == Some(n)
  {
    RoundTrip(n, "");
    assert Text(n) + "" == Text(n);
  }

  /** Decimal text contains none of the delimiters of the wire formats. */
  lemma TextIsFree(n: int, c: char)
    requires !IsDigit(c) && c != '-'
    ensures c !in Text(n)
  {
  }
}
