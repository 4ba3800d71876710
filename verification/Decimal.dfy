/** Decimal numbers as strconv reads them and fmt writes them. */
module Decimal {
  import opened Prelude

  const TWO63 := 0x8000_0000_0000_0000
  const TWO64 := 0x1_0000_0000_0000_0000

  predicate IsInt64(n: int) {
    -TWO63 <= n < TWO63
  }

  predicate IsDigit(c: char) {
    '0' <= c <= '9'
  }

  function Digit(d: nat): (c: char)
    requires d < 10
    ensures IsDigit(c) && c as int - '0' as int == d
  {
    (d + '0' as int) as char
  }

  /** The digits of `n`, most significant first, without leading zeros. */
  function Digits(n: nat): string {
    if n < 10 then [Digit(n)] else Digits(n / 10) + [Digit(n % 10)]
  }

  /** `%d`. */
  function Print(n: int): string {
    if n < 0 then "-" + Digits(-n) else Digits(n)
  }

  predicate AllDigits(s: string) {
    forall i :: 0 <= i < |s| ==> IsDigit(s[i])
  }

  function Value(s: string): nat
    requires AllDigits(s)
  {
    if s == "" then 0 else 10 * Value(s[..|s| - 1]) + (s[|s| - 1] as int - '0' as int)
  }

  /** strconv.ParseUint(s, 10, 64). */
  function ParseUint(s: string): Option<nat> {
    if s != "" && AllDigits(s) && Value(s) < TWO64 then Some(Value(s)) else None
  }

  /** strconv.ParseInt(s, 10, 64): one optional sign, at least one digit, range checked. */
  function ParseInt(s: string): Option<int> {
    if s == "" then None
    else
      var neg := s[0] == '-';
      var rest := if neg || s[0] == '+' then s[1..] else s;
      match ParseUint(rest)
      case None => None
      case Some(u) =>
        var v: int := u;
        if neg && v <= TWO63 then Some(-v) else if !neg && v < TWO63 then Some(v) else None
  }

  /** A text reads as `n` exactly when it is a sign or none and digits of that value, and
      the value fits into 64 bits. */
  lemma {:induction false} ParseExactly(s: string, n: int)
    ensures ParseInt(s) == Some(n) <==> IsInt64(n) && exists sign, d :: Spells(s, n, sign, d)
  {
    if ParseInt(s) == Some(n) {
      var neg, d := ParsedParts(s);
      assert Spells(s, n, if neg then "-" else s[..|s| - |d|], d);
    }
    if sign, d :| IsInt64(n) && Spells(s, n, sign, d) {
      assert sign == "" ==> s == d;
      assert sign != "" ==> s[0] == sign[0] && s[1..] == d;
    }
  }

  predicate Spells(s: string, n: int, sign: string, d: string) {
    && s == sign + d && d != "" && AllDigits(d)
    && var v: int := Value(d);
       ((sign == "-" && n == -v) || ((sign == "" || sign == "+") && n == v))
  }

  lemma {:induction false} DigitsValue(n: nat)
    ensures Digits(n) != "" && AllDigits(Digits(n)) && Value(Digits(n)) == n
    ensures n > 0 ==> Digits(n)[0] != '0'
    decreases n
  {
    if n >= 10 {
      DigitsValue(n / 10);
      assert Digits(n)[..|Digits(n)| - 1] == Digits(n / 10);
    }
  }

  /** Reading back what was printed, over all of int64. */
  lemma {:induction false} ParsePrint(n: int)
    requires IsInt64(n)
    ensures ParseInt(Print(n)) == Some(n)
  {
    hide ParseInt, Digits, Value, AllDigits;
    DigitsValue(if n < 0 then -n else n);
    ParseSigned(Digits(if n < 0 then -n else n));
  }

  lemma {:induction false} ParseSigned(d: string)
    requires d != "" && AllDigits(d)
    ensures var v: int := Value(d);
      && ParseInt(d) == (if v < TWO63 then Some(v) else None)
      && ParseInt("-" + d) == (if v <= TWO63 then Some(-v) else None)
  {
    hide Value;
    assert IsDigit(d[0]);
    assert ("-" + d)[1..] == d;
  }

  /** The limits of the two widths: a printed number reads back exactly within them. */
  lemma {:induction false} Limits(n: nat)
    ensures ParseUint(Digits(n)) == if n <= 18_446_744_073_709_551_615 then Some(n) else None
    ensures ParseInt(Digits(n)) == if n <= 9_223_372_036_854_775_807 then Some(n) else None
  {
    DigitsValue(n);
  }

  /** No sign but '-', no superfluous zero. */
  predicate Canonical(s: string) {
    s == "0" || (var d := if s != "" && s[0] == '-' then s[1..] else s; d != "" && d[0] != '0' && d[0] != '+')
  }

  lemma {:induction false} ValueDigits(s: string)
    requires s != "" && AllDigits(s) && (s == "0" || s[0] != '0')
    ensures Digits(Value(s)) == s
    ensures s != "0" ==> Value(s) > 0
    decreases |s|
  {
    var t := s[..|s| - 1];
    if t != "" {
      ValueDigits(t);
      assert s == t + [s[|s| - 1]];
      assert Value(s) / 10 == Value(t);
    }
  }

  /** Reading a sign and digits. */
  lemma {:induction false} ParsedParts(s: string) returns (neg: bool, d: string)
    requires ParseInt(s).Some?
    ensures d != "" && AllDigits(d) && var v: int := Value(d); ParseInt(s).value == if neg then -v else v
    ensures neg ==> s == "-" + d
    ensures !neg ==> s == d || s == "+" + d
  {
    neg := s[0] == '-';
    d := if neg || s[0] == '+' then s[1..] else s;
    assert s == [s[0]] + s[1..];
  }

  /** A number read from a text prints as that text exactly when the text is canonical. */
  lemma {:induction false} PrintParse(s: string)
    requires ParseInt(s).Some?
    ensures Print(ParseInt(s).value) == s <==> Canonical(s)
  {
    var neg, d := ParsedParts(s);
    hide ParseInt;
    var n := Value(d);
    DigitsValue(n);
    if d == "0" || d[0] != '0' {
      ValueDigits(d);
      assert neg ==> s[1..] == d && s[0] == '-';
    } else {
      assert Digits(n) != d && s != "0";
      assert neg ==> s[1..] == d && s[0] == '-';
      assert neg ==> ("-" + Digits(n))[1..] == Digits(n);
    }
  }
}
