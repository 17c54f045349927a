/** Decimal numbers as strconv.Itoa writes and strconv.Atoi reads them.  Bytes are written as
    characters throughout. */
module Decimal {
  datatype Option<T> = None | Some(value: T)

  function Digit(d: nat): char
    requires d < 10
  {
    '0' + d as char
  }

  predicate IsDigit(c: char) {
    '0' <= c <= '9'
  }

  function Digits(n: nat): (s: string)
    ensures s != "" && forall i :: 0 <= i < |s| ==> IsDigit(s[i])
  {
    if n < 10 then [Digit(n)] else Digits(n / 10) + [Digit(n % 10)]
  }

  /** strconv.Itoa. */
  function Itoa(n: int): string {
    if n < 0 then "-" + Digits(-n) else Digits(n)
  }

  predicate AllDigits(s: string) {
    forall i :: 0 <= i < |s| ==> IsDigit(s[i])
  }

  function Value(s: string): nat
    requires AllDigits(s)
  {
    if s == "" then 0 else 10 * Value(s[..|s| - 1]) + (s[|s| - 1] - '0') as nat
  }

  const MIN_INT := -0x8000_0000_0000_0000
  const MAX_INT := 0x7fff_ffff_ffff_ffff

  /** strconv.Atoi: an optional sign, at least one digit, and a value that fits an int. */
  function Atoi(s: string): Option<int> {
    var body := if s != "" && (s[0] == '-' || s[0] == '+') then s[1..] else s;
    if body == "" || !AllDigits(body) then None
    else
      var v: int := Value(body);
      var n := if s[0] == '-' then -v else v;
      if MIN_INT <= n <= MAX_INT then Some(n) else None
  }

  lemma {:induction false} ValueOfDigits(n: nat)
    ensures Value(Digits(n)) == n
  {
    if n < 10 {
      assert Digits(n)[..0] == "";
      assert Value([Digit(n)][..0]) == 0;
    } else {
      ValueOfDigits(n / 10);
      assert Digits(n)[..|Digits(n)| - 1] == Digits(n / 10);
    }
  }

  lemma AtoiUnsigned(s: string)
    requires s != "" && AllDigits(s) && Value(s) <= MAX_INT
    ensures Atoi(s) == Some(Value(s))
  {
    hide Value;
    assert IsDigit(s[0]);
  }

  /** Reading back a written number. */
  lemma AtoiItoa(n: int)
    requires MIN_INT <= n <= MAX_INT
    ensures Atoi(Itoa(n)) == Some(n)
  {
    hide Digits, Value;
    if n < 0 {
      ValueOfDigits(-n);
      assert Itoa(n)[1..] == Digits(-n);
    } else {
      ValueOfDigits(n);
      AtoiUnsigned(Digits(n));
    }
  }

  /** A number is read from the left, each digit in its decimal place. */
  lemma ReadsDecimally(s: string, c: char)
    requires AllDigits(s) && '0' <= c <= '9'
    ensures AllDigits(s + [c]) && Value(s + [c]) == 10 * Value(s) + (c as int - '0' as int)
  {
    assert (s + [c])[..|s|] == s;
  }

  /** What is read from decimal digits, bare or behind a sign, within 64 bits. */
  lemma AtoiReads(t: string)
    requires t != "" && forall i :: 0 <= i < |t| ==> '0' <= t[i] <= '9'
    ensures AllDigits(t)
    ensures var v: int := Value(t);
      && Atoi(t) == (if v <= 0x7fff_ffff_ffff_ffff then Some(v) else None)
      && Atoi("+" + t) == (if v <= 0x7fff_ffff_ffff_ffff then Some(v) else None)
      && Atoi("-" + t) == (if v <= 0x8000_0000_0000_0000 then Some(-v) else None)
  {
    hide Value;
    assert forall i :: 0 <= i < |t| ==> IsDigit(t[i]);
    assert ("+" + t)[1..] == t && ("-" + t)[1..] == t;
  }

  /** Nothing else is read. */
  lemma AtoiRejects(s: string)
    requires Atoi(s).Some?
    ensures s != ""
    ensures var t := if s[0] == '-' || s[0] == '+' then s[1..] else s;
      t != "" && forall i :: 0 <= i < |t| ==> '0' <= t[i] <= '9'
  {
    hide Value;
    var t := if s != "" && (s[0] == '-' || s[0] == '+') then s[1..] else s;
    assert AllDigits(t);
    assert forall i :: 0 <= i < |t| ==> IsDigit(t[i]);
  }

  lemma {:induction false} NoLeadingZero(n: nat)
    ensures Digits(n)[0] == '0' ==> n == 0 && Digits(n) == "0"
  {
    if n < 10 {
    } else {
      NoLeadingZero(n / 10);
    }
  }

  /** What is written: decimal digits without leading zeros, behind a minus sign for a negative
      number.  With AtoiItoa this fixes every character. */
  lemma ItoaIs(n: int)
    ensures n >= 0 ==> Itoa(n) != "" && forall i :: 0 <= i < |Itoa(n)| ==> '0' <= Itoa(n)[i] <= '9'
    ensures n >= 0 ==> Itoa(n)[0] == '0' ==> Itoa(n) == "0"
    ensures n < 0 ==> Itoa(n) == "-" + Itoa(-n)
  {
    if n >= 0 {
      assert forall i :: 0 <= i < |Digits(n)| ==> IsDigit(Digits(n)[i]);
      NoLeadingZero(n);
    }
  }
}
