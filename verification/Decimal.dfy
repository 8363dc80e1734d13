/** strconv.Itoa, strconv.Atoi and fmt's zero padding, with the facts the id allocators,
    the clock formats and the version digits rest on. Integers are unbounded. */
module Decimal {
  import opened Options

  predicate IsDigit(c: char) {
    '0' <= c <= '9'
  }

  predicate AllDigits(s: string) {
    forall i | 0 <= i < |s| :: IsDigit(s[i])
  }

  function DigitValue(c: char): nat
    requires IsDigit(c)
  {
    c as int - '0' as int
  }

  function DigitChar(d: nat): (c: char)
    requires d < 10
    ensures IsDigit(c) && DigitValue(c) == d
  {
    ('0' as int + d) as char
  }

  /** The number a digit string denotes; leading zeros do not change it. */
  function Value(s: string): nat
    requires AllDigits(s)
  {
    if s == [] then 0 else Value(s[..|s| - 1]) * 10 + DigitValue(s[|s| - 1])
  }

  function Digits(n: nat): (s: string)
    ensures s != [] && AllDigits(s) && Value(s) == n
  {
    if n < 10 then [DigitChar(n)]
    else
      var front := Digits(n / 10);
      var s := front + [DigitChar(n % 10)];
      assert s[..|s| - 1] == front;
      s
  }

  lemma {:induction false} LeadingZero(s: string)
    requires AllDigits(s)
    ensures Value("0" + s) == Value(s)
  {
    if s == [] {
      assert ("0" + s)[..0] == [];
    } else {
      var z := "0" + s;
      assert z[..|z| - 1] == "0" + s[..|s| - 1];
      LeadingZero(s[..|s| - 1]);
    }
  }

  function ZeroFill(s: string, width: nat): (r: string)
    requires AllDigits(s)
    ensures AllDigits(r) && Value(r) == Value(s)
    ensures |r| == if |s| < width then width else |s|
    decreases width - |s|
  {
    if |s| >= width then s
    else
      LeadingZero(s);
      ZeroFill("0" + s, width)
  }

  /** fmt's %0<width>d for a non-negative number. */
  function Pad(n: nat, width: nat): (s: string)
    ensures AllDigits(s) && Value(s) == n
    ensures |s| >= width && s != []
  {
    ZeroFill(Digits(n), width)
  }

  lemma TwoDigits(n: nat)
    requires n < 100
    ensures |Pad(n, 2)| == 2
  {
    assert n >= 10 ==> |Digits(n)| == |Digits(n / 10)| + 1;
  }

  lemma TwoDigitParse(n: nat)
    requires n < 100
    ensures |Pad(n, 2)| == 2
    ensures n == DigitValue(Pad(n, 2)[0]) * 10 + DigitValue(Pad(n, 2)[1])
  {
    TwoDigits(n);
    var s := Pad(n, 2);
    assert s[..1][..0] == [];
    assert Value(s[..1]) == DigitValue(s[0]);
  }

  lemma SameTwoDigits(a: char, b: char, c: char, d: char)
    requires IsDigit(a) && IsDigit(b) && IsDigit(c) && IsDigit(d)
    requires DigitValue(a) * 10 + DigitValue(b) == DigitValue(c) * 10 + DigitValue(d)
    ensures a == c && b == d
  {
  }

  function Itoa(n: int): string {
    if n < 0 then "-" + Digits(-n) else Digits(n)
  }

  /** strconv.Atoi: an optional sign and at least one digit; None is its error. */
  function Atoi(s: string): Option<int> {
    if s == [] then None
    else if s[0] == '-' || s[0] == '+' then
      var rest := s[1..];
      if rest == [] || !AllDigits(rest) then None
      else
        var n: int := Value(rest);
        Some(if s[0] == '-' then -n else n)
    else if AllDigits(s) then Some(Value(s))
    else None
  }

  lemma AtoiItoa(n: int)
    ensures Atoi(Itoa(n)) == Some(n)
  {
    if n < 0 {
      assert Itoa(n)[1..] == Digits(-n);
    } else {
      assert IsDigit(Digits(n)[0]);
    }
  }

  /** What else Atoi reads: padded numbers and a leading plus; and what it refuses. */
  lemma AtoiReads(n: nat, width: nat, s: string)
    ensures Atoi(Pad(n, width)) == Some(n) && Atoi("+" + Digits(n)) == Some(n)
    ensures Atoi("-" + Digits(n)).Some? && Atoi("-" + Digits(n)).value + n == 0
    ensures Atoi(s).Some? <==>
            var unsigned := if s != [] && (s[0] == '-' || s[0] == '+') then s[1..] else s;
            unsigned != [] && AllDigits(unsigned)
  {
    assert ("+" + Digits(n))[1..] == Digits(n) && ("-" + Digits(n))[1..] == Digits(n);
    assert IsDigit(Pad(n, width)[0]);
  }
}
