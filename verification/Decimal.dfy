/** Decimal notation of integers, as Python's `str` prints it and Java's `Integer.parseInt` reads it. */
module Decimal {
  import opened Common

  predicate IsDigit(c: char) {
    '0' <= c <= '9'
  }

  predicate AllDigits(s: string) {
    forall i :: 0 <= i < |s| ==> IsDigit(s[i])
  }

  function Digits(n: nat): string {
    if n < 10 then ['0' + n as char] else Digits(n / 10) + ['0' + (n % 10) as char]
  }

  function DigitsValue(s: string): nat
    requires AllDigits(s)
  {
    if s == [] then 0 else 10 * DigitsValue(s[..|s| - 1]) + (s[|s| - 1] - '0') as nat
  }

  lemma {:induction false} DigitsRoundTrip(n: nat)
    ensures Digits(n) != [] && AllDigits(Digits(n)) && DigitsValue(Digits(n)) == n
  {
    if n < 10 {
      assert Digits(n)[..0] == [];
    } else {
      DigitsRoundTrip(n / 10);
      var s := Digits(n);
      assert s[..|s| - 1] == Digits(n / 10);
      assert s[|s| - 1] - '0' == (n % 10) as char;
    }
  }

  function Power10(k: nat): (power: int)
    ensures power > 0
  {
    if k == 0 then 1 else 10 * Power10(k - 1)
  }

  /** A number has at most `k` digits exactly when it is below the `k`-th power of ten. */
  lemma {:induction false} DigitCount(n: nat, k: nat)
    requires k > 0
    ensures |Digits(n)| <= k <==> n < Power10(k)
  {
    assert Power10(k) == 10 * Power10(k - 1);
    if n >= 10 && k > 1 {
      DigitCount(n / 10, k - 1);
    } else if n >= 10 {
      assert Power10(1) == 10 * Power10(0);
      DigitsRoundTrip(n / 10);
    }
  }

  /** `str(n)` */
  function Print(n: int): string {
    if n < 0 then ['-'] + Digits(-n) else Digits(n)
  }

  /** `Integer.parseInt` without its range check: an optional sign and at least one digit. */
  function Parse(s: string): Option<int> {
    var body := if s != [] && (s[0] == '-' || s[0] == '+') then s[1..] else s;
    if body == [] || !AllDigits(body) then None
    else
      var magnitude: int := DigitsValue(body);
      Some(if s[0] == '-' then -magnitude else magnitude)
  }

  lemma PrintParses(n: int)
    ensures Parse(Print(n)) == Some(n)
  {
    DigitsRoundTrip(if n < 0 then -n else n);
    if n < 0 {
      assert Print(n)[1..] == Digits(-n);
    }
  }
}
