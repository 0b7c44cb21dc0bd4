/** Decimal numbers as strconv.Itoa prints them, and the reader that undoes it. */
module Decimals {
  import opened Text

  function Digit(d: nat): char
    requires d < 10
  {
    "0123456789"[d]
  }

  function DigitValue(c: char): Option<nat> {
    if '0' <= c <= '9' then Some((c - '0') as nat) else None
  }

  lemma DigitBack(d: nat)
    requires d < 10
    ensures DigitValue(Digit(d)) == Some(d)
  {
  }

  predicate StartsWithDigit(s: string) { s != "" && DigitValue(s[0]).Some? }

  /** strconv.Itoa on the numbers that are not negative. */
  function Decimal(n: nat): string {
    if n < 10 then [Digit(n)] else Decimal(n / 10) + [Digit(n % 10)]
  }

  /** strconv.Itoa, and the %d of fmt. */
  function SignedDecimal(n: int): string { if n < 0 then "-" + Decimal(-n) else Decimal(n) }

  /** Reads all the digits at the front of `s` after a number read so far. */
  function ReadMore(s: string, value: nat): (nat, string) {
    if StartsWithDigit(s) then ReadMore(s[1..], value * 10 + DigitValue(s[0]).value) else (value, s)
  }

  lemma {:induction false} DecimalDigits(n: nat, k: nat)
    requires k < |Decimal(n)|
    ensures DigitValue(Decimal(n)[k]).Some?
  {
    if n < 10 {
      DigitBack(n);
    } else if k < |Decimal(n / 10)| {
      DecimalDigits(n / 10, k);
    } else {
      DigitBack(n % 10);
    }
  }

  lemma {:induction false} ReadMoreDecimal(n: nat, rest: string)
    ensures ReadMore(Decimal(n) + rest, 0) == ReadMore(rest, n)
  {
    var d := [Digit(n % 10)];
    DigitBack(n % 10);
    assert (d + rest)[1..] == rest;
    if n >= 10 {
      ReadMoreDecimal(n / 10, d + rest);
      assert Decimal(n) + rest == Decimal(n / 10) + (d + rest);
    }
  }

  /** A printed number reads back, whatever but a digit follows it. */
  lemma ReadBackDecimal(n: nat, rest: string)
    requires !StartsWithDigit(rest)
    ensures StartsWithDigit(Decimal(n) + rest)
    ensures ReadMore(Decimal(n) + rest, 0) == (n, rest)
  {
    ReadMoreDecimal(n, rest);
    DecimalDigits(n, 0);
  }
}
