// Decimal numerals as Rust prints and parses them.
module Decimal {
  import opened Wrappers

  const USIZE_LIMIT: nat := 0x1_0000_0000_0000_0000

  function DigitChar(d: nat): (c: char)
    requires d < 10
    ensures '0' <= c <= '9'
  {
    ('0' as int + d) as char
  }

  predicate IsDigit(c: char) {
    '0' <= c <= '9'
  }

  predicate AllDigits(s: string) {
    forall i :: 0 <= i < |s| ==> IsDigit(s[i])
  }

  function Value(s: string): nat
    requires AllDigits(s)
  {
    if s == "" then 0
    else 10 * Value(s[..|s| - 1]) + (s[|s| - 1] as int - '0' as int)
  }

  function Digits(n: nat): (s: string)
    ensures s != "" && AllDigits(s)
    ensures Value(s) == n
  {
    if n < 10 then [DigitChar(n)]
    else
      var front := Digits(n / 10);
      var s := front + [DigitChar(n % 10)];
      assert s[..|s| - 1] == front;
      s
  }

  /** `str::parse::<usize>`: an optional plus sign, then digits that fit 64 bits. */
  function ParseUsize(s: string): (r: Option<nat>)
    ensures r.Some? ==> r.value < USIZE_LIMIT
  {
    var digits := if |s| > 1 && s[0] == '+' then s[1..] else s;
    if digits != "" && AllDigits(digits) && Value(digits) < USIZE_LIMIT then Some(Value(digits)) else None
  }

  lemma {:induction false} ParseInvertsDigits(n: nat)
    ensures ParseUsize(Digits(n)) == if n < USIZE_LIMIT then Some(n) else None
  {
    assert IsDigit(Digits(n)[0]);
  }

  // ----- what is parsed -----

  function Zeros(k: nat): string {
    seq(k, _ => '0')
  }

  /** `s` is the numeral of `n`, with any number of zeros before it and perhaps a plus sign. */
  ghost predicate Spells(s: string, n: nat) {
    exists k: nat :: s == Zeros(k) + Digits(n) || s == "+" + (Zeros(k) + Digits(n))
  }

  lemma {:induction false} ValueSkipsZeros(k: nat, s: string)
    requires AllDigits(s)
    ensures AllDigits(Zeros(k) + s) && Value(Zeros(k) + s) == Value(s)
    decreases |s|, k
  {
    if s != "" {
      ValueSkipsZeros(k, s[..|s| - 1]);
      assert (Zeros(k) + s)[..k + |s| - 1] == Zeros(k) + s[..|s| - 1];
    } else if k > 0 {
      ValueSkipsZeros(k - 1, s);
      assert (Zeros(k) + s)[..k - 1] == Zeros(k - 1) + s;
    } else {
      assert Zeros(0) + s == s;
    }
  }

  lemma {:induction false} NumeralOfValue(s: string) returns (k: nat)
    requires s != "" && AllDigits(s)
    ensures s == Zeros(k) + Digits(Value(s))
  {
    k := 0;
    var front, d := s[..|s| - 1], s[|s| - 1] as int - '0' as int;
    assert s == front + [DigitChar(d)];
    if front != "" {
      k := NumeralOfValue(front);
      if Value(front) == 0 {
        assert front == Zeros(k) + "0" == Zeros(k + 1);
        k := k + 1;
      }
    }
  }

  /** Exactly the numerals of 64-bit numbers are parsed, each to its number. */
  lemma {:induction false} ParseUsizeMeans(s: string, n: nat)
    ensures ParseUsize(s) == Some(n) <==> n < 0x1_0000_0000_0000_0000 && Spells(s, n)
  {
    if ParseUsize(s) == Some(n) {
      var digits := if |s| > 1 && s[0] == '+' then s[1..] else s;
      var k := NumeralOfValue(digits);
      assert digits != s ==> s == "+" + digits;
    }
    if n < USIZE_LIMIT && Spells(s, n) {
      var k: nat :| s == Zeros(k) + Digits(n) || s == "+" + (Zeros(k) + Digits(n));
      ValueSkipsZeros(k, Digits(n));
      assert IsDigit((Zeros(k) + Digits(n))[0]);
      assert s[0] == '+' ==> s[1..] == Zeros(k) + Digits(n);
    }
  }
}
