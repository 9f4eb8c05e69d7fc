/** Decimal parsing into a wrapping 64-bit integer. */
module Decimal {
  import opened Wrappers

  const TWO64 := 0x1_0000_0000_0000_0000
  const TWO63 := 0x8000_0000_0000_0000

  type int64 = x: int | -TWO63 <= x < TWO63

  /** The signed 64-bit integer congruent to `n`: what Go's int64 arithmetic keeps. */
  function Wrap(n: int): (w: int64)
    ensures exists k: int :: w == n - k * TWO64
  {
    var k := (n + TWO63) / TWO64;
    assert n - k * TWO64 == (n + TWO63) % TWO64 - TWO63;
    n - k * TWO64
  }

  lemma WrapUnique(n: int, k: int, w: int64)
    requires w == n - k * TWO64
    ensures Wrap(n) == w
  {
    assert (n + TWO63) == k * TWO64 + (w + TWO63);
    assert 0 <= w + TWO63 < TWO64;
  }

  predicate IsDigit(c: char) {
    '0' <= c <= '9'
  }

  predicate AllDigits(s: string) {
    forall i :: 0 <= i < |s| ==> IsDigit(s[i])
  }

  function DigitValue(c: char): nat
    requires IsDigit(c)
  {
    c as int - '0' as int
  }

  /** The number a digit string denotes. */
  function Numeral(s: string): nat
    requires AllDigits(s)
  {
    if s == "" then 0 else Numeral(s[..|s| - 1]) * 10 + DigitValue(s[|s| - 1])
  }

  /** One turn of the loop on wrapped values is one turn on the numbers themselves. */
  lemma WrapStep(n: int, d: int)
    ensures Wrap(Wrap(n) * 10 + d) == Wrap(n * 10 + d)
  {
    var k: int :| Wrap(n) == n - k * TWO64;
    var j: int :| Wrap(Wrap(n) * 10 + d) == Wrap(n) * 10 + d - j * TWO64;
    assert Wrap(Wrap(n) * 10 + d) == n * 10 + d - (10 * k + j) * TWO64;
    WrapUnique(n * 10 + d, 10 * k + j, Wrap(Wrap(n) * 10 + d));
  }

  /** `s` is the text as the runes Go's `range` yields. */
  method ParseInt64(s: string) returns (r: Result<int64, ()>)
    ensures r.Ok? <==> AllDigits(s)
    ensures r.Ok? ==> r.value == Wrap(Numeral(s))
  {
    var n: int64 := 0;
    assert s[..0] == "";
    WrapUnique(0, 0, 0);
    for i := 0 to |s|
      invariant AllDigits(s[..i])
      invariant n == Wrap(Numeral(s[..i]))
    {
      var c := s[i];
      if c < '0' || c > '9' {
        return Err(());
      }
      assert s[..i + 1][..i] == s[..i];
      WrapStep(Numeral(s[..i]), DigitValue(c));
      n := Wrap(n * 10 + DigitValue(c));
    }
    assert s[..|s|] == s;
    return Ok(n);
  }

  /** No digit string is misread below 2^63, and every one at or above it is. */
  lemma ExactIff(s: string)
    requires AllDigits(s)
    ensures Wrap(Numeral(s)) == Numeral(s) <==> Numeral(s) < TWO63
  {
    if Numeral(s) < TWO63 {
      WrapUnique(Numeral(s), 0, Numeral(s));
    }
  }

  /** Decimal printing without leading zeros. */
  function Print(n: nat): (s: string)
    ensures s != "" && AllDigits(s)
  {
    var last := [('0' as int + n % 10) as char];
    if n < 10 then last else Print(n / 10) + last
  }

  lemma {:induction false} NumeralPrint(n: nat)
    ensures Numeral(Print(n)) == n
  {
    var s := Print(n);
    if n >= 10 {
      NumeralPrint(n / 10);
      assert s[..|s| - 1] == Print(n / 10);
    } else {
      assert s[..|s| - 1] == "";
    }
  }

  /** Parsing inverts printing on every non-negative 64-bit integer. */
  lemma ParsePrint(n: nat)
    ensures Wrap(Numeral(Print(n))) == n <==> n < TWO63
  {
    NumeralPrint(n);
    ExactIff(Print(n));
  }
}
