/** Numerals in base 10 and 16: `divide` and the digit loop of `print_number`. */
module Numerals {
  import opened CText
  import opened Words

  /** `divide` knows base 10 and takes every other base for 16. */
  function Radix(base: int): nat { if base == 10 then 10 else 16 }

  function Quotient(n: nat, base: int): nat { if base == 10 then n / 10 else n / 16 }

  function Remainder(n: nat, base: int): (r: nat)
    ensures r < Radix(base)
    ensures if base == 10 then n == 10 * Quotient(n, base) + r else n == 16 * Quotient(n, base) + r
  {
    if base == 10 then n % 10 else n % 16
  }

  const SmallDigits: string := "0123456789abcdef"
  const LargeDigits: string := "0123456789ABCDEF"

  function DigitSymbol(d: nat, large: bool): char
    requires d < 16
  {
    if large then LargeDigits[d] else SmallDigits[d]
  }

  function DigitValue(c: char): nat {
    if '0' <= c <= '9' then (c - '0') as nat
    else if 'a' <= c <= 'f' then (c - 'a') as nat + 10
    else if 'A' <= c <= 'F' then (c - 'A') as nat + 10
    else 0
  }

  lemma DigitReads(d: nat, large: bool)
    requires d < 16
    ensures DigitValue(DigitSymbol(d, large)) == d && (DigitSymbol(d, large) == '0' <==> d == 0)
  {
  }

  /** The significant digits of `n`, most significant first; none for 0. */
  function Digits(n: nat, base: int, large: bool): string {
    if n == 0 then "" else Digits(Quotient(n, base), base, large) + [DigitSymbol(Remainder(n, base), large)]
  }

  function Numeral(n: nat, base: int, large: bool): string {
    if n == 0 then "0" else Digits(n, base, large)
  }

  /** What a row of digits denotes. */
  function Value(s: string, base: int): nat {
    if s == "" then 0
    else
      var high, d := Value(s[..|s| - 1], base), DigitValue(s[|s| - 1]);
      if base == 10 then 10 * high + d else 16 * high + d
  }

  lemma {:induction false} DigitsDenote(n: nat, base: int, large: bool)
    ensures Value(Digits(n, base, large), base) == n
    ensures n > 0 ==> Digits(n, base, large) != "" && Digits(n, base, large)[0] != '0'
  {
    if n > 0 {
      var s, q, d := Digits(n, base, large), Quotient(n, base), Remainder(n, base);
      DigitsDenote(q, base, large);
      DigitReads(d, large);
      assert s[..|s| - 1] == Digits(q, base, large);
    }
  }

  /** The numeral denotes its number, and has no leading zero. */
  lemma NumeralDenotes(n: nat, base: int, large: bool)
    ensures Value(Numeral(n, base, large), base) == n
    ensures |Numeral(n, base, large)| > 0 && (Numeral(n, base, large)[0] == '0' <==> n == 0)
  {
    DigitsDenote(n, base, large);
    assert "0"[..0] == "";
  }

  function Power(base: int, k: nat): nat {
    if k == 0 then 1 else if base == 10 then 10 * Power(base, k - 1) else 16 * Power(base, k - 1)
  }

  lemma {:induction false} DigitsBound(n: nat, base: int, large: bool, k: nat)
    requires n < Power(base, k)
    ensures |Digits(n, base, large)| <= k
  {
    if n > 0 && k > 0 { DigitsBound(Quotient(n, base), base, large, k - 1); }
  }

  lemma TenDigits(base: int)
    ensures UINT32 <= Power(base, 10)
  {
    assert Power(base, 0) == 1;
    assert 10 <= Power(base, 1);
    assert 100 <= Power(base, 2);
    assert 10_000 <= Power(base, 4);
    assert 1_000_000 <= Power(base, 6);
    assert 100_000_000 <= Power(base, 8);
  }

  /** A 32-bit number has at most ten digits, so `tmp[16]` holds them. */
  lemma NumeralFits(n: nat, base: int, large: bool)
    requires n < UINT32
    ensures 0 < |Numeral(n, base, large)| <= 10
  {
    NumeralDenotes(n, base, large);
    TenDigits(base);
    DigitsBound(n, base, large, 10);
  }

  // ----- the digit loop

  function Reverse(s: string): (r: string)
    ensures |r| == |s|
  {
    if s == "" then "" else [s[|s| - 1]] + Reverse(s[..|s| - 1])
  }

  method Divide(n: nat, base: int) returns (res: nat, rest: nat)
    ensures res == Remainder(n, base) && rest == Quotient(n, base)
  {
    if base == 10 { res, rest := n % 10, n / 10; } else { res, rest := n % 16, n / 16; }
  }

  lemma ReverseSnoc(s: string, c: char)
    ensures Reverse(s + [c]) == [c] + Reverse(s)
  {
    assert (s + [c])[..|s|] == s;
  }

  /** The digits still to come, then those already in `done`, least significant first. */
  function Pending(num: nat, base: int, large: bool, done: string): string {
    Digits(num, base, large) + Reverse(done)
  }

  lemma PendingEnds(num: nat, base: int, large: bool)
    ensures Pending(num, base, large, "") == Digits(num, base, large)
    ensures forall done :: Pending(0, base, large, done) == Reverse(done)
  {
    forall done ensures Pending(0, base, large, done) == Reverse(done) {
      assert "" + Reverse(done) == Reverse(done);
    }
  }

  lemma OneDigit(num: nat, base: int, large: bool, done: string)
    requires num > 0
    ensures var c := DigitSymbol(Remainder(num, base), large);
            Pending(Quotient(num, base), base, large, done + [c]) == Pending(num, base, large, done)
    ensures |done| < |Pending(num, base, large, done)|
  {
    var q, c := Digits(Quotient(num, base), base, large), DigitSymbol(Remainder(num, base), large);
    ReverseSnoc(done, c);
    Assoc(q, [c], Reverse(done));
    assert Digits(num, base, large) == q + [c];
  }

  /** Fills `tmp` with the digits, least significant first. */
  method MakeDigits(n: nat, base: int, large: bool, tmp: array<char>) returns (i: nat)
    requires n < UINT32 && tmp.Length == 16
    modifies tmp
    ensures i <= 10 && Reverse(tmp[..i]) == Numeral(n, base, large)
  {
    i := 0;
    if n == 0 {
      tmp[0] := '0';
      i := 1;
      ReverseSnoc("", '0');
      assert tmp[..i] == "" + ['0'];
    } else {
      i := CollectDigits(n, base, large, tmp);
    }
  }

  method CollectDigits(n: nat, base: int, large: bool, tmp: array<char>) returns (i: nat)
    requires n < UINT32 && tmp.Length == 16
    modifies tmp
    ensures i <= 10 && Reverse(tmp[..i]) == Digits(n, base, large)
  {
    ghost var all := Digits(n, base, large);
    assert |all| <= 10 by { NumeralFits(n, base, large); }
    PendingEnds(n, base, large);
    i := 0;
    var num := n;
    ghost var done := "";
    while num != 0
      invariant Pending(num, base, large, done) == all && i == |done| <= 10
      invariant tmp[..i] == done
      decreases num
    {
      OneDigit(num, base, large, done);
      var d, rest := Divide(num, base);
      tmp[i] := DigitSymbol(d, large);
      done := done + [DigitSymbol(d, large)];
      i, num := i + 1, rest;
    }
  }
}
