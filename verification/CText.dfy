/**
 * C strings as Dafny strings.
 *
 * A NUL-terminated text is the sequence of the bytes before its terminator; a
 * byte is a `char`.  A pointer into the text is either an index or, in the
 * specification functions, the suffix it points at.
 */
module CText {

  /** What `*(p + i)` reads: the terminator is visible just past the last byte. */
  function At(t: string, i: nat): char {
    if i < |t| then t[i] else '\0'
  }

  predicate NulFree(t: string) {
    forall i :: 0 <= i < |t| ==> t[i] != '\0'
  }

  predicate IsDigit(c: char) {
    '0' <= c <= '9'
  }

  predicate AllDigits(t: string) {
    forall i :: 0 <= i < |t| ==> IsDigit(t[i])
  }

  function Digit(c: char): int {
    c as int - '0' as int
  }

  function DigitChar(d: nat): (c: char)
    requires d < 10
    ensures IsDigit(c) && Digit(c) == d
  {
    ('0' as int + d) as char
  }

  /** The number a decimal digit string denotes. */
  function NatOf(ds: string): int {
    if ds == "" then 0
    else NatOf(ds[..|ds| - 1]) * 10 + Digit(ds[|ds| - 1])
  }

  /** The shortest decimal notation of `n`. */
  function Decimal(n: nat): (ds: string)
    ensures ds != "" && AllDigits(ds)
    ensures n > 0 ==> ds[0] != '0'
    ensures n == 0 ==> ds == "0"
  {
    if n < 10 then [DigitChar(n)]
    else Decimal(n / 10) + [DigitChar(n % 10)]
  }

  lemma {:induction false} DecimalDenotes(n: nat)
    ensures NatOf(Decimal(n)) == n
  {
    if n < 10 {
      assert NatOf(Decimal(n)) == NatOf("") * 10 + Digit(Decimal(n)[0]);
    } else {
      DecimalDenotes(n / 10);
      assert Decimal(n)[..|Decimal(n)| - 1] == Decimal(n / 10);
    }
  }

  /** A leading zero does not change the number. */
  lemma {:induction false} LeadingZero(ds: string)
    ensures NatOf("0" + ds) == NatOf(ds)
  {
    if ds == "" {
      assert "0" + ds == "0" && "0"[..0] == "";
      assert NatOf("0") == NatOf("") * 10 + Digit('0');
    } else {
      LeadingZero(ds[..|ds| - 1]);
      assert ("0" + ds)[..|ds|] == "0" + ds[..|ds| - 1];
    }
  }

  /** The number of leading decimal digits. */
  function Span(t: string): (k: nat)
    ensures k <= |t|
  {
    if t == "" || !IsDigit(t[0]) then 0 else 1 + Span(t[1..])
  }

  lemma {:induction false} SpanExact(ds: string, rest: string)
    requires AllDigits(ds) && !IsDigit(At(rest, 0))
    ensures Span(ds + rest) == |ds|
  {
    if ds != "" {
      SpanExact(ds[1..], rest);
      assert (ds + rest)[1..] == ds[1..] + rest;
    } else {
      assert ds + rest == rest;
    }
  }

  predicate IsSpace(c: char) {
    c == ' ' || c == '\t' || c == '\n' || c == '\r'
  }

  /** White space of section 2 of RFC 8259. */
  predicate AllSpace(t: string) {
    forall i :: 0 <= i < |t| ==> IsSpace(t[i])
  }

  lemma Assoc(a: string, b: string, c: string)
    ensures (a + b) + c == a + (b + c)
  {
  }

  /** A run of `n` copies of `c`. */
  function Repeat(c: char, n: nat): (t: string)
    ensures |t| == n && forall i :: 0 <= i < n ==> t[i] == c
  {
    seq(n, _ => c)
  }
}
