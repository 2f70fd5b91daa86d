/** Numbers: the lexer/evaluator `parse_number` and its grammar. */
module JsonNumber {
  import opened CText

  /** plus or minus `n` times ten to the `e`, exactly */
  function Scaled(neg: bool, n: int, e: int): real
    decreases if e < 0 then -e else e
  {
    if e == 0 then (if neg then -n as real else n as real)
    else if e > 0 then 10.0 * Scaled(neg, n, e - 1)
    else Scaled(neg, n, e + 1) / 10.0
  }

  // ----- grammar: section 6 of RFC 8259

  datatype Exponent = NoExponent | Exponent(mark: char, sign: string, digits: string)

  datatype Token = Token(neg: bool, whole: string, frac: string, exp: Exponent)

  predicate Valid(k: Token) {
    && AllDigits(k.whole) && k.whole != "" && (k.whole[0] == '0' ==> k.whole == "0")
    && AllDigits(k.frac)
    && (k.exp.Exponent? ==>
          && (k.exp.mark == 'e' || k.exp.mark == 'E')
          && (k.exp.sign == "" || k.exp.sign == "+" || k.exp.sign == "-")
          && AllDigits(k.exp.digits) && k.exp.digits != "")
  }

  function ExponentText(e: Exponent): string {
    match e
    case NoExponent => ""
    case Exponent(mark, sign, digits) => [mark] + sign + digits
  }

  function FractionText(frac: string): string {
    if frac == "" then "" else "." + frac
  }

  function TokenText(k: Token): string {
    (if k.neg then "-" else "") + (k.whole + (FractionText(k.frac) + ExponentText(k.exp)))
  }

  function ExponentValue(e: Exponent): int {
    match e
    case NoExponent => 0
    case Exponent(_, sign, digits) => if sign == "-" then -NatOf(digits) else NatOf(digits)
  }

  function TokenValue(k: Token): real {
    Scaled(k.neg, NatOf(k.whole + k.frac), ExponentValue(k.exp) - |k.frac|)
  }

  /** A byte that could extend a number. */
  predicate Extends(c: char) {
    IsDigit(c) || c == '.' || c == 'e' || c == 'E'
  }

  // ----- what the C code computes

  /** Bytes of an exponent mark and its sign: none, `e`, or `e` and a sign. */
  function MarkSpan(t: string): (k: nat)
    ensures k <= |t| && k <= 2
  {
    if At(t, 0) != 'e' && At(t, 0) != 'E' then 0
    else if At(t, 1) == '+' || At(t, 1) == '-' then 2
    else 1
  }

  /** The optional exponent part: its signed value and what follows it. */
  function ParseExponent(t: string): (r: (int, string))
    ensures |r.1| <= |t|
  {
    var m := MarkSpan(t);
    if m == 0 then (0, t)
    else
      var ds := t[m..][..Span(t[m..])];
      (if At(t, 1) == '-' then -NatOf(ds) else NatOf(ds), t[m + |ds|..])
  }

  /** The digits after a decimal point, if both are there. */
  function FractionSpan(t: string): (k: nat)
    ensures k > 0 ==> k + 1 <= |t|
  {
    if At(t, 0) == '.' && IsDigit(At(t, 1)) then Span(t[1..]) else 0
  }

  function FractionDigits(v: string): string {
    v[if FractionSpan(v) == 0 then 0 else 1..if FractionSpan(v) == 0 then 0 else FractionSpan(v) + 1]
  }

  function FractionRest(v: string): string {
    if FractionSpan(v) == 0 then v else v[FractionSpan(v) + 1..]
  }

  /** After the integer digits `whole`: fraction, exponent and the final product. */
  function ParseTail(neg: bool, whole: string, v: string): (r: (real, string))
    ensures |r.1| <= |v|
  {
    var (e, rest) := ParseExponent(FractionRest(v));
    (Scaled(neg, NatOf(whole + FractionDigits(v)), e - |FractionDigits(v)|), rest)
  }

  /** The digit loop runs only from a non-zero digit; a leading '0' is skipped first. */
  function WholeSpan(u: string): (k: nat)
    ensures k <= |u|
  {
    if '1' <= At(u, 0) <= '9' then Span(u) else 0
  }

  function SkipZero(t: string): string {
    if At(t, 0) == '0' then t[1..] else t
  }

  function WholeDigits(t: string): string {
    SkipZero(t)[..WholeSpan(SkipZero(t))]
  }

  function WholeRest(t: string): string {
    SkipZero(t)[WholeSpan(SkipZero(t))..]
  }

  /** After the optional sign: optional '0', digits, fraction, exponent. */
  function ParseUnsigned(neg: bool, t: string): (r: (real, string))
    ensures |r.1| <= |t|
    ensures IsDigit(At(t, 0)) ==> |r.1| < |t|
  {
    ParseTail(neg, WholeDigits(t), WholeRest(t))
  }

  function ParseNumber(t: string): (r: (real, string))
    ensures |r.1| <= |t|
    ensures At(t, 0) == '-' || IsDigit(At(t, 0)) ==> |r.1| < |t|
  {
    var neg := At(t, 0) == '-';
    ParseUnsigned(neg, if neg then t[1..] else t)
  }

  lemma {:induction false} MarkParses(e: Exponent, rest: string)
    requires Valid(Token(false, "0", "", e)) && e.Exponent?
    ensures var t := ExponentText(e) + rest;
            && MarkSpan(t) == 1 + |e.sign|
            && t[1 + |e.sign|..] == e.digits + rest
            && (At(t, 1) == '-' <==> e.sign == "-")
  {
    var t := ExponentText(e) + rest;
    assert t[0] == e.mark;
    if e.sign == "" { assert t[1] == e.digits[0]; } else { assert t[1] == e.sign[0]; }
  }

  lemma {:induction false} ExponentParses(e: Exponent, rest: string)
    requires Valid(Token(false, "0", "", e)) && !Extends(At(rest, 0))
    ensures ParseExponent(ExponentText(e) + rest) == (ExponentValue(e), rest)
  {
    var t := ExponentText(e) + rest;
    if e.NoExponent? {
      assert t == rest;
    } else {
      MarkParses(e, rest);
      SpanExact(e.digits, rest);
      var m := MarkSpan(t);
      assert (e.digits + rest)[..|e.digits|] == e.digits;
      assert t[m + |e.digits|..] == t[m..][|e.digits|..] == rest;
    }
  }

  lemma {:induction false} FractionParses(frac: string, w: string)
    requires AllDigits(frac) && !IsDigit(At(w, 0)) && At(w, 0) != '.'
    ensures var v := FractionText(frac) + w;
            FractionDigits(v) == frac && FractionRest(v) == w
  {
    var v := FractionText(frac) + w;
    if frac == "" {
      assert v == w;
    } else {
      assert v == "." + frac + w && v[1..] == frac + w && v[1] == frac[0];
      assert Span(frac + w) == |frac| by { SpanExact(frac, w); }
      assert FractionSpan(v) == |frac|;
      assert v[|frac| + 1..] == w && v[1..|frac| + 1] == frac;
    }
  }

  /** The fraction and exponent of a token, followed by `rest`. */
  function TailText(k: Token, rest: string): string {
    FractionText(k.frac) + (ExponentText(k.exp) + rest)
  }

  lemma {:induction false} TailStarts(k: Token, rest: string)
    requires Valid(k) && !Extends(At(rest, 0))
    ensures !IsDigit(At(TailText(k, rest), 0))
    ensures At(ExponentText(k.exp) + rest, 0) != '.' && !IsDigit(At(ExponentText(k.exp) + rest, 0))
  {
    var w := ExponentText(k.exp) + rest;
    if k.exp.NoExponent? { assert w == rest; } else { assert w[0] == k.exp.mark; }
    if k.frac == "" { assert TailText(k, rest) == w; } else { assert TailText(k, rest)[0] == '.'; }
  }

  /** Both ways of entering the digit loop consume the integer part. */
  lemma {:induction false} WholeParses(k: Token, v: string)
    requires Valid(k) && !IsDigit(At(v, 0))
    ensures var t := k.whole + v;
            WholeRest(t) == v && NatOf(WholeDigits(t) + k.frac) == NatOf(k.whole + k.frac)
  {
    var t := k.whole + v;
    assert t[0] == k.whole[0];
    if k.whole == "0" {
      LeadingZero(k.frac);
      assert t[1..] == v && v[0..] == v && v[..0] + k.frac == k.frac;
    } else {
      SpanExact(k.whole, v);
      assert t[..|k.whole|] == k.whole && t[|k.whole|..] == v;
    }
  }

  lemma TailPieces(k: Token, rest: string)
    requires Valid(k) && !Extends(At(rest, 0))
    ensures var v, w := TailText(k, rest), ExponentText(k.exp) + rest;
            FractionDigits(v) == k.frac && FractionRest(v) == w && ParseExponent(w) == (ExponentValue(k.exp), rest)
  {
    TailStarts(k, rest);
    FractionParses(k.frac, ExponentText(k.exp) + rest);
    ExponentParses(k.exp, rest);
  }

  lemma TailProduct(neg: bool, whole: string, v: string, w: string, n: int, frac: nat, e: int, rest: string)
    requires NatOf(whole + FractionDigits(v)) == n && |FractionDigits(v)| == frac && FractionRest(v) == w
    requires ParseExponent(w) == (e, rest)
    ensures ParseTail(neg, whole, v) == (Scaled(neg, n, e - frac), rest)
  {
  }

  lemma TailParses(k: Token, whole: string, rest: string)
    requires Valid(k) && !Extends(At(rest, 0)) && NatOf(whole + k.frac) == NatOf(k.whole + k.frac)
    ensures ParseTail(k.neg, whole, TailText(k, rest)) == (TokenValue(k), rest)
  {
    TailPieces(k, rest);
    TailProduct(k.neg, whole, TailText(k, rest), ExponentText(k.exp) + rest,
                NatOf(k.whole + k.frac), |k.frac|, ExponentValue(k.exp), rest);
  }

  lemma {:induction false} UnsignedParses(k: Token, rest: string)
    requires Valid(k) && !Extends(At(rest, 0))
    ensures ParseUnsigned(k.neg, k.whole + TailText(k, rest)) == (TokenValue(k), rest)
  {
    var v := TailText(k, rest);
    TailStarts(k, rest);
    WholeParses(k, v);
    TailParses(k, WholeDigits(k.whole + v), rest);
  }

  lemma {:induction false} TokenSplit(k: Token, rest: string)
    ensures TokenText(k) + rest == (if k.neg then "-" else "") + (k.whole + TailText(k, rest))
  {
    var sign := if k.neg then "-" else "";
    var tail := FractionText(k.frac) + ExponentText(k.exp);
    Assoc(sign, k.whole + tail, rest);
    Assoc(k.whole, tail, rest);
    Assoc(FractionText(k.frac), ExponentText(k.exp), rest);
  }

  lemma {:induction false} SignParses(neg: bool, t: string)
    requires t != "" && t[0] != '-'
    ensures ParseNumber((if neg then "-" else "") + t) == ParseUnsigned(neg, t)
  {
    var sign := if neg then "-" else "";
    assert (sign + t)[|sign|..] == t;
  }

  /** A number of the grammar is consumed exactly and given its mathematical value. */
  lemma {:induction false} NumberParses(k: Token, rest: string)
    requires Valid(k) && !Extends(At(rest, 0))
    ensures ParseNumber(TokenText(k) + rest) == (TokenValue(k), rest)
  {
    var t := k.whole + TailText(k, rest);
    TokenSplit(k, rest);
    UnsignedParses(k, rest);
    assert t[0] == k.whole[0];
    SignParses(k.neg, t);
  }

  /** The token that "%d" writes. */
  function IntToken(n: int): (k: Token)
    ensures Valid(k)
  {
    Token(n < 0, Decimal(if n < 0 then -n else n), "", NoExponent)
  }

  lemma {:induction false} IntTokenValue(n: int)
    ensures TokenValue(IntToken(n)) == n as real
  {
    var k := IntToken(n);
    DecimalDenotes(if n < 0 then -n else n);
    assert k.whole + k.frac == k.whole;
  }
}
