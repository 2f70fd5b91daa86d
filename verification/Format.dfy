/**
 * What `rt_vsnprintf` prints, as a text without bound (precision enabled, neither
 * long long nor the `#` prefix).
 */
module Format {
  import opened CText
  import opened Numerals
  import opened Words

  datatype Flags = Flags(zeropad: bool, sign: bool, plus: bool, space: bool, left: bool, large: bool)

  const NoFlags := Flags(false, false, false, false, false, false)

  function Max(a: int, b: int): int { if a < b then b else a }

  function Min(a: int, b: int): int { if a < b then a else b }

  function Fill(c: char, n: int): (s: string)
    ensures |s| == Max(n, 0) && forall i :: 0 <= i < |s| ==> s[i] == c
  {
    Repeat(c, Max(n, 0))
  }

  // ----- a number in its field

  const INT32 := 0x8000_0000

  function SignText(num: int, f: Flags): string {
    if !f.sign then "" else if num < 0 then "-" else if f.plus then "+" else if f.space then " " else ""
  }

  /** The digits print a negative number's absolute value, or its 32-bit pattern when unsigned. */
  function Magnitude(num: int, f: Flags): (n: nat)
    requires -INT32 <= num < INT32
    ensures n < UINT32
  {
    if num >= 0 then num else if f.sign then -num else num + UINT32
  }

  /** Digits widened by zeros to the precision; a precision of 0 prints no digits. */
  function Body(digits: string, precision: int): string {
    Fill('0', precision - |digits|) + if precision == 0 then "" else digits
  }

  /** Sign, body and padding in the order the flags ask for. */
  function Arrange(sign: string, body: string, pad: int, f: Flags): string {
    if f.left then sign + (body + Fill(' ', pad))
    else if f.zeropad then sign + (Fill('0', pad) + body)
    else Fill(' ', pad) + (sign + body)
  }

  function FieldOf(sign: string, digits: string, width: int, precision: int, f: Flags): string {
    Arrange(sign, Body(digits, precision), width - Max(precision, |digits|) - |sign|, f)
  }

  function NumberField(num: int, base: int, width: int, precision: int, f: Flags): string
    requires -INT32 <= num < INT32
  {
    var sign, digits := SignText(num, f), Numeral(Magnitude(num, f), base, f.large);
    FieldOf(sign, digits, width, precision, f)
  }

  /** The field is as long as its width or, if that is more, sign and digits. */
  lemma FieldLength(num: int, base: int, width: int, precision: int, f: Flags)
    requires -INT32 <= num < INT32 && precision != 0
    ensures |NumberField(num, base, width, precision, f)| ==
            Max(width, |SignText(num, f)| + Max(precision, |Numeral(Magnitude(num, f), base, f.large)|))
  {
  }

  // ----- reading a field back

  function SkipSpaces(s: string): string { if s != "" && s[0] == ' ' then SkipSpaces(s[1..]) else s }

  predicate IsHexDigit(c: char) { '0' <= c <= '9' || 'a' <= c <= 'f' || 'A' <= c <= 'F' }

  /** How many digits the text begins with. */
  function DigitSpan(s: string): (n: nat)
    ensures n <= |s|
  {
    if s != "" && IsHexDigit(s[0]) then 1 + DigitSpan(s[1..]) else 0
  }

  function ReadDigits(s: string, base: int): int { Value(s[..DigitSpan(s)], base) }

  /** Blanks, an optional sign, digits; what follows them is ignored. */
  function Reading(s: string, base: int): int {
    var t := SkipSpaces(s);
    if t != "" && t[0] == '-' then -ReadDigits(t[1..], base)
    else if t != "" && t[0] == '+' then ReadDigits(t[1..], base)
    else ReadDigits(t, base)
  }

  predicate AllHexDigits(s: string) { forall i :: 0 <= i < |s| ==> IsHexDigit(s[i]) }

  lemma {:induction false} DigitsAreDigits(n: nat, base: int, large: bool)
    ensures AllHexDigits(Digits(n, base, large))
  {
    if n > 0 {
      DigitsAreDigits(Quotient(n, base), base, large);
      DigitCharIsDigit(Remainder(n, base), large);
    }
  }

  lemma DigitCharIsDigit(d: nat, large: bool)
    requires d < 16
    ensures IsHexDigit(DigitSymbol(d, large))
  {
  }

  lemma {:induction false} SpanExact(d: string, rest: string)
    requires AllHexDigits(d) && (rest == "" || !IsHexDigit(rest[0]))
    ensures DigitSpan(d + rest) == |d|
  {
    if d == "" {
      assert d + rest == rest;
    } else {
      assert (d + rest)[1..] == d[1..] + rest;
      SpanExact(d[1..], rest);
    }
  }

  lemma {:induction false} ZerosAddNothing(n: int, s: string, base: int)
    ensures Value(Fill('0', n) + s, base) == Value(s, base)
    decreases |s|, Max(n, 0)
  {
    var z := Fill('0', n);
    if s != "" {
      assert (z + s)[..|z + s| - 1] == z + s[..|s| - 1];
      ZerosAddNothing(n, s[..|s| - 1], base);
    } else if n > 0 {
      assert z + s == z && z[..n - 1] == Fill('0', n - 1) + "";
      ZerosAddNothing(n - 1, "", base);
    } else {
      assert z + s == "";
    }
  }

  /** A row of zeros and digits, then blanks or nothing. */
  lemma ReadDigitsExact(d: string, rest: string, base: int)
    requires AllHexDigits(d) && (rest == "" || !IsHexDigit(rest[0]))
    ensures ReadDigits(d + rest, base) == Value(d, base)
  {
    SpanExact(d, rest);
    assert (d + rest)[..|d|] == d;
  }

  lemma {:induction false} SkipFill(n: int, s: string)
    ensures SkipSpaces(Fill(' ', n) + s) == SkipSpaces(s)
    decreases Max(n, 0)
  {
    var z := Fill(' ', n);
    if n <= 0 {
      assert z + s == s;
    } else {
      assert (z + s)[1..] == Fill(' ', n - 1) + s;
      SkipFill(n - 1, s);
    }
  }

  function Signed(num: int, f: Flags, n: int): int { if f.sign && num < 0 then -n else n }

  /** Reading blanks, then the sign, then the digits. */
  lemma ReadingSigned(num: int, f: Flags, d: string, rest: string, base: int)
    requires d != "" && AllHexDigits(d) && (rest == "" || !IsHexDigit(rest[0]))
    ensures Reading(SignText(num, f) + (d + rest), base) == Signed(num, f, Value(d, base))
  {
    var sign, t := SignText(num, f), d + rest;
    ReadDigitsExact(d, rest, base);
    assert IsHexDigit(t[0]) && SkipSpaces(t) == t;
    if sign == "" {
      assert sign + t == t;
    } else {
      assert (sign + t)[0] == sign[0] && (sign + t)[1..] == t;
    }
  }

  lemma ReadingPlain(num: int, f: Flags, d: string, base: int)
    requires d != "" && AllHexDigits(d)
    ensures Reading(SignText(num, f) + d, base) == Signed(num, f, Value(d, base))
  {
    ReadingSigned(num, f, d, "", base);
    assert d + "" == d;
  }

  lemma ReadingPadded(num: int, f: Flags, d: string, pad: int, base: int)
    requires d != "" && AllHexDigits(d)
    ensures Reading(Fill(' ', pad) + (SignText(num, f) + d), base) == Signed(num, f, Value(d, base))
  {
    ReadingPlain(num, f, d, base);
    SkipFill(pad, SignText(num, f) + d);
  }

  lemma ReadingZeroPadded(num: int, f: Flags, d: string, pad: int, base: int)
    requires d != "" && AllHexDigits(d)
    ensures Reading(SignText(num, f) + (Fill('0', pad) + d), base) == Signed(num, f, Value(d, base))
  {
    ZerosAddNothing(pad, d, base);
    ReadingPlain(num, f, Fill('0', pad) + d, base);
  }

  /** Padding does not change what is read. */
  lemma ReadingArranged(num: int, f: Flags, body: string, pad: int, base: int)
    requires body != "" && AllHexDigits(body)
    ensures Reading(Arrange(SignText(num, f), body, pad, f), base) == Signed(num, f, Value(body, base))
  {
    if f.left {
      ReadingSigned(num, f, body, Fill(' ', pad), base);
    } else if f.zeropad {
      ReadingZeroPadded(num, f, body, pad, base);
    } else {
      ReadingPadded(num, f, body, pad, base);
    }
  }

  lemma BodyDenotes(n: nat, base: int, large: bool, precision: int)
    requires precision != 0
    ensures var body := Body(Numeral(n, base, large), precision);
            body != "" && AllHexDigits(body) && Value(body, base) == n
  {
    var digits := Numeral(n, base, large);
    NumeralDenotes(n, base, large);
    DigitsAreDigits(n, base, large);
    ZerosAddNothing(precision - |digits|, digits, base);
  }

  lemma FieldReads(num: int, f: Flags, digits: string, width: int, precision: int, base: int)
    requires Body(digits, precision) != "" && AllHexDigits(Body(digits, precision))
    ensures Reading(FieldOf(SignText(num, f), digits, width, precision, f), base) ==
            Signed(num, f, Value(Body(digits, precision), base))
  {
    ReadingArranged(num, f, Body(digits, precision), width - Max(precision, |digits|) - |SignText(num, f)|, base);
  }

  /** However it is padded, a printed number reads back as the number. */
  lemma FieldDenotes(num: int, base: int, width: int, precision: int, f: Flags)
    requires -INT32 <= num < INT32 && precision != 0
    ensures Reading(NumberField(num, base, width, precision, f), base) ==
            if f.sign then num else Magnitude(num, f)
  {
    var n := Magnitude(num, f);
    BodyDenotes(n, base, f.large, precision);
    FieldReads(num, f, Numeral(n, base, f.large), width, precision, base);
    assert Signed(num, f, n) == if f.sign then num else n;
  }

  // ----- directives

  /** The variable arguments, a 32-bit word each, and the C strings that words point to. */
  datatype Args = Args(words: nat -> nat, strings: nat -> string)

  function Word(a: Args, i: nat): (w: nat)
    ensures w < UINT32
  {
    a.words(i) % UINT32
  }

  function Int32(w: nat): int { if w < INT32 then w else w - UINT32 }

  predicate IsFlag(c: char) { c == '-' || c == '+' || c == ' ' || c == '#' || c == '0' }

  function WithFlag(f: Flags, c: char): Flags {
    if c == '-' then f.(left := true)
    else if c == '+' then f.(plus := true)
    else if c == ' ' then f.(space := true)
    else if c == '0' then f.(zeropad := true)
    else f
  }

  function FlagsAt(fmt: string, k: nat, f: Flags): (r: (Flags, nat))
    requires k <= |fmt|
    ensures k <= r.1 <= |fmt|
    decreases |fmt| - k
  {
    if IsFlag(At(fmt, k)) then FlagsAt(fmt, k + 1, WithFlag(f, At(fmt, k))) else (f, k)
  }

  /** `skip_atoi` */
  function NumberAt(fmt: string, k: nat, v: int): (r: (int, nat))
    requires k <= |fmt|
    ensures k <= r.1 <= |fmt|
    decreases |fmt| - k
  {
    if IsDigit(At(fmt, k)) then NumberAt(fmt, k + 1, v * 10 + Digit(At(fmt, k))) else (v, k)
  }

  datatype Directive = Directive(flags: Flags, width: int, precision: int, qualifier: char)

  /** A cursor in the format and the next argument. */
  datatype Cursor = Cursor(k: nat, arg: nat)

  function WidthAt(fmt: string, c: Cursor, a: Args, f: Flags): (r: (int, Flags, Cursor))
    requires c.k <= |fmt|
    ensures c.k <= r.2.k <= |fmt|
  {
    if IsDigit(At(fmt, c.k)) then
      var (v, k) := NumberAt(fmt, c.k, 0);
      (v, f, c.(k := k))
    else if At(fmt, c.k) == '*' then
      var v := Int32(Word(a, c.arg));
      (if v < 0 then -v else v, if v < 0 then f.(left := true) else f, Cursor(c.k + 1, c.arg + 1))
    else (-1, f, c)
  }

  function PrecisionAt(fmt: string, c: Cursor, a: Args): (r: (int, Cursor))
    requires c.k <= |fmt|
    ensures c.k <= r.1.k <= |fmt|
  {
    if At(fmt, c.k) != '.' then (-1, c)
    else if IsDigit(At(fmt, c.k + 1)) then
      var (v, k) := NumberAt(fmt, c.k + 1, 0);
      (Max(v, 0), c.(k := k))
    else if At(fmt, c.k + 1) == '*' then (Max(Int32(Word(a, c.arg)), 0), Cursor(c.k + 2, c.arg + 1))
    else (0, c.(k := c.k + 1))
  }

  /** From just after the `%` to the conversion character. */
  function DirectiveAt(fmt: string, c: Cursor, a: Args): (r: (Directive, Cursor))
    requires c.k <= |fmt|
    ensures c.k <= r.1.k <= |fmt|
  {
    var (f, k) := FlagsAt(fmt, c.k, NoFlags);
    var (width, f', c1) := WidthAt(fmt, c.(k := k), a, f);
    var (precision, c2) := PrecisionAt(fmt, c1, a);
    var q := At(fmt, c2.k);
    if q == 'h' || q == 'l' then (Directive(f', width, precision, q), c2.(k := c2.k + 1))
    else (Directive(f', width, precision, '\0'), c2)
  }

  // ----- conversions

  function CharField(c: char, width: int, f: Flags): string {
    if f.left then [c] + Fill(' ', width - 1) else Fill(' ', width - 1) + [c]
  }

  /** The string an argument points to. */
  function Pointed(a: Args, w: nat): string { if w == 0 then "(NULL)" else a.strings(w) }

  /** Cut to a positive precision. */
  function Cut(s: string, precision: int): string {
    if precision > 0 && |s| > precision then s[..precision] else s
  }

  function StringField(s: string, width: int, f: Flags): string {
    if f.left then s + Fill(' ', width - |s|) else Fill(' ', width - |s|) + s
  }

  function PointerField(w: nat, d: Directive): string
    requires w < UINT32
  {
    NumberField(Int32(w), 16, if d.width == -1 then 8 else d.width, d.precision,
                if d.width == -1 then d.flags.(zeropad := true) else d.flags)
  }

  /** The `long` that `print_number` is given: `h` keeps 16 bits. */
  function Operand(w: nat, qualifier: char, sign: bool): (num: int)
    requires w < UINT32
    ensures -INT32 <= num < INT32
  {
    if qualifier != 'h' then Int32(w)
    else if sign && w % 0x1_0000 >= 0x8000 then w % 0x1_0000 - 0x1_0000
    else w % 0x1_0000
  }

  predicate IsNumeric(conv: char) {
    conv == 'o' || conv == 'x' || conv == 'X' || conv == 'd' || conv == 'i' || conv == 'u'
  }

  function BaseOf(conv: char): int {
    if conv == 'o' then 8 else if conv == 'x' || conv == 'X' then 16 else 10
  }

  function NumericFlags(f: Flags, conv: char): Flags {
    if conv == 'X' then f.(large := true) else if conv == 'd' || conv == 'i' then f.(sign := true) else f
  }

  function NumericField(w: nat, d: Directive, conv: char): string
    requires w < UINT32
  {
    var f := NumericFlags(d.flags, conv);
    NumberField(Operand(w, d.qualifier, f.sign), BaseOf(conv), d.width, d.precision, f)
  }

  predicate TakesArgument(conv: char) { conv == 'c' || conv == 's' || conv == 'p' || IsNumeric(conv) }

  /** What one directive prints, given the word of its argument. */
  function Field(d: Directive, conv: char, a: Args, w: nat): string
    requires w < UINT32
  {
    if conv == 'c' then CharField((w % 256) as char, d.width, d.flags)
    else if conv == 's' then StringField(Cut(Pointed(a, w), d.precision), d.width, d.flags)
    else if conv == 'p' then PointerField(w, d)
    else if IsNumeric(conv) then NumericField(w, d, conv)
    else if conv == '%' || conv == '\0' then "%"
    else ['%', conv]
  }

  /** Past the conversion character, unless the format ends there. */
  function Beyond(fmt: string, c: Cursor): (r: Cursor)
    requires c.k <= |fmt|
    ensures c.k <= r.k <= |fmt|
  {
    var conv := At(fmt, c.k);
    Cursor(if conv == '\0' then c.k else c.k + 1, if TakesArgument(conv) then c.arg + 1 else c.arg)
  }

  /** What a directive prints, given its conversion character and the word of its argument. */
  type Fields = (Directive, char, nat) -> string

  function FieldsOf(a: Args): Fields {
    (d: Directive, conv: char, w: nat) => if w < UINT32 then Field(d, conv, a, w) else ""
  }

  /** Everything printed from the cursor on. */
  function Printed(fmt: string, c: Cursor, a: Args, out: Fields): string
    requires c.k <= |fmt|
    decreases |fmt| - c.k, 0
  {
    var ch := At(fmt, c.k);
    if ch == '\0' then ""
    else if ch != '%' then [ch] + Printed(fmt, c.(k := c.k + 1), a, out)
    else Directed(fmt, c.(k := c.k + 1), a, out)
  }

  /** The same from just after a `%`. */
  function Directed(fmt: string, c: Cursor, a: Args, out: Fields): string
    requires c.k <= |fmt|
    decreases |fmt| - c.k, 2
  {
    var (d, c') := DirectiveAt(fmt, c, a);
    Converted(fmt, c', a, d, out)
  }

  /** The same from the conversion character of a directive. */
  function Converted(fmt: string, c: Cursor, a: Args, d: Directive, out: Fields): string
    requires c.k <= |fmt|
    decreases |fmt| - c.k, 1
  {
    out(d, At(fmt, c.k), Word(a, c.arg)) + Printed(fmt, Beyond(fmt, c), a, out)
  }

  function Text(fmt: string, a: Args): string { Printed(fmt, Cursor(0, 0), a, FieldsOf(a)) }
}
