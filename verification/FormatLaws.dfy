/** What each directive of `rt_vsnprintf` prints, told by its text and its argument. */
module FormatLaws {
  import opened CText
  import opened Numerals
  import opened Words
  import opened Format
  import opened FormatSyntax

  // ----- a number in its field

  const Decimals := "0123456789"
  const SmallHex := "0123456789abcdef"
  const LargeHex := "0123456789ABCDEF"

  predicate Only(c: char, s: string) { forall i :: 0 <= i < |s| ==> s[i] == c }

  predicate Over(alphabet: string, s: string) { forall i :: 0 <= i < |s| ==> s[i] in alphabet }

  /** The notation of `v` without leading zero. */
  predicate IsNumeral(digits: string, v: int, base: int, alphabet: string) {
    && digits != "" && Over(alphabet, digits)
    && (digits[0] == '0' ==> digits == "0")
    && Value(digits, base) == v
  }

  datatype Layout = Layout(before: string, sign: string, zeros: string, digits: string, after: string)

  /** The parts of a field in their order, and how long they are; a precision of 0 hides the digits. */
  predicate Lays(l: Layout, field: string, left: bool, zero: bool, width: int, precision: int) {
    var shown := if precision == 0 then "" else l.digits;
    && field == l.before + (l.sign + (l.zeros + (shown + l.after)))
    && Only(' ', l.before) && Only('0', l.zeros) && Only(' ', l.after)
    && |field| + |l.digits| - |shown| == Max(width, |l.sign| + Max(precision, |l.digits|))
    && (left || zero ==> l.before == "")
    && (!left ==> l.after == "")
    && (left || !zero ==> |l.zeros| == Max(precision - |l.digits|, 0))
  }

  ghost predicate Shows(field: string, sign: string, v: int, base: int, alphabet: string, d: Directive) {
    exists l: Layout ::
      && Lays(l, field, d.flags.left, d.flags.zeropad, d.width, d.precision)
      && l.sign == sign && IsNumeral(l.digits, v, base, alphabet)
  }

  function LayoutOf(sign: string, digits: string, d: Directive): Layout {
    var pad := d.width - Max(d.precision, |digits|) - |sign|;
    var zeros := Fill('0', d.precision - |digits|);
    if d.flags.left then Layout("", sign, zeros, digits, Fill(' ', pad))
    else if d.flags.zeropad then Layout("", sign, Fill('0', pad) + zeros, digits, "")
    else Layout(Fill(' ', pad), sign, zeros, digits, "")
  }

  lemma LeftLays(sign: string, digits: string, d: Directive, f: Flags)
    requires digits != "" && f.left && d.flags.left
    ensures Lays(LayoutOf(sign, digits, d), FieldOf(sign, digits, d.width, d.precision, f),
                 true, d.flags.zeropad, d.width, d.precision)
  {
    var shown := if d.precision == 0 then "" else digits;
    var l := LayoutOf(sign, digits, d);
    Assoc(l.zeros, shown, l.after);
    EmptyPrefix(sign + (l.zeros + (shown + l.after)));
  }

  lemma ZeroLays(sign: string, digits: string, d: Directive, f: Flags)
    requires digits != "" && !f.left && !d.flags.left && f.zeropad && d.flags.zeropad
    ensures Lays(LayoutOf(sign, digits, d), FieldOf(sign, digits, d.width, d.precision, f),
                 false, true, d.width, d.precision)
  {
    var shown := if d.precision == 0 then "" else digits;
    var l := LayoutOf(sign, digits, d);
    var pad := d.width - Max(d.precision, |digits|) - |sign|;
    Assoc(Fill('0', pad), Fill('0', d.precision - |digits|), shown);
    EmptySuffix(shown);
    EmptyPrefix(sign + (l.zeros + shown));
  }

  lemma RightLays(sign: string, digits: string, d: Directive, f: Flags)
    requires digits != "" && !f.left && !d.flags.left && !f.zeropad && !d.flags.zeropad
    ensures Lays(LayoutOf(sign, digits, d), FieldOf(sign, digits, d.width, d.precision, f),
                 false, false, d.width, d.precision)
  {
    EmptySuffix(if d.precision == 0 then "" else digits);
  }

  lemma FieldLays(sign: string, digits: string, d: Directive, f: Flags)
    requires digits != "" && f.left == d.flags.left && f.zeropad == d.flags.zeropad
    ensures Lays(LayoutOf(sign, digits, d), FieldOf(sign, digits, d.width, d.precision, f),
                 d.flags.left, d.flags.zeropad, d.width, d.precision)
  {
    if f.left {
      LeftLays(sign, digits, d, f);
    } else if f.zeropad {
      ZeroLays(sign, digits, d, f);
    } else {
      RightLays(sign, digits, d, f);
    }
  }

  lemma {:induction false} DigitsOver(n: nat, base: int, large: bool)
    ensures Over(if base == 10 then Decimals else if large then LargeHex else SmallHex, Digits(n, base, large))
  {
    if n > 0 {
      DigitsOver(Quotient(n, base), base, large);
      SymbolOver(Remainder(n, base), base, large);
    }
  }

  lemma SymbolOver(d: nat, base: int, large: bool)
    requires d < Radix(base)
    ensures DigitSymbol(d, large) in if base == 10 then Decimals else if large then LargeHex else SmallHex
  {
    assert LargeDigits[d] == LargeHex[d] && SmallDigits[d] == SmallHex[d];
    assert d < 10 ==> Decimals[d] == LargeHex[d] == SmallHex[d];
  }

  lemma NumeralIs(n: nat, base: int, large: bool)
    ensures IsNumeral(Numeral(n, base, large), n, base,
                      if base == 10 then Decimals else if large then LargeHex else SmallHex)
  {
    NumeralDenotes(n, base, large);
    DigitsOver(n, base, large);
    assert "0"[0] == Decimals[0] == LargeHex[0] == SmallHex[0];
  }

  /** A number as printed, with the sign and the magnitude its flags choose. */
  lemma NumberShows(num: int, base: int, d: Directive, f: Flags)
    requires -INT32 <= num < INT32 && f.left == d.flags.left && f.zeropad == d.flags.zeropad
    ensures Shows(NumberField(num, base, d.width, d.precision, f), SignText(num, f), Magnitude(num, f), base,
                  if base == 10 then Decimals else if f.large then LargeHex else SmallHex, d)
  {
    var digits := Numeral(Magnitude(num, f), base, f.large);
    NumeralIs(Magnitude(num, f), base, f.large);
    FieldLays(SignText(num, f), digits, d, f);
    assert LayoutOf(SignText(num, f), digits, d).digits == digits;
  }

  // ----- the conversions, for a directive that was read

  function Low16(w: nat): nat { w % 0x1_0000 }

  /** The argument as a signed number of 32 bits, or of 16 after `h`. */
  function SignedArg(q: char, w: nat): int {
    if q != 'h' then if w < 0x8000_0000 then w else w - 0x1_0000_0000
    else if Low16(w) < 0x8000 then Low16(w) else Low16(w) - 0x1_0000
  }

  function UnsignedArg(q: char, w: nat): nat { if q != 'h' then w else Low16(w) }

  /** A minus for a negative number; otherwise what `+`, or a blank, asks for. */
  function SignShown(v: int, d: Directive): string {
    if v < 0 then "-" else if d.flags.plus then "+" else if d.flags.space then " " else ""
  }

  /** A directive as it is read: the conversion has not yet set its own flags. */
  predicate Fresh(d: Directive) { !d.flags.sign && !d.flags.large }

  lemma SignedOperand(q: char, w: nat)
    requires w < UINT32
    ensures Operand(w, q, true) == SignedArg(q, w)
  {
  }

  lemma UnsignedOperand(q: char, w: nat, f: Flags)
    requires w < UINT32 && !f.sign
    ensures Magnitude(Operand(w, q, false), f) == UnsignedArg(q, w)
  {
  }

  lemma SignedField(d: Directive, conv: char, a: Args, w: nat)
    requires w < UINT32 && Fresh(d) && conv in "di"
    ensures Field(d, conv, a, w) ==
            NumberField(SignedArg(d.qualifier, w), 10, d.width, d.precision, d.flags.(sign := true))
  {
    SignedOperand(d.qualifier, w);
  }

  function Magnified(v: int): nat { if v < 0 then -v else v }

  lemma SignedShows(d: Directive, conv: char, a: Args, w: nat)
    requires w < UINT32 && Fresh(d) && conv in "di"
    ensures var v := SignedArg(d.qualifier, w);
            && Shows(Field(d, conv, a, w), SignShown(v, d), Magnified(v), 10, Decimals, d)
            && (d.precision != 0 ==> Reading(Field(d, conv, a, w), 10) == v)
  {
    var v, f := SignedArg(d.qualifier, w), d.flags.(sign := true);
    SignedField(d, conv, a, w);
    NumberShows(v, 10, d, f);
    if d.precision != 0 { FieldDenotes(v, 10, d.width, d.precision, f); }
  }

  predicate IsUnsigned(conv: char) { conv in "uxXo" }

  function UnsignedBase(conv: char): int { if conv == 'u' then 10 else 16 }

  function UnsignedAlphabet(conv: char): string {
    if conv == 'u' then Decimals else if conv == 'X' then LargeHex else SmallHex
  }

  lemma {:induction false} OctalDigitsAreHex(n: nat, large: bool)
    ensures Digits(n, 8, large) == Digits(n, 16, large)
  {
    if n > 0 { OctalDigitsAreHex(n / 16, large); }
  }

  lemma UnsignedField(d: Directive, conv: char, a: Args, w: nat)
    requires w < UINT32 && Fresh(d) && IsUnsigned(conv)
    ensures Field(d, conv, a, w) ==
            NumberField(Operand(w, d.qualifier, false), UnsignedBase(conv), d.width, d.precision,
                        d.flags.(large := conv == 'X'))
  {
    var f := d.flags.(large := conv == 'X');
    if conv == 'o' { OctalDigitsAreHex(Magnitude(Operand(w, d.qualifier, false), f), false); }
    assert NumericFlags(d.flags, conv) == f;
  }

  /** `o` is listed with base 8, but `divide` prints it in base 16. */
  lemma UnsignedShows(d: Directive, conv: char, a: Args, w: nat)
    requires w < UINT32 && Fresh(d) && IsUnsigned(conv)
    ensures var v, base := UnsignedArg(d.qualifier, w), UnsignedBase(conv);
            && Shows(Field(d, conv, a, w), "", v, base, UnsignedAlphabet(conv), d)
            && (d.precision != 0 ==> Reading(Field(d, conv, a, w), base) == v)
  {
    var num, f := Operand(w, d.qualifier, false), d.flags.(large := conv == 'X');
    UnsignedField(d, conv, a, w);
    UnsignedOperand(d.qualifier, w, f);
    NumberShows(num, UnsignedBase(conv), d, f);
    if d.precision != 0 { FieldDenotes(num, UnsignedBase(conv), d.width, d.precision, f); }
  }

  /** A pointer: its 32 bits in small hex, on eight zero-padded places unless a width is given. */
  lemma PointerShows(d: Directive, a: Args, w: nat)
    requires w < UINT32 && Fresh(d)
    ensures var d' := if d.width == -1 then d.(width := 8, flags := d.flags.(zeropad := true)) else d;
            && Shows(Field(d, 'p', a, w), "", w, 16, SmallHex, d')
            && (d.precision != 0 ==> Reading(Field(d, 'p', a, w), 16) == w)
  {
    var d' := if d.width == -1 then d.(width := 8, flags := d.flags.(zeropad := true)) else d;
    assert Field(d, 'p', a, w) == NumberField(Int32(w), 16, d'.width, d'.precision, d'.flags);
    NumberShows(Int32(w), 16, d', d'.flags);
    if d.precision != 0 { FieldDenotes(Int32(w), 16, d'.width, d'.precision, d'.flags); }
  }

  /** What a text field holds: the text, and blanks on the side away from it. */
  predicate Sits(field: string, x: string, left: bool, width: int) {
    && |field| == Max(width, |x|)
    && (if left then field[..|x|] == x && Only(' ', field[|x|..])
        else field[|field| - |x|..] == x && Only(' ', field[..|field| - |x|]))
  }

  lemma StringSits(x: string, width: int, f: Flags)
    ensures Sits(StringField(x, width, f), x, f.left, width)
  {
    var pad, field := Fill(' ', width - |x|), StringField(x, width, f);
    if f.left {
      assert field[..|x|] == x && field[|x|..] == pad;
    } else {
      assert field[|pad|..] == x && field[..|pad|] == pad;
    }
  }

  lemma CharSits(c: char, width: int, f: Flags)
    ensures Sits(CharField(c, width, f), [c], f.left, width)
  {
    StringSits([c], width, f);
    assert CharField(c, width, f) == StringField([c], width, f);
  }

  // ----- the conversions, in a format

  /** What a directive prints when argument `n` is next. */
  function Out(s: Spec, conv: char, n: nat, a: Args): string { PieceOut(Conversion(s, conv), n, a, FieldsOf(a)) }

  /** The word a directive converts comes after those its stars take. */
  function Argument(s: Spec, n: nat, a: Args): (w: nat)
    ensures w < UINT32
  {
    Word(a, n + Stars(s))
  }

  lemma OutIsField(s: Spec, conv: char, n: nat, a: Args)
    ensures Out(s, conv, n, a) == Field(Asked(s, n, a), conv, a, Argument(s, n, a))
  {
  }

  /** `%d` and `%i`: the signed argument in base 10, however it is flagged and padded. */
  lemma SignedLaw(s: Spec, conv: char, n: nat, a: Args)
    requires conv == 'd' || conv == 'i'
    ensures var v := SignedArg(At(s.qualifier, 0), Argument(s, n, a));
            && Shows(Out(s, conv, n, a), SignShown(v, Asked(s, n, a)), Magnified(v), 10, "0123456789", Asked(s, n, a))
            && (Precision(s, n, a) != 0 ==> Reading(Out(s, conv, n, a), 10) == v)
  {
    OutIsField(s, conv, n, a);
    SignedShows(Asked(s, n, a), conv, a, Argument(s, n, a));
  }

  /** `%u`, `%x` and `%X`: the argument without sign, in base 10 or 16. */
  lemma UnsignedLaw(s: Spec, conv: char, n: nat, a: Args)
    requires conv == 'u' || conv == 'x' || conv == 'X'
    ensures var v, base := UnsignedArg(At(s.qualifier, 0), Argument(s, n, a)), if conv == 'u' then 10 else 16;
            && Shows(Out(s, conv, n, a), "", v, base,
                     if conv == 'u' then "0123456789" else if conv == 'x' then "0123456789abcdef"
                     else "0123456789ABCDEF", Asked(s, n, a))
            && (Precision(s, n, a) != 0 ==> Reading(Out(s, conv, n, a), base) == v)
  {
    OutIsField(s, conv, n, a);
    UnsignedShows(Asked(s, n, a), conv, a, Argument(s, n, a));
  }

  /** `%o` prints what `%x` prints. */
  lemma OctalLaw(s: Spec, n: nat, a: Args)
    ensures Out(s, 'o', n, a) == Out(s, 'x', n, a)
  {
    OutIsField(s, 'o', n, a);
    OutIsField(s, 'x', n, a);
    UnsignedField(Asked(s, n, a), 'o', a, Argument(s, n, a));
    UnsignedField(Asked(s, n, a), 'x', a, Argument(s, n, a));
  }

  /** `%s`: the pointed string, cut to a positive precision; NULL has a text of its own. */
  lemma StringLaw(s: Spec, n: nat, a: Args)
    ensures var w, p := Argument(s, n, a), Precision(s, n, a);
            var x := if w == 0 then "(NULL)" else a.strings(w);
            Sits(Out(s, 's', n, a), if 0 < p < |x| then x[..p] else x, Left(s, n, a), Width(s, n, a))
  {
    OutIsField(s, 's', n, a);
    StringSits(Cut(Pointed(a, Argument(s, n, a)), Precision(s, n, a)), Width(s, n, a), Asked(s, n, a).flags);
  }

  /** `%c`: the low byte of the argument. */
  lemma CharLaw(s: Spec, n: nat, a: Args)
    ensures Sits(Out(s, 'c', n, a), [(Argument(s, n, a) % 256) as char], Left(s, n, a), Width(s, n, a))
  {
    OutIsField(s, 'c', n, a);
    CharSits((Argument(s, n, a) % 256) as char, Width(s, n, a), Asked(s, n, a).flags);
  }

  lemma NoWidth(s: Spec, n: nat, a: Args)
    requires WellFormed(s)
    ensures Width(s, n, a) == -1 <==> s.width == Absent
  {
    if s.width.Written? { NatOfNonneg(s.width.digits); }
  }

  /** `%p`: the pointer in hex. */
  lemma PointerLaw(s: Spec, n: nat, a: Args)
    requires WellFormed(s)
    ensures var w, d := Argument(s, n, a), Asked(s, n, a);
            && Shows(Out(s, 'p', n, a), "", w, 16, "0123456789abcdef",
                     if s.width == Absent then d.(width := 8, flags := d.flags.(zeropad := true)) else d)
            && (Precision(s, n, a) != 0 ==> Reading(Out(s, 'p', n, a), 16) == w)
  {
    OutIsField(s, 'p', n, a);
    NoWidth(s, n, a);
    PointerShows(Asked(s, n, a), a, Argument(s, n, a));
  }

  /** A percent sign for `%%`; an unknown conversion is shown as it stands. */
  lemma OtherLaw(s: Spec, conv: char, n: nat, a: Args)
    requires conv !in "cspoxXdiu" && conv != '\0'
    ensures Out(s, conv, n, a) == if conv == '%' then "%" else "%" + [conv]
  {
    OutIsField(s, conv, n, a);
  }

  /** A format prints its pieces one after the other, each from the arguments its predecessors left. */
  lemma FormatLaw(ps: seq<Piece>, a: Args)
    requires GoodPieces(ps)
    ensures Text(FormatText(ps), a) == Outs(ps, 0, a, FieldsOf(a))
  {
    var fmt := FormatText(ps);
    EmptySuffix(fmt);
    PiecesPrinted(fmt, 0, ps, "", 0, a, FieldsOf(a), Cursor(|fmt|, UsesAll(ps)));
    PrintedAtEnd(fmt, UsesAll(ps), a, FieldsOf(a));
    EmptySuffix(Outs(ps, 0, a, FieldsOf(a)));
  }

  /** That covers every format: what is left of one after its pieces is a directive cut short, shown as `%`. */
  lemma AnyFormatLaw(fmt: string, a: Args)
    requires NulFree(fmt)
    ensures var (ps, tail) := PiecesOf(fmt);
            && GoodPieces(ps) && fmt == FormatText(ps) + tail
            && Text(fmt, a) == Outs(ps, 0, a, FieldsOf(a)) + if tail == "" then "" else "%"
  {
    PiecesRead(fmt);
    var (ps, tail) := PiecesOf(fmt);
    var end := Cursor(|FormatText(ps)|, UsesAll(ps));
    assert fmt[0..] == fmt;
    PiecesPrinted(fmt, 0, ps, tail, 0, a, FieldsOf(a), end);
    Follows(fmt, 0, FormatText(ps), tail);
    forall d: Directive, w: nat | w < UINT32
      ensures FieldsOf(a)(d, '\0', w) == "%"
    {
      CutShort(d, a, w);
    }
    TailPrinted(fmt, end, tail, a, FieldsOf(a));
  }

  lemma CutShort(d: Directive, a: Args, w: nat)
    requires w < UINT32
    ensures FieldsOf(a)(d, '\0', w) == "%"
  {
  }

  lemma DirectiveText(s: Spec, conv: char, a: Args)
    requires GoodPiece(Conversion(s, conv))
    ensures Text("%" + (SpecText(s) + [conv]), a) == Out(s, conv, 0, a)
  {
    var p := Conversion(s, conv);
    FormatLaw([p], a);
    EmptySuffix(PieceText(p));
    assert FormatText([p]) == PieceText(p) + FormatText([]);
    assert Outs([p], 0, a, FieldsOf(a)) == PieceOut(p, 0, a, FieldsOf(a)) + Outs([], Uses(p), a, FieldsOf(a));
    EmptySuffix(Out(s, conv, 0, a));
  }

  // ----- directives without flags, width or precision

  const Plain := Spec("", Absent, Absent, "")

  lemma PlainText(conv: char, a: Args)
    requires conv in "cspoxXdiu%"
    ensures Text(['%', conv], a) == Out(Plain, conv, 0, a)
  {
    assert "%" + (SpecText(Plain) + [conv]) == ['%', conv];
    DirectiveText(Plain, conv, a);
  }

  lemma PlainShows(field: string, sign: string, v: int, base: int, alphabet: string, d: Directive)
    requires Shows(field, sign, v, base, alphabet, d) && d == Directive(NoFlags, -1, -1, '\0')
    ensures exists digits :: IsNumeral(digits, v, base, alphabet) && field == sign + digits
  {
    var l: Layout :| && Lays(l, field, d.flags.left, d.flags.zeropad, d.width, d.precision)
                     && l.sign == sign && IsNumeral(l.digits, v, base, alphabet);
    assert |field| == |l.before| + |l.sign| + |l.zeros| + |l.digits| + |l.after|;
    assert l.before == "" && l.zeros == "" && l.after == "";
    assert field == sign + l.digits;
  }

  /** A minus if need be, and the decimal notation. */
  ghost predicate IsDecimal(field: string, v: int) {
    exists digits :: IsNumeral(digits, Magnified(v), 10, "0123456789") &&
                     field == (if v < 0 then "-" else "") + digits
  }

  lemma PlainSigned(conv: char, a: Args)
    requires conv == 'd' || conv == 'i'
    ensures IsDecimal(Out(Plain, conv, 0, a), SignedArg('\0', Word(a, 0)))
    ensures Reading(Out(Plain, conv, 0, a), 10) == SignedArg('\0', Word(a, 0))
  {
    var v := SignedArg('\0', Word(a, 0));
    SignedLaw(Plain, conv, 0, a);
    PlainShows(Out(Plain, conv, 0, a), SignShown(v, Asked(Plain, 0, a)), Magnified(v), 10, Decimals, Asked(Plain, 0, a));
  }

  /** `%d` and `%i`: the decimal notation of the signed argument, which reads back as the argument. */
  lemma DecimalText(conv: char, a: Args)
    requires conv == 'd' || conv == 'i'
    ensures var w := Word(a, 0);
            var v: int := if w < 0x8000_0000 then w else w - 0x1_0000_0000;
            IsDecimal(Text(['%', conv], a), v) && Reading(Text(['%', conv], a), 10) == v
  {
    PlainText(conv, a);
    PlainSigned(conv, a);
  }

  lemma PlainUnsigned(conv: char, a: Args)
    requires conv == 'u' || conv == 'x' || conv == 'X'
    ensures IsNumeral(Out(Plain, conv, 0, a), Word(a, 0), UnsignedBase(conv), UnsignedAlphabet(conv))
  {
    UnsignedLaw(Plain, conv, 0, a);
    PlainNumeral(Out(Plain, conv, 0, a), Word(a, 0), UnsignedBase(conv), UnsignedAlphabet(conv), Asked(Plain, 0, a));
  }

  lemma PlainNumeral(field: string, v: int, base: int, alphabet: string, d: Directive)
    requires Shows(field, "", v, base, alphabet, d) && d == Directive(NoFlags, -1, -1, '\0')
    ensures IsNumeral(field, v, base, alphabet)
  {
    PlainShows(field, "", v, base, alphabet, d);
    var ds :| IsNumeral(ds, v, base, alphabet) && field == "" + ds;
    EmptyPrefix(ds);
  }

  /** `%u`, `%x` and `%X`: the notation of the word in base 10 or 16. */
  lemma UnsignedText(conv: char, a: Args)
    requires conv == 'u' || conv == 'x' || conv == 'X'
    ensures IsNumeral(Text(['%', conv], a), Word(a, 0), if conv == 'u' then 10 else 16,
                      if conv == 'u' then "0123456789" else if conv == 'x' then "0123456789abcdef"
                      else "0123456789ABCDEF")
  {
    PlainText(conv, a);
    PlainUnsigned(conv, a);
  }

  lemma PlainSits(field: string, x: string)
    requires Sits(field, x, false, -1)
    ensures field == x
  {
    assert field[0..] == field;
  }

  /** `%s`, `%c` and `%%`: the pointed string, the character, the percent sign. */
  lemma CharactersText(conv: char, a: Args)
    requires conv == 's' || conv == 'c' || conv == '%'
    ensures Text(['%', conv], a) ==
            if conv == '%' then "%"
            else if conv == 'c' then [(Word(a, 0) % 256) as char]
            else if Word(a, 0) == 0 then "(NULL)" else a.strings(Word(a, 0))
  {
    PlainText(conv, a);
    var w := Word(a, 0);
    if conv == 's' {
      StringLaw(Plain, 0, a);
      PlainSits(Out(Plain, 's', 0, a), if w == 0 then "(NULL)" else a.strings(w));
    } else if conv == 'c' {
      CharLaw(Plain, 0, a);
      PlainSits(Out(Plain, 'c', 0, a), [(w % 256) as char]);
    } else {
      OtherLaw(Plain, conv, 0, a);
    }
  }

  function OctalValue(ds: string): nat {
    if ds == "" then 0 else 8 * OctalValue(ds[..|ds| - 1]) + DigitValue(ds[|ds| - 1])
  }

  lemma {:induction false} OctalBelow(ds: string)
    ensures OctalValue(ds) <= Value(ds, 16)
    ensures |ds| >= 2 && DigitValue(ds[0]) != 0 ==> OctalValue(ds) < Value(ds, 16)
    ensures ds != "" && DigitValue(ds[0]) != 0 ==> Value(ds, 16) >= if |ds| == 1 then 1 else 16
    ensures |ds| == 1 ==> OctalValue(ds) == Value(ds, 16) == DigitValue(ds[0])
  {
    if ds != "" {
      OctalBelow(ds[..|ds| - 1]);
    }
  }

  predicate IsOctal(ds: string, v: int) { Over("01234567", ds) && OctalValue(ds) == v }

  lemma HexDigitIs(c: char)
    requires c in "0123456789abcdef"
    ensures c in "01234567" <==> DigitValue(c) < 8
    ensures DigitValue(c) == 0 <==> c == '0'
  {
  }

  lemma HexIsOctalIff(ds: string, v: int)
    requires IsNumeral(ds, v, 16, "0123456789abcdef")
    ensures IsOctal(ds, v) <==> v < 8
  {
    OctalBelow(ds);
    assert ds[0] in "0123456789abcdef";
    HexDigitIs(ds[0]);
    if |ds| == 1 {
      assert IsOctal(ds, v) <==> ds[0] in "01234567";
    } else {
      assert ds != "0";
    }
  }

  /** `%o` prints the octal notation of its argument exactly when that has one digit. */
  lemma OctalTextIff(conv: char, a: Args)
    requires conv == 'o'
    ensures IsOctal(Text(['%', conv], a), Word(a, 0)) <==> Word(a, 0) < 8
  {
    PlainText('o', a);
    OctalLaw(Plain, 0, a);
    PlainUnsigned('x', a);
    HexIsOctalIff(Out(Plain, 'x', 0, a), Word(a, 0));
  }
}
