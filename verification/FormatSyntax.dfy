/**
 * The format language of `rt_vsnprintf`, and what each of its directives prints.
 *
 * `Format.Text` follows the scanner; here a directive is written down as syntax, and
 * its field is described by the argument it takes and the flags in its text.
 */
module FormatSyntax {
  import opened CText
  import opened Numerals
  import opened Words
  import opened Format

  // ----- syntax

  /** A width or a precision: left out, written in digits, or taken from the arguments. */
  datatype Count = Absent | Written(digits: string) | Star

  datatype Spec = Spec(flags: string, width: Count, precision: Count, qualifier: string)

  predicate WellFormed(s: Spec) {
    && (forall i :: 0 <= i < |s.flags| ==> IsFlag(s.flags[i]))
    && (s.width.Written? ==> AllDigits(s.width.digits) && s.width.digits != "" && s.width.digits[0] != '0')
    && (s.precision.Written? ==> AllDigits(s.precision.digits))
    && s.qualifier in ["", "h", "l"]
  }

  function CountText(c: Count): string {
    match c
    case Absent => ""
    case Written(digits) => digits
    case Star => "*"
  }

  function PrecisionText(c: Count): string { if c == Absent then "" else "." + CountText(c) }

  function SpecText(s: Spec): string {
    s.flags + (CountText(s.width) + (PrecisionText(s.precision) + s.qualifier))
  }

  /** Would `c`, read after the directive so far, still belong to it? */
  predicate Continues(s: Spec, c: char) {
    s.qualifier == "" &&
    (c in "hl"
     || match s.precision
        case Absent => c == '.' || (s.width != Star && IsDigit(c)) || (s.width == Absent && (c == '*' || IsFlag(c)))
        case Written(digits) => IsDigit(c) || (digits == "" && c == '*')
        case Star => false)
  }

  // ----- what a directive asks for, when argument `n` is next

  function Star32(a: Args, i: nat): int { Int32(Word(a, i)) }

  function WidthStars(s: Spec): nat { if s.width == Star then 1 else 0 }

  function Stars(s: Spec): nat { WidthStars(s) + if s.precision == Star then 1 else 0 }

  function Width(s: Spec, n: nat, a: Args): int {
    match s.width
    case Absent => -1
    case Written(digits) => NatOf(digits)
    case Star => if Star32(a, n) < 0 then -Star32(a, n) else Star32(a, n)
  }

  function Precision(s: Spec, n: nat, a: Args): int {
    match s.precision
    case Absent => -1
    case Written(digits) => NatOf(digits)
    case Star => Max(Star32(a, n + WidthStars(s)), 0)
  }

  predicate Left(s: Spec, n: nat, a: Args) { '-' in s.flags || (s.width == Star && Star32(a, n) < 0) }

  function Asked(s: Spec, n: nat, a: Args): Directive {
    Directive(Flags('0' in s.flags, false, '+' in s.flags, ' ' in s.flags, Left(s, n, a), false),
              Width(s, n, a), Precision(s, n, a), At(s.qualifier, 0))
  }

  // ----- the scanner reads the syntax

  function Joined(f: Flags, fl: string): Flags {
    Flags(f.zeropad || '0' in fl, f.sign, f.plus || '+' in fl, f.space || ' ' in fl, f.left || '-' in fl, f.large)
  }

  lemma JoinedStep(f: Flags, fl: string)
    requires fl != "" && IsFlag(fl[0])
    ensures Joined(WithFlag(f, fl[0]), fl[1..]) == Joined(f, fl)
  {
    assert fl == [fl[0]] + fl[1..];
    assert forall c :: c in fl <==> c == fl[0] || c in fl[1..];
  }

  lemma {:induction false} FlagsScanned(fmt: string, k: nat, fl: string, t: string, f: Flags)
    requires k <= |fmt| && fmt[k..] == fl + t && !IsFlag(At(t, 0))
    requires forall i :: 0 <= i < |fl| ==> IsFlag(fl[i])
    ensures FlagsAt(fmt, k, f) == (Joined(f, fl), k + |fl|)
    decreases |fl|
  {
    if fl == "" {
      assert At(fmt, k) == At(fmt[k..], 0) == At(t, 0);
    } else {
      assert At(fmt, k) == fmt[k..][0] == fl[0];
      assert fmt[k + 1..] == fmt[k..][1..] == fl[1..] + t;
      FlagsScanned(fmt, k + 1, fl[1..], t, WithFlag(f, fl[0]));
      JoinedStep(f, fl);
    }
  }

  lemma {:induction false} NumberScanned(fmt: string, k: nat, seen: string, ds: string, t: string)
    requires k <= |fmt| && fmt[k..] == ds + t && AllDigits(ds) && !IsDigit(At(t, 0))
    ensures NumberAt(fmt, k, NatOf(seen)) == (NatOf(seen + ds), k + |ds|)
    decreases |ds|
  {
    if ds == "" {
      assert At(fmt, k) == At(fmt[k..], 0) == At(t, 0);
      assert seen + ds == seen;
    } else {
      var next := seen + [ds[0]];
      assert At(fmt, k) == fmt[k..][0] == ds[0];
      assert fmt[k + 1..] == fmt[k..][1..] == ds[1..] + t;
      assert next[..|next| - 1] == seen;
      NumberScanned(fmt, k + 1, next, ds[1..], t);
      assert next + ds[1..] == seen + ds;
    }
  }

  lemma CountScanned(fmt: string, k: nat, ds: string, t: string)
    requires k <= |fmt| && fmt[k..] == ds + t && AllDigits(ds) && !IsDigit(At(t, 0))
    ensures NumberAt(fmt, k, 0) == (NatOf(ds), k + |ds|)
  {
    NumberScanned(fmt, k, "", ds, t);
    assert "" + ds == ds;
  }

  lemma {:induction false} NatOfNonneg(ds: string)
    requires AllDigits(ds)
    ensures NatOf(ds) >= 0
  {
    if ds != "" { NatOfNonneg(ds[..|ds| - 1]); }
  }

  lemma WidthScanned(fmt: string, k: nat, s: Spec, t: string, n: nat, a: Args, f: Flags)
    requires WellFormed(s) && k <= |fmt| && fmt[k..] == CountText(s.width) + t
    requires s.width == Star || !IsDigit(At(t, 0))
    requires s.width == Absent ==> At(t, 0) != '*'
    ensures WidthAt(fmt, Cursor(k, n), a, f) ==
            (Width(s, n, a), f.(left := f.left || (s.width == Star && Star32(a, n) < 0)),
             Cursor(k + |CountText(s.width)|, n + WidthStars(s)))
  {
    var w := CountText(s.width);
    assert At(fmt, k) == At(fmt[k..], 0) == At(w + t, 0);
    if s.width.Written? { CountScanned(fmt, k, w, t); }
  }

  lemma Follows(fmt: string, k: nat, x: string, t: string)
    requires k <= |fmt| && fmt[k..] == x + t
    ensures k + |x| <= |fmt| && fmt[k + |x|..] == t && At(fmt, k + |x|) == At(t, 0)
  {
    assert fmt[k + |x|..] == fmt[k..][|x|..];
    assert At(fmt, k + |x|) == At(fmt[k + |x|..], 0);
  }

  lemma PointScanned(fmt: string, c: Cursor, s: Spec, t: string, n: nat, a: Args)
    requires WellFormed(s) && c.arg == n + WidthStars(s) && s.precision != Absent
    requires c.k <= |fmt| && fmt[c.k..] == "." + (CountText(s.precision) + t)
    requires s.precision.Written? ==> !IsDigit(At(t, 0)) && (s.precision.digits == "" ==> At(t, 0) != '*')
    ensures PrecisionAt(fmt, c, a) == (Precision(s, n, a), Cursor(c.k + 1 + |CountText(s.precision)|, n + Stars(s)))
  {
    var d := CountText(s.precision);
    assert fmt[c.k] == fmt[c.k..][0];
    Follows(fmt, c.k, ".", d + t);
    assert At(d + t, 0) == if d == "" then At(t, 0) else d[0];
    if s.precision.Written? {
      CountScanned(fmt, c.k + 1, d, t);
      NatOfNonneg(d);
    }
  }

  lemma PrecisionScanned(fmt: string, c: Cursor, s: Spec, t: string, n: nat, a: Args)
    requires WellFormed(s) && c.arg == n + WidthStars(s)
    requires c.k <= |fmt| && fmt[c.k..] == PrecisionText(s.precision) + t
    requires s.precision == Absent ==> At(t, 0) != '.'
    requires s.precision.Written? ==> !IsDigit(At(t, 0)) && (s.precision.digits == "" ==> At(t, 0) != '*')
    ensures PrecisionAt(fmt, c, a) ==
            (Precision(s, n, a), Cursor(c.k + |PrecisionText(s.precision)|, n + Stars(s)))
  {
    var p := PrecisionText(s.precision);
    assert At(fmt, c.k) == At(fmt[c.k..], 0) == At(p + t, 0);
    if s.precision != Absent {
      assert p + t == "." + (CountText(s.precision) + t);
      PointScanned(fmt, c, s, t, n, a);
    }
  }

  function AfterPrecision(s: Spec, t: string): string { s.qualifier + t }

  function AfterWidth(s: Spec, t: string): string { PrecisionText(s.precision) + AfterPrecision(s, t) }

  function AfterFlags(s: Spec, t: string): string { CountText(s.width) + AfterWidth(s, t) }

  /** Where one part ends, the next does not go on with it. */
  lemma PartsEnd(s: Spec, t: string)
    requires WellFormed(s) && !Continues(s, At(t, 0))
    ensures !IsFlag(At(AfterFlags(s, t), 0))
    ensures s.width == Star || !IsDigit(At(AfterWidth(s, t), 0))
    ensures s.width == Absent ==> At(AfterWidth(s, t), 0) != '*'
    ensures s.precision == Absent ==> At(AfterPrecision(s, t), 0) != '.'
    ensures s.precision.Written? ==>
              !IsDigit(At(AfterPrecision(s, t), 0)) && (s.precision.digits == "" ==> At(AfterPrecision(s, t), 0) != '*')
  {
    var t3 := AfterPrecision(s, t);
    assert At(t3, 0) == if s.qualifier == "" then At(t, 0) else s.qualifier[0];
    var t2 := AfterWidth(s, t);
    assert At(t2, 0) == if s.precision == Absent then At(t3, 0) else '.';
    assert s.width == Absent ==> AfterFlags(s, t) == t2;
  }

  function WidthPlace(k: nat, s: Spec): nat { k + |s.flags| }

  function PrecisionPlace(k: nat, s: Spec): nat { WidthPlace(k, s) + |CountText(s.width)| }

  function QualifierPlace(k: nat, s: Spec): nat { PrecisionPlace(k, s) + |PrecisionText(s.precision)| }

  function ConversionPlace(k: nat, s: Spec): nat { QualifierPlace(k, s) + |s.qualifier| }

  /** A directive stands at `k`, and `t` follows it. */
  predicate Stands(fmt: string, k: nat, s: Spec, t: string) {
    && WellFormed(s) && !Continues(s, At(t, 0)) && ConversionPlace(k, s) <= |fmt|
    && fmt[k..] == s.flags + AfterFlags(s, t)
    && fmt[WidthPlace(k, s)..] == AfterFlags(s, t)
    && fmt[PrecisionPlace(k, s)..] == AfterWidth(s, t)
    && fmt[QualifierPlace(k, s)..] == AfterPrecision(s, t)
    && fmt[ConversionPlace(k, s)..] == t
  }

  lemma FourParts(fmt: string, k: nat, x1: string, x2: string, x3: string, x4: string, t: string)
    requires k <= |fmt| && fmt[k..] == (x1 + (x2 + (x3 + x4))) + t
    ensures var k1 := k + |x1|; var k2 := k1 + |x2|; var k3 := k2 + |x3|; var k4 := k3 + |x4|;
            && k4 <= |fmt| && fmt[k..] == x1 + (x2 + (x3 + (x4 + t)))
            && fmt[k1..] == x2 + (x3 + (x4 + t)) && fmt[k2..] == x3 + (x4 + t)
            && fmt[k3..] == x4 + t && fmt[k4..] == t
  {
    Assoc(x1, x2 + (x3 + x4), t);
    Assoc(x2, x3 + x4, t);
    Assoc(x3, x4, t);
    Follows(fmt, k, x1, x2 + (x3 + (x4 + t)));
    Follows(fmt, k + |x1|, x2, x3 + (x4 + t));
    Follows(fmt, k + |x1| + |x2|, x3, x4 + t);
    Follows(fmt, k + |x1| + |x2| + |x3|, x4, t);
  }

  lemma SpecStands(fmt: string, k: nat, s: Spec, t: string)
    requires WellFormed(s) && !Continues(s, At(t, 0)) && k <= |fmt| && fmt[k..] == SpecText(s) + t
    ensures Stands(fmt, k, s, t) && ConversionPlace(k, s) == k + |SpecText(s)|
  {
    FourParts(fmt, k, s.flags, CountText(s.width), PrecisionText(s.precision), s.qualifier, t);
  }

  lemma FlagsStand(fmt: string, k: nat, s: Spec, t: string)
    requires Stands(fmt, k, s, t)
    ensures FlagsAt(fmt, k, NoFlags) == (Joined(NoFlags, s.flags), WidthPlace(k, s))
  {
    PartsEnd(s, t);
    FlagsScanned(fmt, k, s.flags, AfterFlags(s, t), NoFlags);
  }

  lemma WidthStands(fmt: string, k: nat, s: Spec, t: string, n: nat, a: Args)
    requires Stands(fmt, k, s, t)
    ensures WidthAt(fmt, Cursor(WidthPlace(k, s), n), a, Joined(NoFlags, s.flags)) ==
            (Width(s, n, a), Asked(s, n, a).flags, Cursor(PrecisionPlace(k, s), n + WidthStars(s)))
  {
    PartsEnd(s, t);
    WidthScanned(fmt, WidthPlace(k, s), s, AfterWidth(s, t), n, a, Joined(NoFlags, s.flags));
  }

  lemma PrecisionStands(fmt: string, k: nat, s: Spec, t: string, n: nat, a: Args)
    requires Stands(fmt, k, s, t)
    ensures PrecisionAt(fmt, Cursor(PrecisionPlace(k, s), n + WidthStars(s)), a) ==
            (Precision(s, n, a), Cursor(QualifierPlace(k, s), n + Stars(s)))
  {
    PartsEnd(s, t);
    PrecisionScanned(fmt, Cursor(PrecisionPlace(k, s), n + WidthStars(s)), s, AfterPrecision(s, t), n, a);
  }

  lemma QualifierStands(fmt: string, k: nat, s: Spec, t: string)
    requires Stands(fmt, k, s, t)
    ensures var q := At(fmt, QualifierPlace(k, s));
            if q == 'h' || q == 'l' then s.qualifier == [q] else s.qualifier == ""
  {
    var at := QualifierPlace(k, s);
    assert At(fmt, at) == At(fmt[at..], 0);
    if s.qualifier == "" {
      assert AfterPrecision(s, t) == t;
    } else {
      assert At(AfterPrecision(s, t), 0) == s.qualifier[0];
    }
  }

  lemma DirectiveIs(fmt: string, k: nat, n: nat, a: Args, f: Flags, k1: nat, d: Directive, c2: Cursor, c3: Cursor,
                    q: string)
    requires k <= k1 <= c2.k <= c3.k <= |fmt| && FlagsAt(fmt, k, NoFlags) == (f, k1)
    requires WidthAt(fmt, Cursor(k1, n), a, f) == (d.width, d.flags, c2)
    requires PrecisionAt(fmt, c2, a) == (d.precision, c3)
    requires var ch := At(fmt, c3.k); if ch == 'h' || ch == 'l' then q == [ch] else q == ""
    requires d.qualifier == At(q, 0)
    ensures DirectiveAt(fmt, Cursor(k, n), a) == (d, Cursor(c3.k + |q|, c3.arg))
  {
  }

  /** The scanner takes a directive for what is written there. */
  lemma SpecScanned(fmt: string, k: nat, s: Spec, t: string, n: nat, a: Args)
    requires Stands(fmt, k, s, t)
    ensures DirectiveAt(fmt, Cursor(k, n), a) == (Asked(s, n, a), Cursor(ConversionPlace(k, s), n + Stars(s)))
  {
    var f, d := Joined(NoFlags, s.flags), Asked(s, n, a);
    var k1, c2 := WidthPlace(k, s), Cursor(PrecisionPlace(k, s), n + WidthStars(s));
    var c3 := Cursor(QualifierPlace(k, s), n + Stars(s));
    assert FlagsAt(fmt, k, NoFlags) == (f, k1) by { FlagsStand(fmt, k, s, t); }
    assert WidthAt(fmt, Cursor(k1, n), a, f) == (d.width, d.flags, c2) by { WidthStands(fmt, k, s, t, n, a); }
    assert PrecisionAt(fmt, c2, a) == (d.precision, c3) by { PrecisionStands(fmt, k, s, t, n, a); }
    QualifierStands(fmt, k, s, t);
    DirectiveIs(fmt, k, n, a, f, k1, d, c2, c3, s.qualifier);
  }

  // ----- a format as a list of pieces

  datatype Piece = Literal(text: string) | Conversion(spec: Spec, conv: char)

  predicate GoodPiece(p: Piece) {
    match p
    case Literal(text) => NulFree(text) && '%' !in text
    case Conversion(s, conv) => WellFormed(s) && conv != '\0' && !Continues(s, conv)
  }

  function PieceText(p: Piece): string {
    match p
    case Literal(text) => text
    case Conversion(s, conv) => "%" + (SpecText(s) + [conv])
  }

  /** The arguments a piece takes. */
  function Uses(p: Piece): nat {
    match p
    case Literal(_) => 0
    case Conversion(s, conv) => Stars(s) + if conv in "cspoxXdiu" then 1 else 0
  }

  /** What a piece prints when argument `n` is next. */
  function PieceOut(p: Piece, n: nat, a: Args, out: Fields): string {
    match p
    case Literal(text) => text
    case Conversion(s, conv) => out(Asked(s, n, a), conv, Word(a, n + Stars(s)))
  }

  predicate GoodPieces(ps: seq<Piece>) { forall i :: 0 <= i < |ps| ==> GoodPiece(ps[i]) }

  function FormatText(ps: seq<Piece>): string {
    if ps == [] then "" else PieceText(ps[0]) + FormatText(ps[1..])
  }

  /** Each piece with the arguments its predecessors left. */
  function Outs(ps: seq<Piece>, n: nat, a: Args, out: Fields): string {
    if ps == [] then "" else PieceOut(ps[0], n, a, out) + Outs(ps[1..], n + Uses(ps[0]), a, out)
  }

  lemma LiteralChar(fmt: string, c: Cursor, a: Args, out: Fields)
    requires c.k < |fmt| && fmt[c.k] != '\0' && fmt[c.k] != '%'
    ensures Printed(fmt, c, a, out) == [fmt[c.k]] + Printed(fmt, Cursor(c.k + 1, c.arg), a, out)
  {
  }

  lemma EmptyPrefix(t: string)
    ensures "" + t == t
  {
  }

  lemma Regroup(x: string, t: string)
    requires x != ""
    ensures [x[0]] + (x[1..] + t) == x + t
  {
  }

  lemma HeadStands(fmt: string, k: nat, x: string, t: string)
    requires k <= |fmt| && fmt[k..] == x + t && x != ""
    ensures k < |fmt| && fmt[k] == x[0] && fmt[k + 1..] == x[1..] + t
  {
    assert fmt[k] == fmt[k..][0];
    assert fmt[k + 1..] == fmt[k..][1..];
  }

  lemma {:induction false} LiteralPrinted(fmt: string, k: nat, x: string, t: string, n: nat, a: Args, out: Fields)
    requires k + |x| <= |fmt| && fmt[k..] == x + t && GoodPiece(Literal(x))
    ensures Printed(fmt, Cursor(k, n), a, out) == x + Printed(fmt, Cursor(k + |x|, n), a, out)
    decreases |x|
  {
    if x == "" {
      EmptyPrefix(Printed(fmt, Cursor(k, n), a, out));
    } else {
      HeadStands(fmt, k, x, t);
      LiteralPrinted(fmt, k + 1, x[1..], t, n, a, out);
      LiteralChar(fmt, Cursor(k, n), a, out);
      Regroup(x, Printed(fmt, Cursor(k + |x|, n), a, out));
    }
  }

  lemma PrintedIsDirected(fmt: string, c: Cursor, a: Args, out: Fields)
    requires c.k < |fmt| && fmt[c.k] == '%'
    ensures Printed(fmt, c, a, out) == Directed(fmt, Cursor(c.k + 1, c.arg), a, out)
  {
  }

  lemma DirectedIsConverted(fmt: string, c: Cursor, a: Args, d: Directive, c': Cursor, out: Fields)
    requires c.k <= |fmt| && DirectiveAt(fmt, c, a) == (d, c')
    ensures Directed(fmt, c, a, out) == Converted(fmt, c', a, d, out)
  {
  }

  lemma DirectivePrinted(fmt: string, k: nat, s: Spec, t: string, n: nat, a: Args, out: Fields)
    requires k < |fmt| && fmt[k] == '%' && Stands(fmt, k + 1, s, t)
    ensures Printed(fmt, Cursor(k, n), a, out) ==
            Converted(fmt, Cursor(ConversionPlace(k + 1, s), n + Stars(s)), a, Asked(s, n, a), out)
  {
    PrintedIsDirected(fmt, Cursor(k, n), a, out);
    SpecScanned(fmt, k + 1, s, t, n, a);
    DirectedIsConverted(fmt, Cursor(k + 1, n), a, Asked(s, n, a),
                        Cursor(ConversionPlace(k + 1, s), n + Stars(s)), out);
  }

  lemma ConvertedIs(fmt: string, c: Cursor, a: Args, d: Directive, out: Fields, conv: char, next: Cursor)
    requires c.k < |fmt| && fmt[c.k] == conv != '\0'
    requires next == Cursor(c.k + 1, c.arg + if conv in "cspoxXdiu" then 1 else 0)
    ensures Converted(fmt, c, a, d, out) == out(d, conv, Word(a, c.arg)) + Printed(fmt, next, a, out)
  {
    assert TakesArgument(conv) <==> conv in "cspoxXdiu";
  }

  lemma ConversionStands(fmt: string, k: nat, s: Spec, conv: char, t: string)
    requires GoodPiece(Conversion(s, conv))
    requires k <= |fmt| && fmt[k..] == PieceText(Conversion(s, conv)) + t
    ensures k < |fmt| && fmt[k] == '%' && Stands(fmt, k + 1, s, [conv] + t)
    ensures var at := ConversionPlace(k + 1, s);
            at < |fmt| && fmt[at] == conv && at + 1 == k + |PieceText(Conversion(s, conv))|
  {
    HeadStands(fmt, k, PieceText(Conversion(s, conv)), t);
    Assoc(SpecText(s), [conv], t);
    SpecStands(fmt, k + 1, s, [conv] + t);
    HeadStands(fmt, ConversionPlace(k + 1, s), [conv], t);
  }

  lemma PrintedAtEnd(fmt: string, n: nat, a: Args, out: Fields)
    ensures Printed(fmt, Cursor(|fmt|, n), a, out) == ""
  {
  }

  lemma ConversionReached(fmt: string, k: nat, s: Spec, conv: char, t: string, n: nat, a: Args, out: Fields,
                          c: Cursor, d: Directive)
    requires GoodPiece(Conversion(s, conv)) && k <= |fmt| && fmt[k..] == PieceText(Conversion(s, conv)) + t
    requires c == Cursor(ConversionPlace(k + 1, s), n + Stars(s)) && d == Asked(s, n, a)
    ensures c.k < |fmt| && fmt[c.k] == conv
    ensures Printed(fmt, Cursor(k, n), a, out) == Converted(fmt, c, a, d, out)
  {
    ConversionStands(fmt, k, s, conv, t);
    DirectivePrinted(fmt, k, s, [conv] + t, n, a, out);
  }

  lemma EmptySuffix(t: string)
    ensures t + "" == t && t[0..] == t
  {
  }

  lemma ConversionPrinted(fmt: string, k: nat, s: Spec, conv: char, t: string, n: nat, a: Args, out: Fields,
                          next: Cursor)
    requires GoodPiece(Conversion(s, conv)) && k <= |fmt| && fmt[k..] == PieceText(Conversion(s, conv)) + t
    requires next.k == k + |PieceText(Conversion(s, conv))| <= |fmt| && next.arg == n + Uses(Conversion(s, conv))
    ensures Printed(fmt, Cursor(k, n), a, out) ==
            PieceOut(Conversion(s, conv), n, a, out) + Printed(fmt, next, a, out)
  {
    var c, d := Cursor(ConversionPlace(k + 1, s), n + Stars(s)), Asked(s, n, a);
    assert next.k == c.k + 1;
    ConversionReached(fmt, k, s, conv, t, n, a, out, c, d);
    ConvertedIs(fmt, c, a, d, out, conv, next);
  }

  lemma PiecePrinted(fmt: string, k: nat, p: Piece, t: string, n: nat, a: Args, out: Fields, next: Cursor)
    requires GoodPiece(p) && k <= |fmt| && fmt[k..] == PieceText(p) + t
    requires next.k == k + |PieceText(p)| <= |fmt| && next.arg == n + Uses(p)
    ensures Printed(fmt, Cursor(k, n), a, out) == PieceOut(p, n, a, out) + Printed(fmt, next, a, out)
  {
    if p.Literal? {
      LiteralPrinted(fmt, k, p.text, t, n, a, out);
      assert next == Cursor(k + |p.text|, n);
    } else {
      ConversionPrinted(fmt, k, p.spec, p.conv, t, n, a, out, next);
    }
  }

  function UsesAll(ps: seq<Piece>): nat { if ps == [] then 0 else Uses(ps[0]) + UsesAll(ps[1..]) }

  lemma PiecesStand(fmt: string, k: nat, ps: seq<Piece>, t: string)
    requires k <= |fmt| && fmt[k..] == FormatText(ps) + t && ps != []
    ensures var x, y := PieceText(ps[0]), FormatText(ps[1..]);
            && |FormatText(ps)| == |x| + |y| && k + |FormatText(ps)| <= |fmt|
            && fmt[k..] == x + (y + t) && fmt[k + |x|..] == y + t
  {
    var x, y := PieceText(ps[0]), FormatText(ps[1..]);
    Assoc(x, y, t);
    Follows(fmt, k, x, y + t);
  }

  lemma OutsFirst(ps: seq<Piece>, n: nat, a: Args, out: Fields, whole: string, rest: string, t: string)
    requires ps != [] && whole == PieceOut(ps[0], n, a, out) + rest
    requires rest == Outs(ps[1..], n + Uses(ps[0]), a, out) + t
    ensures whole == Outs(ps, n, a, out) + t
  {
    Assoc(PieceOut(ps[0], n, a, out), Outs(ps[1..], n + Uses(ps[0]), a, out), t);
  }

  /** From anywhere in a format, its pieces print one after the other, each from its own arguments. */
  lemma {:induction false} PiecesPrinted(fmt: string, k: nat, ps: seq<Piece>, t: string, n: nat, a: Args, out: Fields,
                                         end: Cursor)
    requires GoodPieces(ps) && k <= |fmt| && fmt[k..] == FormatText(ps) + t
    requires end.k == k + |FormatText(ps)| <= |fmt| && end.arg == n + UsesAll(ps)
    ensures Printed(fmt, Cursor(k, n), a, out) == Outs(ps, n, a, out) + Printed(fmt, end, a, out)
    decreases |ps|
  {
    if ps == [] {
      EmptyPrefix(Printed(fmt, end, a, out));
      assert end == Cursor(k, n) && Outs(ps, n, a, out) == "";
    } else {
      PiecesStand(fmt, k, ps, t);
      var next := Cursor(k + |PieceText(ps[0])|, n + Uses(ps[0]));
      PiecePrinted(fmt, k, ps[0], FormatText(ps[1..]) + t, n, a, out, next);
      PiecesPrinted(fmt, next.k, ps[1..], t, next.arg, a, out, end);
      OutsFirst(ps, n, a, out, Printed(fmt, Cursor(k, n), a, out), Printed(fmt, next, a, out), Printed(fmt, end, a, out));
    }
  }

  // ----- every format has pieces

  function FlagSpan(t: string): (n: nat)
    ensures n <= |t| && !IsFlag(At(t, n)) && forall i :: 0 <= i < n ==> IsFlag(t[i])
  {
    if t != "" && IsFlag(t[0]) then 1 + FlagSpan(t[1..]) else 0
  }

  lemma {:induction false} DigitsEnd(t: string)
    ensures AllDigits(t[..Span(t)]) && !IsDigit(At(t, Span(t)))
  {
    if t != "" && IsDigit(t[0]) { DigitsEnd(t[1..]); }
  }

  /** A width, and what follows it. */
  function CountAt(t: string): (r: (Count, string))
    ensures t == CountText(r.0) + r.1
  {
    if IsDigit(At(t, 0)) then (Written(t[..Span(t)]), t[Span(t)..])
    else if At(t, 0) == '*' then (Star, t[1..])
    else (Absent, t)
  }

  function PointAt(t: string): (r: (Count, string))
    ensures t == PrecisionText(r.0) + r.1
  {
    if At(t, 0) != '.' then (Absent, t)
    else
      var (c, rest) := CountAt(t[1..]);
      (if c == Absent then Written("") else c, rest)
  }

  function QualifierAt(t: string): (r: (string, string))
    ensures t == r.0 + r.1
  {
    if At(t, 0) == 'h' || At(t, 0) == 'l' then ([t[0]], t[1..]) else ("", t)
  }

  /** The directive a text begins with, after its `%`, and what follows it. */
  function SpecAt(t: string): (r: (Spec, string))
    ensures |r.1| <= |t|
  {
    var (width, t1) := CountAt(t[FlagSpan(t)..]);
    var (precision, t2) := PointAt(t1);
    var (qualifier, t3) := QualifierAt(t2);
    (Spec(t[..FlagSpan(t)], width, precision, qualifier), t3)
  }

  lemma CountEnds(t: string)
    ensures var (c, rest) := CountAt(t);
            && (c.Written? ==> c.digits != "" && c.digits[0] == t[0] && AllDigits(c.digits) && !IsDigit(At(rest, 0)))
            && (c == Absent ==> !IsDigit(At(rest, 0)) && At(rest, 0) != '*')
  {
    DigitsEnd(t);
  }

  lemma PointEnds(t: string)
    ensures var (c, rest) := PointAt(t);
            && (c.Written? ==> AllDigits(c.digits) && !IsDigit(At(rest, 0)) && (c.digits == "" ==> At(rest, 0) != '*'))
            && (c == Absent ==> At(rest, 0) != '.' && rest == t)
  {
    if t != "" { CountEnds(t[1..]); }
  }

  lemma QualifierEnds(t: string)
    ensures var (q, rest) := QualifierAt(t);
            q in ["", "h", "l"] && (q == "" ==> rest == t && At(t, 0) !in "hl")
  {
    assert At(t, 0) == 'h' ==> QualifierAt(t).0 == "h";
    assert At(t, 0) == 'l' ==> QualifierAt(t).0 == "l";
  }

  lemma SpecEnds(s: Spec, t0: string, t1: string, t2: string, t3: string)
    requires (s.width, t1) == CountAt(t0) && (s.precision, t2) == PointAt(t1) && (s.qualifier, t3) == QualifierAt(t2)
    requires !IsFlag(At(t0, 0)) && forall i :: 0 <= i < |s.flags| ==> IsFlag(s.flags[i])
    ensures WellFormed(s) && !Continues(s, At(t3, 0))
  {
    CountEnds(t0);
    PointEnds(t1);
    QualifierEnds(t2);
    assert s.width == Absent ==> t1 == t0;
  }

  lemma SpecTextIs(s: Spec, t0: string, t1: string, t2: string, t3: string)
    requires t0 == CountText(s.width) + t1 && t1 == PrecisionText(s.precision) + t2 && t2 == s.qualifier + t3
    ensures SpecText(s) + t3 == s.flags + t0
  {
    Assoc(s.flags, CountText(s.width) + (PrecisionText(s.precision) + s.qualifier), t3);
    Assoc(CountText(s.width), PrecisionText(s.precision) + s.qualifier, t3);
    Assoc(PrecisionText(s.precision), s.qualifier, t3);
  }

  lemma FlagsEnd(t: string)
    ensures !IsFlag(At(t[FlagSpan(t)..], 0)) && t[..FlagSpan(t)] + t[FlagSpan(t)..] == t
  {
  }

  lemma SpecReads(t: string)
    ensures var (s, rest) := SpecAt(t);
            t == SpecText(s) + rest && WellFormed(s) && !Continues(s, At(rest, 0))
  {
    var (s, t3) := SpecAt(t);
    var t0 := t[FlagSpan(t)..];
    var t1 := CountAt(t0).1;
    var t2 := PointAt(t1).1;
    FlagsEnd(t);
    SpecEnds(s, t0, t1, t2, t3);
    assert t == SpecText(s) + t3 by { SpecTextIs(s, t0, t1, t2, t3); }
  }

  /** The pieces of a format, and the unfinished directive it may end with. */
  function PiecesOf(fmt: string): (seq<Piece>, string)
    decreases |fmt|
  {
    if fmt == "" then ([], "")
    else if fmt[0] != '%' then
      var (ps, tail) := PiecesOf(fmt[1..]);
      ([Literal([fmt[0]])] + ps, tail)
    else
      var (s, rest) := SpecAt(fmt[1..]);
      if rest == "" then ([], fmt)
      else
        var (ps, tail) := PiecesOf(rest[1..]);
        ([Conversion(s, rest[0])] + ps, tail)
  }

  ghost predicate Unfinished(tail: string) { exists s :: WellFormed(s) && tail == "%" + SpecText(s) }

  lemma FormatTextCons(p: Piece, ps: seq<Piece>, tail: string)
    ensures FormatText([p] + ps) + tail == PieceText(p) + (FormatText(ps) + tail)
  {
    assert ([p] + ps)[1..] == ps;
    Assoc(PieceText(p), FormatText(ps), tail);
  }

  lemma {:induction false} PiecesRead(fmt: string)
    requires NulFree(fmt)
    ensures Reads(fmt, PiecesOf(fmt).0, PiecesOf(fmt).1)
    decreases |fmt|
  {
    if fmt != "" && fmt[0] != '%' {
      PiecesRead(fmt[1..]);
      LiteralRead(fmt, PiecesOf(fmt[1..]).0, PiecesOf(fmt[1..]).1);
    } else if fmt != "" {
      DirectiveRead(fmt);
      var (s, rest) := SpecAt(fmt[1..]);
      if rest != "" {
        PiecesRead(rest[1..]);
        PieceRead(fmt, Conversion(s, rest[0]), rest[1..], PiecesOf(rest[1..]).0, PiecesOf(rest[1..]).1);
      }
    }
  }

  ghost predicate Reads(fmt: string, ps: seq<Piece>, tail: string) {
    GoodPieces(ps) && fmt == FormatText(ps) + tail && (tail == "" || Unfinished(tail))
  }

  lemma PieceRead(fmt: string, p: Piece, rest: string, ps: seq<Piece>, tail: string)
    requires GoodPiece(p) && fmt == PieceText(p) + rest && Reads(rest, ps, tail)
    ensures Reads(fmt, [p] + ps, tail)
  {
    FormatTextCons(p, ps, tail);
  }

  lemma LiteralRead(fmt: string, ps: seq<Piece>, tail: string)
    requires NulFree(fmt) && fmt != "" && fmt[0] != '%' && Reads(fmt[1..], ps, tail)
    ensures Reads(fmt, [Literal([fmt[0]])] + ps, tail)
  {
    assert fmt == [fmt[0]] + fmt[1..];
    PieceRead(fmt, Literal([fmt[0]]), fmt[1..], ps, tail);
  }

  lemma DirectiveRead(fmt: string)
    requires NulFree(fmt) && fmt != "" && fmt[0] == '%'
    ensures var (s, rest) := SpecAt(fmt[1..]);
            if rest == "" then Unfinished(fmt)
            else NulFree(rest[1..]) && GoodPiece(Conversion(s, rest[0])) &&
                 fmt == PieceText(Conversion(s, rest[0])) + rest[1..]
  {
    SpecReads(fmt[1..]);
    var (s, rest) := SpecAt(fmt[1..]);
    assert fmt == "%" + (SpecText(s) + rest);
    if rest == "" {
      assert fmt == "%" + SpecText(s);
    } else {
      RestIs(fmt, SpecText(s), rest);
    }
  }

  lemma RestIs(fmt: string, x: string, rest: string)
    requires fmt == "%" + (x + rest) && rest != "" && NulFree(fmt)
    ensures fmt == ("%" + (x + [rest[0]])) + rest[1..] && rest[0] != '\0' && NulFree(rest[1..])
  {
    assert forall i :: 0 <= i < |rest| ==> rest[i] == fmt[1 + |x| + i];
  }

  /** An unfinished directive prints one percent sign. */
  lemma UnfinishedPrinted(fmt: string, k: nat, s: Spec, n: nat, a: Args, out: Fields)
    requires WellFormed(s) && k <= |fmt| && fmt[k..] == "%" + SpecText(s)
    ensures Printed(fmt, Cursor(k, n), a, out) == out(Asked(s, n, a), '\0', Word(a, n + Stars(s)))
  {
    UnfinishedStands(fmt, k, s);
    DirectivePrinted(fmt, k, s, "", n, a, out);
    ConvertedAtEnd(fmt, Cursor(ConversionPlace(k + 1, s), n + Stars(s)), a, Asked(s, n, a), out);
  }

  lemma UnfinishedStands(fmt: string, k: nat, s: Spec)
    requires WellFormed(s) && k <= |fmt| && fmt[k..] == "%" + SpecText(s)
    ensures k < |fmt| && fmt[k] == '%' && Stands(fmt, k + 1, s, "") && ConversionPlace(k + 1, s) == |fmt|
  {
    EmptySuffix("%" + SpecText(s));
    HeadStands(fmt, k, "%" + SpecText(s), "");
    SpecStands(fmt, k + 1, s, "");
  }

  lemma ConvertedAtEnd(fmt: string, c: Cursor, a: Args, d: Directive, out: Fields)
    requires c.k == |fmt|
    ensures Converted(fmt, c, a, d, out) == out(d, '\0', Word(a, c.arg))
  {
    PrintedAtEnd(fmt, c.arg, a, out);
    assert Beyond(fmt, c) == c;
    EmptySuffix(out(d, '\0', Word(a, c.arg)));
  }

  lemma TailPrinted(fmt: string, c: Cursor, tail: string, a: Args, out: Fields)
    requires c.k <= |fmt| && fmt[c.k..] == tail && (tail == "" || Unfinished(tail))
    requires forall d: Directive, w: nat :: w < UINT32 ==> out(d, '\0', w) == "%"
    ensures Printed(fmt, c, a, out) == if tail == "" then "" else "%"
  {
    if tail == "" {
      PrintedAtEnd(fmt, c.arg, a, out);
      assert c == Cursor(|fmt|, c.arg);
    } else {
      var s :| WellFormed(s) && tail == "%" + SpecText(s);
      UnfinishedPrinted(fmt, c.k, s, c.arg, a, out);
      assert c == Cursor(c.k, c.arg);
    }
  }
}
