/** `print_number` and `rt_vsnprintf`: loops over cursors that store what still fits. */
module FormatPrinter {
  import opened CText
  import opened Numerals
  import opened Format
  import opened Words

  /** Where the output goes: `size` characters of `buf` from `off` on (`buf` and `end` in the source). */
  datatype Target = Target(buf: array<char>, off: nat, size: nat)

  /** There is room for the stored part of `n` characters. */
  predicate Room(t: Target, n: nat) { t.off + Min(n, t.size) <= t.buf.Length }

  /** The first characters of `text` are stored; nothing else of `init` has changed. */
  ghost predicate Holds(t: Target, init: string, text: string)
    reads t.buf
  {
    && |init| == t.buf.Length && Room(t, |text|)
    && (forall i :: 0 <= i < Min(|text|, t.size) ==> t.buf[t.off + i] == text[i])
    && (forall i :: 0 <= i < t.off || t.off + Min(|text|, t.size) <= i < |init| ==> t.buf[i] == init[i])
  }

  /** `if (buf < end) *buf = c; ++buf;` */
  method Emit(t: Target, pos: nat, c: char, ghost init: string, ghost text: string) returns (p: nat)
    requires Holds(t, init, text) && pos == |text| && Room(t, |text| + 1)
    modifies t.buf
    ensures Holds(t, init, text + [c]) && p == |text + [c]|
  {
    if pos < t.size { t.buf[t.off + pos] := c; }
    p := pos + 1;
  }

  /** `while (n-- > 0)` put a padding character. */
  method Pad(t: Target, pos: nat, c: char, n: int, ghost init: string, ghost text: string)
      returns (p: nat, rest: int)
    requires Holds(t, init, text) && pos == |text| && Room(t, |text + Fill(c, n)|)
    modifies t.buf
    ensures Holds(t, init, text + Fill(c, n)) && p == |text + Fill(c, n)| && rest == Min(n, 0) - 1
  {
    p, rest := pos, n;
    ghost var done := text;
    while rest > 0
      invariant Min(n, 0) <= rest <= n && done == text + Fill(c, n - rest)
      invariant Holds(t, init, done) && p == |done|
    {
      p := Emit(t, p, c, init, done);
      done := done + [c];
      rest := rest - 1;
    }
    rest := rest - 1;
  }

  // ----- print_number

  /** What stands before the digits; `size` is the width left beside them. */
  function HeadText(sign: string, size: int, f: Flags): string {
    if f.left then sign
    else if f.zeropad then sign + Fill('0', size - |sign|)
    else Fill(' ', size - |sign|) + sign
  }

  function TailText(sign: string, size: int, f: Flags): string {
    if f.left then Fill(' ', size - |sign|) else ""
  }

  function SignOf(c: char): string { if c == '\0' then "" else [c] }

  /** Blanks on the left, unless the field is zero-padded or left-justified. */
  method LeadingBlanks(t: Target, pos: nat, sign: char, size: int, f: Flags, ghost init: string, ghost text: string)
      returns (p: nat, rest: int)
    requires Holds(t, init, text) && pos == |text|
    requires !(f.zeropad || f.left) ==> Room(t, |text| + Max(size - |SignOf(sign)|, 0))
    modifies t.buf
    ensures if f.zeropad || f.left then Holds(t, init, text) && p == |text| && rest == size
            else var blanks := Fill(' ', size - |SignOf(sign)|);
                 Holds(t, init, text + blanks) && p == |text + blanks| && rest < 0
  {
    p, rest := pos, size;
    if !(f.zeropad || f.left) {
      if sign != '\0' && rest > 0 { rest := rest - 1; }
      assert Fill(' ', rest) == Fill(' ', size - |SignOf(sign)|);
      p, rest := Pad(t, p, ' ', rest, init, text);
    }
  }

  method PutSign(t: Target, pos: nat, sign: char, size: int, ghost init: string, ghost text: string)
      returns (p: nat, rest: int)
    requires Holds(t, init, text) && pos == |text| && Room(t, |text| + |SignOf(sign)|)
    modifies t.buf
    ensures Holds(t, init, text + SignOf(sign)) && p == |text + SignOf(sign)| && rest == size - |SignOf(sign)|
  {
    p, rest := pos, size;
    if sign != '\0' {
      p := Emit(t, p, sign, init, text);
      rest := rest - 1;
    } else {
      assert text + "" == text;
    }
  }

  method Head(t: Target, pos: nat, sign: char, size: int, f: Flags, ghost init: string, ghost text: string)
      returns (p: nat, rest: int)
    requires Holds(t, init, text) && pos == |text| && Room(t, |text + HeadText(SignOf(sign), size, f)|)
    modifies t.buf
    ensures Holds(t, init, text + HeadText(SignOf(sign), size, f)) && p == |text + HeadText(SignOf(sign), size, f)|
    ensures Fill(' ', rest) == TailText(SignOf(sign), size, f)
  {
    ghost var s := SignOf(sign);
    ghost var blanks := if f.zeropad || f.left then "" else Fill(' ', size - |s|);
    assert text + "" == text;
    p, rest := LeadingBlanks(t, pos, sign, size, f, init, text);
    ghost var done := text + blanks;
    p, rest := PutSign(t, p, sign, rest, init, done);
    done := done + s;
    if f.left {
      assert done == text + HeadText(s, size, f);
    } else {
      var c := if f.zeropad then '0' else ' ';
      ghost var n := rest;
      assert done + Fill(c, n) == text + HeadText(s, size, f);
      p, rest := Pad(t, p, c, rest, init, done);
    }
  }

  /** The digits from the temporary buffer, last to first. */
  method PutReversed(t: Target, pos: nat, tmp: array<char>, count: nat, ghost init: string, ghost text: string)
      returns (p: nat)
    requires Holds(t, init, text) && pos == |text| && tmp != t.buf && count <= tmp.Length && Room(t, |text| + count)
    modifies t.buf
    ensures Holds(t, init, text + Reverse(tmp[..count])) && p == |text + Reverse(tmp[..count])|
  {
    p := pos;
    var i := count;
    ghost var all, done := text + Reverse(tmp[..count]), text;
    while i > 0
      invariant 0 <= i <= count && done + Reverse(tmp[..i]) == all
      invariant Holds(t, init, done) && p == |done|
    {
      i := i - 1;
      assert tmp[..i + 1][..i] == tmp[..i];
      Assoc(done, [tmp[i]], Reverse(tmp[..i]));
      p := Emit(t, p, tmp[i], init, done);
      done := done + [tmp[i]];
    }
    assert done + Reverse(tmp[..0]) == done;
  }

  /** Zeros up to the precision, then the digits. */
  method PutDigits(t: Target, pos: nat, tmp: array<char>, count: nat, precision: int,
                   ghost digits: string, ghost init: string, ghost text: string) returns (p: nat)
    requires Holds(t, init, text) && pos == |text| && tmp != t.buf && count <= tmp.Length
    requires Reverse(tmp[..count]) == digits && Room(t, |text + Body(digits, precision)|)
    modifies t.buf
    ensures Holds(t, init, text + Body(digits, precision)) && p == |text + Body(digits, precision)|
  {
    ghost var rest;
    ghost var zeros := Fill('0', precision - count);
    p, rest := Pad(t, pos, '0', precision - count, init, text);
    if precision != 0 {
      p := PutReversed(t, p, tmp, count, init, text + zeros);
      Assoc(text, zeros, digits);
    } else {
      assert zeros + "" == zeros;
    }
  }

  function SignCode(num: int, f: Flags): (c: char)
    ensures SignOf(c) == SignText(num, f)
  {
    if !f.sign then '\0' else if num < 0 then '-' else if f.plus then '+' else if f.space then ' ' else '\0'
  }

  /** Head, body and tail make the field. */
  lemma Assembled(sign: string, body: string, size: int, f: Flags)
    ensures HeadText(sign, size, f) + (body + TailText(sign, size, f)) == Arrange(sign, body, size - |sign|, f)
  {
    assert body + "" == body;
    if f.left {
    } else if f.zeropad {
      Assoc(sign, Fill('0', size - |sign|), body);
    } else {
      Assoc(Fill(' ', size - |sign|), sign, body);
    }
  }

  lemma Joined(a: string, b: string, c: string, d: string)
    ensures a + b + c + d == a + (b + (c + d))
  {
  }

  lemma AssembledAfter(text: string, sign: string, digits: string, s: int, precision: int, f: Flags)
    ensures var size := s - Max(precision, |digits|);
            text + HeadText(sign, size, f) + Body(digits, precision) + TailText(sign, size, f) ==
            text + FieldOf(sign, digits, s, precision, f)
  {
    var size, body := s - Max(precision, |digits|), Body(digits, precision);
    Assembled(sign, body, size, f);
    Joined(text, HeadText(sign, size, f), body, TailText(sign, size, f));
  }

  lemma LessRoom(t: Target, a: string, b: string, c: string)
    requires Room(t, |a + b + c|)
    ensures Room(t, |a|) && Room(t, |a + b|)
  {
  }

  /** The field once the digits are known. */
  method PutField(t: Target, pos: nat, sign: char, tmp: array<char>, count: nat, s: int, precision: int, f: Flags,
                  ghost digits: string, ghost init: string, ghost text: string) returns (p: nat)
    requires Holds(t, init, text) && pos == |text| && tmp != t.buf && count <= tmp.Length
    requires Reverse(tmp[..count]) == digits && Room(t, |text + FieldOf(SignOf(sign), digits, s, precision, f)|)
    modifies t.buf
    ensures Holds(t, init, text + FieldOf(SignOf(sign), digits, s, precision, f))
    ensures p == |text + FieldOf(SignOf(sign), digits, s, precision, f)|
  {
    var size := s - Max(precision, count);
    ghost var body, head, tail := Body(digits, precision), HeadText(SignOf(sign), size, f), TailText(SignOf(sign), size, f);
    AssembledAfter(text, SignOf(sign), digits, s, precision, f);
    LessRoom(t, text + head, body, tail);
    LessRoom(t, text, head, body);
    p, size := Head(t, pos, sign, size, f, init, text);
    ghost var done := text + head;
    p := PutDigits(t, p, tmp, count, precision, digits, init, done);
    done := done + body;
    p, size := Pad(t, p, ' ', size, init, done);
  }

  method PrintNumber(t: Target, pos: nat, num: int, base: int, s: int, precision: int, f: Flags,
                     ghost init: string, ghost text: string) returns (p: nat)
    requires -INT32 <= num < INT32 && Holds(t, init, text) && pos == |text|
    requires Room(t, |text + NumberField(num, base, s, precision, f)|)
    modifies t.buf
    ensures Holds(t, init, text + NumberField(num, base, s, precision, f))
    ensures p == |text + NumberField(num, base, s, precision, f)|
  {
    var tmp := new char[16];
    var count := MakeDigits(Magnitude(num, f), base, f.large, tmp);
    ghost var sign, digits := SignText(num, f), Numeral(Magnitude(num, f), base, f.large);
    ghost var field := FieldOf(sign, digits, s, precision, f);
    assert field == NumberField(num, base, s, precision, f);
    p := PutField(t, pos, SignCode(num, f), tmp, count, s, precision, f, digits, init, text);
  }

  // ----- scanning a directive

  method ScanFlags(fmt: string, k0: nat) returns (f: Flags, k: nat)
    requires k0 <= |fmt|
    ensures (f, k) == FlagsAt(fmt, k0, NoFlags) && k <= |fmt|
  {
    f, k := NoFlags, k0;
    while IsFlag(At(fmt, k))
      invariant k <= |fmt| && FlagsAt(fmt, k, f) == FlagsAt(fmt, k0, NoFlags)
      decreases |fmt| - k
    {
      f := WithFlag(f, At(fmt, k));
      k := k + 1;
    }
  }

  method SkipAtoi(fmt: string, k0: nat) returns (i: int, k: nat)
    requires k0 <= |fmt|
    ensures (i, k) == NumberAt(fmt, k0, 0) && k <= |fmt|
  {
    i, k := 0, k0;
    while IsDigit(At(fmt, k))
      invariant k <= |fmt| && NumberAt(fmt, k, i) == NumberAt(fmt, k0, 0)
      decreases |fmt| - k
    {
      i := i * 10 + Digit(At(fmt, k));
      k := k + 1;
    }
  }

  method ScanWidth(fmt: string, c0: Cursor, a: Args, f0: Flags) returns (width: int, f: Flags, c: Cursor)
    requires c0.k <= |fmt|
    ensures (width, f, c) == WidthAt(fmt, c0, a, f0)
  {
    width, f, c := -1, f0, c0;
    if IsDigit(At(fmt, c.k)) {
      var k;
      width, k := SkipAtoi(fmt, c.k);
      c := c.(k := k);
    } else if At(fmt, c.k) == '*' {
      width := Int32(Word(a, c.arg));
      c := Cursor(c.k + 1, c.arg + 1);
      if width < 0 {
        width := -width;
        f := f.(left := true);
      }
    }
  }

  method ScanPrecision(fmt: string, c0: Cursor, a: Args) returns (precision: int, c: Cursor)
    requires c0.k <= |fmt|
    ensures (precision, c) == PrecisionAt(fmt, c0, a)
  {
    precision, c := -1, c0;
    if At(fmt, c.k) == '.' {
      c := c.(k := c.k + 1);
      if IsDigit(At(fmt, c.k)) {
        var k;
        precision, k := SkipAtoi(fmt, c.k);
        c := c.(k := k);
      } else if At(fmt, c.k) == '*' {
        precision := Int32(Word(a, c.arg));
        c := Cursor(c.k + 1, c.arg + 1);
      }
      if precision < 0 { precision := 0; }
    }
  }

  method ScanDirective(fmt: string, c0: Cursor, a: Args) returns (d: Directive, c: Cursor)
    requires c0.k <= |fmt|
    ensures (d, c) == DirectiveAt(fmt, c0, a) && c.k <= |fmt|
  {
    var f, k := ScanFlags(fmt, c0.k);
    c := c0.(k := k);
    var width, precision;
    width, f, c := ScanWidth(fmt, c, a, f);
    precision, c := ScanPrecision(fmt, c, a);
    var qualifier := '\0';
    if At(fmt, c.k) == 'h' || At(fmt, c.k) == 'l' {
      qualifier := At(fmt, c.k);
      c := c.(k := c.k + 1);
    }
    d := Directive(f, width, precision, qualifier);
  }

  // ----- conversions

  method PrintChar(t: Target, pos: nat, ch: char, width: int, f: Flags, ghost init: string, ghost text: string)
      returns (p: nat)
    requires Holds(t, init, text) && pos == |text| && Room(t, |text + CharField(ch, width, f)|)
    modifies t.buf
    ensures Holds(t, init, text + CharField(ch, width, f)) && p == |text + CharField(ch, width, f)|
  {
    var w := width - 1;
    ghost var blanks := Fill(' ', width - 1);
    if f.left {
      p := Emit(t, pos, ch, init, text);
      p, w := Pad(t, p, ' ', w, init, text + [ch]);
      Assoc(text, [ch], blanks);
    } else {
      p, w := Pad(t, pos, ' ', w, init, text);
      p := Emit(t, p, ch, init, text + blanks);
      Assoc(text, blanks, [ch]);
    }
  }

  /** `for (i = 0; i < len; ++i)` put a character of the string. */
  method PutString(t: Target, pos: nat, s: string, len: nat, ghost init: string, ghost text: string) returns (p: nat)
    requires len <= |s| && Holds(t, init, text) && pos == |text| && Room(t, |text + s[..len]|)
    modifies t.buf
    ensures Holds(t, init, text + s[..len]) && p == |text + s[..len]|
  {
    p := pos;
    ghost var done := text;
    assert s[..0] == "" && text + "" == text;
    for i := 0 to len
      invariant done == text + s[..i] && Holds(t, init, done) && p == |done|
    {
      p := Emit(t, p, s[i], init, done);
      done := done + [s[i]];
      assert s[..i + 1] == s[..i] + [s[i]];
      Assoc(text, s[..i], [s[i]]);
    }
  }

  /** The `%s` conversion. */
  method PrintString(t: Target, pos: nat, s: string, precision: int, width: int, f: Flags,
                     ghost init: string, ghost text: string) returns (p: nat)
    requires Holds(t, init, text) && pos == |text| && Room(t, |text + StringField(Cut(s, precision), width, f)|)
    modifies t.buf
    ensures Holds(t, init, text + StringField(Cut(s, precision), width, f))
    ensures p == |text + StringField(Cut(s, precision), width, f)|
  {
    var len := |s|;
    if precision > 0 && len > precision { len := precision; }
    assert s[..len] == Cut(s, precision);
    p := PadString(t, pos, s, len, width, f, init, text);
  }

  method PadString(t: Target, pos: nat, s: string, len: nat, width: int, f: Flags, ghost init: string, ghost text: string)
      returns (p: nat)
    requires len <= |s| && Holds(t, init, text) && pos == |text| && Room(t, |text + StringField(s[..len], width, f)|)
    modifies t.buf
    ensures Holds(t, init, text + StringField(s[..len], width, f)) && p == |text + StringField(s[..len], width, f)|
  {
    ghost var rest;
    ghost var blanks, cut := Fill(' ', width - len), s[..len];
    if f.left {
      p := PutString(t, pos, s, len, init, text);
      p, rest := Pad(t, p, ' ', width - len, init, text + cut);
      Assoc(text, cut, blanks);
    } else {
      p, rest := Pad(t, pos, ' ', width - len, init, text);
      p := PutString(t, p, s, len, init, text + blanks);
      Assoc(text, blanks, cut);
    }
  }

  method PrintPointer(t: Target, pos: nat, w: nat, d: Directive, ghost init: string, ghost text: string)
      returns (p: nat)
    requires w < UINT32 && Holds(t, init, text) && pos == |text| && Room(t, |text + PointerField(w, d)|)
    modifies t.buf
    ensures Holds(t, init, text + PointerField(w, d)) && p == |text + PointerField(w, d)|
  {
    var width, f := d.width, d.flags;
    if width == -1 {
      width := 8;
      f := f.(zeropad := true);
    }
    p := PrintNumber(t, pos, Int32(w), 16, width, d.precision, f, init, text);
  }

  method PrintNumeric(t: Target, pos: nat, w: nat, d: Directive, conv: char, ghost init: string, ghost text: string)
      returns (p: nat)
    requires w < UINT32 && IsNumeric(conv)
    requires Holds(t, init, text) && pos == |text| && Room(t, |text + NumericField(w, d, conv)|)
    modifies t.buf
    ensures Holds(t, init, text + NumericField(w, d, conv)) && p == |text + NumericField(w, d, conv)|
  {
    var f, base := d.flags, 10;
    match conv {
      case 'o' => base := 8;
      case 'X' => f, base := f.(large := true), 16;
      case 'x' => base := 16;
      case 'd' => f := f.(sign := true);
      case 'i' => f := f.(sign := true);
      case _ =>
    }
    p := PrintNumber(t, pos, Operand(w, d.qualifier, f.sign), base, d.width, d.precision, f, init, text);
  }

  /** The default case: an unknown conversion is printed as it stands. */
  method PrintUnknown(t: Target, pos: nat, conv: char, ghost init: string, ghost text: string) returns (p: nat)
    requires Holds(t, init, text) && pos == |text|
    requires Room(t, |text + if conv == '%' || conv == '\0' then "%" else ['%', conv]|)
    modifies t.buf
    ensures var field := if conv == '%' || conv == '\0' then "%" else ['%', conv];
            Holds(t, init, text + field) && p == |text + field|
  {
    p := Emit(t, pos, '%', init, text);
    if conv != '%' && conv != '\0' {
      p := Emit(t, p, conv, init, text + ['%']);
      assert text + ['%'] + [conv] == text + ['%', conv];
    }
  }

  /** One directive. */
  method PrintField(t: Target, pos: nat, d: Directive, conv: char, a: Args, w: nat, ghost init: string, ghost text: string)
      returns (p: nat)
    requires w < UINT32 && Holds(t, init, text) && pos == |text| && Room(t, |text + Field(d, conv, a, w)|)
    modifies t.buf
    ensures Holds(t, init, text + Field(d, conv, a, w)) && p == |text + Field(d, conv, a, w)|
  {
    if conv == 'c' {
      p := PrintChar(t, pos, (w % 256) as char, d.width, d.flags, init, text);
    } else if conv == 's' {
      p := PrintString(t, pos, Pointed(a, w), d.precision, d.width, d.flags, init, text);
    } else if conv == 'p' {
      p := PrintPointer(t, pos, w, d, init, text);
    } else if IsNumeric(conv) {
      p := PrintNumeric(t, pos, w, d, conv, init, text);
    } else {
      p := PrintUnknown(t, pos, conv, init, text);
    }
  }

  /** What one turn of the format loop prints, and where it leaves the cursor. */
  function TurnText(fmt: string, c: Cursor, a: Args): string
    requires c.k < |fmt|
  {
    if fmt[c.k] != '%' then [fmt[c.k]]
    else
      var (d, c') := DirectiveAt(fmt, c.(k := c.k + 1), a);
      Field(d, At(fmt, c'.k), a, Word(a, c'.arg))
  }

  function TurnCursor(fmt: string, c: Cursor, a: Args): (r: Cursor)
    requires c.k < |fmt|
    ensures c.k < r.k <= |fmt|
  {
    if fmt[c.k] != '%' then c.(k := c.k + 1)
    else Beyond(fmt, DirectiveAt(fmt, c.(k := c.k + 1), a).1)
  }

  /** What is still to be printed. */
  function Rest(fmt: string, c: Cursor, a: Args): string
    requires c.k <= |fmt|
  {
    Printed(fmt, c, a, FieldsOf(a))
  }

  lemma TurnPrints(fmt: string, c: Cursor, a: Args)
    requires c.k < |fmt| && fmt[c.k] != '\0'
    ensures Rest(fmt, c, a) == TurnText(fmt, c, a) + Rest(fmt, TurnCursor(fmt, c, a), a)
  {
    var (d, c') := DirectiveAt(fmt, c.(k := c.k + 1), a);
    assert Directed(fmt, c.(k := c.k + 1), a, FieldsOf(a)) == Converted(fmt, c', a, d, FieldsOf(a));
  }

  method Turn(t: Target, pos: nat, fmt: string, c0: Cursor, a: Args, ghost init: string, ghost text: string)
      returns (p: nat, c: Cursor)
    requires c0.k < |fmt| && Holds(t, init, text) && pos == |text| && Room(t, |text + TurnText(fmt, c0, a)|)
    modifies t.buf
    ensures Holds(t, init, text + TurnText(fmt, c0, a)) && p == |text + TurnText(fmt, c0, a)|
    ensures c == TurnCursor(fmt, c0, a)
  {
    if fmt[c0.k] != '%' {
      p := Emit(t, pos, fmt[c0.k], init, text);
      c := c0.(k := c0.k + 1);
      return;
    }
    var d;
    d, c := ScanDirective(fmt, c0.(k := c0.k + 1), a);
    p := PrintField(t, pos, d, At(fmt, c.k), a, Word(a, c.arg), init, text);
    c := Beyond(fmt, c);
  }

  /** The format loop: everything the format prints. */
  method PrintAll(t: Target, fmt: string, a: Args, ghost init: string) returns (p: nat)
    requires Holds(t, init, "") && Room(t, |Text(fmt, a)|)
    modifies t.buf
    ensures Holds(t, init, Text(fmt, a)) && p == |Text(fmt, a)|
  {
    var c := Cursor(0, 0);
    p := 0;
    ghost var text, rest := "", Text(fmt, a);
    assert text + rest == rest;
    while At(fmt, c.k) != '\0'
      invariant c.k <= |fmt| && rest == Rest(fmt, c, a) && text + rest == Text(fmt, a)
      invariant Holds(t, init, text) && p == |text|
      decreases |fmt| - c.k
    {
      ghost var x, next := TurnText(fmt, c, a), TurnCursor(fmt, c, a);
      TurnPrints(fmt, c, a);
      Assoc(text, x, Rest(fmt, next, a));
      LessRoom(t, text, x, Rest(fmt, next, a));
      p, c := Turn(t, p, fmt, c, a, init, text);
      text, rest := text + x, Rest(fmt, c, a);
    }
    assert text + rest == text;
  }

  /**
   * `rt_vsnprintf`: the result does not depend on the size, and what is stored is the
   * longest prefix of the whole text that leaves place for a terminator.
   */
  method VsnPrintf(t: Target, fmt: string, a: Args) returns (n: nat)
    requires Room(t, |Text(fmt, a)| + 1)
    modifies t.buf
    ensures n == |Text(fmt, a)|
    ensures t.size == 0 ==> t.buf[..] == old(t.buf[..])
    ensures t.size > 0 ==> Terminated(t, old(t.buf[..]), Text(fmt, a), Min(n, t.size - 1))
  {
    ghost var init := t.buf[..];
    n := PrintAll(t, fmt, a, init);
    Terminate(t, n, init, Text(fmt, a));
  }

  method Terminate(t: Target, n: nat, ghost init: string, ghost text: string)
    requires Holds(t, init, text) && n == |text| && Room(t, n + 1)
    modifies t.buf
    ensures t.size == 0 ==> t.buf[..] == init
    ensures t.size > 0 ==> Terminated(t, init, text, Min(n, t.size - 1))
  {
    if t.size > 0 {
      if n < t.size { t.buf[t.off + n] := '\0'; } else { t.buf[t.off + t.size - 1] := '\0'; }
    }
  }

  /** `m` characters of the text and a terminator are stored; nothing else of `init` has changed. */
  ghost predicate Terminated(t: Target, init: string, text: string, m: int)
    reads t.buf
  {
    && 0 <= m <= |text| && |init| == t.buf.Length && t.off + m < t.buf.Length
    && t.buf[t.off..t.off + m] == text[..m] && t.buf[t.off + m] == '\0'
    && (forall i :: 0 <= i < t.off || t.off + m < i < |init| ==> t.buf[i] == init[i])
  }
}
