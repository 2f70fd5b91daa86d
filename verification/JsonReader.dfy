/**
 * The parser as the C code runs it: cursors, loops and an output buffer, each
 * method proved to compute the function of the same name in the parser modules.
 */
module JsonReader {
  import opened CText
  import opened Json
  import opened JsonString
  import opened JsonParser
  import JsonNumber
  import Utf8
  import Words

  lemma Suffix(s: string, i: nat, k: nat)
    requires i + k <= |s|
    ensures s[i..][k..] == s[i + k..] && At(s[i..], k) == At(s, i + k)
  {
  }

  /** `skip` */
  method SkipBlanks(s: string, i: nat) returns (j: nat)
    requires i <= |s|
    ensures i <= j <= |s| && s[j..] == Skip(s[i..])
  {
    j := i;
    while At(s, j) != '\0' && At(s, j) as int <= 32
      invariant i <= j <= |s|
      invariant Skip(s[j..]) == Skip(s[i..])
      decreases |s| - j
    {
      Suffix(s, j, 1);
      j := j + 1;
    }
  }

  lemma OneMore(pre: string, s: string, i: nat, j: nat)
    requires i <= j < |s|
    ensures NatOf(pre + s[i..j + 1]) == NatOf(pre + s[i..j]) * 10 + Digit(s[j])
  {
    var done, t := pre + s[i..j], pre + s[i..j + 1];
    assert s[i..j + 1] == s[i..j] + [s[j]];
    assert t == done + [s[j]];
    assert t[..|t| - 1] == done && t[|t| - 1] == s[j];
  }

  /** `while (isdigit) n = n*10 + (*num++ - '0')`, after digits `pre` worth `n0`. */
  method ReadDigits(s: string, i: nat, n0: int, ghost pre: string) returns (j: nat, n: int)
    requires i <= |s| && n0 == NatOf(pre)
    ensures j == i + Span(s[i..]) <= |s| && n == NatOf(pre + s[i..j])
  {
    j, n := i, n0;
    assert pre + s[i..i] == pre;
    while IsDigit(At(s, j))
      invariant i <= j <= |s|
      invariant j + Span(s[j..]) == i + Span(s[i..])
      invariant n == NatOf(pre + s[i..j])
      decreases |s| - j
    {
      Suffix(s, j, 1);
      var d := s[j];
      OneMore(pre, s, i, j);
      n := n * 10 + Digit(d);
      j := j + 1;
    }
  }

  /** The mark and sign of an exponent. */
  method ReadMark(s: string, i: nat) returns (j: nat, sign: int)
    requires i <= |s|
    ensures j == i + JsonNumber.MarkSpan(s[i..])
    ensures sign == if j > i && At(s[i..], 1) == '-' then -1 else 1
  {
    j, sign := i, 1;
    if At(s, j) == 'e' || At(s, j) == 'E' {
      Suffix(s, i, 1);
      j := j + 1;
      if At(s, j) == '+' { j := j + 1; } else if At(s, j) == '-' { sign, j := -1, j + 1; }
    }
  }

  /** The digits from `m` on are a prefix of the text there. */
  lemma DigitsThere(s: string, m: nat, j: nat)
    requires m <= |s| && j == m + Span(s[m..]) <= |s|
    ensures s[m..j] == s[m..][..Span(s[m..])] && s[m..][Span(s[m..])..] == s[j..]
  {
  }

  lemma ExponentThere(s: string, i: nat, m: nat, j: nat)
    requires i < |s| && i < m == i + JsonNumber.MarkSpan(s[i..]) && j == m + Span(s[m..]) <= |s|
    ensures var n := NatOf(s[m..j]);
            JsonNumber.ParseExponent(s[i..]) == (if At(s[i..], 1) == '-' then -n else n, s[j..])
  {
    Suffix(s, i, m - i);
    Suffix(s, i, j - i);
    DigitsThere(s, m, j);
  }

  /** The exponent part of `parse_number`. */
  method ReadExponent(s: string, i: nat) returns (j: nat, e: int)
    requires i <= |s|
    ensures i <= j <= |s| && (e, s[j..]) == JsonNumber.ParseExponent(s[i..])
  {
    var sign;
    j, sign := ReadMark(s, i);
    e := 0;
    if j > i {
      var m := j;
      j, e := ReadDigits(s, m, 0, "");
      assert "" + s[m..j] == s[m..j];
      ExponentThere(s, i, m, j);
      e := if sign < 0 then -e else e;
    }
  }

  lemma FractionThere(s: string, i: nat, j: nat)
    requires i < |s| && s[i] == '.' && IsDigit(At(s, i + 1)) && j == i + 1 + Span(s[i + 1..]) <= |s|
    ensures i + 1 < j && s[j..] == JsonNumber.FractionRest(s[i..]) && s[i + 1..j] == JsonNumber.FractionDigits(s[i..])
  {
    var v := s[i..];
    Suffix(s, i, 1);
    assert JsonNumber.FractionSpan(v) == j - (i + 1) > 0;
    assert v[1..j - i] == s[i + 1..j] && v[j - i..] == s[j..];
  }

  lemma NoFractionThere(s: string, i: nat)
    requires i <= |s| && !(At(s, i) == '.' && IsDigit(At(s, i + 1)))
    ensures s[i..] == JsonNumber.FractionRest(s[i..]) && "" == JsonNumber.FractionDigits(s[i..])
  {
    assert At(s[i..], 0) == At(s, i) && At(s[i..], 1) == At(s, i + 1);
  }

  /** The fraction of `parse_number`, after integer digits `whole` worth `n0`. */
  method ReadFraction(s: string, i: nat, n0: int, ghost whole: string) returns (j: nat, n: int, scale: nat)
    requires i <= |s| && n0 == NatOf(whole)
    ensures i <= j <= |s| && s[j..] == JsonNumber.FractionRest(s[i..])
    ensures n == NatOf(whole + JsonNumber.FractionDigits(s[i..]))
    ensures scale == |JsonNumber.FractionDigits(s[i..])|
  {
    j, n, scale := i, n0, 0;
    if At(s, i) == '.' && IsDigit(At(s, i + 1)) {
      j, n := ReadDigits(s, i + 1, n, whole);
      scale := j - (i + 1);
      FractionThere(s, i, j);
    } else {
      NoFractionThere(s, i);
      assert whole + "" == whole;
    }
  }

  /** The fraction, the exponent and the final product. */
  method ReadTail(s: string, i: nat, neg: bool, n0: int, ghost whole: string) returns (j: nat, x: real)
    requires i <= |s| && n0 == NatOf(whole)
    ensures i <= j <= |s| && (x, s[j..]) == JsonNumber.ParseTail(neg, whole, s[i..])
  {
    var n, scale, e;
    j, n, scale := ReadFraction(s, i, n0, whole);
    j, e := ReadExponent(s, j);
    x := JsonNumber.Scaled(neg, n, e - scale);
  }

  /** The integer digits, a leading '0' having been skipped. */
  method ReadNonZero(s: string, m: nat) returns (j: nat, n: int)
    requires m <= |s|
    ensures j == m + JsonNumber.WholeSpan(s[m..]) <= |s| && n == NatOf(s[m..j])
  {
    j, n := m, 0;
    Suffix(s, m, 0);
    ghost var u := s[m..];
    if '1' <= At(s, j) <= '9' {
      assert JsonNumber.WholeSpan(u) == Span(u);
      j, n := ReadDigits(s, j, 0, "");
      assert "" + s[m..j] == s[m..j];
    } else {
      assert JsonNumber.WholeSpan(u) == 0 && s[m..m] == "";
    }
  }

  lemma WholeThere(s: string, i: nat, m: nat, j: nat)
    requires i <= |s| && m == (if At(s, i) == '0' then i + 1 else i) && j == m + JsonNumber.WholeSpan(s[m..]) <= |s|
    ensures s[j..] == JsonNumber.WholeRest(s[i..]) && s[m..j] == JsonNumber.WholeDigits(s[i..])
  {
    Suffix(s, i, m - i);
    assert s[m..] == JsonNumber.SkipZero(s[i..]);
    Suffix(s, m, j - m);
  }

  /** The optional '0' and the integer digits. */
  method ReadWhole(s: string, i: nat) returns (j: nat, n: int)
    requires i <= |s|
    ensures i <= j <= |s| && s[j..] == JsonNumber.WholeRest(s[i..])
    ensures n == NatOf(JsonNumber.WholeDigits(s[i..]))
  {
    var m := if At(s, i) == '0' then i + 1 else i;
    j, n := ReadNonZero(s, m);
    WholeThere(s, i, m, j);
  }

  /** `parse_number` after the sign. */
  method ReadUnsigned(s: string, i: nat, neg: bool) returns (j: nat, x: real)
    requires i <= |s|
    ensures i <= j <= |s| && (x, s[j..]) == JsonNumber.ParseUnsigned(neg, s[i..])
  {
    var n;
    j, n := ReadWhole(s, i);
    j, x := ReadTail(s, j, neg, n, JsonNumber.WholeDigits(s[i..]));
  }

  /** `parse_number` */
  method ReadNumber(s: string, i: nat) returns (j: nat, x: real)
    requires i <= |s|
    ensures i <= j <= |s| && (x, s[j..]) == JsonNumber.ParseNumber(s[i..])
  {
    if At(s, i) == '-' {
      Suffix(s, i, 1);
      j, x := ReadUnsigned(s, i + 1, true);
    } else {
      j, x := ReadUnsigned(s, i, false);
    }
  }

  // ----- strings

  /** One turn of the first pass. */
  method CountTurn(s: string, i: nat) returns (j: nat)
    requires i < |s| && s[i] != '\"' && CountStays(s[i..])
    ensures i < j <= |s| && CountStays(s[j..]) && CountBody(s[i..]) == 1 + CountBody(s[j..])
  {
    Suffix(s, i, 1);
    j := i;
    if s[j] == '\\' { Suffix(s, i, 2); j := j + 1; }
    j := j + 1;
  }

  /** First pass of `parse_string`: the number of bytes to allocate. */
  method CountString(s: string, i: nat) returns (len: nat)
    requires i <= |s| && NulFree(s) && CountStays(s[i..])
    ensures len == CountBody(s[i..])
  {
    len := 0;
    var ptr := i;
    while At(s, ptr) != '\"' && At(s, ptr) != '\0'
      invariant i <= ptr <= |s|
      invariant len + CountBody(s[ptr..]) == CountBody(s[i..])
      invariant CountStays(s[ptr..])
      decreases |s| - ptr
    {
      len := len + 1;
      ptr := CountTurn(s, ptr);
    }
  }

  /** One digit of `parse_hex4`; -1 for anything else. */
  method ReadHexDigit(c: char) returns (d: int)
    ensures d == if IsHex(c) then HexValue(c) else -1
  {
    if '0' <= c <= '9' { d := c as int - '0' as int; }
    else if 'A' <= c <= 'F' { d := 10 + (c as int - 'A' as int); }
    else if 'a' <= c <= 'f' { d := 10 + (c as int - 'a' as int); }
    else { d := -1; }
  }

  /** `parse_hex4`: gives up at the first byte that is no digit, at the latest at the terminator. */
  method ReadHex4(s: string, i: nat) returns (h: nat)
    requires i <= |s| && NulFree(s)
    ensures h == ParseHex4(s, i)
  {
    assert HexAt(s, i) ==> s[i..i + 4] == [s[i], s[i + 1], s[i + 2], s[i + 3]];
    var d := ReadHexDigit(At(s, i));
    if d < 0 { return 0; }
    h := d;
    d := ReadHexDigit(At(s, i + 1));
    if d < 0 { return 0; }
    h := h * 16 + d;
    d := ReadHexDigit(At(s, i + 2));
    if d < 0 { return 0; }
    h := h * 16 + d;
    d := ReadHexDigit(At(s, i + 3));
    if d < 0 { return 0; }
    h := h * 16 + d;
    assert s[i..i + 4] == [s[i], s[i + 1], s[i + 2], s[i + 3]];
  }

  /** A suffix starts with the digits that stand there in the whole text. */
  lemma ParseHex4Suffix(s: string, i: nat, k: nat)
    requires i <= |s|
    ensures ParseHex4(s[i..], k) == ParseHex4(s, i + k)
  {
    if i + k + 4 <= |s| { assert s[i..][k..k + 4] == s[i + k..i + k + 4]; }
  }

  /** The second half of a surrogate pair, `ptr` pointing at the last digit of the first. */
  method ReadLow(s: string, ptr: nat, hi: nat) returns (ptr': nat, uc: nat, store: bool)
    requires ptr + 7 <= |s| && NulFree(s) && Utf8.HighSurrogate(hi)
    ensures uc <= 0x10FFFF && ptr' == ptr + 6
    ensures PairBytes(hi, ParseHex4(s, ptr + 3)) == if store then Utf8.Encode(uc) else ""
  {
    var uc2 := ReadHex4(s, ptr + 3);
    ptr', uc, store := ptr + 6, hi, false;
    if uc2 < 0xDC00 || uc2 > 0xDFFF { return; }
    uc := Words.CombinePair(hi, uc2);
    store := true;
  }

  lemma UnicodeThere(s: string, i: nat)
    requires i <= |s|
    ensures ParseHex4(s[i..], 2) == ParseHex4(s, i + 2) && ParseHex4(s[i..], 8) == ParseHex4(s, i + 8)
    ensures At(s[i..], 6) == At(s, i + 6) && At(s[i..], 7) == At(s, i + 7)
  {
    ParseHex4Suffix(s, i, 2);
    ParseHex4Suffix(s, i, 8);
  }

  /** The `\\u` case of the switch up to the store, `ptr` pointing at the 'u'. */
  method ReadUnicode(s: string, ptr: nat) returns (ptr': nat, uc: nat, store: bool)
    requires 1 <= ptr < |s| && s[ptr] == 'u' && NulFree(s)
    requires UnicodeEscape(s[ptr - 1..]).Stores?
    ensures uc <= 0x10FFFF && ptr' >= ptr
    ensures UnicodeEscape(s[ptr - 1..]) == Stores(if store then Utf8.Encode(uc) else "", ptr' + 2 - ptr)
  {
    UnicodeThere(s, ptr - 1);
    uc := ReadHex4(s, ptr + 1);
    ptr', store := ptr + 4, false;
    if Utf8.LowSurrogate(uc) || uc == 0 { return; }
    if Utf8.HighSurrogate(uc) {
      if At(s, ptr' + 1) == '\\' && At(s, ptr' + 2) == 'u' { ptr', uc, store := ReadLow(s, ptr', uc); }
    } else {
      store := true;
    }
  }

  /** One escape of the second pass, `ptr` pointing at the backslash. */
  method ReadEscape(s: string, ptr: nat, out: array<char>, w: nat) returns (ptr': nat, w': nat)
    requires ptr < |s| && s[ptr] == '\\' && NulFree(s) && EscapeAt(s[ptr..]).Stores?
    requires w + |EscapeAt(s[ptr..]).bytes| <= out.Length
    modifies out
    ensures ptr' == ptr + EscapeAt(s[ptr..]).span
    ensures w' <= out.Length && out[..w'] == old(out[..w]) + EscapeAt(s[ptr..]).bytes
  {
    ptr', w' := ptr + 1, w;
    if s[ptr'] == 'u' {
      var uc, store;
      ptr', uc, store := ReadUnicode(s, ptr');
      if store { w' := Utf8.StoreUtf8(out, w, uc); }
    } else {
      var c := s[ptr'];
      out[w] := match c
        case 'b' => '\U{08}'
        case 'f' => '\U{0C}'
        case 'n' => '\n'
        case 'r' => '\r'
        case 't' => '\t'
        case _ => c;
      w' := w + 1;
    }
    ptr' := ptr' + 1;
  }

  /** A plain byte; the buffer holds at least what will have been stored in the end. */
  method PlainTurn(s: string, ptr: nat, out: array<char>, w: nat) returns (ptr': nat, w': nat)
    requires ptr < |s| && s[ptr] != '\"' && s[ptr] != '\\' && w <= out.Length
    requires DecodeBody(s[ptr..], out[..w]).Parsed? && |DecodeBody(s[ptr..], out[..w]).value| <= out.Length
    modifies out
    ensures ptr' == ptr + 1 && w' <= out.Length
    ensures DecodeBody(s[ptr'..], out[..w']) == DecodeBody(s[ptr..], old(out[..w]))
  {
    Suffix(s, ptr, 1);
    DecodeGrows(s[ptr + 1..], out[..w] + [s[ptr]]);
    out[w] := s[ptr];
    ptr', w' := ptr + 1, w + 1;
    assert out[..w'] == old(out[..w]) + [s[ptr]];
  }

  /** An escape. */
  method EscapeTurn(s: string, ptr: nat, out: array<char>, w: nat) returns (ptr': nat, w': nat)
    requires ptr < |s| && s[ptr] == '\\' && NulFree(s) && w <= out.Length
    requires DecodeBody(s[ptr..], out[..w]).Parsed? && |DecodeBody(s[ptr..], out[..w]).value| <= out.Length
    modifies out
    ensures ptr < ptr' <= |s| && w' <= out.Length
    ensures DecodeBody(s[ptr'..], out[..w']) == DecodeBody(s[ptr..], old(out[..w]))
  {
    ghost var e := EscapeAt(s[ptr..]);
    Suffix(s, ptr, e.span);
    DecodeGrows(s[ptr + e.span..], out[..w] + e.bytes);
    ptr', w' := ReadEscape(s, ptr, out, w);
  }

  /** `parse_string`: both passes, storing into a buffer sized by the first. */
  method ReadString(s: string, i: nat) returns (ok: bool, v: string, j: nat)
    requires i <= |s| && NulFree(s) && ParseString(s[i..]) != Undefined
    ensures ok == ParseString(s[i..]).Parsed?
    ensures ok ==> i < j <= |s| && ParseString(s[i..]) == Parsed(v, s[j..])
  {
    ok, v, j := false, "", i;
    if At(s, i) != '\"' { return; }
    Suffix(s, i, 1);
    DecodeNeverRejects(s[i + 1..], "");
    var len := CountString(s, i + 1);
    var out := new char[len + 1];
    var ptr, w := i + 1, 0;
    ghost var result := ParseString(s[i..]);
    assert out[..0] == "";
    while At(s, ptr) != '\"' && At(s, ptr) != '\0'
      invariant i < ptr <= |s| && 0 <= w <= out.Length
      invariant DecodeBody(s[ptr..], out[..w]) == result
      decreases |s| - ptr
    {
      if s[ptr] != '\\' { ptr, w := PlainTurn(s, ptr, out, w); } else { ptr, w := EscapeTurn(s, ptr, out, w); }
    }
    assert |result.value| <= len;
    ok, v := true, out[..w];
    out[w] := '\0';
    if At(s, ptr) == '\"' { Suffix(s, ptr, 1); ptr := ptr + 1; }
    j := ptr;
  }

  // ----- values

  /** What the element loop still has to do when it stands at `z` with `acc` read. */
  function AfterElem(z: string, acc: seq<Value>): Outcome<Value> {
    if At(z, 0) == ',' then ParseElems(z[1..], acc)
    else if At(z, 0) == ']' then Parsed(Array(acc), z[1..])
    else Rejected
  }

  function AfterField(z: string, acc: seq<Member>): Outcome<Value> {
    if At(z, 0) == ',' then ParseFields(z[1..], acc)
    else if At(z, 0) == '}' then Parsed(Object(acc), z[1..])
    else Rejected
  }

  predicate Matches(s: string, i: nat, lit: string) {
    i + |lit| <= |s| && s[i..i + |lit|] == lit
  }

  lemma MatchesPrefix(s: string, i: nat, lit: string)
    requires i <= |s|
    ensures Matches(s, i, lit) <==> lit <= s[i..]
  {
    if lit <= s[i..] {
      assert s[i..i + |lit|] == s[i..][..|lit|];
    }
    if Matches(s, i, lit) {
      assert s[i..][..|lit|] == s[i..i + |lit|];
    }
  }

  /** What every reader promises about the outcome `r` of its specification at the cursor. */
  ghost predicate Agrees<T>(s: string, i: nat, r: Outcome<T>, ok: bool, v: T, j: nat)
    requires i <= |s|
  {
    && ok == r.Parsed?
    && (ok ==> i < j <= |s| && r == Parsed(v, s[j..]))
  }

  /** `parse_value` */
  method ReadValue(s: string, i: nat) returns (ok: bool, v: Value, j: nat)
    requires i <= |s| && NulFree(s) && ParseValue(s[i..]) != Undefined
    ensures Agrees(s, i, ParseValue(s[i..]), ok, v, j)
    decreases |s| - i, 1
  {
    ok, v, j := true, Null, i;
    MatchesPrefix(s, i, "null");
    MatchesPrefix(s, i, "false");
    MatchesPrefix(s, i, "true");
    if Matches(s, i, "null") { Suffix(s, i, 4); return true, Null, i + 4; }
    if Matches(s, i, "false") { Suffix(s, i, 5); return true, Bool(false), i + 5; }
    if Matches(s, i, "true") { Suffix(s, i, 4); return true, Bool(true), i + 4; }
    if At(s, i) == '\"' {
      var t;
      ok, t, j := ReadString(s, i);
      v := Text(t);
    } else if At(s, i) == '-' || IsDigit(At(s, i)) {
      var n;
      j, n := ReadNumber(s, i);
      v := Number(n);
    } else if At(s, i) == '[' {
      ok, v, j := ReadArray(s, i);
    } else if At(s, i) == '{' {
      ok, v, j := ReadObject(s, i);
    } else {
      ok := false;
    }
  }

  /** One element and the blanks around it. */
  method ReadElem(s: string, i: nat, acc: seq<Value>) returns (ok: bool, acc': seq<Value>, j: nat)
    requires i <= |s| && NulFree(s) && ParseElems(s[i..], acc) != Undefined
    ensures !ok ==> ParseElems(s[i..], acc) == Rejected
    ensures ok ==> i < j <= |s| && AfterElem(s[j..], acc') == ParseElems(s[i..], acc)
    decreases |s| - i, 2
  {
    var x;
    acc' := acc;
    j := SkipBlanks(s, i);
    ok, x, j := ReadValue(s, j);
    if !ok { return; }
    acc' := acc + [x];
    j := SkipBlanks(s, j);
  }

  /** One turn of the loop, at a comma. */
  method NextElem(s: string, i: nat, acc: seq<Value>) returns (ok: bool, acc': seq<Value>, j: nat)
    requires i <= |s| && NulFree(s) && At(s, i) == ',' && AfterElem(s[i..], acc) != Undefined
    ensures !ok ==> AfterElem(s[i..], acc) == Rejected
    ensures ok ==> i < j <= |s| && AfterElem(s[j..], acc') == AfterElem(s[i..], acc)
    decreases |s| - i, 0
  {
    Suffix(s, i, 1);
    ok, acc', j := ReadElem(s, i + 1, acc);
  }

  /** The loop of `parse_array`. */
  method ReadElems(s: string, u: nat) returns (ok: bool, v: Value, j: nat)
    requires u <= |s| && NulFree(s) && ParseElems(s[u..], []) != Undefined
    ensures Agrees(s, u, ParseElems(s[u..], []), ok, v, j)
    decreases |s| - u, 3
  {
    v := Null;
    ghost var r := ParseElems(s[u..], []);
    var acc;
    ok, acc, j := ReadElem(s, u, []);
    if !ok { return; }
    while At(s, j) == ','
      invariant u < j <= |s|
      invariant AfterElem(s[j..], acc) == r
      decreases |s| - j
    {
      ok, acc, j := NextElem(s, j, acc);
      if !ok { return; }
    }
    ok := At(s, j) == ']';
    if ok { Suffix(s, j, 1); v, j := Array(acc), j + 1; }
  }

  /** `parse_array` */
  method ReadArray(s: string, i: nat) returns (ok: bool, v: Value, j: nat)
    requires i < |s| && s[i] == '[' && NulFree(s) && ParseArray(s[i..]) != Undefined
    ensures Agrees(s, i, ParseArray(s[i..]), ok, v, j)
    decreases |s| - i, 0
  {
    Suffix(s, i, 1);
    ghost var r := ParseArray(s[i..]);
    j := SkipBlanks(s, i + 1);
    assert r == if At(s[j..], 0) == ']' then Parsed(Array([]), s[j..][1..]) else ParseElems(s[j..], []);
    if At(s, j) == ']' { Suffix(s, j, 1); return true, Array([]), j + 1; }
    ok, v, j := ReadElems(s, j);
  }

  /** The value of a member and the blanks after it, `i` pointing at the colon. */
  method ReadFieldValue(s: string, i: nat) returns (ok: bool, x: Value, j: nat)
    requires i < |s| && NulFree(s) && ParseFieldValue(s[i..]) != Undefined
    ensures Agrees(s, i, ParseFieldValue(s[i..]), ok, x, j)
    decreases |s| - i, 0
  {
    Suffix(s, i, 1);
    j := SkipBlanks(s, i + 1);
    ok, x, j := ReadValue(s, j);
    if ok { j := SkipBlanks(s, j); }
  }

  /** Name, colon and value of one member, and the blanks after it. */
  method ReadField(s: string, i: nat) returns (ok: bool, m: Member, j: nat)
    requires i <= |s| && NulFree(s) && ParseField(s[i..]) != Undefined
    ensures Agrees(s, i, ParseField(s[i..]), ok, m, j)
    decreases |s| - i, 2
  {
    m := Member("", Null);
    j := SkipBlanks(s, i);
    var name, x;
    ok, name, j := ReadString(s, j);
    if !ok { return; }
    j := SkipBlanks(s, j);
    if At(s, j) != ':' { ok := false; return; }
    ok, x, j := ReadFieldValue(s, j);
    m := Member(name, x);
  }

  method ReadMember(s: string, i: nat, acc: seq<Member>) returns (ok: bool, acc': seq<Member>, j: nat)
    requires i <= |s| && NulFree(s) && ParseFields(s[i..], acc) != Undefined
    ensures !ok ==> ParseFields(s[i..], acc) == Rejected
    ensures ok ==> i < j <= |s| && AfterField(s[j..], acc') == ParseFields(s[i..], acc)
    decreases |s| - i, 3
  {
    var m;
    ok, m, j := ReadField(s, i);
    acc' := acc + [m];
  }

  /** One turn of the loop, at a comma. */
  method NextMember(s: string, i: nat, acc: seq<Member>) returns (ok: bool, acc': seq<Member>, j: nat)
    requires i <= |s| && NulFree(s) && At(s, i) == ',' && AfterField(s[i..], acc) != Undefined
    ensures !ok ==> AfterField(s[i..], acc) == Rejected
    ensures ok ==> i < j <= |s| && AfterField(s[j..], acc') == AfterField(s[i..], acc)
    decreases |s| - i, 0
  {
    Suffix(s, i, 1);
    ok, acc', j := ReadMember(s, i + 1, acc);
  }

  /** The loop of `parse_object`. */
  method ReadMembers(s: string, u: nat) returns (ok: bool, v: Value, j: nat)
    requires u <= |s| && NulFree(s) && ParseFields(s[u..], []) != Undefined
    ensures Agrees(s, u, ParseFields(s[u..], []), ok, v, j)
    decreases |s| - u, 4
  {
    v := Null;
    ghost var r := ParseFields(s[u..], []);
    var acc;
    ok, acc, j := ReadMember(s, u, []);
    if !ok { return; }
    while At(s, j) == ','
      invariant u < j <= |s|
      invariant AfterField(s[j..], acc) == r
      decreases |s| - j
    {
      ok, acc, j := NextMember(s, j, acc);
      if !ok { return; }
    }
    ok := At(s, j) == '}';
    if ok { Suffix(s, j, 1); v, j := Object(acc), j + 1; }
  }

  /** `parse_object` */
  method ReadObject(s: string, i: nat) returns (ok: bool, v: Value, j: nat)
    requires i < |s| && s[i] == '{' && NulFree(s) && ParseObject(s[i..]) != Undefined
    ensures Agrees(s, i, ParseObject(s[i..]), ok, v, j)
    decreases |s| - i, 0
  {
    Suffix(s, i, 1);
    j := SkipBlanks(s, i + 1);
    if At(s, j) == '}' { Suffix(s, j, 1); return true, Object([]), j + 1; }
    ok, v, j := ReadMembers(s, j);
  }

  /** `cJSON_ParseWithOpts` */
  method ReadDocument(s: string, requireEnd: bool) returns (ok: bool, v: Value, j: nat)
    requires NulFree(s) && ParseDocument(s, requireEnd) != Undefined
    ensures ok == ParseDocument(s, requireEnd).Parsed?
    ensures ok ==> j <= |s| && ParseDocument(s, requireEnd) == Parsed(v, s[j..])
  {
    assert s[0..] == s;
    j := SkipBlanks(s, 0);
    ok, v, j := ReadValue(s, j);
    if ok && requireEnd {
      j := SkipBlanks(s, j);
      if At(s, j) != '\0' { ok := false; }
    }
  }
}
