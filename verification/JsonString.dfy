/** Strings: the grammar of section 7 of RFC 8259, `parse_string` and `print_string_ptr`. */
module JsonString {
  import opened CText
  import opened Json
  import Utf8

  // ----- grammar

  /** One unit between the quotes: a plain byte, `\c`, or `\uXXXX`. */
  datatype Item = Raw(c: char) | Short(c: char) | Unicode(hex: string)

  predicate IsHex(c: char) {
    IsDigit(c) || 'a' <= c <= 'f' || 'A' <= c <= 'F'
  }

  function HexValue(c: char): (v: nat)
    ensures IsHex(c) ==> v < 16
  {
    if IsDigit(c) then c as int - '0' as int
    else if 'A' <= c <= 'F' then 10 + (c as int - 'A' as int)
    else if 'a' <= c <= 'f' then 10 + (c as int - 'a' as int)
    else 0
  }

  predicate IsHex4(h: string) {
    |h| == 4 && IsHex(h[0]) && IsHex(h[1]) && IsHex(h[2]) && IsHex(h[3])
  }

  /** `parse_hex4` on four hexadecimal digits. */
  function Hex4(h: string): (u: nat)
    requires IsHex4(h)
    ensures u < 0x10000
  {
    ((HexValue(h[0]) * 16 + HexValue(h[1])) * 16 + HexValue(h[2])) * 16 + HexValue(h[3])
  }

  predicate ValidItem(x: Item) {
    match x
    case Raw(c) => c as int >= 0x20 && c != '\"' && c != '\\'
    case Short(c) => c in "\"\\/bfnrt"
    case Unicode(h) => IsHex4(h)
  }

  predicate ValidItems(xs: seq<Item>) {
    forall i :: 0 <= i < |xs| ==> ValidItem(xs[i])
  }

  function ItemText(x: Item): string {
    match x
    case Raw(c) => [c]
    case Short(c) => ['\\', c]
    case Unicode(h) => "\\u" + h
  }

  function ItemsText(xs: seq<Item>): string {
    if xs == [] then "" else ItemText(xs[0]) + ItemsText(xs[1..])
  }

  /** A string literal of the grammar. */
  function Quoted(xs: seq<Item>): string {
    "\"" + ItemsText(xs) + "\""
  }

  function ShortMeaning(c: char): char {
    match c
    case 'b' => '\U{08}'
    case 'f' => '\U{0C}'
    case 'n' => '\n'
    case 'r' => '\r'
    case 't' => '\t'
    case _ => c
  }

  /** The bytes a UTF-16 unit contributes by itself; U+0000 and surrogates contribute none. */
  function UnitMeaning(u: nat): string
    requires u < 0x10000
  {
    if u == 0 || Utf8.HighSurrogate(u) || Utf8.LowSurrogate(u) then "" else Utf8.Encode(u)
  }

  predicate IsHigh(x: Item) { x.Unicode? && IsHex4(x.hex) && Utf8.HighSurrogate(Hex4(x.hex)) }
  predicate IsLow(x: Item) { x.Unicode? && IsHex4(x.hex) && Utf8.LowSurrogate(Hex4(x.hex)) }

  /** The bytes an item contributes by itself. */
  function ItemMeaning(x: Item): string
    requires ValidItem(x)
  {
    match x
    case Raw(c) => [c]
    case Short(c) => [ShortMeaning(c)]
    case Unicode(h) => UnitMeaning(Hex4(h))
  }

  /** The byte string a literal denotes: the UTF-8 of its scalar values; an unpaired surrogate is none. */
  function Meaning(xs: seq<Item>): string
    requires ValidItems(xs)
  {
    if xs == [] then ""
    else if |xs| >= 2 && IsHigh(xs[0]) && IsLow(xs[1]) then
      Utf8.Encode(Utf8.Pair(Hex4(xs[0].hex), Hex4(xs[1].hex))) + Meaning(xs[2..])
    else ItemMeaning(xs[0]) + Meaning(xs[1..])
  }

  // ----- what the C code computes

  /** What an escape stores and how many bytes of text it spans. */
  datatype Escape = Stores(bytes: string, span: nat) | Bad

  predicate HexAt(t: string, i: nat) {
    i + 4 <= |t| && IsHex4(t[i..i + 4])
  }

  /** `parse_hex4`: 0 if one of the four is no hexadecimal digit. */
  function ParseHex4(t: string, i: nat): (u: nat)
    ensures u < 0x10000
  {
    if HexAt(t, i) then Hex4(t[i..i + 4]) else 0
  }

  /** A high surrogate and the `\u` unit after it: a pair, or both are skipped. */
  function PairBytes(hi: nat, lo: nat): string
    requires Utf8.HighSurrogate(hi)
  {
    if Utf8.LowSurrogate(lo) then Utf8.Encode(Utf8.Pair(hi, lo)) else ""
  }

  /** A `\u` escape at the start of `t`, well-formed or not; `Bad` if the cursor jumps past the terminator. */
  function UnicodeEscape(t: string): (e: Escape)
    ensures e.Stores? ==> 6 <= e.span <= |t|
  {
    var uc := ParseHex4(t, 2);
    if |t| < 6 then Bad
    else if Utf8.HighSurrogate(uc) && At(t, 6) == '\\' && At(t, 7) == 'u' then
      if |t| < 12 then Bad else Stores(PairBytes(uc, ParseHex4(t, 8)), 12)
    else Stores(UnitMeaning(uc), 6)
  }

  /** The escape at the start of `t`; `Bad` is a backslash or `\u` cut short by the end of the text. */
  function EscapeAt(t: string): (e: Escape)
    ensures e.Stores? ==> 2 <= e.span <= |t|
  {
    if |t| < 2 then Bad
    else if t[1] == 'u' then UnicodeEscape(t)
    else Stores([ShortMeaning(t[1])], 2)
  }

  /** The second pass of `parse_string` from the byte after the opening quote. */
  function DecodeBody(t: string, acc: string): (r: Outcome<string>)
    ensures r.Parsed? ==> |r.rest| <= |t|
    decreases |t|
  {
    if t == "" then Parsed(acc, "")
    else if t[0] == '\"' then Parsed(acc, t[1..])
    else if t[0] != '\\' then DecodeBody(t[1..], acc + [t[0]])
    else match EscapeAt(t)
      case Bad => Undefined
      case Stores(bytes, span) => DecodeBody(t[span..], acc + bytes)
  }

  /** The first pass: the buffer length it asks for. */
  function CountBody(t: string): nat
    decreases |t|
  {
    if t == "" || t[0] == '\"' then 0
    else if t[0] == '\\' && |t| >= 2 then 1 + CountBody(t[2..])
    else 1 + CountBody(t[1..])
  }

  /** The first pass meets no backslash just before the terminator. */
  predicate CountStays(t: string)
    decreases |t|
  {
    if t == "" || t[0] == '\"' then true
    else if t[0] == '\\' then |t| >= 2 && CountStays(t[2..])
    else CountStays(t[1..])
  }

  /** Both passes; `Undefined` if one leaves the text, or the second overruns the buffer sized by the first. */
  function ParseString(t: string): (r: Outcome<string>)
    ensures r.Parsed? ==> |r.rest| < |t|
  {
    if At(t, 0) != '\"' then Rejected
    else if !CountStays(t[1..]) then Undefined
    else
      var r := DecodeBody(t[1..], "");
      if r.Parsed? && |r.value| > CountBody(t[1..]) then Undefined else r
  }

  // ----- what it stores for a literal of the grammar

  predicate SkipsTwo(xs: seq<Item>) { |xs| >= 2 && IsHigh(xs[0]) && xs[1].Unicode? }

  /** The bytes stored for a literal: after a high surrogate the next `\u` unit is used up, low or not. */
  function Decoded(xs: seq<Item>): string
    requires ValidItems(xs)
  {
    if xs == [] then ""
    else if SkipsTwo(xs) then PairBytes(Hex4(xs[0].hex), Hex4(xs[1].hex)) + Decoded(xs[2..])
    else ItemMeaning(xs[0]) + Decoded(xs[1..])
  }

  // ----- the parser meets the grammar

  lemma {:induction false} EscapeParses(xs: seq<Item>, rest: string)
    requires ValidItems(xs) && xs != [] && !xs[0].Raw? && At(rest, 0) == '\"'
    ensures var t := ItemsText(xs) + rest;
            var n := if SkipsTwo(xs) then 2 else 1;
            && t != "" && t[0] == '\\'
            && EscapeAt(t).Stores?
            && Decoded(xs) == EscapeAt(t).bytes + Decoded(xs[n..])
            && t[EscapeAt(t).span..] == ItemsText(xs[n..]) + rest
  {
    var t := ItemsText(xs) + rest;
    var u := ItemsText(xs[1..]) + rest;
    assert t == ItemText(xs[0]) + u by { Assoc(ItemText(xs[0]), ItemsText(xs[1..]), rest); }
    if xs[0].Unicode? {
      assert t[2..6] == xs[0].hex && t[6..] == u;
      AfterUnicode(xs[1..], rest);
      assert At(t, 6) == At(u, 0) && At(t, 7) == At(u, 1);
      if SkipsTwo(xs) {
        assert xs[1..][1..] == xs[2..];
        assert t[8..12] == u[2..6] && t[12..] == u[6..];
      }
    } else {
      assert t[2..] == u;
    }
  }

  /** What follows a `\uXXXX` unit is `\u` exactly when the next unit is one. */
  lemma {:induction false} AfterUnicode(xs: seq<Item>, rest: string)
    requires ValidItems(xs) && At(rest, 0) == '\"'
    ensures var u := ItemsText(xs) + rest;
            && ((At(u, 0) == '\\' && At(u, 1) == 'u') <==> (xs != [] && xs[0].Unicode?))
            && (xs != [] && xs[0].Unicode? ==>
                  |u| >= 6 && u[2..6] == xs[0].hex && u[6..] == ItemsText(xs[1..]) + rest)
  {
    var u := ItemsText(xs) + rest;
    if xs == [] {
      assert u == rest;
    } else {
      assert u == ItemText(xs[0]) + (ItemsText(xs[1..]) + rest) by {
        Assoc(ItemText(xs[0]), ItemsText(xs[1..]), rest);
      }
    }
  }

  lemma {:induction false} BodyParses(xs: seq<Item>, rest: string, acc: string)
    requires ValidItems(xs) && At(rest, 0) == '\"'
    ensures DecodeBody(ItemsText(xs) + rest, acc) == Parsed(acc + Decoded(xs), rest[1..])
    decreases |xs|
  {
    var t := ItemsText(xs) + rest;
    if xs == [] {
      assert t == rest && acc + "" == acc;
    } else if xs[0].Raw? {
      var u := ItemsText(xs[1..]) + rest;
      assert t == [xs[0].c] + u by { Assoc(ItemText(xs[0]), ItemsText(xs[1..]), rest); }
      assert t[1..] == u;
      BodyParses(xs[1..], rest, acc + [t[0]]);
      Assoc(acc, [t[0]], Decoded(xs[1..]));
    } else {
      EscapeParses(xs, rest);
      var n := if SkipsTwo(xs) then 2 else 1;
      var e := EscapeAt(t);
      BodyParses(xs[n..], rest, acc + e.bytes);
      Assoc(acc, e.bytes, Decoded(xs[n..]));
    }
  }

  // ----- the first pass asks for enough room

  lemma {:induction false} CountHex(t: string)
    requires |t| >= 4 && IsHex4(t[..4])
    ensures CountBody(t) == 4 + CountBody(t[4..])
    ensures CountStays(t) == CountStays(t[4..])
  {
    var h := t[..4];
    assert t[0] == h[0] && t[1] == h[1] && t[2] == h[2] && t[3] == h[3];
    assert t[1..][1..] == t[2..] && t[2..][1..] == t[3..] && t[3..][1..] == t[4..];
    assert CountBody(t[1..]) == 1 + CountBody(t[2..]) && CountStays(t[1..]) == CountStays(t[2..]);
    assert CountBody(t[2..]) == 1 + CountBody(t[3..]) && CountStays(t[2..]) == CountStays(t[3..]);
  }

  lemma {:induction false} CountUnicode(h: string, u: string)
    requires IsHex4(h)
    ensures CountBody("\\u" + h + u) == 5 + CountBody(u) && CountStays("\\u" + h + u) == CountStays(u)
  {
    var t := "\\u" + h + u;
    assert t[2..] == h + u && (h + u)[..4] == h && (h + u)[4..] == u;
    CountHex(h + u);
  }

  /** What the first pass counts for one item. */
  function RoomFor(x: Item): nat { if x.Unicode? then 5 else 1 }

  lemma {:induction false} CountItem(x: Item, u: string)
    requires ValidItem(x)
    ensures CountBody(ItemText(x) + u) == RoomFor(x) + CountBody(u) && CountStays(ItemText(x) + u) == CountStays(u)
  {
    var t := ItemText(x) + u;
    match x
    case Raw(c) => assert t[1..] == u;
    case Short(c) => assert t[2..] == u;
    case Unicode(h) => CountUnicode(h, u);
  }

  /** In every literal the first pass stays inside the text and counts no less than the second stores. */
  lemma {:induction false} LiteralFits(xs: seq<Item>, rest: string)
    requires ValidItems(xs) && At(rest, 0) == '\"'
    ensures CountStays(ItemsText(xs) + rest)
    ensures |Decoded(xs)| <= CountBody(ItemsText(xs) + rest)
    decreases |xs|
  {
    if xs == [] {
      assert ItemsText(xs) + rest == rest;
    } else {
      var u := ItemsText(xs[1..]) + rest;
      Assoc(ItemText(xs[0]), ItemsText(xs[1..]), rest);
      CountItem(xs[0], u);
      LiteralFits(xs[1..], rest);
      if SkipsTwo(xs) {
        assert xs[1..][1..] == xs[2..];
        Assoc(ItemText(xs[1]), ItemsText(xs[2..]), rest);
        CountItem(xs[1], ItemsText(xs[2..]) + rest);
        LiteralFits(xs[2..], rest);
      }
    }
  }

  /** A literal of the grammar, whatever follows it, is consumed exactly, and `Decoded` is stored. */
  lemma {:induction false} StringParses(xs: seq<Item>, rest: string)
    requires ValidItems(xs)
    ensures ParseString(Quoted(xs) + rest) == Parsed(Decoded(xs), rest)
  {
    var t, close := Quoted(xs) + rest, "\"" + rest;
    assert t[0] == '\"';
    assert t[1..] == ItemsText(xs) + close;
    BodyParses(xs, close, "");
    LiteralFits(xs, close);
    assert close[1..] == rest && "" + Decoded(xs) == Decoded(xs);
  }

  lemma {:induction false} DecodeNeverRejects(t: string, acc: string)
    ensures !DecodeBody(t, acc).Rejected?
    decreases |t|
  {
    if t == "" || t[0] == '\"' {
    } else if t[0] != '\\' {
      DecodeNeverRejects(t[1..], acc + [t[0]]);
    } else if EscapeAt(t).Stores? {
      DecodeNeverRejects(t[EscapeAt(t).span..], acc + EscapeAt(t).bytes);
    }
  }

  /** The second pass only ever adds to what it has stored. */
  lemma {:induction false} DecodeGrows(t: string, acc: string)
    requires DecodeBody(t, acc).Parsed?
    ensures |acc| <= |DecodeBody(t, acc).value|
    decreases |t|
  {
    if t == "" || t[0] == '\"' {
    } else if t[0] != '\\' {
      DecodeGrows(t[1..], acc + [t[0]]);
    } else {
      DecodeGrows(t[EscapeAt(t).span..], acc + EscapeAt(t).bytes);
    }
  }

  /** A `\\u` without four digits counts as U+0000 and is skipped. */
  lemma SkipsMalformed()
    ensures ParseString("\"\\uZZZZ\"") == Parsed("", "")
  {
    var t := "\\uZZZZ\"";
    assert "\"\\uZZZZ\""[1..] == t && t[2..6] == "ZZZZ" && t[6..] == "\"" && t[2..][1..] == "ZZZ\"";
    assert CountStays("ZZZ\"") && CountStays(t[2..]) && CountStays(t);
    assert DecodeBody(t[6..], "") == Parsed("", "");
  }

  /** Unless the digits run into the closing quote: then the second pass goes on behind it and overruns the buffer. */
  lemma OverrunsBuffer()
    ensures ParseString("\"\\u\"abcde\"") == Undefined
  {
    var t := "\\u\"abcde\"";
    assert "\"\\u\"abcde\""[1..] == t && t[2..] == "\"abcde\"" && t[6..] == "de\"";
    assert CountBody(t) == 1 && !HexAt(t, 2);
    assert "de\""[1..] == "e\"" && "e\""[1..] == "\"";
    assert DecodeBody("e\"", "d") == Parsed("d" + "e", "") && "" + "d" == "d";
  }

  // ----- when it stores what the literal denotes

  predicate IsZero(x: Item) { x.Unicode? && IsHex4(x.hex) && Hex4(x.hex) == 0 }

  predicate LowAt(xs: seq<Item>, i: nat) { i < |xs| && IsLow(xs[i]) }

  /** The unit after a high surrogate completes a pair, or is worth nothing where it stands. */
  predicate UnitKept(xs: seq<Item>)
    requires |xs| >= 2
  {
    IsLow(xs[1]) || IsZero(xs[1]) || (IsHigh(xs[1]) && !LowAt(xs, 2))
  }

  /**
   * From left to right, each high surrogate with a `\u` unit directly after it (the two are then
   * used up) has there a low one, U+0000, or a high one that no low one follows.
   */
  predicate Lossless(xs: seq<Item>)
    decreases |xs|
  {
    xs != [] ==>
      if SkipsTwo(xs) then UnitKept(xs) && Lossless(xs[2..]) else Lossless(xs[1..])
  }

  /** The units used up with a high surrogate, and the one after them: what is stored and what is meant. */
  lemma HighThenUnit(xs: seq<Item>)
    requires ValidItems(xs) && SkipsTwo(xs) && !IsHigh(xs[1])
    ensures Decoded(xs) == PairBytes(Hex4(xs[0].hex), Hex4(xs[1].hex)) + Decoded(xs[2..])
    ensures Meaning(xs) == (if IsLow(xs[1]) then PairBytes(Hex4(xs[0].hex), Hex4(xs[1].hex)) else ItemMeaning(xs[1])) + Meaning(xs[2..])
  {
    if !IsLow(xs[1]) { assert ItemMeaning(xs[0]) == "" && xs[1..][1..] == xs[2..]; }
  }

  lemma HighThenHigh(xs: seq<Item>)
    requires ValidItems(xs) && SkipsTwo(xs) && IsHigh(xs[1])
    ensures Decoded(xs) == Decoded(xs[2..]) && Meaning(xs) == Meaning(xs[1..])
    ensures !LowAt(xs, 2) ==> Meaning(xs) == Meaning(xs[2..])
  {
    assert PairBytes(Hex4(xs[0].hex), Hex4(xs[1].hex)) == "" && ItemMeaning(xs[0]) == "" && ItemMeaning(xs[1]) == "";
    assert xs[1..][1..] == xs[2..];
  }

  lemma HighThenPair(xs: seq<Item>)
    requires ValidItems(xs) && SkipsTwo(xs) && IsHigh(xs[1]) && LowAt(xs, 2)
    ensures Decoded(xs) == Decoded(xs[3..])
    ensures |Meaning(xs)| == 4 + |Meaning(xs[3..])|
  {
    HighThenHigh(xs);
    assert ItemMeaning(xs[2]) == "" && xs[2..][1..] == xs[3..] && xs[1..][2..] == xs[3..];
  }

  lemma SameSplit(a: string, b: string, c: string, d: string)
    requires |b| <= |d| && (a == c || |a| < |c|)
    ensures |a + b| <= |c + d| && (a + b == c + d <==> a == c && b == d)
  {
    if a + b == c + d {
      assert |a + b| == |c + d|;
      assert (a + b)[|a|..] == b && (c + d)[|c|..] == d;
    }
  }

  /** The stored bytes are those the literal denotes if and only if it is lossless; otherwise some are missing. */
  lemma {:induction false} DecodedIsMeaningIff(xs: seq<Item>)
    requires ValidItems(xs)
    ensures |Decoded(xs)| <= |Meaning(xs)| && (Decoded(xs) == Meaning(xs) <==> Lossless(xs))
    decreases |xs|
  {
    if xs == [] {
    } else if !SkipsTwo(xs) {
      DecodedIsMeaningIff(xs[1..]);
      SameSplit(ItemMeaning(xs[0]), Decoded(xs[1..]), ItemMeaning(xs[0]), Meaning(xs[1..]));
    } else {
      DecodedIsMeaningIff(xs[2..]);
      if !IsHigh(xs[1]) {
        HighThenUnit(xs);
        PairLoses(xs);
      } else if LowAt(xs, 2) {
        HighThenPair(xs);
        DecodedIsMeaningIff(xs[3..]);
      } else {
        HighThenHigh(xs);
      }
    }
  }

  lemma PairLoses(xs: seq<Item>)
    requires ValidItems(xs) && SkipsTwo(xs) && !IsHigh(xs[1]) && |Decoded(xs[2..])| <= |Meaning(xs[2..])|
    ensures var d := PairBytes(Hex4(xs[0].hex), Hex4(xs[1].hex));
            var m := if IsLow(xs[1]) then d else ItemMeaning(xs[1]);
            && (d == m <==> UnitKept(xs)) && |d + Decoded(xs[2..])| <= |m + Meaning(xs[2..])|
            && (d + Decoded(xs[2..]) == m + Meaning(xs[2..]) <==> UnitKept(xs) && Decoded(xs[2..]) == Meaning(xs[2..]))
  {
    var d := PairBytes(Hex4(xs[0].hex), Hex4(xs[1].hex));
    var m := if IsLow(xs[1]) then d else ItemMeaning(xs[1]);
    assert IsLow(xs[1]) || d == "";
    SameSplit(d, Decoded(xs[2..]), m, Meaning(xs[2..]));
  }

  /** U+0041 after an unpaired high surrogate is lost. */
  lemma LosesUnit()
    ensures var xs := [Unicode("D800"), Unicode("0041")];
            ValidItems(xs) && Meaning(xs) == "A" && Decoded(xs) == "" && !Lossless(xs)
  {
    var h, a := Unicode("D800"), Unicode("0041");
    assert Hex4(h.hex) == 0xD800 && Hex4(a.hex) == 0x41;
    HighThenUnit([h, a]);
    assert [h, a][2..] == [] && ItemMeaning(a) == "A";
  }

  /** and so is a pair after one. */
  lemma LosesPair()
    ensures var xs := [Unicode("D800"), Unicode("D800"), Unicode("DC00")];
            ValidItems(xs) && |Meaning(xs)| == 4 && Decoded(xs) == "" && !Lossless(xs)
  {
    var h, l := Unicode("D800"), Unicode("DC00");
    assert Hex4(h.hex) == 0xD800 && Hex4(l.hex) == 0xDC00;
    HighThenPair([h, h, l]);
    assert [h, h, l][3..] == [];
  }

  // ----- printing

  predicate NeedsEscape(c: char) {
    c as int < 32 || c == '\"' || c == '\\'
  }

  function HexDigit(d: nat): (c: char)
    requires d < 16
    ensures IsHex(c) && HexValue(c) == d
  {
    if d < 10 then ('0' as int + d) as char else ('a' as int + (d - 10)) as char
  }

  /** The unit that `print_string_ptr` writes for one byte. */
  function EscapedItem(c: char): Item {
    match c
    case '\\' => Short('\\')
    case '\"' => Short('\"')
    case '\U{08}' => Short('b')
    case '\U{0C}' => Short('f')
    case '\n' => Short('n')
    case '\r' => Short('r')
    case '\t' => Short('t')
    case _ =>
      if c as int < 32 then Unicode(['0', '0', HexDigit(c as int / 16), HexDigit(c as int % 16)])
      else Raw(c)
  }

  function EscapedItems(s: string): (xs: seq<Item>)
    ensures |xs| == |s| && forall i :: 0 <= i < |s| ==> xs[i] == EscapedItem(s[i])
  {
    seq(|s|, i requires 0 <= i < |s| => EscapedItem(s[i]))
  }

  /** The literal printed for a C string. */
  function PrintString(s: string): string {
    Quoted(EscapedItems(s))
  }

  lemma {:induction false} EscapedValid(s: string)
    requires NulFree(s)
    ensures ValidItems(EscapedItems(s))
  {
    forall i | 0 <= i < |s| ensures ValidItem(EscapedItem(s[i])) {
    }
  }

  lemma EscapedUnit(c: char)
    requires c != '\0'
    ensures var x := EscapedItem(c);
            && ValidItem(x)
            && (x.Raw? ==> x.c == c)
            && (x.Short? ==> ShortMeaning(x.c) == c)
            && (x.Unicode? ==> UnitMeaning(Hex4(x.hex)) == [c] && !Utf8.HighSurrogate(Hex4(x.hex)))
  {
  }

  lemma {:induction false} EscapedMeaning(s: string)
    requires NulFree(s) && ValidItems(EscapedItems(s))
    ensures Meaning(EscapedItems(s)) == s && Decoded(EscapedItems(s)) == s
  {
    if s != "" {
      var xs := EscapedItems(s);
      EscapedUnit(s[0]);
      assert xs[1..] == EscapedItems(s[1..]);
      EscapedMeaning(s[1..]);
      assert s == [s[0]] + s[1..];
    }
  }

  /** Parsing a printed string gives back the same bytes and stops after the closing quote. */
  lemma {:induction false} StringRoundTrip(s: string, rest: string)
    requires NulFree(s)
    ensures ParseString(PrintString(s) + rest) == Parsed(s, rest)
  {
    var xs := EscapedItems(s);
    EscapedValid(s);
    assert Decoded(xs) == s by { EscapedMeaning(s); }
    StringParses(xs, rest);
  }
}
