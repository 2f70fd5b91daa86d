/**
 * What the parser accepts: only texts of a loose JSON grammar, each with the value its
 * syntax tree stands for.  Against RFC 8259 the grammar is loose about blanks (every
 * byte up to 32), digits (a leading zero, none at all), string bytes and escapes.
 */
module JsonSound {
  import opened CText
  import opened Json
  import opened JsonString
  import opened JsonNumber
  import opened JsonGrammar
  import opened JsonParser
  import Utf8

  // ----- strings

  predicate LooseItem(x: Item) {
    match x
    case Raw(c) => c != '\"' && c != '\\'
    case Short(c) => c != 'u'
    case Unicode(h) => |h| == 4
  }

  predicate LooseItems(xs: seq<Item>) { forall i :: 0 <= i < |xs| ==> LooseItem(xs[i]) }

  /** Four bytes that are not all hexadecimal digits count as U+0000. */
  function UnitOf(h: string): (u: nat)
    ensures u < 0x10000
  {
    if IsHex4(h) then Hex4(h) else 0
  }

  function LooseMeaning(x: Item): string {
    match x
    case Raw(c) => [c]
    case Short(c) => [ShortMeaning(c)]
    case Unicode(h) => UnitMeaning(UnitOf(h))
  }

  /** The bytes stored for the units of a literal. */
  function LooseDecoded(xs: seq<Item>): string {
    if xs == [] then ""
    else if SkipsTwo(xs) then PairBytes(Hex4(xs[0].hex), UnitOf(xs[1].hex)) + LooseDecoded(xs[2..])
    else LooseMeaning(xs[0]) + LooseDecoded(xs[1..])
  }

  /** The units of `t` are `xs`, up to a closing quote, or up to the end of the text. */
  ghost predicate BodyIs(t: string, xs: seq<Item>, rest: string) {
    LooseItems(xs) && (t == ItemsText(xs) + ("\"" + rest) || (t == ItemsText(xs) && rest == ""))
  }

  lemma BodyCons(x: Item, t: string, xs: seq<Item>, rest: string)
    requires LooseItem(x) && BodyIs(t, xs, rest)
    ensures BodyIs(ItemText(x) + t, [x] + xs, rest)
  {
    assert ([x] + xs)[1..] == xs;
    assert ItemsText([x] + xs) == ItemText(x) + ItemsText(xs);
    Assoc(ItemText(x), ItemsText(xs), "\"" + rest);
  }

  lemma UnitBytes(t: string, i: nat)
    requires i + 4 <= |t|
    ensures ParseHex4(t, i) == UnitOf(t[i..i + 4])
  {
  }

  /** A body that begins with a unit other than `\u` does not begin with `\u`. */
  lemma BodyStarts(t: string, xs: seq<Item>, rest: string)
    requires BodyIs(t, xs, rest)
    ensures xs != [] && xs[0].Unicode? ==> At(t, 0) == '\\' && At(t, 1) == 'u'
  {
    if xs != [] && xs[0].Unicode? {
      assert ItemsText(xs) == ("\\u" + xs[0].hex) + ItemsText(xs[1..]);
      assert ItemsText(xs)[0] == '\\' && ItemsText(xs)[1] == 'u';
    }
  }

  lemma DecodedCons(x: Item, xs: seq<Item>, acc: string)
    requires !SkipsTwo([x] + xs)
    ensures acc + LooseDecoded([x] + xs) == (acc + LooseMeaning(x)) + LooseDecoded(xs)
  {
    assert ([x] + xs)[1..] == xs;
    Assoc(acc, LooseMeaning(x), LooseDecoded(xs));
  }

  lemma DecodedPair(x: Item, y: Item, xs: seq<Item>, acc: string)
    requires IsHigh(x) && y.Unicode?
    ensures acc + LooseDecoded([x, y] + xs) == (acc + PairBytes(Hex4(x.hex), UnitOf(y.hex))) + LooseDecoded(xs)
  {
    assert ([x, y] + xs)[2..] == xs;
    Assoc(acc, PairBytes(Hex4(x.hex), UnitOf(y.hex)), LooseDecoded(xs));
  }

  ghost predicate StringIs(t: string, acc: string, xs: seq<Item>, r: Outcome<string>) {
    r.Parsed? && BodyIs(t, xs, r.rest) && r.value == acc + LooseDecoded(xs)
  }

  /** A plain byte or a short escape. */
  lemma OneSound(t: string, x: Item, acc: string, ys: seq<Item>, r: Outcome<string>)
    requires LooseItem(x) && !x.Unicode? && |ItemText(x)| <= |t| && t[..|ItemText(x)|] == ItemText(x)
    requires StringIs(t[|ItemText(x)|..], acc + LooseMeaning(x), ys, r)
    ensures StringIs(t, acc, [x] + ys, r)
  {
    var n := |ItemText(x)|;
    assert t == ItemText(x) + t[n..];
    BodyCons(x, t[n..], ys, r.rest);
    DecodedCons(x, ys, acc);
  }

  lemma {:induction false} BodySound(t: string, acc: string) returns (xs: seq<Item>)
    requires DecodeBody(t, acc).Parsed?
    ensures StringIs(t, acc, xs, DecodeBody(t, acc))
    decreases |t|
  {
    if t == "" || t[0] == '\"' {
      xs := [];
      assert t != "" ==> t == "\"" + t[1..] && ItemsText([]) + ("\"" + t[1..]) == "\"" + t[1..];
      assert acc + "" == acc;
    } else if t[0] != '\\' {
      var ys := BodySound(t[1..], acc + [t[0]]);
      xs := [Raw(t[0])] + ys;
      OneSound(t, Raw(t[0]), acc, ys, DecodeBody(t, acc));
    } else if t[1] != 'u' {
      var ys := BodySound(t[2..], acc + [ShortMeaning(t[1])]);
      xs := [Short(t[1])] + ys;
      OneSound(t, Short(t[1]), acc, ys, DecodeBody(t, acc));
    } else {
      var e := UnicodeEscape(t);
      var ys := BodySound(t[e.span..], acc + e.bytes);
      if e.span == 6 {
        xs := [Unicode(t[2..6])] + ys;
        UnitSound(t, acc, ys, DecodeBody(t, acc));
      } else {
        xs := [Unicode(t[2..6]), Unicode(t[8..12])] + ys;
        PairSound(t, acc, ys, DecodeBody(t, acc));
      }
    }
  }

  /** A `\u` escape by itself. */
  lemma UnitSound(t: string, acc: string, ys: seq<Item>, r: Outcome<string>)
    requires |t| >= 6 && t[0] == '\\' && t[1] == 'u' && UnicodeEscape(t).Stores? && UnicodeEscape(t).span == 6
    requires StringIs(t[6..], acc + UnicodeEscape(t).bytes, ys, r)
    ensures StringIs(t, acc, [Unicode(t[2..6])] + ys, r)
  {
    var x := Unicode(t[2..6]);
    UnitBytes(t, 2);
    assert t == ItemText(x) + t[6..];
    BodyStarts(t[6..], ys, r.rest);
    assert At(t[6..], 0) == At(t, 6) && At(t[6..], 1) == At(t, 7);
    BodyCons(x, t[6..], ys, r.rest);
    DecodedCons(x, ys, acc);
  }

  /** A high surrogate takes the next `\u` escape with it. */
  lemma PairSound(t: string, acc: string, ys: seq<Item>, r: Outcome<string>)
    requires |t| >= 12 && t[0] == '\\' && t[1] == 'u' && UnicodeEscape(t).Stores? && UnicodeEscape(t).span == 12
    requires StringIs(t[12..], acc + UnicodeEscape(t).bytes, ys, r)
    ensures StringIs(t, acc, [Unicode(t[2..6]), Unicode(t[8..12])] + ys, r)
  {
    var x, y := Unicode(t[2..6]), Unicode(t[8..12]);
    UnitBytes(t, 2);
    UnitBytes(t, 8);
    PairText(t, x, y);
    BodyCons(y, t[12..], ys, r.rest);
    BodyCons(x, t[6..], [y] + ys, r.rest);
    assert [x] + ([y] + ys) == [x, y] + ys;
    DecodedPair(x, y, ys, acc);
  }

  lemma PairText(t: string, x: Item, y: Item)
    requires |t| >= 12 && t[0] == t[6] == '\\' && t[1] == t[7] == 'u'
    requires x == Unicode(t[2..6]) && y == Unicode(t[8..12])
    ensures t == ItemText(x) + t[6..] && t[6..] == ItemText(y) + t[12..]
  {
    assert t[6..][..6] == ItemText(y) && t[6..][6..] == t[12..];
  }

  /** An accepted string: a quote, units, and a closing quote unless the text ends there. */
  lemma StringSound(t: string) returns (xs: seq<Item>)
    requires ParseString(t).Parsed?
    ensures var r := ParseString(t);
            && LooseItems(xs) && r.value == LooseDecoded(xs)
            && (t == Quoted(xs) + r.rest || (t + "\"" == Quoted(xs) && r.rest == ""))
  {
    xs := BodySound(t[1..], "");
    var rest := ParseString(t).rest;
    assert t == "\"" + t[1..];
    assert "" + LooseDecoded(xs) == LooseDecoded(xs);
    if t[1..] == ItemsText(xs) + ("\"" + rest) {
      Assoc("\"", ItemsText(xs), "\"" + rest);
      Assoc("\"" + ItemsText(xs), "\"", rest);
    }
  }

  // ----- numbers

  /** A sign, digits that begin with at most one zero, fraction and exponent; the exponent may lack its digits. */
  predicate LooseToken(k: Token) {
    && AllDigits(k.whole) && AllDigits(k.frac) && (k.neg || k.whole != "")
    && (|k.whole| >= 2 && k.whole[0] == '0' ==> k.whole[1] != '0')
    && (k.exp.Exponent? ==>
          k.exp.mark in "eE" && k.exp.sign in ["", "+", "-"] && AllDigits(k.exp.digits))
  }

  lemma {:induction false} SpanDigits(t: string)
    ensures AllDigits(t[..Span(t)])
  {
    if t != "" && IsDigit(t[0]) {
      SpanDigits(t[1..]);
      assert forall i :: 0 < i < Span(t) ==> t[..Span(t)][i] == t[1..][..Span(t[1..])][i - 1];
    }
  }

  lemma CutTwice(t: string, m: nat, n: nat)
    requires m <= |t| && n <= |t[m..]|
    ensures t == t[..m] + t[m..][..n] + t[m + n..]
  {
  }

  lemma ExponentSound(t: string) returns (e: Exponent)
    ensures e.Exponent? ==> e.mark in "eE" && e.sign in ["", "+", "-"] && AllDigits(e.digits)
    ensures t == ExponentText(e) + ParseExponent(t).1 && ParseExponent(t).0 == ExponentValue(e)
  {
    var m := MarkSpan(t);
    if m == 0 {
      e := NoExponent;
    } else {
      var ds := t[m..][..Span(t[m..])];
      SpanDigits(t[m..]);
      e := Exponent(t[0], if m == 1 then "" else [t[1]], ds);
      assert t[..m] == [t[0]] + e.sign;
      CutTwice(t, m, |ds|);
    }
  }

  lemma FractionSound(v: string)
    ensures AllDigits(FractionDigits(v)) && v == FractionText(FractionDigits(v)) + FractionRest(v)
  {
    var k := FractionSpan(v);
    if k > 0 {
      SpanDigits(v[1..]);
      assert FractionDigits(v) == v[1..][..k];
      assert v == "." + FractionDigits(v) + v[k + 1..];
    } else {
      assert FractionDigits(v) == "" && "" + v == v;
    }
  }

  function WholeText(t: string): string { (if At(t, 0) == '0' then "0" else "") + WholeDigits(t) }

  lemma WholeSplits(t: string)
    ensures AllDigits(WholeDigits(t)) && SkipZero(t) == WholeDigits(t) + WholeRest(t)
    ensures WholeDigits(t) != "" ==> WholeDigits(t)[0] != '0'
    ensures '1' <= At(SkipZero(t), 0) <= '9' ==> WholeDigits(t) != ""
  {
    SpanDigits(SkipZero(t));
  }

  lemma WholeSound(t: string)
    ensures AllDigits(WholeText(t)) && t == WholeText(t) + WholeRest(t)
    ensures |WholeText(t)| >= 2 && WholeText(t)[0] == '0' ==> WholeText(t)[1] != '0'
    ensures IsDigit(At(t, 0)) ==> WholeText(t) != ""
  {
    WholeSplits(t);
    var ds := WholeDigits(t);
    if At(t, 0) == '0' {
      assert t == "0" + SkipZero(t) && WholeText(t) == "0" + ds;
      Assoc("0", ds, WholeRest(t));
      assert ds != "" ==> ("0" + ds)[1] == ds[0];
    } else {
      assert WholeText(t) == ds;
    }
  }

  lemma WholeValue(t: string, frac: string)
    ensures NatOf(WholeText(t) + frac) == NatOf(WholeDigits(t) + frac)
  {
    var ds := WholeDigits(t);
    if At(t, 0) == '0' {
      LeadingZero(ds + frac);
      Assoc("0", ds, frac);
    } else {
      assert "" + ds == ds;
    }
  }

  predicate LooseExponent(e: Exponent) {
    e.Exponent? ==> e.mark in "eE" && e.sign in ["", "+", "-"] && AllDigits(e.digits)
  }

  lemma TailReads(v: string) returns (frac: string, e: Exponent)
    ensures frac == FractionDigits(v) && AllDigits(frac) && LooseExponent(e)
    ensures v == FractionText(frac) + (ExponentText(e) + ParseExponent(FractionRest(v)).1)
    ensures ParseExponent(FractionRest(v)).0 == ExponentValue(e)
  {
    frac := FractionDigits(v);
    FractionSound(v);
    e := ExponentSound(FractionRest(v));
  }

  lemma TailValue(neg: bool, whole: string, v: string, n: int, x: int, rest: string)
    requires n == NatOf(whole + FractionDigits(v)) && x == ParseExponent(FractionRest(v)).0 - |FractionDigits(v)|
    requires rest == ParseExponent(FractionRest(v)).1
    ensures ParseTail(neg, whole, v) == (Scaled(neg, n, x), rest)
  {
  }

  lemma TokenValueIs(k: Token, n: int, e: int, v: real)
    requires v == Scaled(k.neg, n, e) && n == NatOf(k.whole + k.frac) && e == ExponentValue(k.exp) - |k.frac|
    ensures v == TokenValue(k)
  {
  }

  lemma UnsignedIsTail(neg: bool, t: string)
    ensures ParseUnsigned(neg, t) == ParseTail(neg, WholeDigits(t), WholeRest(t))
  {
  }

  lemma UnsignedSound(neg: bool, t: string) returns (k: Token)
    requires neg || IsDigit(At(t, 0))
    ensures LooseToken(k) && k.neg == neg
    ensures t == k.whole + (FractionText(k.frac) + (ExponentText(k.exp) + ParseUnsigned(neg, t).1))
    ensures ParseUnsigned(neg, t).0 == TokenValue(k)
  {
    var v := WholeRest(t);
    var frac, e := TailReads(v);
    WholeSound(t);
    WholeValue(t, frac);
    k := Token(neg, WholeText(t), frac, e);
    var n, x := NatOf(WholeDigits(t) + frac), ExponentValue(e) - |frac|;
    UnsignedIsTail(neg, t);
    TailValue(neg, WholeDigits(t), v, n, x, ParseExponent(FractionRest(v)).1);
    TokenValueIs(k, n, x, ParseUnsigned(neg, t).0);
  }

  /** An accepted number is a token of the loose grammar with the value of that token. */
  lemma NumberSound(t: string) returns (k: Token)
    requires At(t, 0) == '-' || IsDigit(At(t, 0))
    ensures LooseToken(k) && t == TokenText(k) + ParseNumber(t).1 && ParseNumber(t).0 == TokenValue(k)
  {
    var neg := At(t, 0) == '-';
    k := UnsignedSound(neg, if neg then t[1..] else t);
    TokenRegroup(k, ParseNumber(t).1);
    assert neg ==> t == "-" + t[1..];
    assert !neg ==> "" + t == t;
  }

  lemma TokenRegroup(k: Token, rest: string)
    ensures TokenText(k) + rest ==
            (if k.neg then "-" else "") + (k.whole + (FractionText(k.frac) + (ExponentText(k.exp) + rest)))
  {
    var s, f, e := if k.neg then "-" else "", FractionText(k.frac), ExponentText(k.exp);
    Assoc(s, k.whole + (f + e), rest);
    Assoc(k.whole, f + e, rest);
    Assoc(f, e, rest);
  }

  // ----- values

  /** What `skip` passes over. */
  predicate Blank(ws: string) { forall i :: 0 <= i < |ws| ==> ws[i] != '\0' && ws[i] as int <= 32 }

  predicate LooseSyntax(x: Syntax)
    decreases x
  {
    match x
    case SNumber(k) => LooseToken(k)
    case SString(us) => LooseItems(us)
    case SArray(gap, es) => Blank(gap) && LooseElems(es)
    case SObject(gap, fs) => Blank(gap) && LooseFields(fs)
    case _ => true
  }

  predicate LooseElems(es: seq<Elem>)
    decreases es
  {
    es != [] ==> Blank(es[0].before) && LooseSyntax(es[0].value) && Blank(es[0].after) && LooseElems(es[1..])
  }

  predicate LooseFields(fs: seq<Field>)
    decreases fs
  {
    fs != [] ==>
      && Blank(fs[0].before) && LooseItems(fs[0].name) && Blank(fs[0].beforeColon)
      && Blank(fs[0].afterColon) && LooseSyntax(fs[0].value) && Blank(fs[0].after)
      && LooseFields(fs[1..])
  }

  function LooseValue(x: Syntax): Value
    decreases x
  {
    match x
    case SNull => Null
    case STrue => Bool(true)
    case SFalse => Bool(false)
    case SNumber(k) => Number(TokenValue(k))
    case SString(us) => Text(LooseDecoded(us))
    case SArray(_, es) => Array(LooseItemValues(es))
    case SObject(_, fs) => Object(LooseMembers(fs))
  }

  function LooseItemValues(es: seq<Elem>): seq<Value>
    decreases es
  {
    if es == [] then [] else [LooseValue(es[0].value)] + LooseItemValues(es[1..])
  }

  function LooseMembers(fs: seq<Field>): seq<Member>
    decreases fs
  {
    if fs == [] then []
    else [Member(LooseDecoded(fs[0].name), LooseValue(fs[0].value))] + LooseMembers(fs[1..])
  }

  lemma {:induction false} SkipSound(t: string) returns (ws: string)
    ensures Blank(ws) && t == ws + Skip(t)
  {
    if t != "" && t[0] != '\0' && t[0] as int <= 32 {
      var more := SkipSound(t[1..]);
      ws := [t[0]] + more;
      Assoc([t[0]], more, Skip(t[1..]));
      assert t == [t[0]] + t[1..];
    } else {
      ws := "";
      assert "" + t == t;
    }
  }

  /** `x` is what was read from `t`: all of it, or `t` is a string without its closing quote. */
  ghost predicate ReadAs(t: string, x: Syntax, v: Value, rest: string) {
    && LooseSyntax(x) && v == LooseValue(x)
    && (t == SyntaxText(x) + rest || (x.SString? && t + "\"" == SyntaxText(x) && rest == ""))
  }

  lemma {:induction false} ValueSound(t: string) returns (x: Syntax)
    requires ParseValue(t).Parsed?
    ensures ReadAs(t, x, ParseValue(t).value, ParseValue(t).rest)
    decreases |t|, 2
  {
    if "null" <= t || "false" <= t || "true" <= t {
      x := WordSound(t);
    } else if t[0] == '\"' {
      var us := StringSound(t);
      x := SString(us);
    } else if t[0] == '-' || IsDigit(t[0]) {
      var k := NumberSound(t);
      x := SNumber(k);
    } else if t[0] == '[' {
      x := ArraySound(t);
    } else {
      x := ObjectSound(t);
    }
  }

  lemma WordSound(t: string) returns (x: Syntax)
    requires "null" <= t || "false" <= t || "true" <= t
    ensures ParseValue(t).Parsed? && ReadAs(t, x, ParseValue(t).value, ParseValue(t).rest)
  {
    x := if "null" <= t then SNull else if "false" <= t then SFalse else STrue;
    var n := |SyntaxText(x)|;
    assert t == t[..n] + t[n..];
  }

  lemma {:induction false} ArraySound(t: string) returns (x: Syntax)
    requires At(t, 0) == '[' && ParseArray(t).Parsed?
    ensures x.SArray? && ReadAs(t, x, ParseArray(t).value, ParseArray(t).rest)
    decreases |t|, 1
  {
    var ws := SkipSound(t[1..]);
    var u, rest := Skip(t[1..]), ParseArray(t).rest;
    assert t == "[" + (ws + u);
    if At(u, 0) == ']' {
      x := SArray(ws, []);
      assert u == "]" + rest;
      ClosedEmpty("[", ws, "]", rest);
    } else {
      var es := ElemsSound(u, []);
      x := GappedArray(ws, es);
      ArrayRead(t, ws, u, es, ParseElems(u, []));
    }
  }

  lemma ArrayRead(t: string, ws: string, u: string, es: seq<Elem>, r: Outcome<Value>)
    requires t == "[" + (ws + u) && Blank(ws) && ElemsRead(u, es, [], r)
    ensures ReadAs(t, GappedArray(ws, es), r.value, r.rest)
  {
    var x := GappedArray(ws, es);
    GappedElems(ws, es);
    assert [] + LooseItemValues(es) == LooseItemValues(es);
    Assoc(ws, ElemsText(es), "]" + r.rest);
    Closed("[", ElemsText(x.elems), "]", r.rest);
  }

  lemma ClosedEmpty(open: string, gap: string, close: string, rest: string)
    ensures open + (gap + (close + rest)) == (open + (gap + close)) + rest
  {
    Assoc(gap, close, rest);
    Assoc(open, gap + close, rest);
  }

  lemma Closed(open: string, body: string, close: string, rest: string)
    ensures open + (body + (close + rest)) == (open + (body + close)) + rest
  {
    ClosedEmpty(open, body, close, rest);
  }

  /** The blanks after the bracket belong to the first element. */
  function GappedArray(ws: string, es: seq<Elem>): (x: Syntax)
    requires es != []
    ensures x.SArray? && x.elems != []
  {
    SArray("", [es[0].(before := ws + es[0].before)] + es[1..])
  }

  lemma GappedElems(ws: string, es: seq<Elem>)
    requires Blank(ws) && LooseElems(es) && es != []
    ensures var fs := GappedArray(ws, es).elems;
            && ElemsText(fs) == ws + ElemsText(es) && LooseElems(fs)
            && LooseItemValues(fs) == LooseItemValues(es)
  {
    var e, fs := es[0], GappedArray(ws, es).elems;
    assert fs[1..] == es[1..];
    Assoc(ws, e.before, SyntaxText(e.value) + (e.after + (if |es| == 1 then "" else "," + ElemsText(es[1..]))));
  }

  ghost predicate ElemsRead(u: string, es: seq<Elem>, acc: seq<Value>, r: Outcome<Value>) {
    && r.Parsed? && es != [] && LooseElems(es) && u == ElemsText(es) + ("]" + r.rest)
    && r.value == Array(acc + LooseItemValues(es))
  }

  /** The text of one element, with what follows it. */
  function ElemThen(e: Elem, z: string): string { e.before + (SyntaxText(e.value) + (e.after + z)) }

  predicate LooseElem(e: Elem) { Blank(e.before) && LooseSyntax(e.value) && Blank(e.after) }

  lemma {:induction false} ElemSound(u: string) returns (e: Elem)
    requires ParseValue(Skip(u)).Parsed? && Skip(ParseValue(Skip(u)).rest) != ""
    ensures LooseElem(e) && u == ElemThen(e, Skip(ParseValue(Skip(u)).rest))
    ensures ParseValue(Skip(u)).value == LooseValue(e.value)
    decreases |u|, 3
  {
    var before := SkipSound(u);
    var x := ValueSound(Skip(u));
    var w := ParseValue(Skip(u)).rest;
    var after := SkipSound(w);
    assert w != "";
    e := Elem(before, x, after);
  }

  lemma {:induction false} ElemsSound(u: string, acc: seq<Value>) returns (es: seq<Elem>)
    requires ParseElems(u, acc).Parsed?
    ensures ElemsRead(u, es, acc, ParseElems(u, acc))
    decreases |u|, 4
  {
    var r := ParseElems(u, acc);
    var v, z := ElemsStep(u, acc);
    var e := ElemSound(u);
    if z[0] == ',' {
      var fs := ElemsSound(z[1..], acc + [v]);
      es := [e] + fs;
      ElemsCons(u, e, z, fs, acc, r);
    } else {
      es := [e];
      ElemsLast(u, e, z, acc, r);
    }
  }

  lemma ElemsStep(u: string, acc: seq<Value>) returns (v: Value, z: string)
    requires ParseElems(u, acc).Parsed?
    ensures ParseValue(Skip(u)).Parsed? && v == ParseValue(Skip(u)).value && z == Skip(ParseValue(Skip(u)).rest)
    ensures 0 < |z| <= |u| && (z == "," + z[1..] || z == "]" + z[1..])
    ensures ParseElems(u, acc) ==
            if z[0] == ',' then ParseElems(z[1..], acc + [v]) else Parsed(Array(acc + [v]), z[1..])
  {
    v, z := ParseValue(Skip(u)).value, Skip(ParseValue(Skip(u)).rest);
    assert z != "" && z == [z[0]] + z[1..];
  }

  lemma ElemsCons(u: string, e: Elem, z: string, fs: seq<Elem>, acc: seq<Value>, r: Outcome<Value>)
    requires LooseElem(e) && u == ElemThen(e, z) && z != "" && z == "," + z[1..]
    requires ElemsRead(z[1..], fs, acc + [LooseValue(e.value)], r)
    ensures ElemsRead(u, [e] + fs, acc, r)
  {
    var es := [e] + fs;
    assert es[1..] == fs;
    ElemsSplit(es, "]" + r.rest);
    assert acc + [LooseValue(e.value)] + LooseItemValues(fs) == acc + LooseItemValues(es);
  }

  lemma ElemsLast(u: string, e: Elem, z: string, acc: seq<Value>, r: Outcome<Value>)
    requires LooseElem(e) && u == ElemThen(e, z) && z != "" && z == "]" + z[1..]
    requires r == Parsed(Array(acc + [LooseValue(e.value)]), z[1..])
    ensures ElemsRead(u, [e], acc, r)
  {
    ElemsSplit([e], "]" + r.rest);
    assert LooseItemValues([e]) == [LooseValue(e.value)] + LooseItemValues([]);
    assert [LooseValue(e.value)] + [] == [LooseValue(e.value)];
  }

  lemma {:induction false} ObjectSound(t: string) returns (x: Syntax)
    requires At(t, 0) == '{' && ParseObject(t).Parsed?
    ensures x.SObject? && ReadAs(t, x, ParseObject(t).value, ParseObject(t).rest)
    decreases |t|, 1
  {
    var ws := SkipSound(t[1..]);
    var u, rest := Skip(t[1..]), ParseObject(t).rest;
    assert t == "{" + (ws + u);
    if At(u, 0) == '}' {
      x := SObject(ws, []);
      assert u == "}" + rest;
      ClosedEmpty("{", ws, "}", rest);
    } else {
      var fs := FieldsSound(u, []);
      x := GappedObject(ws, fs);
      ObjectRead(t, ws, u, fs, ParseFields(u, []));
    }
  }

  lemma ObjectRead(t: string, ws: string, u: string, fs: seq<Field>, r: Outcome<Value>)
    requires t == "{" + (ws + u) && Blank(ws) && FieldsRead(u, fs, [], r)
    ensures ReadAs(t, GappedObject(ws, fs), r.value, r.rest)
  {
    var x := GappedObject(ws, fs);
    GappedFields(ws, fs);
    assert [] + LooseMembers(fs) == LooseMembers(fs);
    Assoc(ws, FieldsText(fs), "}" + r.rest);
    Closed("{", FieldsText(x.fields), "}", r.rest);
  }

  function GappedObject(ws: string, fs: seq<Field>): (x: Syntax)
    requires fs != []
    ensures x.SObject? && x.fields != []
  {
    SObject("", [fs[0].(before := ws + fs[0].before)] + fs[1..])
  }

  lemma GappedFields(ws: string, fs: seq<Field>)
    requires Blank(ws) && LooseFields(fs) && fs != []
    ensures var gs := GappedObject(ws, fs).fields;
            FieldsText(gs) == ws + FieldsText(fs) && LooseFields(gs) && LooseMembers(gs) == LooseMembers(fs)
  {
    var f, gs := fs[0], GappedObject(ws, fs).fields;
    assert gs[1..] == fs[1..];
    Assoc(ws, f.before, Quoted(f.name) + (f.beforeColon + (":" + (f.afterColon + (SyntaxText(f.value) + (f.after +
      (if |fs| == 1 then "" else "," + FieldsText(fs[1..]))))))));
  }

  /** The text of one member, with what follows it. */
  function FieldThen(f: Field, z: string): string {
    f.before + (Quoted(f.name) + (f.beforeColon + (":" + (f.afterColon + (SyntaxText(f.value) + (f.after + z))))))
  }

  predicate LooseField(f: Field) {
    && Blank(f.before) && LooseItems(f.name) && Blank(f.beforeColon)
    && Blank(f.afterColon) && LooseSyntax(f.value) && Blank(f.after)
  }

  function FieldMember(f: Field): Member { Member(LooseDecoded(f.name), LooseValue(f.value)) }

  lemma {:induction false} FieldSound(u: string) returns (f: Field)
    requires ParseField(u).Parsed? && ParseField(u).rest != ""
    ensures LooseField(f) && u == FieldThen(f, ParseField(u).rest) && ParseField(u).value == FieldMember(f)
    decreases |u|, 3
  {
    var before := SkipSound(u);
    var name := StringSound(Skip(u));
    var w := ParseString(Skip(u)).rest;
    var beforeColon := SkipSound(w);
    var z := Skip(w);
    assert w != "" && Skip(u) == Quoted(name) + w && z == ":" + z[1..];
    var afterColon := SkipSound(z[1..]);
    var x := ValueSound(Skip(z[1..]));
    var y := ParseValue(Skip(z[1..])).rest;
    var after := SkipSound(y);
    assert y != "" && Skip(z[1..]) == SyntaxText(x) + y;
    f := Field(before, name, beforeColon, afterColon, x, after);
  }

  ghost predicate FieldsRead(u: string, fs: seq<Field>, acc: seq<Member>, r: Outcome<Value>) {
    && r.Parsed? && fs != [] && LooseFields(fs) && u == FieldsText(fs) + ("}" + r.rest)
    && r.value == Object(acc + LooseMembers(fs))
  }

  lemma {:induction false} FieldsSound(u: string, acc: seq<Member>) returns (fs: seq<Field>)
    requires ParseFields(u, acc).Parsed?
    ensures FieldsRead(u, fs, acc, ParseFields(u, acc))
    decreases |u|, 4
  {
    var m, z := ParseField(u).value, ParseField(u).rest;
    var f := FieldSound(u);
    if At(z, 0) == ',' {
      var gs := FieldsSound(z[1..], acc + [m]);
      fs := [f] + gs;
      assert z == "," + z[1..];
      FieldsCons(u, f, z, gs, acc, ParseFields(u, acc));
    } else {
      fs := [f];
      assert z == "}" + z[1..];
      FieldsLast(u, f, z, acc, ParseFields(u, acc));
    }
  }

  lemma FieldsCons(u: string, f: Field, z: string, gs: seq<Field>, acc: seq<Member>, r: Outcome<Value>)
    requires LooseField(f) && u == FieldThen(f, z) && z != "" && z == "," + z[1..]
    requires FieldsRead(z[1..], gs, acc + [FieldMember(f)], r)
    ensures FieldsRead(u, [f] + gs, acc, r)
  {
    var fs := [f] + gs;
    assert fs[1..] == gs;
    FieldsSplit(fs, "}" + r.rest);
    assert acc + [FieldMember(f)] + LooseMembers(gs) == acc + LooseMembers(fs);
  }

  lemma FieldsLast(u: string, f: Field, z: string, acc: seq<Member>, r: Outcome<Value>)
    requires LooseField(f) && u == FieldThen(f, z) && z != "" && z == "}" + z[1..]
    requires r == Parsed(Object(acc + [FieldMember(f)]), z[1..])
    ensures FieldsRead(u, [f], acc, r)
  {
    FieldsSplit([f], "}" + r.rest);
    assert LooseMembers([f]) == [FieldMember(f)] + LooseMembers([]);
    assert [FieldMember(f)] + [] == [FieldMember(f)];
  }

  /**
   * An accepted document is blanks, a value of the loose grammar with the value of the result,
   * and, where the end is required, nothing but blanks before the terminator.
   */
  lemma DocumentSound(t: string, requireEnd: bool) returns (before: string, x: Syntax, after: string)
    requires NulFree(t) && ParseDocument(t, requireEnd).Parsed?
    ensures var r := ParseDocument(t, requireEnd);
            && Blank(before) && LooseSyntax(x) && r.value == LooseValue(x)
            && (t == before + (SyntaxText(x) + after) || (x.SString? && t + "\"" == before + SyntaxText(x) && after == ""))
            && (if requireEnd then Blank(after) && r.rest == "" else r.rest == after)
  {
    before := SkipSound(t);
    x := ValueSound(Skip(t));
    after := ParseValue(Skip(t)).rest;
    Assoc(before, Skip(t), "\"");
    if requireEnd {
      var ws := SkipSound(after);
      EndIsEnd(t, before, x, after, ws);
    }
  }

  lemma SuffixNulFree(a: string, b: string)
    requires NulFree(a + b)
    ensures NulFree(b)
  {
    assert forall i :: 0 <= i < |b| ==> b[i] == (a + b)[|a| + i];
  }

  lemma EndIsEnd(t: string, before: string, x: Syntax, after: string, ws: string)
    requires NulFree(t) && after == ws + Skip(after) && Blank(ws)
    requires t == before + (SyntaxText(x) + after) || after == ""
    requires Skip(after) == "" || Skip(after)[0] == '\0'
    ensures Skip(after) == "" && ws == after
  {
    if after != "" {
      SuffixNulFree(before, SyntaxText(x) + after);
      SuffixNulFree(SyntaxText(x), after);
      SuffixNulFree(ws, Skip(after));
      assert ws + "" == ws;
    }
  }
}
