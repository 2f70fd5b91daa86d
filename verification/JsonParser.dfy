/** The recursive-descent parser, as a function of the text it points at. */
module JsonParser {
  import opened CText
  import opened Json
  import opened JsonString
  import opened JsonGrammar
  import JsonNumber

  /** `skip`: jump over every byte up to and including the blank. */
  function Skip(t: string): (r: string)
    ensures |r| <= |t|
  {
    if t != "" && t[0] != '\0' && t[0] as int <= 32 then Skip(t[1..]) else t
  }

  function ParseValue(t: string): (r: Outcome<Value>)
    ensures r.Parsed? ==> |r.rest| < |t|
    decreases |t|, 2
  {
    if "null" <= t then Parsed(Null, t[4..])
    else if "false" <= t then Parsed(Bool(false), t[5..])
    else if "true" <= t then Parsed(Bool(true), t[4..])
    else if At(t, 0) == '\"' then
      match ParseString(t)
      case Parsed(s, rest) => Parsed(Text(s), rest)
      case Rejected => Rejected
      case Undefined => Undefined
    else if At(t, 0) == '-' || IsDigit(At(t, 0)) then
      var (n, rest) := JsonNumber.ParseNumber(t);
      Parsed(Number(n), rest)
    else if At(t, 0) == '[' then ParseArray(t)
    else if At(t, 0) == '{' then ParseObject(t)
    else Rejected
  }

  function ParseArray(t: string): (r: Outcome<Value>)
    requires At(t, 0) == '['
    ensures r.Parsed? ==> |r.rest| < |t|
    decreases |t|, 1
  {
    var u := Skip(t[1..]);
    if At(u, 0) == ']' then Parsed(Array([]), u[1..]) else ParseElems(u, [])
  }

  /** The element loop, `u` pointing just after '[' or ','. */
  function ParseElems(u: string, acc: seq<Value>): (r: Outcome<Value>)
    ensures r.Parsed? ==> |r.rest| < |u|
    decreases |u|, 3
  {
    match ParseValue(Skip(u))
    case Rejected => Rejected
    case Undefined => Undefined
    case Parsed(v, w) =>
      var z := Skip(w);
      if At(z, 0) == ',' then ParseElems(z[1..], acc + [v])
      else if At(z, 0) == ']' then Parsed(Array(acc + [v]), z[1..])
      else Rejected
  }

  function ParseObject(t: string): (r: Outcome<Value>)
    requires At(t, 0) == '{'
    ensures r.Parsed? ==> |r.rest| < |t|
    decreases |t|, 1
  {
    var u := Skip(t[1..]);
    if At(u, 0) == '}' then Parsed(Object([]), u[1..]) else ParseFields(u, [])
  }

  /** From the colon: the value and the white space after it. */
  function ParseFieldValue(z: string): (r: Outcome<Value>)
    requires z != ""
    ensures r.Parsed? ==> |r.rest| < |z|
    decreases |z|, 1
  {
    match ParseValue(Skip(z[1..]))
    case Rejected => Rejected
    case Undefined => Undefined
    case Parsed(v, y) => Parsed(v, Skip(y))
  }

  /** One `name : value` and the white space after it. */
  function ParseField(u: string): (r: Outcome<Member>)
    ensures r.Parsed? ==> |r.rest| < |u|
    decreases |u|, 3
  {
    match ParseString(Skip(u))
    case Rejected => Rejected
    case Undefined => Undefined
    case Parsed(name, w) =>
      var z := Skip(w);
      if At(z, 0) != ':' then Rejected
      else match ParseFieldValue(z)
        case Rejected => Rejected
        case Undefined => Undefined
        case Parsed(v, y) => Parsed(Member(name, v), y)
  }

  /** The member loop, `u` pointing just after '{' or ','. */
  function ParseFields(u: string, acc: seq<Member>): (r: Outcome<Value>)
    ensures r.Parsed? ==> |r.rest| < |u|
    decreases |u|, 4
  {
    match ParseField(u)
    case Rejected => Rejected
    case Undefined => Undefined
    case Parsed(m, z) =>
      if At(z, 0) == ',' then ParseFields(z[1..], acc + [m])
      else if At(z, 0) == '}' then Parsed(Object(acc + [m]), z[1..])
      else Rejected
  }

  /** `cJSON_ParseWithOpts`: the value and where parsing ended. */
  function ParseDocument(t: string, requireEnd: bool): Outcome<Value> {
    match ParseValue(Skip(t))
    case Rejected => Rejected
    case Undefined => Undefined
    case Parsed(v, rest) =>
      if !requireEnd then Parsed(v, rest)
      else if Skip(rest) != "" && Skip(rest)[0] != '\0' then Rejected
      else Parsed(v, Skip(rest))
  }

  // ----- the parser meets the grammar

  /** Bytes that may follow a value inside a text. */
  predicate Delimits(c: char) {
    c == '\0' || IsSpace(c) || c == ',' || c == ']' || c == '}'
  }

  predicate Solid(c: char) {
    c == '\0' || c as int > 32
  }

  lemma {:induction false} SkipSpace(ws: string, rest: string)
    requires AllSpace(ws) && Solid(At(rest, 0))
    ensures Skip(ws + rest) == rest
  {
    if ws == "" {
      assert ws + rest == rest;
    } else {
      assert (ws + rest)[1..] == ws[1..] + rest;
      SkipSpace(ws[1..], rest);
    }
  }

  /** Every value starts with a byte that is not white space and not a closing bracket. */
  lemma {:induction false} FirstByte(x: Syntax)
    requires ValidSyntax(x)
    ensures SyntaxText(x) != ""
    ensures var c := SyntaxText(x)[0];
            && c as int > 32 && c != ']' && c != '}'
            && (c == '\"' <==> x.SString?) && (c == '[' <==> x.SArray?) && (c == '{' <==> x.SObject?)
            && (c == 'n' <==> x.SNull?) && (c == 't' <==> x.STrue?) && (c == 'f' <==> x.SFalse?)
            && (c == '-' || IsDigit(c) <==> x.SNumber?)
  {
    match x
    case SNumber(k) =>
      var t := JsonNumber.TokenText(k);
      assert t[0] == if k.neg then '-' else k.whole[0];
    case _ =>
  }

  // ----- one branch of `parse_value` each

  lemma NoLiteral(t: string)
    requires t != "" && t[0] != 'n' && t[0] != 'f' && t[0] != 't'
    ensures !("null" <= t) && !("false" <= t) && !("true" <= t)
  {
  }

  lemma ValueIsNumber(t: string, n: real, rest: string)
    requires t != "" && (t[0] == '-' || IsDigit(t[0])) && JsonNumber.ParseNumber(t) == (n, rest)
    ensures ParseValue(t) == Parsed(Number(n), rest)
  {
    NoLiteral(t);
  }

  lemma ValueIsString(t: string, s: string, rest: string)
    requires t != "" && t[0] == '\"' && ParseString(t) == Parsed(s, rest)
    ensures ParseValue(t) == Parsed(Text(s), rest)
  {
    NoLiteral(t);
  }

  lemma ValueIsArray(t: string)
    requires t != "" && t[0] == '['
    ensures ParseValue(t) == ParseArray(t)
  {
    NoLiteral(t);
  }

  lemma ValueIsObject(t: string)
    requires t != "" && t[0] == '{'
    ensures ParseValue(t) == ParseObject(t)
  {
    NoLiteral(t);
  }

  lemma StartsWith(word: string, rest: string)
    ensures word <= word + rest && (word + rest)[|word|..] == rest
  {
  }

  lemma NullParses(rest: string)
    ensures ParseValue("null" + rest) == Parsed(Null, rest)
  {
    StartsWith("null", rest);
  }

  lemma FalseParses(rest: string)
    ensures ParseValue("false" + rest) == Parsed(Bool(false), rest)
  {
    StartsWith("false", rest);
    assert ("false" + rest)[0] == 'f';
  }

  lemma TrueParses(rest: string)
    ensures ParseValue("true" + rest) == Parsed(Bool(true), rest)
  {
    StartsWith("true", rest);
    assert ("true" + rest)[0] == 't';
  }

  lemma NumberScalar(k: JsonNumber.Token, rest: string)
    requires JsonNumber.Valid(k) && Delimits(At(rest, 0))
    ensures ParseValue(JsonNumber.TokenText(k) + rest) == Parsed(Number(JsonNumber.TokenValue(k)), rest)
  {
    var text := JsonNumber.TokenText(k);
    var t := text + rest;
    assert t != "" && (t[0] == '-' || IsDigit(t[0])) by {
      FirstByte(SNumber(k));
      assert t[0] == text[0];
    }
    assert JsonNumber.ParseNumber(t) == (JsonNumber.TokenValue(k), rest) by { JsonNumber.NumberParses(k, rest); }
    ValueIsNumber(t, JsonNumber.TokenValue(k), rest);
  }

  lemma StringScalar(us: seq<Item>, rest: string)
    requires ValidItems(us)
    ensures ParseValue(Quoted(us) + rest) == Parsed(Text(Decoded(us)), rest)
  {
    var t := Quoted(us) + rest;
    assert t[0] == '\"';
    assert ParseString(t) == Parsed(Decoded(us), rest) by { StringParses(us, rest); }
    ValueIsString(t, Decoded(us), rest);
  }

  lemma ScalarParses(x: Syntax, rest: string)
    requires ValidSyntax(x) && !x.SArray? && !x.SObject? && Delimits(At(rest, 0))
    ensures ParseValue(SyntaxText(x) + rest) == Parsed(Built(x), rest)
  {
    match x
    case SNull => NullParses(rest);
    case STrue => TrueParses(rest);
    case SFalse => FalseParses(rest);
    case SNumber(k) => NumberScalar(k, rest);
    case SString(us) => StringScalar(us, rest);
  }

  lemma {:induction false} EmptyParses(open: string, gap: string, close: string, rest: string)
    requires |open| == 1 && |close| == 1 && AllSpace(gap) && close[0] as int > 32
    ensures var t := open + (gap + close) + rest;
            Skip(t[1..]) == close + rest && (close + rest)[1..] == rest
  {
    var t := open + (gap + close) + rest;
    assert t[1..] == gap + (close + rest);
    SkipSpace(gap, close + rest);
  }

  lemma {:induction false} ArrayParses(x: Syntax, rest: string)
    requires ValidSyntax(x) && x.SArray?
    ensures var t := SyntaxText(x) + rest;
            At(t, 0) == '[' && ParseArray(t) == Parsed(Built(x), rest)
    decreases x, 0
  {
    var t, es := SyntaxText(x) + rest, x.elems;
    if es == [] {
      EmptyParses("[", x.gap, "]", rest);
    } else {
      Assoc("[", ElemsText(es) + "]", rest);
      Assoc(ElemsText(es), "]", rest);
      assert t[1..] == ElemsText(es) + ("]" + rest);
      ArrayOpens(es, "]" + rest);
      ElemsParse(es, rest, []);
      assert [] + ElemValues(es) == ElemValues(es);
    }
  }

  lemma {:induction false} ObjectParses(x: Syntax, rest: string)
    requires ValidSyntax(x) && x.SObject?
    ensures var t := SyntaxText(x) + rest;
            At(t, 0) == '{' && ParseObject(t) == Parsed(Built(x), rest)
    decreases x, 0
  {
    var t, fs := SyntaxText(x) + rest, x.fields;
    if fs == [] {
      EmptyParses("{", x.gap, "}", rest);
    } else {
      Assoc("{", FieldsText(fs) + "}", rest);
      Assoc(FieldsText(fs), "}", rest);
      assert t[1..] == FieldsText(fs) + ("}" + rest);
      ObjectOpens(fs, "}" + rest);
      FieldsParse(fs, rest, []);
      assert ParseField(t[1..]) == ParseField(Skip(t[1..])) by { FieldParses(fs, "}" + rest); }
      SameFields(t[1..], Skip(t[1..]), []);
      assert [] + FieldValues(fs) == FieldValues(fs);
    }
  }

  /** A well-formed value, followed by the end of the text, white space, ',' or a closing bracket, is consumed exactly. */
  lemma {:induction false} ValueParses(x: Syntax, rest: string)
    requires ValidSyntax(x) && Delimits(At(rest, 0))
    ensures ParseValue(SyntaxText(x) + rest) == Parsed(Built(x), rest)
    decreases x, 1
  {
    var t := SyntaxText(x) + rest;
    if x.SArray? {
      ArrayParses(x, rest);
      ValueIsArray(t);
    } else if x.SObject? {
      ObjectParses(x, rest);
      ValueIsObject(t);
    } else {
      ScalarParses(x, rest);
    }
  }

  lemma {:induction false} SkipTwice(t: string)
    ensures Skip(Skip(t)) == Skip(t)
  {
    if t != "" && t[0] != '\0' && t[0] as int <= 32 { SkipTwice(t[1..]); }
  }

  /** What stands after the first element: white space, then ',' and the rest, or the close. */
  function ElemsTail(es: seq<Elem>, close: string): string
    requires es != []
  {
    if |es| == 1 then close else "," + (ElemsText(es[1..]) + close)
  }

  lemma {:induction false} ElemsSplit(es: seq<Elem>, close: string)
    requires es != []
    ensures ElemsText(es) + close ==
            es[0].before + (SyntaxText(es[0].value) + (es[0].after + ElemsTail(es, close)))
  {
    var e := es[0];
    var more := if |es| == 1 then "" else "," + ElemsText(es[1..]);
    Assoc(e.before, SyntaxText(e.value) + (e.after + more), close);
    Assoc(SyntaxText(e.value), e.after + more, close);
    Assoc(e.after, more, close);
    if |es| == 1 { assert more + close == close; } else { Assoc(",", ElemsText(es[1..]), close); }
  }

  /** After '[' the white space of the first element is skipped up to its value. */
  lemma {:induction false} ArrayOpens(es: seq<Elem>, close: string)
    requires ValidElems(es) && es != []
    ensures var u := ElemsText(es) + close;
            var z := SyntaxText(es[0].value) + (es[0].after + ElemsTail(es, close));
            Skip(u) == z && z != "" && z[0] != ']'
  {
    ElemsSplit(es, close);
    FirstByte(es[0].value);
    var z := SyntaxText(es[0].value) + (es[0].after + ElemsTail(es, close));
    assert z[0] == SyntaxText(es[0].value)[0];
    SkipSpace(es[0].before, z);
  }

  lemma {:induction false} SpaceDelimits(ws: string, rest: string)
    requires AllSpace(ws) && Delimits(At(rest, 0))
    ensures Delimits(At(ws + rest, 0))
  {
    if ws == "" { assert ws + rest == rest; } else { assert (ws + rest)[0] == ws[0]; }
  }

  /** The first element of a well-formed list is read up to the ',' or close after it. */
  lemma {:induction false} ElemParses(es: seq<Elem>, close: string)
    requires ValidElems(es) && es != [] && Solid(At(close, 0)) && Delimits(At(close, 0))
    ensures var u := ElemsText(es) + close;
            && Skip(Skip(u)) == Skip(u)
            && ParseValue(Skip(u)) == Parsed(Built(es[0].value), es[0].after + ElemsTail(es, close))
            && Skip(es[0].after + ElemsTail(es, close)) == ElemsTail(es, close)
    decreases es, 0
  {
    var e, tail := es[0], ElemsTail(es, close);
    ArrayOpens(es, close);
    SkipTwice(ElemsText(es) + close);
    assert Solid(At(tail, 0)) && Delimits(At(tail, 0));
    SpaceDelimits(e.after, tail);
    ValueParses(e.value, e.after + tail);
    SkipSpace(e.after, tail);
  }

  lemma {:induction false} ElemsParse(es: seq<Elem>, rest: string, acc: seq<Value>)
    requires ValidElems(es) && es != []
    ensures ParseElems(ElemsText(es) + ("]" + rest), acc) == Parsed(Array(acc + ElemValues(es)), rest)
    ensures ParseElems(Skip(ElemsText(es) + ("]" + rest)), acc) == Parsed(Array(acc + ElemValues(es)), rest)
    decreases es, 1
  {
    var close := "]" + rest;
    ElemParses(es, close);
    var tail, v := ElemsTail(es, close), Built(es[0].value);
    if |es| == 1 {
      assert tail[1..] == rest;
      assert ElemValues(es) == [v] + [];
      assert acc + [v] == acc + ElemValues(es);
    } else {
      assert tail[1..] == ElemsText(es[1..]) + close;
      ElemsParse(es[1..], rest, acc + [v]);
      assert acc + [v] + ElemValues(es[1..]) == acc + ElemValues(es);
    }
  }

  /** What stands after the value of the first member. */
  function FieldsTail(fs: seq<Field>, close: string): string
    requires fs != []
  {
    if |fs| == 1 then close else "," + (FieldsText(fs[1..]) + close)
  }

  /** From the colon of the first member on. */
  function ColonTail(fs: seq<Field>, close: string): string
    requires fs != []
  {
    ":" + (fs[0].afterColon + (SyntaxText(fs[0].value) + (fs[0].after + FieldsTail(fs, close))))
  }

  lemma {:induction false} FieldsSplit(fs: seq<Field>, close: string)
    requires fs != []
    ensures FieldsText(fs) + close ==
            fs[0].before + (Quoted(fs[0].name) + (fs[0].beforeColon + ColonTail(fs, close)))
  {
    var f := fs[0];
    var more := if |fs| == 1 then "" else "," + FieldsText(fs[1..]);
    var a := SyntaxText(f.value) + (f.after + more);
    var b := ":" + (f.afterColon + a);
    Assoc(f.before, Quoted(f.name) + (f.beforeColon + b), close);
    Assoc(Quoted(f.name), f.beforeColon + b, close);
    Assoc(f.beforeColon, b, close);
    Assoc(":", f.afterColon + a, close);
    Assoc(f.afterColon, a, close);
    Assoc(SyntaxText(f.value), f.after + more, close);
    Assoc(f.after, more, close);
    if |fs| == 1 { assert more + close == close; } else { Assoc(",", FieldsText(fs[1..]), close); }
  }

  lemma {:induction false} ObjectOpens(fs: seq<Field>, close: string)
    requires ValidFields(fs) && fs != []
    ensures var u := FieldsText(fs) + close;
            var z := Quoted(fs[0].name) + (fs[0].beforeColon + ColonTail(fs, close));
            Skip(u) == z && z != "" && z[0] != '}'
  {
    FieldsSplit(fs, close);
    var z := Quoted(fs[0].name) + (fs[0].beforeColon + ColonTail(fs, close));
    assert z[0] == '\"';
    SkipSpace(fs[0].before, z);
  }

  /** The first member of a well-formed list is read up to the ',' or close after it. */
  lemma {:induction false} FieldParses(fs: seq<Field>, close: string)
    requires ValidFields(fs) && fs != [] && Solid(At(close, 0)) && Delimits(At(close, 0))
    ensures var r := Parsed(Member(Decoded(fs[0].name), Built(fs[0].value)), FieldsTail(fs, close));
            && ParseField(FieldsText(fs) + close) == r
            && ParseField(Skip(FieldsText(fs) + close)) == r
    decreases fs, 0
  {
    var f, tail := fs[0], FieldsTail(fs, close);
    var colon := ColonTail(fs, close);
    ObjectOpens(fs, close);
    SkipTwice(FieldsText(fs) + close);
    StringParses(f.name, f.beforeColon + colon);
    SkipSpace(f.beforeColon, colon);
    var z := SyntaxText(f.value) + (f.after + tail);
    assert colon[1..] == f.afterColon + z;
    FirstByte(f.value);
    assert z[0] == SyntaxText(f.value)[0];
    SkipSpace(f.afterColon, z);
    assert Solid(At(tail, 0)) && Delimits(At(tail, 0));
    SpaceDelimits(f.after, tail);
    ValueParses(f.value, f.after + tail);
    SkipSpace(f.after, tail);
  }

  /** The member loop depends on its text only through the first member. */
  lemma SameFields(u: string, u': string, acc: seq<Member>)
    requires ParseField(u) == ParseField(u')
    ensures ParseFields(u, acc) == ParseFields(u', acc)
  {
  }

  lemma {:induction false} FieldsParse(fs: seq<Field>, rest: string, acc: seq<Member>)
    requires ValidFields(fs) && fs != []
    ensures ParseFields(FieldsText(fs) + ("}" + rest), acc) == Parsed(Object(acc + FieldValues(fs)), rest)
    decreases fs, 1
  {
    var close := "}" + rest;
    FieldParses(fs, close);
    var tail := FieldsTail(fs, close);
    var m := Member(Decoded(fs[0].name), Built(fs[0].value));
    if |fs| == 1 {
      assert tail[1..] == rest;
      assert FieldValues(fs) == [m] + [];
      assert acc + [m] == acc + FieldValues(fs);
    } else {
      assert tail[1..] == FieldsText(fs[1..]) + close;
      FieldsParse(fs[1..], rest, acc + [m]);
      assert acc + [m] + FieldValues(fs[1..]) == acc + FieldValues(fs);
    }
  }

  /** A whole well-formed text parses to its tree and, up to white space, to its end. */
  lemma {:induction false} DocumentParses(before: string, x: Syntax, after: string, requireEnd: bool)
    requires AllSpace(before) && ValidSyntax(x) && AllSpace(after)
    ensures ParseDocument(before + (SyntaxText(x) + after), requireEnd) ==
            Parsed(Built(x), if requireEnd then "" else after)
  {
    FirstByte(x);
    assert (SyntaxText(x) + after)[0] == SyntaxText(x)[0];
    SkipSpace(before, SyntaxText(x) + after);
    ValueParses(x, after);
    SkipSpace(after, "");
    assert after + "" == after;
  }

  /** With something else after the value, the text is refused if its end is required, and read up to there if not. */
  lemma {:induction false} DocumentTrails(before: string, x: Syntax, after: string, more: string, requireEnd: bool)
    requires AllSpace(before) && ValidSyntax(x) && AllSpace(after)
    requires more != "" && more[0] as int > 32 && Delimits(At(after + more, 0))
    ensures ParseDocument(before + (SyntaxText(x) + (after + more)), requireEnd) ==
            if requireEnd then Rejected else Parsed(Built(x), after + more)
  {
    FirstByte(x);
    assert (SyntaxText(x) + (after + more))[0] == SyntaxText(x)[0];
    SkipSpace(before, SyntaxText(x) + (after + more));
    ValueParses(x, after + more);
    SkipSpace(after, more);
  }
}
