/** `cJSON_Minify`: dropping white space and comments in place. */
module JsonMinify {
  import opened CText
  import opened Json
  import opened JsonString
  import opened JsonGrammar
  import opened JsonParser
  import JsonNumber

  /** `Overrun` marks texts on which the C loop walks past the terminator. */
  datatype Minified = Kept(text: string) | Overrun

  /** Where a `//` comment stops: at its line break or at the end. */
  function LineEnd(t: string): (r: string)
    ensures |r| <= |t|
  {
    if t == "" || t[0] == '\n' then t else LineEnd(t[1..])
  }

  /** Where the search for the end of a block comment stops. */
  function BlockEnd(t: string): (r: string)
    ensures |r| <= |t|
    ensures r != "" ==> |r| >= 2
  {
    if t == "" || (t[0] == '*' && At(t, 1) == '/') then t else BlockEnd(t[1..])
  }

  /** Bytes up to and including the closing quote, `t` pointing after the opening one; -1 if there is none. */
  function LiteralSpan(t: string): (k: int)
    ensures -1 <= k <= |t| && k != 0
    decreases |t|
  {
    if t == "" then -1
    else if t[0] == '\"' then 1
    else
      var step := if t[0] == '\\' then 2 else 1;
      if |t| < step then -1
      else
        var k := LiteralSpan(t[step..]);
        if k < 0 then -1 else step + k
  }

  /** The bytes kept from `t`, after the bytes `acc` kept so far. */
  function Minify(t: string, acc: string): Minified
    decreases |t|
  {
    if t == "" then Kept(acc)
    else if IsSpace(t[0]) then Minify(t[1..], acc)
    else if t[0] == '/' && At(t, 1) == '/' then Minify(LineEnd(t), acc)
    else if t[0] == '/' && At(t, 1) == '*' then
      var r := BlockEnd(t);
      if r == "" then Overrun else Minify(r[2..], acc)
    else if t[0] == '\"' then
      var k := LiteralSpan(t[1..]);
      if k < 0 then Overrun else Minify(t[1 + k..], acc + t[..1 + k])
    else Minify(t[1..], acc + [t[0]])
  }

  // ----- the grammar's view: minifying erases the gaps

  function Strip(x: Syntax): Syntax
    decreases x
  {
    match x
    case SArray(_, es) => SArray("", StripElems(es))
    case SObject(_, fs) => SObject("", StripFields(fs))
    case _ => x
  }

  function StripElems(es: seq<Elem>): (r: seq<Elem>)
    ensures |r| == |es|
    decreases es
  {
    if es == [] then [] else [Elem("", Strip(es[0].value), "")] + StripElems(es[1..])
  }

  function StripFields(fs: seq<Field>): (r: seq<Field>)
    ensures |r| == |fs|
    decreases fs
  {
    if fs == [] then []
    else [Field("", fs[0].name, "", "", Strip(fs[0].value), "")] + StripFields(fs[1..])
  }

  /** Erasing the gaps keeps the tree valid and keeps what it builds. */
  lemma {:induction false} StripBuilds(x: Syntax)
    requires ValidSyntax(x)
    ensures ValidSyntax(Strip(x)) && Built(Strip(x)) == Built(x)
    decreases x
  {
    match x
    case SArray(_, es) => StripElemsBuild(es);
    case SObject(_, fs) => StripFieldsBuild(fs);
    case _ =>
  }

  lemma {:induction false} StripElemsBuild(es: seq<Elem>)
    requires ValidElems(es)
    ensures ValidElems(StripElems(es)) && ElemValues(StripElems(es)) == ElemValues(es)
    decreases es
  {
    if es != [] {
      StripBuilds(es[0].value);
      StripElemsBuild(es[1..]);
      assert StripElems(es)[1..] == StripElems(es[1..]);
    }
  }

  lemma {:induction false} StripFieldsBuild(fs: seq<Field>)
    requires ValidFields(fs)
    ensures ValidFields(StripFields(fs)) && FieldValues(StripFields(fs)) == FieldValues(fs)
    decreases fs
  {
    if fs != [] {
      StripBuilds(fs[0].value);
      StripFieldsBuild(fs[1..]);
      assert StripFields(fs)[1..] == StripFields(fs[1..]);
    }
  }

  /** Bytes that are copied one by one. */
  predicate Plain(c: char) {
    !IsSpace(c) && c != '/' && c != '\"'
  }

  lemma {:induction false} MinifyPlain(p: string, rest: string, acc: string)
    requires forall i :: 0 <= i < |p| ==> Plain(p[i])
    ensures Minify(p + rest, acc) == Minify(rest, acc + p)
    decreases |p|
  {
    if p == "" {
      assert p + rest == rest && acc + p == acc;
    } else {
      assert (p + rest)[1..] == p[1..] + rest;
      MinifyPlain(p[1..], rest, acc + [p[0]]);
      assert acc + [p[0]] + p[1..] == acc + p;
    }
  }

  lemma {:induction false} MinifySpace(ws: string, rest: string, acc: string)
    requires AllSpace(ws)
    ensures Minify(ws + rest, acc) == Minify(rest, acc)
    decreases |ws|
  {
    if ws == "" {
      assert ws + rest == rest;
    } else {
      assert (ws + rest)[1..] == ws[1..] + rest;
      MinifySpace(ws[1..], rest, acc);
    }
  }

  lemma {:induction false} LiteralHex(h: string, t: string)
    requires IsHex4(h) && LiteralSpan(t) > 0
    ensures LiteralSpan(h + t) == 4 + LiteralSpan(t)
  {
    assert (h + t)[1..] == h[1..] + t && (h[1..] + t)[1..] == h[2..] + t;
    assert (h[2..] + t)[1..] == h[3..] + t && (h[3..] + t)[1..] == t;
    assert LiteralSpan(h[3..] + t) == 1 + LiteralSpan(t);
    assert LiteralSpan(h[2..] + t) == 2 + LiteralSpan(t);
    assert LiteralSpan(h[1..] + t) == 3 + LiteralSpan(t);
  }

  lemma {:induction false} LiteralItem(x: Item, u: string)
    requires ValidItem(x) && LiteralSpan(u) > 0
    ensures LiteralSpan(ItemText(x) + u) == |ItemText(x)| + LiteralSpan(u)
  {
    var t := ItemText(x) + u;
    match x
    case Raw(c) => assert t[1..] == u;
    case Short(c) => assert t[2..] == u;
    case Unicode(h) =>
      assert t[2..] == h + u;
      LiteralHex(h, u);
  }

  lemma {:induction false} LiteralItems(xs: seq<Item>, rest: string)
    requires ValidItems(xs)
    ensures LiteralSpan(ItemsText(xs) + ("\"" + rest)) == |ItemsText(xs)| + 1
  {
    var close := "\"" + rest;
    if xs == [] {
      assert ItemsText(xs) + close == close;
    } else {
      LiteralItems(xs[1..], rest);
      LiteralItem(xs[0], ItemsText(xs[1..]) + close);
      Assoc(ItemText(xs[0]), ItemsText(xs[1..]), close);
    }
  }

  lemma {:induction false} MinifyQuoted(body: string, rest: string, acc: string)
    requires LiteralSpan(body + ("\"" + rest)) == |body| + 1
    ensures Minify("\"" + body + "\"" + rest, acc) == Minify(rest, acc + ("\"" + body + "\""))
  {
    var q := "\"" + body + "\"";
    var t := q + rest;
    assert t[1..] == body + ("\"" + rest);
    assert t[|q|..] == rest && t[..|q|] == q;
  }

  lemma {:induction false} MinifyLiteral(xs: seq<Item>, rest: string, acc: string)
    requires ValidItems(xs)
    ensures Minify(Quoted(xs) + rest, acc) == Minify(rest, acc + Quoted(xs))
  {
    LiteralItems(xs, rest);
    MinifyQuoted(ItemsText(xs), rest, acc);
  }

  lemma {:induction false} TokenPlain(k: JsonNumber.Token)
    requires JsonNumber.Valid(k)
    ensures forall i :: 0 <= i < |JsonNumber.TokenText(k)| ==> Plain(JsonNumber.TokenText(k)[i])
  {
    var f, e := JsonNumber.FractionText(k.frac), JsonNumber.ExponentText(k.exp);
    assert forall i :: 0 <= i < |f| ==> Plain(f[i]);
    assert forall i :: 0 <= i < |e| ==> Plain(e[i]);
    assert forall i :: 0 <= i < |k.whole| ==> Plain(k.whole[i]);
  }

  /** Minifying a well-formed value keeps exactly the text without gaps. */
  lemma {:induction false} MinifyValue(x: Syntax, rest: string, acc: string)
    requires ValidSyntax(x)
    ensures Minify(SyntaxText(x) + rest, acc) == Minify(rest, acc + SyntaxText(Strip(x)))
    decreases x, 1
  {
    match x
    case SNumber(k) => TokenPlain(k); MinifyPlain(SyntaxText(x), rest, acc);
    case SString(us) => MinifyLiteral(us, rest, acc);
    case SArray(gap, es) =>
      if es == [] {
        MinifyBracket("[", gap, "]", rest, acc);
      } else {
        MinifyOpen("[", ElemsText(es) + "]", rest, acc);
        Assoc(ElemsText(es), "]", rest);
        MinifyElems(es, "]" + rest, acc + "[");
        MinifyClose("[", ElemsText(StripElems(es)), "]", rest, acc);
      }
    case SObject(gap, fs) =>
      if fs == [] {
        MinifyBracket("{", gap, "}", rest, acc);
      } else {
        MinifyOpen("{", FieldsText(fs) + "}", rest, acc);
        Assoc(FieldsText(fs), "}", rest);
        MinifyFields(fs, "}" + rest, acc + "{");
        MinifyClose("{", FieldsText(StripFields(fs)), "}", rest, acc);
      }
    case _ => MinifyPlain(SyntaxText(x), rest, acc);
  }

  lemma {:induction false} MinifyOpen(open: string, body: string, rest: string, acc: string)
    requires |open| == 1 && Plain(open[0])
    ensures Minify((open + body) + rest, acc) == Minify(body + rest, acc + open)
  {
    Assoc(open, body, rest);
    MinifyPlain(open, body + rest, acc);
  }

  lemma {:induction false} MinifyClose(open: string, body: string, close: string, rest: string, acc: string)
    requires |close| == 1 && Plain(close[0])
    ensures Minify(close + rest, acc + open + body) == Minify(rest, acc + (open + (body + close)))
  {
    MinifyPlain(close, rest, acc + open + body);
    Assoc(acc + open, body, close);
    Assoc(acc, open, body + close);
  }

  lemma {:induction false} MinifyBracket(open: string, gap: string, close: string, rest: string, acc: string)
    requires |open| == 1 && Plain(open[0]) && |close| == 1 && Plain(close[0]) && AllSpace(gap)
    ensures Minify((open + (gap + close)) + rest, acc) == Minify(rest, acc + (open + ("" + close)))
  {
    MinifyOpen(open, gap + close, rest, acc);
    Assoc(gap, close, rest);
    MinifySpace(gap, close + rest, acc + open);
    MinifyClose(open, "", close, rest, acc);
    assert acc + open + "" == acc + open;
  }

  lemma {:induction false} MinifyElem(es: seq<Elem>, rest: string, acc: string)
    requires ValidElems(es) && es != []
    ensures Minify(ElemsText(es) + rest, acc) ==
            Minify(ElemsTail(es, rest), acc + SyntaxText(Strip(es[0].value)))
    decreases es, 0
  {
    var e, tail := es[0], ElemsTail(es, rest);
    ElemsSplit(es, rest);
    MinifySpace(e.before, SyntaxText(e.value) + (e.after + tail), acc);
    MinifyValue(e.value, e.after + tail, acc);
    MinifySpace(e.after, tail, acc + SyntaxText(Strip(e.value)));
  }

  lemma {:induction false} MinifyElems(es: seq<Elem>, rest: string, acc: string)
    requires ValidElems(es) && es != []
    ensures Minify(ElemsText(es) + rest, acc) == Minify(rest, acc + ElemsText(StripElems(es)))
    decreases es, 1
  {
    MinifyElem(es, rest, acc);
    var head := SyntaxText(Strip(es[0].value));
    var ss := StripElems(es);
    assert ss[1..] == StripElems(es[1..]);
    var more := if |es| == 1 then "" else "," + ElemsText(ss[1..]);
    assert ElemsText(ss) == head + more by {
      assert "" + more == more && "" + (head + more) == head + more;
    }
    if |es| == 1 {
      assert head + "" == head;
    } else {
      MinifyPlain(",", ElemsText(es[1..]) + rest, acc + head);
      MinifyElems(es[1..], rest, acc + head + ",");
      Assoc(acc + head, ",", ElemsText(ss[1..]));
      Assoc(acc, head, more);
    }
  }

  lemma {:induction false} MinifyField(fs: seq<Field>, rest: string, acc: string)
    requires ValidFields(fs) && fs != []
    ensures Minify(FieldsText(fs) + rest, acc) ==
            Minify(FieldsTail(fs, rest), acc + (Quoted(fs[0].name) + (":" + SyntaxText(Strip(fs[0].value)))))
    decreases fs, 0
  {
    var f, tail := fs[0], FieldsTail(fs, rest);
    FieldsSplit(fs, rest);
    var name, body := Quoted(f.name), SyntaxText(Strip(f.value));
    var z := SyntaxText(f.value) + (f.after + tail);
    MinifySpace(f.before, name + (f.beforeColon + ColonTail(fs, rest)), acc);
    MinifyLiteral(f.name, f.beforeColon + ColonTail(fs, rest), acc);
    MinifySpace(f.beforeColon, ColonTail(fs, rest), acc + name);
    MinifyPlain(":", f.afterColon + z, acc + name);
    MinifySpace(f.afterColon, z, acc + name + ":");
    MinifyValue(f.value, f.after + tail, acc + name + ":");
    MinifySpace(f.after, tail, acc + name + ":" + body);
    Assoc(acc + name, ":", body);
    Assoc(acc, name, ":" + body);
  }

  lemma {:induction false} MinifyFields(fs: seq<Field>, rest: string, acc: string)
    requires ValidFields(fs) && fs != []
    ensures Minify(FieldsText(fs) + rest, acc) == Minify(rest, acc + FieldsText(StripFields(fs)))
    decreases fs, 1
  {
    MinifyField(fs, rest, acc);
    var name, body := Quoted(fs[0].name), SyntaxText(Strip(fs[0].value));
    var ss := StripFields(fs);
    assert ss[1..] == StripFields(fs[1..]);
    var more := if |fs| == 1 then "" else "," + FieldsText(ss[1..]);
    var head := name + (":" + body);
    assert FieldsText(ss) == head + more by {
      assert "" + more == more && "" + (body + more) == body + more;
      assert "" + (":" + (body + more)) == ":" + (body + more);
      Assoc(name, ":" + body, more);
      Assoc(":", body, more);
      assert "" + (name + (":" + (body + more))) == name + (":" + (body + more));
    }
    if |fs| == 1 {
      assert head + "" == head;
    } else {
      MinifyPlain(",", FieldsText(fs[1..]) + rest, acc + head);
      MinifyFields(fs[1..], rest, acc + head + ",");
      Assoc(acc + head, ",", FieldsText(ss[1..]));
      Assoc(acc, head, more);
    }
  }

  /** Minifying a well-formed comment-free text keeps a gap-free text that parses to the same tree. */
  lemma {:induction false} MinifyPreservesMeaning(before: string, x: Syntax, after: string)
    requires AllSpace(before) && ValidSyntax(x) && AllSpace(after)
    ensures var doc := before + (SyntaxText(x) + after);
            && Minify(doc, "") == Kept(SyntaxText(Strip(x)))
            && ParseDocument(Minify(doc, "").text, true) == ParseDocument(doc, true) == Parsed(Built(x), "")
  {
    MinifySpace(before, SyntaxText(x) + after, "");
    MinifyValue(x, after, "");
    var s := SyntaxText(Strip(x));
    assert "" + s == s && after + "" == after;
    MinifySpace(after, "", s);
    DocumentParses(before, x, after, true);
    StripBuilds(x);
    DocumentParses("", Strip(x), "", true);
    assert "" + (s + "") == s;
  }

  // ----- the loop, in place

  /** From index `j` on, `json` still holds `t` and its terminator. */
  ghost predicate Holds(json: array<char>, t: string, j: nat)
    reads json
  {
    j <= |t| < json.Length && forall k :: j <= k <= |t| ==> json[k] == At(t, k)
  }

  lemma Advance(t: string, j: nat)
    requires j < |t|
    ensures t[j..][1..] == t[j + 1..] && t[j..][0] == t[j] && At(t[j..], 1) == At(t, j + 1) && t[j..] != ""
  {
  }

  /** `while (*json && *json != '\n') json++` */
  method SkipLine(json: array<char>, ghost t: string, start: nat) returns (j: nat)
    requires NulFree(t) && Holds(json, t, start)
    ensures start <= j <= |t| && t[j..] == LineEnd(t[start..])
  {
    j := start;
    while json[j] != '\0' && json[j] != '\n'
      invariant start <= j <= |t|
      invariant LineEnd(t[j..]) == LineEnd(t[start..])
      decreases |t| - j
    {
      Advance(t, j);
      j := j + 1;
    }
    if j < |t| { Advance(t, j); }
  }

  /** `while (*json && !(*json == '*' && json[1] == '/')) json++` */
  method SkipBlock(json: array<char>, ghost t: string, start: nat) returns (j: nat)
    requires NulFree(t) && Holds(json, t, start)
    ensures start <= j <= |t| && t[j..] == BlockEnd(t[start..])
  {
    j := start;
    while json[j] != '\0' && !(json[j] == '*' && json[j + 1] == '/')
      invariant start <= j <= |t|
      invariant BlockEnd(t[j..]) == BlockEnd(t[start..])
      decreases |t| - j
    {
      Advance(t, j);
      j := j + 1;
    }
    if j < |t| { Advance(t, j); }
  }

  /** `*into++ = *json++` */
  method CopyByte(json: array<char>, ghost t: string, j: nat, i: nat)
    requires i <= j < |t| && Holds(json, t, j)
    modifies json
    ensures json[..i + 1] == old(json[..i]) + [t[j]]
    ensures Holds(json, t, j + 1)
  {
    json[i] := json[j];
  }

  lemma Joined(was: string, t: string, a: nat, b: nat, c: nat)
    requires a <= b <= c <= |t|
    ensures was + t[a..b] + t[b..c] == was + t[a..c]
  {
    assert t[a..b] + t[b..c] == t[a..c];
    Assoc(was, t[a..b], t[b..c]);
  }

  /** The index after the closing quote of the literal that index `j` is inside of, or -1. */
  function LiteralEnd(t: string, j: nat): int
    requires j <= |t|
  {
    var k := LiteralSpan(t[j..]);
    if k < 0 then -1 else j + k
  }

  /** One turn of the literal loop: a byte, or a backslash and the byte after it. */
  method CopyUnit(json: array<char>, ghost t: string, j: nat, i: nat, ghost end: nat) returns (step: nat)
    requires i <= j < |t| && Holds(json, t, j)
    requires t[j] != '\"' && end == LiteralEnd(t, j) > 0
    modifies json
    ensures 1 <= step <= 2 && j + step <= |t| && Holds(json, t, j + step)
    ensures json[..i + step] == old(json[..i]) + t[j..j + step]
    ensures LiteralEnd(t, j + step) == end
  {
    Advance(t, j);
    if json[j] == '\\' {
      assert t[j..][2..] == t[j + 2..];
      CopyByte(json, t, j, i);
      CopyByte(json, t, j + 1, i + 1);
      step := 2;
      assert t[j..j + 2] == [t[j]] + [t[j + 1]];
    } else {
      CopyByte(json, t, j, i);
      step := 1;
      assert t[j..j + 1] == [t[j]];
    }
  }

  /** The literal loop: everything up to the closing quote. */
  method CopyUnits(json: array<char>, ghost t: string, start: nat, into: nat, ghost end: nat) returns (j: nat, i: nat)
    requires NulFree(t) && into <= start <= |t| && Holds(json, t, start) && end == LiteralEnd(t, start) > 0
    modifies json
    ensures start <= j < |t| && i - into == j - start && Holds(json, t, j)
    ensures t[j] == '\"' && end == j + 1
    ensures json[..i] == old(json[..into]) + t[start..j]
  {
    i, j := into, start;
    ghost var was := old(json[..into]);
    assert was + t[start..start] == was;
    while json[j] != '\0' && json[j] != '\"'
      invariant start <= j <= |t| && i - into == j - start && Holds(json, t, j)
      invariant LiteralEnd(t, j) == end
      invariant json[..i] == was + t[start..j]
      decreases |t| - j
    {
      ghost var j0 := j;
      var step := CopyUnit(json, t, j, i, end);
      i, j := i + step, j + step;
      Joined(was, t, start, j0, j);
    }
    assert json[j] == At(t, j);
  }

  /** Copying a literal, its opening quote at `start`, to `into`. */
  method CopyLiteral(json: array<char>, ghost t: string, start: nat, into: nat) returns (j: nat, i: nat)
    requires NulFree(t) && Holds(json, t, start) && into <= start < |t|
    requires LiteralEnd(t, start + 1) > 0
    modifies json
    ensures start < j <= |t| && j == LiteralEnd(t, start + 1) && i - into == j - start
    ensures json[..i] == old(json[..into]) + t[start..j]
    ensures Holds(json, t, j)
  {
    ghost var was, end := json[..into], LiteralEnd(t, start + 1);
    CopyByte(json, t, start, into);
    assert t[start..start + 1] == [t[start]];
    j, i := CopyUnits(json, t, start + 1, into + 1, end);
    Joined(was, t, start, start + 1, j);
    CopyByte(json, t, j, i);
    assert t[j..j + 1] == [t[j]];
    Joined(was, t, start, j, j + 1);
    i, j := i + 1, j + 1;
  }

  /** A comment at `j`: where reading goes on. */
  method SkipComment(json: array<char>, ghost t: string, j: nat, ghost acc: string) returns (j': nat)
    requires NulFree(t) && j < |t| && Holds(json, t, j)
    requires t[j] == '/' && (At(t, j + 1) == '/' || At(t, j + 1) == '*') && Minify(t[j..], acc).Kept?
    ensures j < j' <= |t| && Minify(t[j'..], acc) == Minify(t[j..], acc)
  {
    Advance(t, j);
    if json[j + 1] == '/' {
      j' := SkipLine(json, t, j);
    } else {
      j' := SkipBlock(json, t, j);
      assert t[j'..][2..] == t[j' + 2..];
      j' := j' + 2;
    }
  }

  /** One turn of the main loop. */
  method MinifyTurn(json: array<char>, ghost t: string, j: nat, i: nat) returns (j': nat, i': nat)
    requires NulFree(t) && i <= j < |t| && Holds(json, t, j)
    requires Minify(t[j..], json[..i]).Kept?
    modifies json
    ensures j < j' <= |t| && i' <= j' && Holds(json, t, j')
    ensures Minify(t[j'..], json[..i']) == Minify(t[j..], old(json[..i]))
  {
    Advance(t, j);
    j', i' := j + 1, i;
    if IsSpace(json[j]) {
    } else if json[j] == '/' && (json[j + 1] == '/' || json[j + 1] == '*') {
      j' := SkipComment(json, t, j, json[..i]);
    } else if json[j] == '\"' {
      ghost var k := LiteralSpan(t[j + 1..]);
      assert t[j..][1 + k..] == t[j + 1 + k..] && t[j..][..1 + k] == t[j..j + 1 + k];
      j', i' := CopyLiteral(json, t, j, i);
    } else {
      CopyByte(json, t, j, i);
      i' := i + 1;
    }
  }

  /**
   * The whole loop: the write cursor never passes the read cursor, and the
   * array ends up holding the minified text and a terminator.
   */
  method MinifyInPlace(json: array<char>, ghost t: string) returns (ghost n: nat)
    requires NulFree(t) && Holds(json, t, 0) && Minify(t, "").Kept?
    modifies json
    ensures n <= |t| && json[..n] == Minify(t, "").text && json[n] == '\0'
  {
    var i, j := 0, 0;
    assert json[..0] == "" && t[0..] == t;
    while json[j] != '\0'
      invariant 0 <= i <= j <= |t| && Holds(json, t, j)
      invariant Minify(t, "") == Minify(t[j..], json[..i])
      decreases |t| - j
    {
      j, i := MinifyTurn(json, t, j, i);
    }
    assert t[j..] == "";
    json[i] := '\0';
    n := i;
  }
}
