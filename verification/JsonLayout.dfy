/** Where the printers put white space, and that the minifier takes exactly that out. */
module JsonLayout {
  import opened CText
  import opened Json
  import opened JsonString
  import opened JsonGrammar
  import opened JsonParser
  import opened JsonPrinter
  import opened JsonMinify

  // ----- no white space outside string literals

  /** String literals, and other bytes none of which is white space. */
  predicate Solid(t: string)
    decreases |t|
  {
    if t == "" then true
    else if t[0] == '\"' then
      var k := LiteralSpan(t[1..]);
      k > 0 && Solid(t[1 + k..])
    else !IsSpace(t[0]) && Solid(t[1..])
  }

  lemma {:induction false} SpanAppend(a: string, b: string)
    requires LiteralSpan(a) > 0
    ensures LiteralSpan(a + b) == LiteralSpan(a)
    decreases |a|
  {
    if a[0] != '\"' {
      var step := if a[0] == '\\' then 2 else 1;
      assert (a + b)[step..] == a[step..] + b;
      SpanAppend(a[step..], b);
    }
  }

  lemma SolidLiteral(a: string, b: string, k: nat)
    requires a != "" && a[0] == '\"' && k == LiteralSpan(a[1..]) > 0 && Solid(a[1 + k..] + b)
    ensures Solid(a + b)
  {
    SpanAppend(a[1..], b);
    assert (a + b)[1..] == a[1..] + b;
    assert (a + b)[1 + k..] == a[1 + k..] + b;
  }

  lemma {:induction false} SolidAppend(a: string, b: string)
    requires Solid(a) && Solid(b)
    ensures Solid(a + b)
    decreases |a|
  {
    if a == "" {
      assert a + b == b;
    } else if a[0] == '\"' {
      var k := LiteralSpan(a[1..]);
      SolidAppend(a[1 + k..], b);
      SolidLiteral(a, b, k);
    } else {
      assert (a + b)[1..] == a[1..] + b;
      SolidAppend(a[1..], b);
    }
  }

  lemma {:induction false} SpanPrefix(t: string)
    requires LiteralSpan(t) > 0
    ensures LiteralSpan(t[..LiteralSpan(t)]) == LiteralSpan(t)
    decreases |t|
  {
    var k := LiteralSpan(t);
    if t[0] != '\"' {
      var step := if t[0] == '\\' then 2 else 1;
      SpanPrefix(t[step..]);
      assert t[..k][step..] == t[step..][..k - step];
    }
  }

  lemma LiteralSolid(t: string)
    requires t != "" && t[0] == '\"' && LiteralSpan(t[1..]) > 0
    ensures Solid(t[..1 + LiteralSpan(t[1..])])
  {
    var k := LiteralSpan(t[1..]);
    SpanPrefix(t[1..]);
    assert t[..1 + k][1..] == t[1..][..k];
    assert t[..1 + k][1 + k..] == "";
  }

  /** Whatever it is given, the minifier leaves no white space outside string literals. */
  lemma {:induction false} MinifySolid(t: string, acc: string)
    requires Solid(acc) && Minify(t, acc).Kept?
    ensures Solid(Minify(t, acc).text)
    decreases |t|
  {
    if t == "" {
    } else if IsSpace(t[0]) {
      MinifySolid(t[1..], acc);
    } else if t[0] == '/' && At(t, 1) == '/' {
      MinifySolid(LineEnd(t), acc);
    } else if t[0] == '/' && At(t, 1) == '*' {
      MinifySolid(BlockEnd(t)[2..], acc);
    } else if t[0] == '\"' {
      var k := LiteralSpan(t[1..]);
      LiteralSolid(t);
      SolidAppend(acc, t[..1 + k]);
      MinifySolid(t[1 + k..], acc + t[..1 + k]);
    } else {
      SolidAppend(acc, [t[0]]);
      MinifySolid(t[1..], acc + [t[0]]);
    }
  }

  // ----- comments

  /** A line comment goes, up to its line break. */
  lemma {:induction false} LineComment(line: string, rest: string, acc: string)
    requires '\n' !in line
    ensures Minify("//" + line + ("\n" + rest), acc) == Minify(rest, acc)
  {
    var t := "//" + line + ("\n" + rest);
    LineEnds("//" + line, rest);
    assert ("\n" + rest)[1..] == rest;
    assert t[0] == '/' && At(t, 1) == '/';
  }

  lemma {:induction false} LineEnds(x: string, rest: string)
    requires '\n' !in x
    ensures LineEnd(x + ("\n" + rest)) == "\n" + rest
  {
    if x == "" {
      assert x + ("\n" + rest) == "\n" + rest;
    } else {
      assert (x + ("\n" + rest))[1..] == x[1..] + ("\n" + rest);
      LineEnds(x[1..], rest);
    }
  }

  predicate NoBlockEnd(x: string) { forall i :: 0 <= i < |x| - 1 ==> !(x[i] == '*' && x[i + 1] == '/') }

  lemma {:induction false} BlockEnds(x: string, rest: string)
    requires NoBlockEnd(x + "*")
    ensures BlockEnd(x + ("*/" + rest)) == "*/" + rest
  {
    var t := x + ("*/" + rest);
    if x == "" {
      assert t == "*/" + rest;
    } else {
      assert t[1..] == x[1..] + ("*/" + rest);
      assert forall i :: 0 <= i < |x[1..] + "*"| ==> (x[1..] + "*")[i] == (x + "*")[i + 1];
      assert t[0] == (x + "*")[0] && At(t, 1) == (x + "*")[0 + 1];
      BlockEnds(x[1..], rest);
    }
  }

  /** A block comment goes; the star that opens it can also close it. */
  lemma {:induction false} BlockComment(body: string, rest: string, acc: string)
    requires NoBlockEnd("/*" + body + "*")
    ensures Minify("/*" + body + ("*/" + rest), acc) == Minify(rest, acc)
  {
    var t := "/*" + body + ("*/" + rest);
    BlockEnds("/*" + body, rest);
    assert ("*/" + rest)[2..] == rest;
    assert t[0] == '/' && At(t, 1) == '*';
  }

  // ----- formatted and unformatted text

  /** Erasing the gaps of any layout gives the unformatted one. */
  lemma {:induction false} StripLayout(v: Value, depth: nat, fmt: bool, depth': nat)
    requires Printable(v)
    ensures Strip(Layout(v, depth, fmt)) == Layout(v, depth', false)
    decreases v
  {
    match v
    case Array(items) => StripItems(items, true, depth + 1, fmt, depth' + 1);
    case Object(members) => StripMembers(members, depth + 1, fmt, depth' + 1);
    case _ =>
  }

  lemma {:induction false} StripItems(items: seq<Value>, first: bool, depth: nat, fmt: bool, depth': nat)
    requires forall x :: x in items ==> Printable(x)
    ensures StripElems(LayoutItems(items, first, depth, fmt)) == LayoutItems(items, first, depth', false)
    decreases items
  {
    if items != [] {
      StripLayout(items[0], depth, fmt, depth');
      StripItems(items[1..], false, depth, fmt, depth');
      assert LayoutItems(items, first, depth, fmt)[1..] == LayoutItems(items[1..], false, depth, fmt);
    }
  }

  lemma {:induction false} StripMembers(ms: seq<Member>, depth: nat, fmt: bool, depth': nat)
    requires forall m :: m in ms ==> NulFree(m.name) && Printable(m.value)
    ensures StripFields(LayoutMembers(ms, depth, fmt)) == LayoutMembers(ms, depth', false)
    decreases ms
  {
    if ms != [] {
      assert ms[0] in ms;
      StripLayout(ms[0].value, depth, fmt, depth');
      StripMembers(ms[1..], depth, fmt, depth');
      assert LayoutMembers(ms, depth, fmt)[1..] == LayoutMembers(ms[1..], depth, fmt);
      assert NewLine(false) + Indent(false, depth') == "" && NewLine(false) + Indent(false, depth' - 1) == "";
    }
  }

  /** Minifying the printed text of a tree, formatted or not, gives the unformatted text. */
  lemma MinifiedPrint(v: Value, depth: nat, fmt: bool)
    requires Printable(v)
    ensures Minify(PrintText(v, depth, fmt), "") == Kept(PrintText(v, 0, false))
  {
    LayoutValid(v, depth, fmt);
    LayoutText(v, depth, fmt);
    LayoutText(v, 0, false);
    StripLayout(v, depth, fmt, 0);
    var x := Layout(v, depth, fmt);
    MinifyPreservesMeaning("", x, "");
    assert "" + (SyntaxText(x) + "") == SyntaxText(x);
  }

  /** The unformatted text has no white space outside string literals, and minifying it changes nothing. */
  lemma UnformattedSolid(v: Value, depth: nat)
    requires Printable(v)
    ensures Solid(PrintText(v, depth, false))
    ensures PrintText(v, depth, false) == PrintText(v, 0, false)
    ensures Minify(PrintText(v, depth, false), "") == Kept(PrintText(v, depth, false))
  {
    LayoutText(v, depth, false);
    LayoutText(v, 0, false);
    StripLayout(v, 0, false, 0);
    StripLayout(v, 0, false, depth);
    MinifiedPrint(v, 0, false);
    MinifySolid(PrintText(v, 0, false), "");
  }

  // ----- the formatted text, line by line

  /** A member on a line of its own, `depth` tabs in; `last` tells whether a comma ends the line. */
  function MemberLine(m: Member, depth: nat, last: bool): string
    requires NulFree(m.name) && Printable(m.value)
  {
    "\n" + (Repeat('\t', depth) + (PrintString(m.name) + (":\t" + (PrintText(m.value, depth, true) +
      ((if last then "" else ",") + "\n")))))
  }

  lemma FirstLine(ms: seq<Member>, depth: nat)
    requires ms != [] && forall m :: m in ms ==> NulFree(m.name) && Printable(m.value)
    ensures "\n" + MembersPrint(ms, depth, true) ==
            MemberLine(ms[0], depth, |ms| == 1) + MembersPrint(ms[1..], depth, true)
  {
    assert ms[0] in ms;
    var a, b, c, d := Repeat('\t', depth), PrintString(ms[0].name), ":\t", PrintText(ms[0].value, depth, true);
    var sep, rest := if |ms| == 1 then "" else ",", MembersPrint(ms[1..], depth, true);
    LineRegroup(a, b, c, d, sep, rest);
  }

  lemma LineRegroup(a: string, b: string, c: string, d: string, e: string, g: string)
    ensures "\n" + (a + (b + (c + (d + (e + ("\n" + g)))))) == ("\n" + (a + (b + (c + (d + (e + "\n")))))) + g
  {
    Assoc(e, "\n", g);
    Assoc(d, e + "\n", g);
    Assoc(c, d + (e + "\n"), g);
    Assoc(b, c + (d + (e + "\n")), g);
    Assoc(a, b + (c + (d + (e + "\n"))), g);
    Assoc("\n", a + (b + (c + (d + (e + "\n")))), g);
  }

  lemma LineEndsSo(m: Member, depth: nat, last: bool)
    requires NulFree(m.name) && Printable(m.value)
    ensures var line := MemberLine(m, depth, last); line != "" && line[|line| - 1] == '\n'
  {
  }

  /** The line break that ends one line begins the next. */
  lemma ShareBreak(line: string, rest: string, p: string, q: string)
    requires line != "" && line[|line| - 1] == '\n' && "\n" + rest == p + q
    ensures line + rest == (line[..|line| - 1] + p) + q
  {
    assert line == line[..|line| - 1] + "\n";
    Assoc(line[..|line| - 1], "\n", rest);
    Assoc(line[..|line| - 1], p, q);
  }

  /** Among the members, the one at `i`, with the line break before it. */
  lemma {:induction false} LineAmong(ms: seq<Member>, i: nat, depth: nat) returns (pre: string, post: string)
    requires i < |ms| && forall m :: m in ms ==> NulFree(m.name) && Printable(m.value)
    ensures ms[i] in ms
    ensures "\n" + MembersPrint(ms, depth, true) == pre + (MemberLine(ms[i], depth, i == |ms| - 1) + post)
    decreases i
  {
    assert ms[i] in ms;
    if i == 0 {
      FirstLine(ms, depth);
      pre, post := "", MembersPrint(ms[1..], depth, true);
      assert "" + (MemberLine(ms[0], depth, |ms| == 1) + post) == MemberLine(ms[0], depth, |ms| == 1) + post;
    } else {
      assert ms[1..][i - 1] == ms[i];
      var p;
      p, post := LineAmong(ms[1..], i - 1, depth);
      pre := LineBefore(ms, depth, p, MemberLine(ms[i], depth, i == |ms| - 1) + post);
    }
  }

  lemma LineBefore(ms: seq<Member>, depth: nat, p: string, q: string) returns (pre: string)
    requires ms != [] && forall m :: m in ms ==> NulFree(m.name) && Printable(m.value)
    requires "\n" + MembersPrint(ms[1..], depth, true) == p + q
    ensures "\n" + MembersPrint(ms, depth, true) == pre + q
  {
    assert ms[0] in ms;
    FirstLine(ms, depth);
    var line := MemberLine(ms[0], depth, |ms| == 1);
    LineEndsSo(ms[0], depth, |ms| == 1);
    pre := line[..|line| - 1] + p;
    ShareBreak(line, MembersPrint(ms[1..], depth, true), p, q);
  }

  /** In a formatted object every member stands on a line of its own, one tab deeper than the object. */
  lemma MemberStands(ms: seq<Member>, i: nat, depth: nat) returns (pre: string, post: string)
    requires i < |ms| && Printable(Object(ms))
    ensures ms[i] in ms
    ensures PrintText(Object(ms), depth, true) == pre + (MemberLine(ms[i], depth + 1, i == |ms| - 1) + post)
  {
    var p, q := LineAmong(ms, i, depth + 1);
    var end := Indent(true, depth) + "}";
    pre, post := "{" + p, q + end;
    Wrapped(MembersPrint(ms, depth + 1, true), p, MemberLine(ms[i], depth + 1, i == |ms| - 1), q, end);
  }

  lemma Wrapped(all: string, p: string, line: string, q: string, end: string)
    requires "\n" + all == p + (line + q)
    ensures "{" + ("\n" + (all + end)) == ("{" + p) + (line + (q + end))
  {
    Assoc("\n", all, end);
    Assoc(p, line + q, end);
    Assoc(line, q, end);
    Assoc("{", p, line + (q + end));
  }

  lemma {:induction false} MembersEnd(ms: seq<Member>, depth: nat)
    requires ms != [] && forall m :: m in ms ==> NulFree(m.name) && Printable(m.value)
    ensures var t := MembersPrint(ms, depth, true); t != "" && t[|t| - 1] == '\n'
    decreases |ms|
  {
    FirstLine(ms, depth);
    assert ms[0] in ms;
    LineEndsSo(ms[0], depth, |ms| == 1);
    if |ms| > 1 { MembersEnd(ms[1..], depth); }
  }

  /** Its closing brace stands on a line of its own too, as deep as the object. */
  lemma BraceStands(ms: seq<Member>, depth: nat) returns (pre: string)
    requires ms != [] && Printable(Object(ms))
    ensures PrintText(Object(ms), depth, true) == pre + ("\n" + (Repeat('\t', depth) + "}"))
  {
    var t, end := MembersPrint(ms, depth + 1, true), Repeat('\t', depth) + "}";
    MembersEnd(ms, depth + 1);
    pre := "{" + ("\n" + t[..|t| - 1]);
    LastBreak(t, end);
    Assoc("\n", t[..|t| - 1], "\n" + end);
    Assoc("{", "\n" + t[..|t| - 1], "\n" + end);
  }

  lemma LastBreak(t: string, end: string)
    requires t != "" && t[|t| - 1] == '\n'
    ensures t + end == t[..|t| - 1] + ("\n" + end)
  {
    assert t == t[..|t| - 1] + "\n";
    Assoc(t[..|t| - 1], "\n", end);
  }

  // ----- strings and numbers

  predicate HasShort(c: char) { c in ['\"', '\\', '\U{08}', '\U{0C}', '\n', '\r', '\t'] }

  /** Four small hexadecimal digits. */
  predicate SmallHex4(h: string) {
    IsHex4(h) && forall i :: 0 <= i < 4 ==> !('A' <= h[i] <= 'F')
  }

  /** How a byte is printed: by its short escape, by `\u` and small digits, or as it is. */
  ghost predicate PrintedByte(c: char, x: string) {
    if HasShort(c) then |x| == 2 && x[0] == '\\' && x[1] != 'u' && ShortMeaning(x[1]) == c
    else if c as int < 32 then exists h :: SmallHex4(h) && x == "\\u" + h && Hex4(h) == c as int
    else x == [c]
  }

  lemma ByteLaw(c: char)
    requires c != '\0'
    ensures PrintedByte(c, ItemText(EscapedItem(c)))
  {
    if c as int < 32 && !HasShort(c) {
      var h := ['0', '0', HexDigit(c as int / 16), HexDigit(c as int % 16)];
      assert SmallHex4(h) && ItemText(EscapedItem(c)) == "\\u" + h;
    }
  }

  /** A string prints as its bytes do, one after the other, between quotes. */
  lemma {:induction false} StringLaw(s: string) returns (xs: seq<string>)
    requires NulFree(s)
    ensures |xs| == |s| && forall i :: 0 <= i < |s| ==> PrintedByte(s[i], xs[i])
    ensures PrintString(s) == "\"" + Joined(xs) + "\""
  {
    xs := seq(|s|, i requires 0 <= i < |s| => ItemText(EscapedItem(s[i])));
    forall i | 0 <= i < |s| ensures PrintedByte(s[i], xs[i]) { ByteLaw(s[i]); }
    JoinedItems(EscapedItems(s), xs);
  }

  function Joined(xs: seq<string>): string { if xs == [] then "" else xs[0] + Joined(xs[1..]) }

  lemma {:induction false} JoinedItems(items: seq<Item>, xs: seq<string>)
    requires |xs| == |items| && forall i :: 0 <= i < |xs| ==> xs[i] == ItemText(items[i])
    ensures Joined(xs) == ItemsText(items)
  {
    if xs != [] { JoinedItems(items[1..], xs[1..]); }
  }

  /** An integer prints as a minus if need be and its shortest decimal notation. */
  lemma NumberLaw(n: int) returns (ds: string)
    ensures IntText(n) == (if n < 0 then "-" else "") + ds
    ensures ds != "" && AllDigits(ds) && (ds[0] == '0' ==> ds == "0")
    ensures NatOf(ds) == if n < 0 then -n else n
  {
    ds := Decimal(if n < 0 then -n else n);
    DecimalDenotes(if n < 0 then -n else n);
    assert "" + ds == ds;
  }
}
