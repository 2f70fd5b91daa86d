/** What the printers write, and that the parser reads it back. */
module JsonPrinter {
  import opened CText
  import opened Json
  import opened JsonString
  import opened JsonGrammar
  import opened JsonParser
  import JsonNumber

  function Tabs(n: int): string {
    Repeat('\t', if n < 0 then 0 else n)
  }

  function IntText(n: int): string {
    if n < 0 then "-" + Decimal(-n) else Decimal(n)
  }

  function NewLine(fmt: bool): string { if fmt then "\n" else "" }
  function Indent(fmt: bool, depth: int): string { if fmt then Tabs(depth) else "" }
  function Colon(fmt: bool): string { if fmt then ":\t" else ":" }
  function Comma(fmt: bool): string { if fmt then ", " else "," }

  /** The text of a tree at nesting `depth`, formatted or not. */
  function PrintText(v: Value, depth: nat, fmt: bool): string
    requires Printable(v)
    decreases v
  {
    match v
    case Null => "null"
    case Bool(b) => if b then "true" else "false"
    case Number(n) => IntText(n.Floor)
    case Text(s) => PrintString(s)
    case Array(items) =>
      if items == [] then "[]" else "[" + (ItemsPrint(items, depth + 1, fmt) + "]")
    case Object(members) =>
      if members == [] then "{" + (NewLine(fmt) + (Indent(fmt, depth as int - 1) + "}"))
      else "{" + (NewLine(fmt) + (MembersPrint(members, depth + 1, fmt) + (Indent(fmt, depth) + "}")))
  }

  function ItemsPrint(items: seq<Value>, depth: nat, fmt: bool): string
    requires forall x :: x in items ==> Printable(x)
    decreases items
  {
    if items == [] then ""
    else
      PrintText(items[0], depth, fmt) +
      (if |items| == 1 then "" else Comma(fmt) + ItemsPrint(items[1..], depth, fmt))
  }

  function MembersPrint(ms: seq<Member>, depth: nat, fmt: bool): string
    requires forall m :: m in ms ==> NulFree(m.name) && Printable(m.value)
    decreases ms
  {
    if ms == [] then ""
    else
      Indent(fmt, depth) + (PrintString(ms[0].name) + (Colon(fmt) + (PrintText(ms[0].value, depth, fmt) +
        ((if |ms| == 1 then "" else ",") + (NewLine(fmt) + MembersPrint(ms[1..], depth, fmt))))))
  }

  // ----- how the loops cut the text up

  lemma {:induction false} MemberText(was: string, ms: seq<Member>, depth: nat, fmt: bool)
    requires ms != [] && Printable(Object(ms))
    ensures was + MembersPrint(ms, depth, fmt) ==
            (was + Indent(fmt, depth) + PrintString(ms[0].name) + Colon(fmt)) +
            PrintText(ms[0].value, depth, fmt) +
            ((if |ms| > 1 then "," else "") + NewLine(fmt)) + MembersPrint(ms[1..], depth, fmt)
  {
    assert ms[0] in ms;
    var sep := if |ms| > 1 then "," else "";
    var rest := MembersPrint(ms[1..], depth, fmt);
    var val := PrintText(ms[0].value, depth, fmt);
    var d := sep + (NewLine(fmt) + rest);
    var a := was + Indent(fmt, depth);
    var b := a + PrintString(ms[0].name);
    Assoc(was, Indent(fmt, depth), PrintString(ms[0].name) + (Colon(fmt) + (val + d)));
    Assoc(a, PrintString(ms[0].name), Colon(fmt) + (val + d));
    Assoc(b, Colon(fmt), val + d);
    Assoc(b + Colon(fmt), val, d);
    Assoc(sep, NewLine(fmt), rest);
    Assoc(b + Colon(fmt) + val, sep + NewLine(fmt), rest);
  }

  lemma {:induction false} ObjectText(was: string, ms: seq<Member>, depth: nat, fmt: bool)
    requires ms != [] && Printable(Object(ms))
    ensures was + PrintText(Object(ms), depth, fmt) ==
            (was + ("{" + NewLine(fmt)) + MembersPrint(ms, depth + 1, fmt)) + (Indent(fmt, depth) + "}")
  {
    var open, all, close := "{" + NewLine(fmt), MembersPrint(ms, depth + 1, fmt), Indent(fmt, depth) + "}";
    Assoc(was + open, all, close);
    Assoc(was, open, all + close);
    Assoc("{", NewLine(fmt), all + close);
  }

  // ----- the printed text, as a syntax tree

  function Layout(v: Value, depth: nat, fmt: bool): Syntax
    requires Printable(v)
    decreases v
  {
    match v
    case Null => SNull
    case Bool(b) => if b then STrue else SFalse
    case Number(n) => SNumber(JsonNumber.IntToken(n.Floor))
    case Text(s) => SString(EscapedItems(s))
    case Array(items) => SArray("", LayoutItems(items, true, depth + 1, fmt))
    case Object(members) =>
      SObject(NewLine(fmt) + Indent(fmt, depth as int - 1), LayoutMembers(members, depth + 1, fmt))
  }

  function LayoutItems(items: seq<Value>, first: bool, depth: nat, fmt: bool): (es: seq<Elem>)
    requires forall x :: x in items ==> Printable(x)
    ensures |es| == |items|
    decreases items
  {
    if items == [] then []
    else
      [Elem(if fmt && !first then " " else "", Layout(items[0], depth, fmt), "")] +
      LayoutItems(items[1..], false, depth, fmt)
  }

  function LayoutMembers(ms: seq<Member>, depth: nat, fmt: bool): (fs: seq<Field>)
    requires forall m :: m in ms ==> NulFree(m.name) && Printable(m.value)
    ensures |fs| == |ms|
    decreases ms
  {
    if ms == [] then []
    else
      [Field(NewLine(fmt) + Indent(fmt, depth), EscapedItems(ms[0].name), "", if fmt then "\t" else "",
             Layout(ms[0].value, depth, fmt),
             if |ms| == 1 then NewLine(fmt) + Indent(fmt, depth - 1) else "")] +
      LayoutMembers(ms[1..], depth, fmt)
  }

  lemma {:induction false} BlankIsSpace(fmt: bool, depth: int)
    ensures AllSpace(NewLine(fmt) + Indent(fmt, depth))
  {
  }

  lemma {:induction false} LayoutValid(v: Value, depth: nat, fmt: bool)
    requires Printable(v)
    ensures ValidSyntax(Layout(v, depth, fmt))
    decreases v
  {
    match v
    case Text(s) => EscapedValid(s);
    case Array(items) => LayoutItemsValid(items, true, depth + 1, fmt);
    case Object(members) =>
      BlankIsSpace(fmt, depth as int - 1);
      LayoutMembersValid(members, depth + 1, fmt);
    case _ =>
  }

  lemma {:induction false} LayoutItemsValid(items: seq<Value>, first: bool, depth: nat, fmt: bool)
    requires forall x :: x in items ==> Printable(x)
    ensures ValidElems(LayoutItems(items, first, depth, fmt))
    decreases items
  {
    if items != [] {
      LayoutValid(items[0], depth, fmt);
      LayoutItemsValid(items[1..], false, depth, fmt);
    }
  }

  lemma {:induction false} LayoutMembersValid(ms: seq<Member>, depth: nat, fmt: bool)
    requires forall m :: m in ms ==> NulFree(m.name) && Printable(m.value)
    ensures ValidFields(LayoutMembers(ms, depth, fmt))
    decreases ms
  {
    if ms != [] {
      assert ms[0] in ms;
      EscapedValid(ms[0].name);
      BlankIsSpace(fmt, depth);
      BlankIsSpace(fmt, depth - 1);
      LayoutValid(ms[0].value, depth, fmt);
      LayoutMembersValid(ms[1..], depth, fmt);
    }
  }

  /** The layout builds the tree it was made from. */
  lemma {:induction false} LayoutBuilds(v: Value, depth: nat, fmt: bool)
    requires Printable(v) && ValidSyntax(Layout(v, depth, fmt))
    ensures Built(Layout(v, depth, fmt)) == v
    decreases v
  {
    match v
    case Number(n) => JsonNumber.IntTokenValue(n.Floor);
    case Text(s) => EscapedMeaning(s);
    case Array(items) => LayoutItemsBuild(items, true, depth + 1, fmt);
    case Object(members) => LayoutMembersBuild(members, depth + 1, fmt);
    case _ =>
  }

  lemma {:induction false} LayoutItemsBuild(items: seq<Value>, first: bool, depth: nat, fmt: bool)
    requires forall x :: x in items ==> Printable(x)
    requires ValidElems(LayoutItems(items, first, depth, fmt))
    ensures ElemValues(LayoutItems(items, first, depth, fmt)) == items
    decreases items
  {
    if items != [] {
      LayoutBuilds(items[0], depth, fmt);
      LayoutItemsBuild(items[1..], false, depth, fmt);
      assert items == [items[0]] + items[1..];
    }
  }

  lemma {:induction false} LayoutMembersBuild(ms: seq<Member>, depth: nat, fmt: bool)
    requires forall m :: m in ms ==> NulFree(m.name) && Printable(m.value)
    requires ValidFields(LayoutMembers(ms, depth, fmt))
    ensures FieldValues(LayoutMembers(ms, depth, fmt)) == ms
    decreases ms
  {
    if ms != [] {
      assert ms[0] in ms;
      EscapedMeaning(ms[0].name);
      LayoutBuilds(ms[0].value, depth, fmt);
      LayoutMembersBuild(ms[1..], depth, fmt);
      assert ms == [ms[0]] + ms[1..];
    }
  }

  /** The printer writes exactly the text of the layout. */
  lemma {:induction false} LayoutText(v: Value, depth: nat, fmt: bool)
    requires Printable(v)
    ensures SyntaxText(Layout(v, depth, fmt)) == PrintText(v, depth, fmt)
    decreases v
  {
    match v
    case Number(n) =>
      var k := JsonNumber.IntToken(n.Floor);
      assert k.whole + ("" + "") == k.whole;
      assert JsonNumber.TokenText(k) == (if k.neg then "-" else "") + k.whole;
    case Array(items) =>
      if items == [] {
        assert "[" + ("" + "]") == "[]";
      } else {
        LayoutItemsText(items, true, depth + 1, fmt);
        var t := ItemsPrint(items, depth + 1, fmt);
        assert "" + t == t;
      }
    case Object(members) =>
      if members == [] {
        Assoc(NewLine(fmt), Indent(fmt, depth as int - 1), "}");
      } else {
        LayoutMembersText(members, depth + 1, fmt);
        Assoc(NewLine(fmt), MembersPrint(members, depth + 1, fmt) + Indent(fmt, depth), "}");
        Assoc(MembersPrint(members, depth + 1, fmt), Indent(fmt, depth), "}");
      }
    case _ =>
  }

  lemma {:induction false} CommaSplit(fmt: bool, t: string)
    ensures "," + ((if fmt then " " else "") + t) == Comma(fmt) + t
  {
    if fmt {
      Assoc(",", " ", t);
      assert "," + " " == ", ";
    } else {
      assert "" + t == t;
    }
  }

  lemma {:induction false} ColonSplit(fmt: bool, t: string)
    ensures "" + (":" + ((if fmt then "\t" else "") + t)) == Colon(fmt) + t
  {
    if fmt {
      Assoc(":", "\t", t);
      assert ":" + "\t" == ":\t";
    } else {
      assert "" + t == t;
    }
    assert "" + (":" + ((if fmt then "\t" else "") + t)) == ":" + ((if fmt then "\t" else "") + t);
  }

  lemma {:induction false} LayoutItemsText(items: seq<Value>, first: bool, depth: nat, fmt: bool)
    requires forall x :: x in items ==> Printable(x)
    requires items != []
    ensures ElemsText(LayoutItems(items, first, depth, fmt)) ==
            (if fmt && !first then " " else "") + ItemsPrint(items, depth, fmt)
    decreases items
  {
    var es := LayoutItems(items, first, depth, fmt);
    LayoutText(items[0], depth, fmt);
    assert es[1..] == LayoutItems(items[1..], false, depth, fmt);
    var more := if |items| == 1 then "" else "," + ElemsText(es[1..]);
    assert "" + more == more;
    if |items| > 1 {
      LayoutItemsText(items[1..], false, depth, fmt);
      CommaSplit(fmt, ItemsPrint(items[1..], depth, fmt));
    }
  }

  /** The first member of a layout, with what follows it given. */
  lemma {:induction false} FirstMemberText(ms: seq<Member>, depth: nat, fmt: bool, tail: string)
    requires forall m :: m in ms ==> NulFree(m.name) && Printable(m.value)
    requires ms != []
    requires var fs := LayoutMembers(ms, depth, fmt);
             && SyntaxText(fs[0].value) == PrintText(ms[0].value, depth, fmt)
             && tail == fs[0].after + (if |fs| == 1 then "" else "," + FieldsText(fs[1..]))
    ensures FieldsText(LayoutMembers(ms, depth, fmt)) ==
            NewLine(fmt) + (Indent(fmt, depth) + (PrintString(ms[0].name) +
              (Colon(fmt) + (PrintText(ms[0].value, depth, fmt) + tail))))
  {
    var fs := LayoutMembers(ms, depth, fmt);
    var val := PrintText(ms[0].value, depth, fmt) + tail;
    ColonSplit(fmt, val);
    Assoc(NewLine(fmt), Indent(fmt, depth), PrintString(ms[0].name) + (Colon(fmt) + val));
  }

  /** What follows the first member of a layout: the separator, then the line break. */
  lemma {:induction false} MembersTailText(ms: seq<Member>, depth: nat, fmt: bool)
    requires forall m :: m in ms ==> NulFree(m.name) && Printable(m.value)
    requires ms != [] && depth > 0
    ensures var fs := LayoutMembers(ms, depth, fmt);
            fs[0].after + (if |fs| == 1 then "" else "," + FieldsText(fs[1..])) ==
            (if |ms| == 1 then "" else ",") +
              (NewLine(fmt) + (MembersPrint(ms[1..], depth, fmt) + Indent(fmt, depth - 1)))
    decreases ms, 0
  {
    var fs := LayoutMembers(ms, depth, fmt);
    var blank := NewLine(fmt) + Indent(fmt, depth - 1);
    assert fs[1..] == LayoutMembers(ms[1..], depth, fmt);
    if |ms| > 1 {
      LayoutMembersText(ms[1..], depth, fmt);
      assert "" + ("," + FieldsText(fs[1..])) == "," + FieldsText(fs[1..]);
    } else {
      assert "" + Indent(fmt, depth - 1) == Indent(fmt, depth - 1);
      assert blank + "" == blank && "" + blank == blank;
    }
  }

  /** The line break is written before a member here and after one there; the text is the same. */
  lemma {:induction false} LayoutMembersText(ms: seq<Member>, depth: nat, fmt: bool)
    requires forall m :: m in ms ==> NulFree(m.name) && Printable(m.value)
    requires ms != [] && depth > 0
    ensures FieldsText(LayoutMembers(ms, depth, fmt)) ==
            NewLine(fmt) + (MembersPrint(ms, depth, fmt) + Indent(fmt, depth - 1))
    decreases ms, 1
  {
    assert ms[0] in ms;
    var nl, end := NewLine(fmt), Indent(fmt, depth - 1);
    LayoutText(ms[0].value, depth, fmt);
    MembersTailText(ms, depth, fmt);
    var sep := if |ms| == 1 then "" else ",";
    var rest := MembersPrint(ms[1..], depth, fmt);
    FirstMemberText(ms, depth, fmt, sep + (nl + (rest + end)));
    MembersAppend(Indent(fmt, depth), PrintString(ms[0].name), Colon(fmt),
                  PrintText(ms[0].value, depth, fmt), sep, nl, rest, end);
  }

  lemma {:induction false} MembersAppend(a: string, b: string, c: string, d: string,
                                         e: string, f: string, g: string, h: string)
    ensures (a + (b + (c + (d + (e + (f + g)))))) + h == a + (b + (c + (d + (e + (f + (g + h))))))
  {
    Assoc(a, b + (c + (d + (e + (f + g)))), h);
    Assoc(b, c + (d + (e + (f + g))), h);
    Assoc(c, d + (e + (f + g)), h);
    Assoc(d, e + (f + g), h);
    Assoc(e, f + g, h);
    Assoc(f, g, h);
  }

  /** Round trip: the printed text of any printable tree parses to that tree and to its end. */
  lemma {:induction false} RoundTrip(v: Value, depth: nat, fmt: bool, requireEnd: bool)
    requires Printable(v)
    ensures ParseDocument(PrintText(v, depth, fmt), requireEnd) == Parsed(v, "")
    ensures ParseValue(PrintText(v, depth, fmt)) == Parsed(v, "")
  {
    var x := Layout(v, depth, fmt);
    LayoutValid(v, depth, fmt);
    LayoutBuilds(v, depth, fmt);
    LayoutText(v, depth, fmt);
    DocumentParses("", x, "", requireEnd);
    ValueParses(x, "");
    assert SyntaxText(x) + "" == SyntaxText(x);
    assert "" + SyntaxText(x) == SyntaxText(x);
  }
}
