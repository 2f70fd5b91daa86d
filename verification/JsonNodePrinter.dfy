/** `cJSON_Print` and `cJSON_PrintUnformatted`: one allocation per node. */
module JsonNodePrinter {
  import opened CText
  import opened Json
  import opened JsonString
  import opened JsonPrinter
  import opened JsonCompose

  ghost predicate HoldsText(out: array<char>, t: string)
    reads out
  {
    |t| < out.Length && out[..|t|] == t && out[|t|] == '\0'
  }

  /** What the two passes over an array add up for its elements. */
  function ItemsCost(items: seq<Value>, depth: nat, fmt: bool): nat
    requires Printable(Array(items))
  {
    if items == [] then 0
    else
      assert items[0] in items;
      |PrintText(items[0], depth, fmt)| + 2 + (if fmt then 1 else 0) + ItemsCost(items[1..], depth, fmt)
  }

  lemma {:induction false} ItemsFit(items: seq<Value>, depth: nat, fmt: bool)
    requires Printable(Array(items))
    ensures |ItemsPrint(items, depth, fmt)| <= ItemsCost(items, depth, fmt)
  {
    if items != [] { ItemsFit(items[1..], depth, fmt); }
  }

  function MembersCost(ms: seq<Member>, depth: nat, fmt: bool): nat
    requires Printable(Object(ms))
  {
    if ms == [] then 0
    else
      assert ms[0] in ms;
      |PrintText(ms[0].value, depth, fmt)| + |PrintString(ms[0].name)| + 2 + (if fmt then 2 + depth else 0) +
      MembersCost(ms[1..], depth, fmt)
  }

  lemma {:induction false} MembersFit(ms: seq<Member>, depth: nat, fmt: bool)
    requires Printable(Object(ms))
    ensures |MembersPrint(ms, depth, fmt)| <= MembersCost(ms, depth, fmt)
  {
    if ms != [] {
      assert ms[0] in ms;
      MembersFit(ms[1..], depth, fmt);
    }
  }

  lemma ItemsCostStep(items: seq<Value>, i: nat, depth: nat, fmt: bool)
    requires Printable(Array(items)) && i < |items|
    ensures items[i] in items
    ensures ItemsCost(items[i..], depth, fmt) ==
            |PrintText(items[i], depth, fmt)| + 2 + (if fmt then 1 else 0) + ItemsCost(items[i + 1..], depth, fmt)
  {
    assert items[i..][1..] == items[i + 1..];
  }

  lemma MembersCostStep(ms: seq<Member>, i: nat, depth: nat, fmt: bool)
    requires Printable(Object(ms)) && i < |ms|
    ensures ms[i] in ms
    ensures MembersCost(ms[i..], depth, fmt) ==
            |PrintText(ms[i].value, depth, fmt)| + |PrintString(ms[i].name)| + 2 + (if fmt then 2 + depth else 0) +
            MembersCost(ms[i + 1..], depth, fmt)
  {
    assert ms[i..][1..] == ms[i + 1..];
  }

  /** `cJSON_strdup` */
  method StrDup(t: string) returns (out: array<char>)
    ensures fresh(out) && HoldsText(out, t)
  {
    out := new char[|t| + 1];
    var _ := PutZ(out, 0, t);
    assert out[..0] + t == t;
  }

  /** `print_value` without a buffer. */
  method PrintNode(v: Value, depth: nat, fmt: bool) returns (out: array<char>)
    requires Printable(v)
    ensures fresh(out) && HoldsText(out, PrintText(v, depth, fmt))
    decreases v, 1
  {
    match v
    case Null => out := StrDup("null");
    case Bool(b) => if b { out := StrDup("true"); } else { out := StrDup("false"); }
    case Number(n) => out := PrintNumberNode(n);
    case Text(s) => out := PrintStringNode(s);
    case Array(items) => out := PrintArrayNode(items, depth, fmt);
    case Object(members) => out := PrintObjectNode(members, depth, fmt);
  }

  method PrintNumberNode(n: real) returns (out: array<char>)
    requires IsInt32(n)
    ensures fresh(out) && HoldsText(out, IntText(n.Floor))
  {
    IntTextShort(n.Floor);
    if n == 0.0 { out := new char[2]; } else { out := new char[21]; }
    var _ := PutZ(out, 0, IntText(n.Floor));
    assert out[..0] + IntText(n.Floor) == IntText(n.Floor);
  }

  /** `print_string_ptr` without a buffer: the allocation is filled to its last byte. */
  method PrintStringNode(s: string) returns (out: array<char>)
    requires NulFree(s)
    ensures fresh(out) && HoldsText(out, PrintString(s)) && out.Length == |PrintString(s)| + 1
  {
    var flag, len := MeasureString(s);
    out := new char[len + 3];
    var _ := ComposeString(out, 0, s, flag);
    assert out[..0] + PrintString(s) == PrintString(s);
  }

  /** The C string that a child prints to. */
  method PrintEntry(v: Value, depth: nat, fmt: bool) returns (entry: string)
    requires Printable(v)
    ensures entry == PrintText(v, depth, fmt)
    decreases v, 2
  {
    var ret := PrintNode(v, depth, fmt);
    ghost var t := PrintText(v, depth, fmt);
    PrintNulFree(v, depth, fmt);
    assert ret[0..0 + |t|] == t;
    var n := StrLen(ret, 0, t);
    entry := ret[..n];
  }

  /** First pass of `print_array`: the printed elements and the length to allocate. */
  method PrintEntries(items: seq<Value>, depth: nat, fmt: bool) returns (entries: seq<string>, len: nat)
    requires Printable(Array(items))
    ensures |entries| == |items|
    ensures forall k :: 0 <= k < |items| ==> items[k] in items && entries[k] == PrintText(items[k], depth, fmt)
    ensures len == 5 + ItemsCost(items, depth, fmt)
    decreases items, 0
  {
    entries, len := [], 5;
    assert items[0..] == items;
    for i := 0 to |items|
      invariant |entries| == i
      invariant forall k :: 0 <= k < i ==> items[k] in items && entries[k] == PrintText(items[k], depth, fmt)
      invariant len + ItemsCost(items[i..], depth, fmt) == 5 + ItemsCost(items, depth, fmt)
    {
      ItemsCostStep(items, i, depth, fmt);
      var ret := PrintEntry(items[i], depth, fmt);
      entries := entries + [ret];
      len := len + |ret| + 2 + (if fmt then 1 else 0);
    }
  }

  /** `print_array` without a buffer. */
  method PrintArrayNode(items: seq<Value>, depth: nat, fmt: bool) returns (out: array<char>)
    requires Printable(Array(items))
    ensures fresh(out) && HoldsText(out, PrintText(Array(items), depth, fmt))
    decreases items, 1
  {
    if items == [] { out := StrDup("[]"); return; }
    var entries, len := PrintEntries(items, depth + 1, fmt);
    out := new char[len];
    ItemsFit(items, depth + 1, fmt);
    var ptr := Put(out, 0, "[");
    ghost var all := ItemsPrint(items, depth + 1, fmt);
    assert out[..0] + "[" == "[" && items[0..] == items;
    for i := 0 to |items|
      invariant 0 <= ptr && ptr + |ItemsPrint(items[i..], depth + 1, fmt)| == 1 + |all| <= out.Length
      invariant out[..ptr] + ItemsPrint(items[i..], depth + 1, fmt) == "[" + all
    {
      assert items[i..][1..] == items[i + 1..];
      ghost var was, rest := out[..ptr], ItemsPrint(items[i + 1..], depth + 1, fmt);
      ptr := Put(out, ptr, entries[i]);
      if i != |items| - 1 {
        ptr := Put(out, ptr, Comma(fmt));
        Assoc(was + entries[i], Comma(fmt), rest);
        Assoc(was, entries[i], Comma(fmt) + rest);
      } else {
        assert entries[i] + "" == entries[i] && out[..ptr] + "" == out[..ptr];
      }
    }
    assert out[..ptr] + "" == out[..ptr];
    ptr := PutZ(out, ptr, "]");
    Assoc("[", all, "]");
  }

  /** The printed name and value of one member. */
  method PrintMember(m: Member, depth: nat, fmt: bool) returns (name: string, entry: string)
    requires NulFree(m.name) && Printable(m.value)
    ensures name == PrintString(m.name) && entry == PrintText(m.value, depth, fmt)
    decreases m, 0
  {
    var str := PrintStringNode(m.name);
    PrintStringNulFree(m.name);
    ghost var s := PrintString(m.name);
    assert str[0..0 + |s|] == s;
    var k := StrLen(str, 0, s);
    name := str[..k];
    entry := PrintEntry(m.value, depth, fmt);
  }

  /** First pass of `print_object`. */
  method PrintMembers(ms: seq<Member>, depth: nat, fmt: bool)
    returns (names: seq<string>, entries: seq<string>, len: nat)
    requires Printable(Object(ms))
    ensures Collected(ms, depth, fmt, names, entries)
    ensures len == MembersCost(ms, depth, fmt)
    decreases ms, 0
  {
    names, entries, len := [], [], 0;
    assert ms[0..] == ms;
    for i := 0 to |ms|
      invariant |names| == |entries| == i
      invariant forall k :: 0 <= k < i ==>
                  ms[k] in ms && names[k] == PrintString(ms[k].name) && entries[k] == PrintText(ms[k].value, depth, fmt)
      invariant len + MembersCost(ms[i..], depth, fmt) == MembersCost(ms, depth, fmt)
    {
      MembersCostStep(ms, i, depth, fmt);
      var str, ret := PrintMember(ms[i], depth, fmt);
      names, entries := names + [str], entries + [ret];
      len := len + |ret| + |str| + 2 + (if fmt then 2 + depth else 0);
    }
  }

  /** One turn of the composing loop. */
  method PutMember(out: array<char>, at: nat, ms: seq<Member>, depth: nat, fmt: bool, name: string, entry: string)
    returns (ptr: nat)
    requires ms != [] && Printable(Object(ms)) && at + |MembersPrint(ms, depth, fmt)| <= out.Length
    requires ms[0] in ms && name == PrintString(ms[0].name) && entry == PrintText(ms[0].value, depth, fmt)
    modifies out
    ensures ptr + |MembersPrint(ms[1..], depth, fmt)| == at + |MembersPrint(ms, depth, fmt)|
    ensures out[..ptr] + MembersPrint(ms[1..], depth, fmt) == old(out[..at]) + MembersPrint(ms, depth, fmt)
  {
    ghost var was := out[..at];
    MemberText(was, ms, depth, fmt);
    var sep := (if |ms| > 1 then "," else "") + NewLine(fmt);
    assert |MembersPrint(ms, depth, fmt)| == |Indent(fmt, depth)| + |name| + |Colon(fmt)| + |entry| + |sep| +
           |MembersPrint(ms[1..], depth, fmt)|;
    ptr := Put(out, at, Indent(fmt, depth));
    ptr := Put(out, ptr, name);
    ptr := Put(out, ptr, Colon(fmt));
    ptr := Put(out, ptr, entry);
    ptr := Put(out, ptr, sep);
  }

  /** The strings collected for `ms` are the printed names and values. */
  ghost predicate Collected(ms: seq<Member>, depth: nat, fmt: bool, names: seq<string>, entries: seq<string>)
    requires Printable(Object(ms))
  {
    && |names| == |entries| == |ms|
    && forall k :: 0 <= k < |ms| ==>
         ms[k] in ms && names[k] == PrintString(ms[k].name) && entries[k] == PrintText(ms[k].value, depth, fmt)
  }

  /** The composing loop. */
  method PutMembers(out: array<char>, at: nat, ms: seq<Member>, depth: nat, fmt: bool,
                    names: seq<string>, entries: seq<string>) returns (ptr: nat)
    requires Printable(Object(ms)) && Collected(ms, depth, fmt, names, entries)
    requires at + |MembersPrint(ms, depth, fmt)| <= out.Length
    modifies out
    ensures ptr == at + |MembersPrint(ms, depth, fmt)|
    ensures out[..ptr] == old(out[..at]) + MembersPrint(ms, depth, fmt)
  {
    ptr := at;
    ghost var total := out[..at] + MembersPrint(ms, depth, fmt);
    assert ms[0..] == ms;
    for i := 0 to |ms|
      invariant ptr + |MembersPrint(ms[i..], depth, fmt)| == at + |MembersPrint(ms, depth, fmt)|
      invariant out[..ptr] + MembersPrint(ms[i..], depth, fmt) == total
    {
      assert ms[i..][1..] == ms[i + 1..] && ms[i..][0] == ms[i];
      ptr := PutMember(out, ptr, ms[i..], depth, fmt, names[i], entries[i]);
    }
    assert out[..ptr] + "" == out[..ptr];
  }

  /** The length `print_object` allocates covers its text and terminator. */
  lemma {:induction false} ObjectFits(ms: seq<Member>, depth: nat, fmt: bool)
    requires ms != [] && Printable(Object(ms))
    ensures PrintText(Object(ms), depth, fmt) ==
            (("{" + NewLine(fmt)) + MembersPrint(ms, depth + 1, fmt)) + (Indent(fmt, depth) + "}")
    ensures |PrintText(Object(ms), depth, fmt)| + 1 <=
            7 + (if fmt then depth + 1 else 0) + MembersCost(ms, depth + 1, fmt)
  {
    ObjectText("", ms, depth, fmt);
    var open, t := "{" + NewLine(fmt), PrintText(Object(ms), depth, fmt);
    assert "" + t == t && "" + open == open;
    MembersFit(ms, depth + 1, fmt);
  }

  /** The composing part of `print_object`. */
  method ComposeObject(ms: seq<Member>, depth: nat, fmt: bool, names: seq<string>, entries: seq<string>, len: nat)
    returns (out: array<char>)
    requires ms != [] && Printable(Object(ms))
    requires Collected(ms, depth + 1, fmt, names, entries) && len == MembersCost(ms, depth + 1, fmt)
    ensures fresh(out) && HoldsText(out, PrintText(Object(ms), depth, fmt))
  {
    ObjectFits(ms, depth, fmt);
    out := new char[7 + (if fmt then depth + 1 else 0) + len];
    var open, close := "{" + NewLine(fmt), Indent(fmt, depth) + "}";
    var ptr := Put(out, 0, open);
    assert out[..0] + open == open;
    ptr := PutMembers(out, ptr, ms, depth + 1, fmt, names, entries);
    ptr := PutZ(out, ptr, close);
  }

  /** `print_object` without a buffer. */
  method PrintObjectNode(members: seq<Member>, depth: nat, fmt: bool) returns (out: array<char>)
    requires Printable(Object(members))
    ensures fresh(out) && HoldsText(out, PrintText(Object(members), depth, fmt))
    decreases members, 1
  {
    if members == [] {
      out := new char[if fmt then depth + 4 else 3];
      ghost var t := PrintText(Object(members), depth, fmt);
      var _ := PutZ(out, 0, "{" + (NewLine(fmt) + (Indent(fmt, depth as int - 1) + "}")));
      assert out[..0] + t == t;
      return;
    }
    var names, entries, len := PrintMembers(members, depth + 1, fmt);
    out := ComposeObject(members, depth, fmt, names, entries, len);
  }
}
