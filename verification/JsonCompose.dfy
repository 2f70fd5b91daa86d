/** Writing C text into character buffers: the pieces both printers share. */
module JsonCompose {
  import opened CText
  import opened Json
  import opened JsonString
  import opened JsonPrinter

  /** `strlen` of the text that starts at `from`; `t` is that text. */
  method StrLen(a: array<char>, from: nat, ghost t: string) returns (n: nat)
    requires from + |t| < a.Length && a[from..from + |t|] == t && a[from + |t|] == '\0' && NulFree(t)
    ensures n == |t|
  {
    n := 0;
    while a[from + n] != '\0'
      invariant n <= |t|
      decreases |t| - n
    {
      assert a[from + n] == a[from..from + |t|][n] || n == |t|;
      n := n + 1;
    }
  }

  /** `memcpy` of `t` behind the `at` bytes already written. */
  method Put(a: array<char>, at: nat, t: string) returns (p: nat)
    requires at + |t| <= a.Length
    modifies a
    ensures p == at + |t| && a[..p] == old(a[..at]) + t
  {
    for i := 0 to |t|
      invariant a[..at + i] == old(a[..at]) + t[..i]
    {
      a[at + i] := t[i];
      assert a[..at + i + 1] == a[..at + i] + [t[i]];
      assert t[..i + 1] == t[..i] + [t[i]];
    }
    p := at + |t|;
    assert t[..|t|] == t;
  }

  /** `strcpy` */
  method PutZ(a: array<char>, at: nat, t: string) returns (p: nat)
    requires at + |t| < a.Length
    modifies a
    ensures p == at + |t| && a[..p] == old(a[..at]) + t && a[p] == '\0'
  {
    p := Put(a, at, t);
    ghost var was := a[..p];
    a[p] := '\0';
    assert a[..p] == was;
  }

  // ----- print_string_ptr

  function Escaped(s: string): string {
    ItemsText(EscapedItems(s))
  }

  lemma {:induction false} EscapedStep(s: string)
    requires s != ""
    ensures Escaped(s) == ItemText(EscapedItem(s[0])) + Escaped(s[1..])
  {
    assert EscapedItems(s)[1..] == EscapedItems(s[1..]);
  }

  /** Nothing to escape: the literal's body is the string itself. */
  lemma {:induction false} EscapedPlain(s: string)
    requires forall i :: 0 <= i < |s| ==> !NeedsEscape(s[i])
    ensures Escaped(s) == s
  {
    if s != "" {
      EscapedStep(s);
      EscapedPlain(s[1..]);
      assert s == [s[0]] + s[1..];
    }
  }

  /** The `flag` loop: is there anything to escape? */
  method FindSpecial(s: string) returns (flag: bool)
    requires NulFree(s)
    ensures !flag <==> forall i :: 0 <= i < |s| ==> !NeedsEscape(s[i])
  {
    flag := false;
    for i := 0 to |s|
      invariant !flag <==> forall k :: 0 <= k < i ==> !NeedsEscape(s[k])
    {
      flag := flag || (s[i] as int > 0 && s[i] as int < 32) || s[i] == '\"' || s[i] == '\\';
    }
  }

  /** The length loop: one byte each, one more for a short escape, five more for `\u00XX`. */
  method MeasureEscaped(s: string) returns (len: nat)
    requires NulFree(s)
    ensures len == |Escaped(s)|
  {
    len := 0;
    assert s[0..] == s;
    for i := 0 to |s|
      invariant len + |Escaped(s[i..])| == |Escaped(s)|
    {
      EscapedStep(s[i..]);
      assert s[i..][1..] == s[i + 1..];
      len := len + 1;
      if s[i] in "\"\\\U{08}\U{0C}\n\r\t" { len := len + 1; } else if s[i] as int < 32 { len := len + 5; }
    }
  }

  /** What the escaping loop stores for one byte. */
  method PutEscaped(a: array<char>, at: nat, c: char) returns (p: nat)
    requires at + |ItemText(EscapedItem(c))| <= a.Length
    modifies a
    ensures p == at + |ItemText(EscapedItem(c))| && a[..p] == old(a[..at]) + ItemText(EscapedItem(c))
  {
    if c as int > 31 && c != '\"' && c != '\\' {
      p := Put(a, at, [c]);
    } else {
      match c
      case '\\' => p := Put(a, at, "\\\\");
      case '\"' => p := Put(a, at, "\\\"");
      case '\U{08}' => p := Put(a, at, "\\b");
      case '\U{0C}' => p := Put(a, at, "\\f");
      case '\n' => p := Put(a, at, "\\n");
      case '\r' => p := Put(a, at, "\\r");
      case '\t' => p := Put(a, at, "\\t");
      case _ => p := Put(a, at, "\\u" + ['0', '0', HexDigit(c as int / 16), HexDigit(c as int % 16)]);
    }
  }

  /** The length `print_string_ptr` asks for, without quotes and terminator. */
  method MeasureString(s: string) returns (flag: bool, len: nat)
    requires NulFree(s)
    ensures |PrintString(s)| == len + 2
    ensures !flag ==> Escaped(s) == s
  {
    flag := FindSpecial(s);
    if !flag {
      EscapedPlain(s);
      len := |s|;
    } else {
      len := MeasureEscaped(s);
    }
  }

  /** Both ways of filling the buffer: it takes `len + 3` bytes, exactly those written. */
  method ComposeString(a: array<char>, at: nat, s: string, flag: bool) returns (p: nat)
    requires NulFree(s) && at + |PrintString(s)| + 1 <= a.Length
    requires !flag ==> Escaped(s) == s
    modifies a
    ensures p == at + |PrintString(s)| && a[..p] == old(a[..at]) + PrintString(s) && a[p] == '\0'
  {
    p := Put(a, at, "\"");
    ghost var was := old(a[..at]);
    if !flag {
      p := Put(a, p, s);
    } else {
      assert s[0..] == s && was + "\"" + "" == was + "\"";
      ghost var done := "";
      for i := 0 to |s|
        invariant done + Escaped(s[i..]) == Escaped(s)
        invariant p == at + 1 + |done| && a[..p] == was + "\"" + done
      {
        EscapedStep(s[i..]);
        assert s[i..][1..] == s[i + 1..];
        var c := s[i];
        ghost var x := ItemText(EscapedItem(c));
        Assoc(done, x, Escaped(s[i + 1..]));
        p := PutEscaped(a, p, c);
        Assoc(was + "\"", done, x);
        done := done + x;
      }
      assert s[|s|..] == "" && done + "" == done;
    }
    p := PutZ(a, p, "\"");
    Assoc(was, "\"", Escaped(s));
    Assoc(was, "\"" + Escaped(s), "\"");
  }

  // ----- printed text is a C string

  lemma NulFreeConcat(a: string, b: string)
    ensures NulFree(a + b) <==> NulFree(a) && NulFree(b)
  {
    assert forall i :: 0 <= i < |b| ==> (a + b)[|a| + i] == b[i];
    assert forall i :: 0 <= i < |a| ==> (a + b)[i] == a[i];
  }

  lemma {:induction false} EscapedNulFree(s: string)
    requires NulFree(s)
    ensures NulFree(Escaped(s))
  {
    if s != "" {
      EscapedStep(s);
      EscapedNulFree(s[1..]);
      EscapedUnit(s[0]);
      NulFreeConcat(ItemText(EscapedItem(s[0])), Escaped(s[1..]));
    }
  }

  lemma {:induction false} PrintStringNulFree(s: string)
    requires NulFree(s)
    ensures NulFree(PrintString(s))
  {
    EscapedNulFree(s);
    NulFreeConcat("\"", Escaped(s));
    NulFreeConcat("\"" + Escaped(s), "\"");
  }

  lemma {:induction false} PrintNulFree(v: Value, depth: nat, fmt: bool)
    requires Printable(v)
    ensures NulFree(PrintText(v, depth, fmt))
    decreases v, 1
  {
    match v
    case Text(s) => PrintStringNulFree(s);
    case Array(items) => ArrayNulFree(items, depth, fmt);
    case Object(members) => ObjectNulFree(members, depth, fmt);
    case _ =>
  }

  lemma {:induction false} ArrayNulFree(items: seq<Value>, depth: nat, fmt: bool)
    requires Printable(Array(items))
    ensures NulFree(PrintText(Array(items), depth, fmt))
    decreases items, 1
  {
    if items != [] {
      ItemsNulFree(items, depth + 1, fmt);
      NulFreeConcat(ItemsPrint(items, depth + 1, fmt), "]");
      NulFreeConcat("[", ItemsPrint(items, depth + 1, fmt) + "]");
    }
  }

  lemma {:induction false} BracedNulFree(fmt: bool, body: string, depth: int)
    requires NulFree(body)
    ensures NulFree("{" + (NewLine(fmt) + (body + (Indent(fmt, depth) + "}"))))
  {
    var end := Indent(fmt, depth) + "}";
    assert NulFree(end) by { NulFreeConcat(Indent(fmt, depth), "}"); }
    NulFreeConcat(body, end);
    NulFreeConcat(NewLine(fmt), body + end);
    NulFreeConcat("{", NewLine(fmt) + (body + end));
  }

  lemma {:induction false} ObjectNulFree(ms: seq<Member>, depth: nat, fmt: bool)
    requires Printable(Object(ms))
    ensures NulFree(PrintText(Object(ms), depth, fmt))
    decreases ms, 1
  {
    if ms == [] {
      BracedNulFree(fmt, "", depth as int - 1);
      var end := Indent(fmt, depth as int - 1) + "}";
      assert "" + end == end;
    } else {
      MembersNulFree(ms, depth + 1, fmt);
      BracedNulFree(fmt, MembersPrint(ms, depth + 1, fmt), depth);
    }
  }

  lemma {:induction false} ItemsNulFree(items: seq<Value>, depth: nat, fmt: bool)
    requires forall x :: x in items ==> Printable(x)
    ensures NulFree(ItemsPrint(items, depth, fmt))
    decreases items, 0
  {
    if items != [] {
      PrintNulFree(items[0], depth, fmt);
      ItemsNulFree(items[1..], depth, fmt);
    }
  }

  lemma {:induction false} MembersNulFree(ms: seq<Member>, depth: nat, fmt: bool)
    requires forall m :: m in ms ==> NulFree(m.name) && Printable(m.value)
    ensures NulFree(MembersPrint(ms, depth, fmt))
    decreases ms, 0
  {
    if ms != [] {
      assert ms[0] in ms;
      PrintStringNulFree(ms[0].name);
      PrintNulFree(ms[0].value, depth, fmt);
      MembersNulFree(ms[1..], depth, fmt);
      var e := NewLine(fmt) + MembersPrint(ms[1..], depth, fmt);
      var d := (if |ms| == 1 then "" else ",") + e;
      var c := PrintText(ms[0].value, depth, fmt) + d;
      var b := Colon(fmt) + c;
      NulFreeConcat(NewLine(fmt), MembersPrint(ms[1..], depth, fmt));
      NulFreeConcat(if |ms| == 1 then "" else ",", e);
      NulFreeConcat(PrintText(ms[0].value, depth, fmt), d);
      NulFreeConcat(Colon(fmt), c);
      NulFreeConcat(PrintString(ms[0].name), b);
      NulFreeConcat(Indent(fmt, depth), PrintString(ms[0].name) + b);
    }
  }

  /** A 32-bit integer takes at most eleven bytes. */
  lemma IntTextShort(n: int)
    requires INT_MIN <= n <= INT_MAX
    ensures |IntText(n)| <= 11
  {
    DecimalWidth(if n < 0 then -n else n, 10, 10_000_000_000);
  }

  lemma {:induction false} DecimalWidth(n: nat, k: nat, bound: nat)
    requires n < bound == Pow(k) && k > 0
    ensures |Decimal(n)| <= k
    decreases k
  {
    if n >= 10 {
      assert k > 1;
      DecimalWidth(n / 10, k - 1, Pow(k - 1));
    }
  }

  function Pow(k: nat): nat {
    if k == 0 then 1 else 10 * Pow(k - 1)
  }
}
