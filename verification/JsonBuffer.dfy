/** `cJSON_PrintBuffered`: printing into one buffer that is regrown on demand. */
module JsonBuffer {
  import opened CText
  import opened Json
  import opened JsonString
  import opened JsonPrinter
  import opened JsonCompose
  import PowerOfTwo

  /** Largest size `pow2gt` can round up in a 32-bit `int`. */
  const LIMIT := 0x4000_0000

  /** Room beyond the text that some `ensure` calls ask for. */
  const SLACK := 32

  class PrintBuffer {
    var buffer: array<char>
    var length: nat
    var offset: nat

    ghost predicate Valid()
      reads this
    {
      length == buffer.Length && offset <= length
    }

    /** The text before the write position. */
    ghost function Written(): string
      requires Valid()
      reads this, buffer
    {
      buffer[..offset]
    }

    constructor (prebuffer: nat)
      requires prebuffer >= 1
      ensures Valid() && offset == 0 && fresh(buffer) && length == prebuffer
    {
      buffer := new char[prebuffer];
      length := prebuffer;
      offset := 0;
    }

    /** `ensure`: room for `needed` more bytes, keeping everything in the buffer. */
    method Ensure(needed: nat)
      requires Valid() && 1 <= offset + needed <= LIMIT
      modifies this
      ensures Valid() && offset == old(offset) && offset + needed <= length
      ensures old(length) <= length && buffer[..old(length)] == old(buffer[..length])
      ensures buffer == old(buffer) || fresh(buffer)
    {
      if offset + needed <= length {
        assert buffer[..length] == old(buffer[..length]);
        return;
      }
      var newsize := PowerOfTwo.Grow(offset + needed);
      var newbuffer := new char[newsize];
      for i := 0 to length
        modifies newbuffer
        invariant newbuffer[..i] == buffer[..i]
      {
        newbuffer[i] := buffer[i];
        assert newbuffer[..i + 1] == newbuffer[..i] + [buffer[i]];
      }
      buffer, length := newbuffer, newsize;
    }

    /** `update`: the offset of the terminator of the text at the write position. */
    method Update(ghost t: string) returns (end: nat)
      requires Valid() && NulFree(t) && offset + |t| < length
      requires buffer[offset..offset + |t|] == t && buffer[offset + |t|] == '\0'
      ensures end == offset + |t|
    {
      var n := StrLen(buffer, offset, t);
      end := offset + n;
    }

    /** `ensure` followed by stores at the write position, with or without a terminator. */
    method Emit(needed: nat, t: string, terminate: bool)
      requires Valid() && |t| + (if terminate then 1 else 0) <= needed && 1 <= offset + needed <= LIMIT
      modifies this, buffer
      ensures Valid() && offset == old(offset) && offset + |t| <= length
      ensures buffer[..offset + |t|] == old(Written()) + t
      ensures terminate ==> offset + |t| < length && buffer[offset + |t|] == '\0'
      ensures buffer == old(buffer) || fresh(buffer)
    {
      ghost var was := Written();
      Ensure(needed);
      assert buffer[..offset] == was by {
        assert buffer[..offset] == buffer[..old(length)][..offset];
      }
      if terminate {
        var _ := PutZ(buffer, offset, t);
      } else {
        var _ := Put(buffer, offset, t);
      }
    }

    /** The same, then advancing the write position. */
    method Append(needed: nat, t: string, terminate: bool)
      requires Valid() && |t| + (if terminate then 1 else 0) <= needed && 1 <= offset + needed <= LIMIT
      modifies this, buffer
      ensures Valid() && Written() == old(Written()) + t
      ensures buffer == old(buffer) || fresh(buffer)
    {
      Emit(needed, t, terminate);
      offset := offset + |t|;
    }
  }

  /** `t` has been printed after `was`: it ends in a terminator the write position has not passed. */
  ghost predicate Printed(p: PrintBuffer, was: string, t: string)
    reads p, p.buffer
  {
    && p.Valid()
    && |was| <= p.offset <= |was| + |t| < p.length
    && p.buffer[..|was| + |t|] == was + t
    && p.buffer[|was| + |t|] == '\0'
  }

  /** Where the text before the last piece began does not matter for what stands in the buffer. */
  lemma PrintedJoin(p: PrintBuffer, a: string, c: string, was: string, t: string)
    requires Printed(p, a, c) && a + c == was + t && |was| <= |a|
    ensures Printed(p, was, t)
  {
    assert |a| + |c| == |was| + |t| by { assert |a + c| == |was + t|; }
  }

  /** `p->offset = update(p)` after a value has been printed. */
  method Advance(p: PrintBuffer, ghost was: string, ghost t: string)
    requires Printed(p, was, t) && NulFree(t)
    modifies p
    ensures p.Valid() && p.Written() == was + t && p.buffer == old(p.buffer)
  {
    ghost var k := p.offset - |was|;
    assert p.buffer[p.offset..|was| + |t|] == (was + t)[p.offset..] == t[k..];
    assert NulFree(t[k..]);
    var end := p.Update(t[k..]);
    p.offset := end;
  }

  /** Leaves: the text, its terminator, and a write position that stays put. */
  method EmitLeaf(p: PrintBuffer, needed: nat, t: string)
    requires p.Valid() && |t| + 1 <= needed && p.offset + needed <= LIMIT
    modifies p, p.buffer
    ensures Printed(p, old(p.Written()), t)
    ensures p.buffer == old(p.buffer) || fresh(p.buffer)
  {
    p.Emit(needed, t, true);
  }

  /** `print_string_ptr` into the buffer. */
  method EmitString(p: PrintBuffer, s: string)
    requires p.Valid() && NulFree(s) && p.offset + |PrintString(s)| + SLACK <= LIMIT
    modifies p, p.buffer
    ensures Printed(p, old(p.Written()), PrintString(s))
    ensures p.buffer == old(p.buffer) || fresh(p.buffer)
  {
    ghost var was := p.Written();
    var flag, len := MeasureString(s);
    p.Ensure(len + 3);
    assert p.buffer[..p.offset] == was by {
      assert p.buffer[..p.offset] == p.buffer[..old(p.length)][..p.offset];
    }
    var _ := ComposeString(p.buffer, p.offset, s, flag);
  }

  /** `print_number` for the numbers "%d" renders. */
  method EmitNumber(p: PrintBuffer, n: real)
    requires p.Valid() && IsInt32(n) && p.offset + |IntText(n.Floor)| + SLACK <= LIMIT
    modifies p, p.buffer
    ensures Printed(p, old(p.Written()), IntText(n.Floor))
    ensures p.buffer == old(p.buffer) || fresh(p.buffer)
  {
    if n == 0.0 {
      EmitLeaf(p, 2, "0");
    } else {
      IntTextShort(n.Floor);
      EmitLeaf(p, 21, IntText(n.Floor));
    }
  }

  /** Enough room is left below `LIMIT` for `t` and the slack. */
  ghost predicate Fits(p: PrintBuffer, t: string)
    reads p
  {
    p.offset + |t| + SLACK <= LIMIT
  }

  /** `print_value` with a buffer. */
  method EmitValue(p: PrintBuffer, v: Value, depth: nat, fmt: bool)
    requires p.Valid() && Printable(v) && Fits(p, PrintText(v, depth, fmt))
    modifies p, p.buffer
    ensures Printed(p, old(p.Written()), PrintText(v, depth, fmt))
    ensures p.buffer == old(p.buffer) || fresh(p.buffer)
    decreases v, 1
  {
    match v
    case Null => EmitLeaf(p, 5, "null");
    case Bool(b) => if b { EmitLeaf(p, 5, "true"); } else { EmitLeaf(p, 6, "false"); }
    case Number(n) => EmitNumber(p, n);
    case Text(s) => EmitString(p, s);
    case Array(items) => EmitArray(p, items, depth, fmt);
    case Object(members) => EmitObject(p, members, depth, fmt);
  }

  /** One turn of the array loop: an element and the separator after it. */
  method EmitItem(p: PrintBuffer, items: seq<Value>, depth: nat, fmt: bool)
    requires p.Valid() && items != [] && Printable(Array(items)) && Fits(p, ItemsPrint(items, depth, fmt))
    modifies p, p.buffer
    ensures p.Valid() && (p.buffer == old(p.buffer) || fresh(p.buffer))
    ensures p.Written() + ItemsPrint(items[1..], depth, fmt) == old(p.Written()) + ItemsPrint(items, depth, fmt)
    decreases items, 0
  {
    ghost var was := p.Written();
    ghost var x := PrintText(items[0], depth, fmt);
    ghost var rest := ItemsPrint(items[1..], depth, fmt);
    assert items[0] in items;
    EmitValue(p, items[0], depth, fmt);
    PrintNulFree(items[0], depth, fmt);
    Advance(p, was, x);
    if |items| > 1 {
      p.Append(if fmt then 3 else 2, Comma(fmt), true);
      Assoc(was + x, Comma(fmt), rest);
      Assoc(was, x, Comma(fmt) + rest);
    } else {
      assert x + "" == x && was + x + "" == was + x;
    }
  }

  /** `print_array` with a buffer. */
  method EmitArray(p: PrintBuffer, items: seq<Value>, depth: nat, fmt: bool)
    requires p.Valid() && Printable(Array(items)) && Fits(p, PrintText(Array(items), depth, fmt))
    modifies p, p.buffer
    ensures Printed(p, old(p.Written()), PrintText(Array(items), depth, fmt))
    ensures p.buffer == old(p.buffer) || fresh(p.buffer)
    decreases items, 1
  {
    if items == [] {
      EmitLeaf(p, 3, "[]");
      return;
    }
    ghost var was := p.Written();
    ghost var all := ItemsPrint(items, depth + 1, fmt);
    ghost var total := was + "[" + all;
    p.Append(1, "[", false);
    assert items[0..] == items;
    for k := 0 to |items|
      invariant p.Valid() && (p.buffer == old(p.buffer) || fresh(p.buffer))
      invariant p.Written() + ItemsPrint(items[k..], depth + 1, fmt) == total
    {
      assert items[k..][1..] == items[k + 1..];
      EmitItem(p, items[k..], depth + 1, fmt);
    }
    assert p.Written() + "" == p.Written();
    EmitLeaf(p, 2, "]");
    Assoc(was + "[", all, "]");
    Assoc(was, "[", all + "]");
    PrintedJoin(p, total, "]", was, PrintText(Array(items), depth, fmt));
  }

  /** Indentation, name and colon of one member. */
  method EmitName(p: PrintBuffer, name: string, depth: nat, fmt: bool)
    requires p.Valid() && NulFree(name) && depth > 0
    requires p.offset + |Indent(fmt, depth)| + |PrintString(name)| + |Colon(fmt)| + SLACK <= LIMIT
    modifies p, p.buffer
    ensures p.Valid() && (p.buffer == old(p.buffer) || fresh(p.buffer))
    ensures p.Written() == old(p.Written()) + Indent(fmt, depth) + PrintString(name) + Colon(fmt)
  {
    if fmt {
      p.Append(depth, Tabs(depth), false);
    } else {
      assert p.Written() == p.Written() + "";
    }
    ghost var was := p.Written();
    EmitString(p, name);
    PrintStringNulFree(name);
    Advance(p, was, PrintString(name));
    p.Append(if fmt then 2 else 1, Colon(fmt), false);
  }

  /** One turn of the object loop. */
  method EmitMember(p: PrintBuffer, ms: seq<Member>, depth: nat, fmt: bool)
    requires p.Valid() && ms != [] && depth > 0 && Printable(Object(ms)) && Fits(p, MembersPrint(ms, depth, fmt))
    modifies p, p.buffer
    ensures p.Valid() && (p.buffer == old(p.buffer) || fresh(p.buffer))
    ensures p.Written() + MembersPrint(ms[1..], depth, fmt) == old(p.Written()) + MembersPrint(ms, depth, fmt)
    decreases ms, 0
  {
    ghost var was := p.Written();
    assert ms[0] in ms;
    MemberText(was, ms, depth, fmt);
    EmitName(p, ms[0].name, depth, fmt);
    ghost var pre := p.Written();
    EmitValue(p, ms[0].value, depth, fmt);
    PrintNulFree(ms[0].value, depth, fmt);
    Advance(p, pre, PrintText(ms[0].value, depth, fmt));
    var sep := (if |ms| > 1 then "," else "") + NewLine(fmt);
    p.Append(|sep| + 1, sep, true);
  }

  /** The object loop. */
  method EmitMembers(p: PrintBuffer, ms: seq<Member>, depth: nat, fmt: bool)
    requires p.Valid() && depth > 0 && Printable(Object(ms)) && Fits(p, MembersPrint(ms, depth, fmt))
    modifies p, p.buffer
    ensures p.Valid() && (p.buffer == old(p.buffer) || fresh(p.buffer))
    ensures p.Written() == old(p.Written()) + MembersPrint(ms, depth, fmt)
    decreases ms, 1
  {
    ghost var total := p.Written() + MembersPrint(ms, depth, fmt);
    assert ms[0..] == ms;
    for k := 0 to |ms|
      invariant p.Valid() && (p.buffer == old(p.buffer) || fresh(p.buffer))
      invariant p.Written() + MembersPrint(ms[k..], depth, fmt) == total
    {
      assert ms[k..][1..] == ms[k + 1..];
      EmitMember(p, ms[k..], depth, fmt);
    }
    assert p.Written() + "" == p.Written();
  }

  /** `print_object` for at least one member; `t` is the text to come. */
  method EmitNonEmpty(p: PrintBuffer, ms: seq<Member>, depth: nat, fmt: bool, ghost t: string)
    requires p.Valid() && ms != [] && Printable(Object(ms)) && Fits(p, t)
    requires t == PrintText(Object(ms), depth, fmt)
    modifies p, p.buffer
    ensures Printed(p, old(p.Written()), t)
    ensures p.buffer == old(p.buffer) || fresh(p.buffer)
    decreases ms, 2
  {
    ghost var was := p.Written();
    ObjectText(was, ms, depth, fmt);
    var open := "{" + NewLine(fmt);
    var close := Indent(fmt, depth) + "}";
    assert |t| == |open| + |MembersPrint(ms, depth + 1, fmt)| + |close| by {
      assert |was + t| == |was| + |t|;
    }
    p.Append(|open| + 1, open, true);
    EmitMembers(p, ms, depth + 1, fmt);
    ghost var before := p.Written();
    EmitLeaf(p, |close| + 1, close);
    PrintedJoin(p, before, close, was, t);
  }

  /** `print_object` with a buffer. */
  method EmitObject(p: PrintBuffer, members: seq<Member>, depth: nat, fmt: bool)
    requires p.Valid() && Printable(Object(members)) && Fits(p, PrintText(Object(members), depth, fmt))
    modifies p, p.buffer
    ensures Printed(p, old(p.Written()), PrintText(Object(members), depth, fmt))
    ensures p.buffer == old(p.buffer) || fresh(p.buffer)
    decreases members, 3
  {
    if members == [] {
      EmitLeaf(p, if fmt then depth + 4 else 3, "{" + (NewLine(fmt) + (Indent(fmt, depth as int - 1) + "}")));
      return;
    }
    EmitNonEmpty(p, members, depth, fmt, PrintText(Object(members), depth, fmt));
  }

  /**
   * `cJSON_PrintBuffered`: for every printable tree, both formats and every
   * starting size, the text is the one the per-node printer produces.
   */
  method PrintBuffered(v: Value, prebuffer: nat, fmt: bool) returns (out: array<char>)
    requires prebuffer >= 1 && Printable(v) && |PrintText(v, 0, fmt)| + SLACK <= LIMIT
    ensures |PrintText(v, 0, fmt)| < out.Length
    ensures out[..|PrintText(v, 0, fmt)|] == PrintText(v, 0, fmt) && out[|PrintText(v, 0, fmt)|] == '\0'
  {
    var p := new PrintBuffer(prebuffer);
    assert p.Written() == "";
    EmitValue(p, v, 0, fmt);
    assert "" + PrintText(v, 0, fmt) == PrintText(v, 0, fmt);
    out := p.buffer;
  }
}
