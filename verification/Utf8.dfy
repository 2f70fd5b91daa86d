/**
 * UTF-16 escapes to UTF-8: the transcoding inside `parse_string`.
 *
 * The encoding is defined by arithmetic on code points; the code works on 32-bit
 * words, and its masks and shifts are proved to be that arithmetic.
 */
module Utf8 {
  import opened CText
  import Words

  predicate HighSurrogate(u: nat) { 0xD800 <= u <= 0xDBFF }
  predicate LowSurrogate(u: nat) { 0xDC00 <= u <= 0xDFFF }

  /** A Unicode scalar value. */
  predicate Scalar(u: nat) {
    u <= 0x10FFFF && !HighSurrogate(u) && !LowSurrogate(u)
  }

  /** The code point of a surrogate pair (section 2.2 of RFC 2781). */
  function Pair(hi: nat, lo: nat): (u: nat)
    requires HighSurrogate(hi) && LowSurrogate(lo)
    ensures 0x10000 <= u <= 0x10FFFF && Scalar(u)
  {
    0x10000 + (hi - 0xD800) * 0x400 + (lo - 0xDC00)
  }

  function Byte(n: nat): (c: char)
    requires n < 0x100
    ensures c as int == n
  {
    n as char
  }

  function Width(u: nat): nat {
    if u < 0x80 then 1 else if u < 0x800 then 2 else if u < 0x10000 then 3 else 4
  }

  /** `(uc | 0x80) & 0xBF`: a continuation byte with the low six bits. */
  function Cont(u: nat): (c: char)
    ensures c as int == 0x80 + u % 0x40
  {
    Byte(0x80 + u % 0x40)
  }

  /** `uc | firstByteMark[len]` */
  function Lead(len: nat, u: nat): (c: char)
    requires 1 <= len <= 4 && u < [0x80, 0x20, 0x10, 0x08][len - 1]
    ensures c as int == [0x00, 0xC0, 0xE0, 0xF0][len - 1] + u
  {
    Byte([0x00, 0xC0, 0xE0, 0xF0][len - 1] + u)
  }

  /** The table of section 3 of RFC 3629. */
  function Encode(u: nat): (b: string)
    requires u <= 0x10FFFF
    ensures |b| == Width(u)
  {
    if u < 0x80 then [Lead(1, u)]
    else if u < 0x800 then [Lead(2, u / 0x40), Cont(u)]
    else if u < 0x10000 then [Lead(3, u / 0x40 / 0x40), Cont(u / 0x40), Cont(u)]
    else [Lead(4, u / 0x40 / 0x40 / 0x40), Cont(u / 0x40 / 0x40), Cont(u / 0x40), Cont(u)]
  }

  predicate Continuation(c: char) {
    0x80 <= c as int < 0xC0
  }

  function Six(c: char): int {
    c as int - 0x80
  }

  /** A strict UTF-8 decoder for one code point: shortest forms only, nothing above U+10FFFF. */
  function Decode(b: string): int {
    if |b| == 1 && b[0] as int < 0x80 then b[0] as int
    else if |b| == 2 && 0xC2 <= b[0] as int < 0xE0 && Continuation(b[1]) then
      (b[0] as int - 0xC0) * 0x40 + Six(b[1])
    else if |b| == 3 && 0xE0 <= b[0] as int < 0xF0 && Continuation(b[1]) && Continuation(b[2])
      && (b[0] as int == 0xE0 ==> b[1] as int >= 0xA0) then
      (b[0] as int - 0xE0) * 0x1000 + Six(b[1]) * 0x40 + Six(b[2])
    else if |b| == 4 && 0xF0 <= b[0] as int < 0xF5 && Continuation(b[1]) && Continuation(b[2]) && Continuation(b[3])
      && (b[0] as int == 0xF0 ==> b[1] as int >= 0x90) && (b[0] as int == 0xF4 ==> b[1] as int < 0x90) then
      (b[0] as int - 0xF0) * 0x40000 + Six(b[1]) * 0x1000 + Six(b[2]) * 0x40 + Six(b[3])
    else -1
  }

  /** The strict decoder inverts the encoder on every code point. */
  lemma EncodeDecodes(u: nat)
    requires u <= 0x10FFFF
    ensures Decode(Encode(u)) == u
  {
  }

  lemma DecodeEncodes3(b: string)
    requires Decode(b) >= 0 && |b| == 3
    ensures 0x800 <= Decode(b) < 0x10000 && Encode(Decode(b)) == b
  {
    var q := (b[0] as int - 0xE0) * 0x40 + Six(b[1]);
    assert Decode(b) == q * 0x40 + Six(b[2]);
    assert Decode(b) / 0x40 == q && q / 0x40 == b[0] as int - 0xE0;
  }

  lemma DecodeEncodes4(b: string)
    requires Decode(b) >= 0 && |b| == 4
    ensures 0x10000 <= Decode(b) <= 0x10FFFF && Encode(Decode(b)) == b
  {
    var p := (b[0] as int - 0xF0) * 0x40 + Six(b[1]);
    var q := p * 0x40 + Six(b[2]);
    assert Decode(b) == q * 0x40 + Six(b[3]);
    assert Decode(b) / 0x40 == q && q / 0x40 == p && p / 0x40 == b[0] as int - 0xF0;
  }

  /** and only one byte string decodes to a given code point. */
  lemma DecodeEncodes(b: string)
    requires Decode(b) >= 0
    ensures Decode(b) <= 0x10FFFF && Encode(Decode(b)) == b
  {
    if |b| == 2 {
      assert Decode(b) / 0x40 == b[0] as int - 0xC0 && Decode(b) % 0x40 == Six(b[1]);
    } else if |b| == 3 {
      DecodeEncodes3(b);
    } else if |b| == 4 {
      DecodeEncodes4(b);
    }
  }

  // ----- storing

  /** The last `n` bytes of an encoding. */
  function Conts(u: nat, n: nat): string { if n == 0 then "" else Conts(u / 0x40, n - 1) + [Cont(u)] }

  /** What is left for the first byte after `n` continuation bytes. */
  function Top(u: nat, n: nat): nat { if n == 0 then u else Top(u / 0x40, n - 1) }

  lemma ContsStep(u: nat, n: nat)
    ensures Conts(u, n + 1) == Conts(u / 0x40, n) + [Cont(u)] && Top(u, n + 1) == Top(u / 0x40, n)
    ensures Conts(u, 0) == "" && Top(u, 0) == u
  {
  }

  lemma ContsOne(u: nat)
    ensures Conts(u, 1) == [Cont(u)] && Top(u, 1) == u / 0x40
  {
    ContsStep(u, 0);
    ContsStep(u / 0x40, 0);
  }

  lemma ContsTwo(u: nat)
    ensures Conts(u, 2) == [Cont(u / 0x40), Cont(u)] && Top(u, 2) == u / 0x40 / 0x40
  {
    ContsStep(u, 1);
    ContsOne(u / 0x40);
  }

  lemma ContsThree(u: nat)
    ensures Conts(u, 3) == [Cont(u / 0x40 / 0x40), Cont(u / 0x40), Cont(u)] && Top(u, 3) == u / 0x40 / 0x40 / 0x40
  {
    ContsStep(u, 2);
    ContsTwo(u / 0x40);
  }

  lemma EncodeParts(u: nat)
    requires u <= 0x10FFFF
    ensures var n := Width(u) - 1;
            Top(u, n) < [0x80, 0x20, 0x10, 0x08][n] && Encode(u) == [Lead(n + 1, Top(u, n))] + Conts(u, n)
  {
    if u < 0x80 {
      ContsStep(u, 0);
    } else if u < 0x800 {
      ContsOne(u);
    } else if u < 0x10000 {
      ContsTwo(u);
    } else {
      ContsThree(u);
    }
  }

  /** `*--ptr2 = ((uc | 0x80) & 0xBF); uc >>= 6;`, growing the stored bytes `[ptr..end)` downwards. */
  method StoreContinuation(out: array<char>, ptr: nat, uc: nat, ghost w: nat, ghost end: nat, ghost n: nat)
      returns (ptr': nat, uc': nat)
    requires w < ptr <= end <= out.Length && uc < Words.UINT32 && n > 0
    modifies out
    ensures ptr' == ptr - 1 && uc' <= uc && out[..w] == old(out[..w])
    ensures Conts(uc', n - 1) + out[ptr'..end] == Conts(uc, n) + old(out[ptr..end]) && Top(uc', n - 1) == Top(uc, n)
  {
    var b := Words.Continuation(uc);
    ptr' := ptr - 1;
    out[ptr'] := Byte(b);
    uc' := Words.ShiftRightSix(uc);
    assert out[ptr'..end] == [Cont(uc)] + old(out[ptr..end]);
    Assoc(Conts(uc', n - 1), [Cont(uc)], old(out[ptr..end]));
  }

  /** `*--ptr2 = (uc | firstByteMark[len]);` */
  method StoreFirst(out: array<char>, ptr: nat, uc: nat, len: nat, ghost w: nat, ghost end: nat) returns (ptr': nat)
    requires w < ptr <= end <= out.Length && 1 <= len <= 4 && uc < [0x80, 0x20, 0x10, 0x08][len - 1]
    modifies out
    ensures ptr' == ptr - 1 && out[..w] == old(out[..w])
    ensures out[ptr'..end] == [Lead(len, uc)] + old(out[ptr..end])
  {
    var b := Words.FirstByte(uc, len);
    ptr' := ptr - 1;
    out[ptr'] := Byte(b);
  }

  /** Cases 4, 3 and 2 of the switch, each falling through to the next. */
  method StoreTail(out: array<char>, w: nat, u: nat, len: nat) returns (ptr: nat, uc: nat)
    requires u < Words.UINT32 && 1 <= len <= 4 && w + len <= out.Length
    modifies out
    ensures ptr == w + 1 && uc == Top(u, len - 1) && out[..w] == old(out[..w])
    ensures out[ptr..w + len] == Conts(u, len - 1)
  {
    ghost var end := w + len;
    ptr, uc := w + len, u;
    assert out[ptr..end] == "";
    if len >= 4 { ptr, uc := StoreContinuation(out, ptr, uc, w, end, 3); }
    if len >= 3 { ptr, uc := StoreContinuation(out, ptr, uc, w, end, 2); }
    if len >= 2 { ptr, uc := StoreContinuation(out, ptr, uc, w, end, 1); }
    assert Conts(uc, 0) + out[ptr..end] == out[ptr..end];
  }

  /**
   * The `switch (len)` with fall-through: `ptr2` is first advanced by the width,
   * then the continuation bytes are stored backwards, then the marked first byte.
   */
  method StoreBytes(out: array<char>, w: nat, u: nat, len: nat) returns (w': nat)
    requires u < Words.UINT32 && 1 <= len <= 4 && w + len <= out.Length
    requires Top(u, len - 1) < [0x80, 0x20, 0x10, 0x08][len - 1]
    modifies out
    ensures w' == w + len && out[..w'] == old(out[..w]) + ([Lead(len, Top(u, len - 1))] + Conts(u, len - 1))
  {
    var ptr, uc := StoreTail(out, w, u, len);
    ptr := StoreFirst(out, ptr, uc, len, w, w + len);
    w' := ptr + len;
    assert out[..w'] == out[..w] + out[w..w'];
  }

  /** The width, and the bytes. */
  method StoreUtf8(out: array<char>, w: nat, u: nat) returns (w': nat)
    requires u <= 0x10FFFF && w + Width(u) <= out.Length
    modifies out
    ensures w' == w + Width(u)
    ensures out[..w'] == old(out[..w]) + Encode(u)
  {
    var len := 4;
    if u < 0x80 { len := 1; } else if u < 0x800 { len := 2; } else if u < 0x10000 { len := 3; }
    EncodeParts(u);
    w' := StoreBytes(out, w, u, len);
  }
}
