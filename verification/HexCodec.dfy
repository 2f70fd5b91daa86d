/** `string_to_hex` and `hexstring_to_string`: every byte as two hexadecimal digits and back. */
module HexCodec {
  import opened CText
  import opened Numerals
  import opened Format
  import opened Words
  import opened FormatPrinter

  const RT_EOK := 0
  const RT_ERROR := 1

  predicate IsBytes(s: string) { forall i :: 0 <= i < |s| ==> s[i] as nat < 256 }

  function HexPair(b: nat): string
    requires b < 256
  {
    [DigitSymbol(b / 16, true), DigitSymbol(b % 16, true)]
  }

  function HexText(s: string): (r: string)
    requires IsBytes(s)
    ensures |r| == 2 * |s|
    ensures forall k :: 0 <= k < |r| ==> r[k] == HexPair(s[k / 2] as nat)[k % 2]
  {
    seq(2 * |s|, k requires 0 <= k < 2 * |s| => HexPair(s[k / 2] as nat)[k % 2])
  }

  lemma HexTextAt(s: string, i: nat)
    requires i < |s| && IsBytes(s)
    ensures HexText(s)[2 * i] == HexPair(s[i] as nat)[0] && HexText(s)[2 * i + 1] == HexPair(s[i] as nat)[1]
  {
    assert (2 * i + 1) / 2 == i && (2 * i + 1) % 2 == 1;
  }

  lemma HexTextStep(s: string, i: nat)
    requires i < |s| && IsBytes(s)
    ensures HexText(s[..i + 1]) == HexText(s[..i]) + HexPair(s[i] as nat)
  {
    HexTextAt(s[..i + 1], i);
    assert forall k :: 0 <= k < 2 * i ==> HexText(s[..i + 1])[k] == HexText(s[..i])[k];
  }

  // ----- "%02X"

  const Pattern: string := "%02X"

  lemma PatternDirective(a: Args)
    ensures DirectiveAt(Pattern, Cursor(1, 0), a) ==
            (Directive(NoFlags.(zeropad := true), 2, -1, '\0'), Cursor(3, 0))
  {
    assert FlagsAt(Pattern, 2, NoFlags.(zeropad := true)) == (NoFlags.(zeropad := true), 2);
    assert FlagsAt(Pattern, 1, NoFlags) == (NoFlags.(zeropad := true), 2);
    assert NumberAt(Pattern, 3, 2) == (2, 3);
    assert NumberAt(Pattern, 2, 0) == (2, 3);
  }

  lemma TwoDigits(w: nat)
    requires w < 256
    ensures Numeral(w, 16, true) == if w < 16 then [DigitSymbol(w, true)] else HexPair(w)
  {
    assert Digits(0, 16, true) == "";
    if 0 < w {
      var q := w / 16;
      assert q > 0 ==> Digits(q, 16, true) == "" + [DigitSymbol(q, true)];
      assert Digits(w, 16, true) == Digits(q, 16, true) + [DigitSymbol(w % 16, true)];
    }
  }

  lemma BodyPlain(digits: string)
    requires digits != ""
    ensures Body(digits, -1) == digits
  {
    assert Fill('0', -1 - |digits|) == "" && "" + digits == digits;
  }

  lemma ArrangeZero(d: string, pad: int, f: Flags)
    requires f.zeropad && !f.left
    ensures Arrange("", d, pad, f) == Fill('0', pad) + d
  {
    assert "" + (Fill('0', pad) + d) == Fill('0', pad) + d;
  }

  lemma TwoWide(digits: string, f: Flags)
    requires 1 <= |digits| <= 2 && f.zeropad && !f.left
    ensures FieldOf("", digits, 2, -1, f) == if |digits| == 1 then "0" + digits else digits
  {
    BodyPlain(digits);
    ArrangeZero(digits, 2 - |digits|, f);
    assert Fill('0', 1) == "0" && Fill('0', 0) + digits == digits;
  }

  lemma PatternField(w: nat)
    requires w < 256
    ensures NumericField(w, Directive(NoFlags.(zeropad := true), 2, -1, '\0'), 'X') == HexPair(w)
  {
    TwoDigits(w);
    TwoWide(Numeral(w, 16, true), NoFlags.(zeropad := true, large := true));
    assert w < 16 ==> "0" + [DigitSymbol(w, true)] == HexPair(w);
  }

  /** The format prints exactly the two digits of a byte. */
  lemma PatternText(a: Args)
    requires Word(a, 0) < 256
    ensures Text(Pattern, a) == HexPair(Word(a, 0))
  {
    var w := Word(a, 0);
    PatternDirective(a);
    PatternField(w);
    assert Printed(Pattern, Cursor(4, 1), a, FieldsOf(a)) == "";
    assert Text(Pattern, a) == NumericField(w, Directive(NoFlags.(zeropad := true), 2, -1, '\0'), 'X') + "";
  }

  /** `rt_sprintf`: the limit is the top of the address space, which no buffer reaches. */
  method SPrintf(buf: array<char>, off: nat, fmt: string, a: Args) returns (n: nat)
    requires off + |Text(fmt, a)| < buf.Length && |Text(fmt, a)| < UINT32 - 1
    modifies buf
    ensures n == |Text(fmt, a)| && buf[off..off + n] == Text(fmt, a) && buf[off + n] == '\0'
    ensures forall i :: 0 <= i < off || off + n < i < buf.Length ==> buf[i] == old(buf[i])
  {
    ghost var text := Text(fmt, a);
    n := VsnPrintf(Target(buf, off, UINT32 - 1), fmt, a);
    assert text[..n] == text;
  }

  function OneWord(w: nat): (a: Args)
    ensures w < UINT32 ==> Word(a, 0) == w
  {
    Args(i => w, p => "")
  }

  method PutByte(pHex: array<char>, off: nat, b: nat)
    requires b < 256 && off + 2 < pHex.Length
    modifies pHex
    ensures pHex[off..off + 2] == HexPair(b) && pHex[off + 2] == '\0'
    ensures forall i :: 0 <= i < off || off + 2 < i < pHex.Length ==> pHex[i] == old(pHex[i])
  {
    PatternText(OneWord(b));
    var n := SPrintf(pHex, off, Pattern, OneWord(b));
  }

  /** One turn of the loop. */
  method PutNext(pString: string, i: nat, pHex: array<char>)
    requires i < |pString| && IsBytes(pString) && 2 * i + 2 < pHex.Length && pHex[..2 * i] == HexText(pString[..i])
    modifies pHex
    ensures pHex[..2 * i + 2] == HexText(pString[..i + 1]) && pHex[2 * i + 2] == '\0'
    ensures forall j :: 2 * i + 2 < j < pHex.Length ==> pHex[j] == old(pHex[j])
  {
    ghost var before := pHex[..2 * i];
    PutByte(pHex, 2 * i, pString[i] as nat);
    assert pHex[..2 * i + 2] == before + pHex[2 * i..2 * i + 2];
    HexTextStep(pString, i);
  }

  /** `string_to_hex` */
  method StringToHex(pString: string, len: int, pHex: array<char>) returns (code: int)
    requires len <= |pString| && IsBytes(pString) && (len > 0 ==> 2 * len < pHex.Length)
    modifies pHex
    ensures len <= 0 ==> code == RT_ERROR && pHex[..] == old(pHex[..])
    ensures len > 0 ==> code == RT_EOK && pHex[..2 * len] == HexText(pString[..len]) && pHex[2 * len] == '\0'
    ensures forall i :: len > 0 && 2 * len < i < pHex.Length ==> pHex[i] == old(pHex[i])
  {
    if len <= 0 { return RT_ERROR; }
    for i := 0 to len
      invariant pHex[..2 * i] == HexText(pString[..i]) && (i > 0 ==> pHex[2 * i] == '\0')
      invariant forall j :: 2 * len < j < pHex.Length ==> pHex[j] == old(pHex[j])
    {
      PutNext(pString, i, pHex);
    }
    code := RT_EOK;
  }

  // ----- back

  /** The inner loop leaves a character that is no digit as it is. */
  function Nibble(c: char): (v: nat)
    ensures c as nat < 256 ==> v < 256
  {
    if 'A' <= c <= 'F' then (c - 'A') as nat + 10
    else if 'a' <= c <= 'f' then (c - 'a') as nat + 10
    else if '0' <= c <= '9' then (c - '0') as nat
    else c as nat
  }

  /** `temp[0] << 4 | temp[1]` on 8-bit characters. */
  function Packed(hi: nat, lo: nat): (b: nat)
    requires hi < 256 && lo < 256
    ensures b < 256
  {
    PackWord(hi as bv8, lo as bv8) as nat
  }

  /** `len` bytes out of the digits. */
  function Unhex(hex: string, len: nat): (s: string)
    requires 2 * len <= |hex| && IsBytes(hex[..2 * len])
    ensures |s| == len
    ensures forall i :: 0 <= i < len ==> BytesAt(hex, i) && s[i] == ByteAt(hex, i)
  {
    assert forall i :: 0 <= i < len ==> BytesAt(hex, i) by { BytesThere(hex, len); }
    seq(len, i requires 0 <= i < len && BytesAt(hex, i) => ByteAt(hex, i))
  }

  predicate BytesAt(hex: string, i: nat) {
    2 * i + 1 < |hex| && hex[2 * i] as nat < 256 && hex[2 * i + 1] as nat < 256
  }

  lemma BytesThere(hex: string, len: nat)
    requires 2 * len <= |hex| && IsBytes(hex[..2 * len])
    ensures forall i :: 0 <= i < len ==> BytesAt(hex, i)
  {
    forall i | 0 <= i < len ensures BytesAt(hex, i) {
      assert hex[..2 * len][2 * i] == hex[2 * i] && hex[..2 * len][2 * i + 1] == hex[2 * i + 1];
    }
  }

  function ByteAt(hex: string, i: nat): char
    requires BytesAt(hex, i)
  {
    Packed(Nibble(hex[2 * i]), Nibble(hex[2 * i + 1])) as char
  }

  lemma NibbleReads(d: nat)
    requires d < 16
    ensures Nibble(DigitSymbol(d, true)) == d
  {
  }

  lemma Repacks(hi: nat, lo: nat)
    requires hi < 16 && lo < 16
    ensures Packed(hi, lo) == 16 * hi + lo
  {
    ByteHolds(hi);
    ByteHolds(lo);
    PackBits(hi as bv8, lo as bv8);
  }

  lemma PairUnpacks(b: nat, pair: string)
    requires b < 256 && pair == HexPair(b)
    ensures Nibble(pair[0]) == b / 16 && Nibble(pair[1]) == b % 16 && Packed(b / 16, b % 16) == b
  {
    NibbleReads(b / 16);
    NibbleReads(b % 16);
    Repacks(b / 16, b % 16);
  }

  lemma HexTextIsBytes(s: string)
    requires IsBytes(s)
    ensures IsBytes(HexText(s))
  {
    forall k | 0 <= k < 2 * |s| ensures HexText(s)[k] as nat < 256 {
      DigitIsByte(s[k / 2] as nat / 16);
      DigitIsByte(s[k / 2] as nat % 16);
    }
  }

  lemma DigitIsByte(d: nat)
    requires d < 16
    ensures DigitSymbol(d, true) as nat < 256
  {
  }

  /** `hexstring_to_string` inverts `string_to_hex` on every byte string. */
  lemma HexRoundTrip(s: string)
    requires IsBytes(s)
    ensures IsBytes(HexText(s)) && HexText(s)[..2 * |s|] == HexText(s) && Unhex(HexText(s), |s|) == s
  {
    HexTextIsBytes(s);
    assert HexText(s)[..2 * |s|] == HexText(s);
    BytesThere(HexText(s), |s|);
    forall i | 0 <= i < |s| ensures BytesAt(HexText(s), i) && ByteAt(HexText(s), i) == s[i] {
      HexTextAt(s, i);
      PairUnpacks(s[i] as nat, HexPair(s[i] as nat));
    }
  }

  /** The inner loop: each of the two characters becomes its digit's value, or stays as it is. */
  method ToNibbles(temp: array<nat>)
    requires temp.Length == 2 && temp[0] < 256 && temp[1] < 256
    modifies temp
    ensures temp[0] == Nibble(old(temp[0]) as char) && temp[1] == Nibble(old(temp[1]) as char)
  {
    for j := 0 to 2
      invariant forall i :: 0 <= i < j ==> temp[i] == Nibble(old(temp[i]) as char)
      invariant forall i :: j <= i < 2 ==> temp[i] == old(temp[i])
    {
      if temp[j] <= 'F' as nat && temp[j] >= 'A' as nat {
        temp[j] := temp[j] - 'A' as nat + 10;
      } else if temp[j] <= 'f' as nat && temp[j] >= 'a' as nat {
        temp[j] := temp[j] - 'a' as nat + 10;
      } else if temp[j] >= '0' as nat && temp[j] <= '9' as nat {
        temp[j] := temp[j] - '0' as nat;
      }
    }
  }

  /** `pString[i] = temp[0] << 4; pString[i] |= temp[1];` */
  method Pack(hi: nat, lo: nat) returns (c: char)
    requires hi < 256 && lo < 256
    ensures c == Packed(hi, lo) as char
  {
    var b: bv8 := (hi as bv8) << 4;
    b := b | (lo as bv8);
    c := (b as nat) as char;
  }

  /** One turn of the outer loop. */
  method DecodePair(pHex: string, i: nat, temp: array<nat>, pString: array<char>)
    requires BytesAt(pHex, i) && temp.Length == 2 && i < pString.Length
    modifies temp, pString
    ensures pString[..i + 1] == old(pString[..i]) + [ByteAt(pHex, i)]
    ensures forall j :: i < j < pString.Length ==> pString[j] == old(pString[j])
  {
    temp[0], temp[1] := pHex[2 * i] as nat, pHex[2 * i + 1] as nat;
    ToNibbles(temp);
    pString[i] := Pack(temp[0], temp[1]);
  }

  lemma PrefixBytes(hex: string, len: nat, i: nat)
    requires i < len && 2 * len <= |hex| && IsBytes(hex[..2 * len])
    ensures IsBytes(hex[..2 * i]) && IsBytes(hex[..2 * (i + 1)])
  {
    assert forall k :: 0 <= k < 2 * (i + 1) ==> hex[..2 * (i + 1)][k] == hex[..2 * len][k];
    assert forall k :: 0 <= k < 2 * i ==> hex[..2 * i][k] == hex[..2 * len][k];
  }

  lemma UnhexMore(hex: string, i: nat)
    requires 2 * i + 2 <= |hex| && IsBytes(hex[..2 * i]) && IsBytes(hex[..2 * (i + 1)]) && BytesAt(hex, i)
    ensures Unhex(hex, i + 1) == Unhex(hex, i) + [ByteAt(hex, i)]
  {
  }

  /** `hexstring_to_string`; `len` counts bytes, two digits each. */
  method HexStringToString(pHex: string, len: int, pString: array<char>)
    requires 2 * len <= |pHex| && len <= pString.Length && (len >= 0 ==> IsBytes(pHex[..2 * len]))
    modifies pString
    ensures len >= 0 ==> pString[..len] == Unhex(pHex, len)
    ensures forall i :: Max(len, 0) <= i < pString.Length ==> pString[i] == old(pString[i])
  {
    var temp := new nat[2];
    var i := 0;
    if len >= 0 { BytesThere(pHex, len); }
    while i < len
      invariant 0 <= i <= Max(len, 0) && (len >= 0 ==> IsBytes(pHex[..2 * i])) && pString[..i] == Unhex(pHex, i)
      invariant forall j :: Max(len, 0) <= j < pString.Length ==> pString[j] == old(pString[j])
    {
      assert IsBytes(pHex[..2 * i]) && IsBytes(pHex[..2 * (i + 1)]) by { PrefixBytes(pHex, len, i); }
      UnhexMore(pHex, i);
      DecodePair(pHex, i, temp, pString);
      i := i + 1;
    }
  }

  /** Encoding and then decoding gives the bytes back. */
  method EncodeDecode(s: string, hex: array<char>, out: array<char>) returns (code: int)
    requires IsBytes(s) && 2 * |s| < hex.Length && |s| <= out.Length && hex != out
    modifies hex, out
    ensures (code == RT_ERROR <==> s == "") && (code == RT_EOK ==> out[..|s|] == s)
  {
    code := StringToHex(s, |s|, hex);
    if code == RT_EOK {
      assert s[..|s|] == s;
      ghost var text := HexText(s);
      HexRoundTrip(s);
      HexPrefixOf(hex[..], text, |s|);
      HexStringToString(hex[..], |s|, out);
    }
  }

  lemma HexPrefixOf(hex: string, text: string, len: nat)
    requires 2 * len == |text| <= |hex| && hex[..|text|] == text && IsBytes(text)
    ensures text[..2 * len] == text && Unhex(hex, len) == Unhex(text, len)
  {
    BytesThere(hex, len);
    BytesThere(text, len);
    forall i | 0 <= i < len ensures BytesAt(hex, i) && BytesAt(text, i) && ByteAt(hex, i) == ByteAt(text, i) {
      assert hex[2 * i] == text[2 * i] && hex[2 * i + 1] == text[2 * i + 1];
    }
  }
}
