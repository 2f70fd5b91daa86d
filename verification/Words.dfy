/** 32-bit machine words and the numbers they stand for. */
module Words {

  const UINT32 := 0x1_0000_0000

  lemma Same16(n: nat, y: bv16)
    requires n == y as nat
    ensures n as bv16 == y
  {
  }

  lemma Same32(n: nat, y: bv32)
    requires n == y as nat
    ensures n as bv32 == y
  {
  }

  lemma Same8(n: nat, y: bv8)
    requires n == y as nat
    ensures n as bv8 == y
  {
  }

  lemma NibbleHolds(n: nat)
    requires n < 0x10
    ensures (n as bv4) as nat == n
  {
  }

  lemma ByteHolds(n: nat)
    requires n < 0x100
    ensures (n as bv8) as nat == n
  {
    var hi, lo := (n / 0x10) as bv4, (n % 0x10) as bv4;
    NibbleHolds(n / 0x10);
    NibbleHolds(n % 0x10);
    var y := (hi as bv8 << 4) | (lo as bv8);
    assert y as nat == hi as nat * 0x10 + lo as nat;
    Same8(n, y);
  }

  lemma HalfHolds(n: nat)
    requires n < 0x1_0000
    ensures (n as bv16) as nat == n
  {
    var hi, lo := (n / 0x100) as bv8, (n % 0x100) as bv8;
    ByteHolds(n / 0x100);
    ByteHolds(n % 0x100);
    var y := (hi as bv16 << 8) | (lo as bv16);
    assert y as nat == hi as nat * 0x100 + lo as nat;
    Same16(n, y);
  }

  /** A number below 2^32 survives in a word. */
  lemma WordHolds(n: nat)
    requires n < UINT32
    ensures (n as bv32) as nat == n
  {
    var hi, lo := (n / 0x1_0000) as bv16, (n % 0x1_0000) as bv16;
    HalfHolds(n / 0x1_0000);
    HalfHolds(n % 0x1_0000);
    var y := (hi as bv32 << 16) | (lo as bv32);
    assert y as nat == hi as nat * 0x1_0000 + lo as nat;
    Same32(n, y);
  }

  // ----- shifting by six

  lemma Parts(x: bv32) returns (y: bv26, z: bv6)
    ensures y as bv32 == x >> 6 && z as bv32 == x & 0x3F && x == (y as bv32 << 6) | (z as bv32)
  {
    assert x >> 6 < 0x400_0000 && x & 0x3F < 0x40;
    y, z := (x >> 6) as bv26, (x & 0x3F) as bv6;
  }

  lemma Glued(x: bv32, a: bv32, b: bv32, y: bv26, z: bv6)
    requires a == y as bv32 && b == z as bv32 && x == (y as bv32 << 6) | (z as bv32)
    ensures x as nat == (a as nat) * 0x40 + b as nat && b as nat < 0x40
  {
    assert ((y as bv32 << 6) | (z as bv32)) as nat == (y as nat) * 0x40 + z as nat;
    assert (y as bv32) as nat == y as nat;
    assert (z as bv32) as nat == z as nat < 0x40;
  }

  lemma Euclid(n: nat, q: nat, r: nat)
    requires n == q * 0x40 + r && r < 0x40
    ensures n / 0x40 == q && n % 0x40 == r
  {
  }

  /** Shifting right by six divides by 64; the mask gives the remainder. */
  lemma ShiftSix(x: bv32)
    ensures (x >> 6) as nat == (x as nat) / 0x40 && (x & 0x3F) as nat == (x as nat) % 0x40
  {
    var y, z := Parts(x);
    Glued(x, x >> 6, x & 0x3F, y, z);
    Euclid(x as nat, (x >> 6) as nat, (x & 0x3F) as nat);
  }

  // ----- the masks of UTF-8

  lemma LowSix(low: bv32)
    requires low < 0x40
    ensures (0x80 | low) as nat == 0x80 + low as nat
  {
  }

  lemma ContinuationMask(uc: bv32)
    ensures (uc | 0x80) & 0xBF == 0x80 | (uc & 0x3F) && uc & 0x3F < 0x40
  {
  }

  /** `(uc | 0x80) & 0xBF` is 128 plus the low six bits. */
  lemma ContinuationBits(uc: bv32)
    ensures ((uc | 0x80) & 0xBF) as nat == 0x80 + (uc as nat) % 0x40
  {
    ContinuationMask(uc);
    LowSix(uc & 0x3F);
    ShiftSix(uc);
  }

  /** `uc | firstByteMark[len]` adds the mark. */
  lemma FirstByteBits(uc: bv32)
    ensures uc < 0x20 ==> (uc | 0xC0) as nat == 0xC0 + uc as nat
    ensures uc < 0x10 ==> (uc | 0xE0) as nat == 0xE0 + uc as nat
    ensures uc < 0x08 ==> (uc | 0xF0) as nat == 0xF0 + uc as nat
  {
  }

  /** The code point of a surrogate pair. */
  lemma PairBits(hi: bv32, lo: bv32)
    requires 0xD800 <= hi <= 0xDBFF && 0xDC00 <= lo <= 0xDFFF
    ensures (0x10000 + (((hi & 0x3FF) << 10) | (lo & 0x3FF))) as nat ==
            0x10000 + (hi as nat - 0xD800) * 0x400 + (lo as nat - 0xDC00)
  {
  }

  // ----- the same, as the code runs them

  method MaskContinuation(x: bv32) returns (y: bv32)
    ensures y as nat == 0x80 + (x as nat) % 0x40
  {
    ContinuationBits(x);
    y := (x | 0x80) & 0xBF;
  }

  /** `(uc | 0x80) & 0xBF` */
  method Continuation(uc: nat) returns (b: nat)
    requires uc < UINT32
    ensures b == 0x80 + uc % 0x40
  {
    var x := ToWord(uc);
    var y := MaskContinuation(x);
    b := y as nat;
  }

  method ShiftWord(x: bv32) returns (y: bv32)
    ensures y as nat == (x as nat) / 0x40
  {
    ShiftSix(x);
    y := x >> 6;
  }

  /** `uc >>= 6` */
  method ShiftRightSix(uc: nat) returns (r: nat)
    requires uc < UINT32
    ensures r == uc / 0x40
  {
    var x := ToWord(uc);
    var y := ShiftWord(x);
    r := y as nat;
  }

  lemma Below(x: bv32)
    ensures x as nat < 0x20 ==> x < 0x20
    ensures x as nat < 0x10 ==> x < 0x10
    ensures x as nat < 0x08 ==> x < 0x08
  {
  }

  method MarkWord(x: bv32, len: nat) returns (y: bv32)
    requires 1 <= len <= 4 && x as nat < [0x80, 0x20, 0x10, 0x08][len - 1]
    ensures y as nat == [0x00, 0xC0, 0xE0, 0xF0][len - 1] + x as nat
  {
    Below(x);
    FirstByteBits(x);
    y := if len == 2 then x | 0xC0 else if len == 3 then x | 0xE0 else if len == 4 then x | 0xF0 else x;
  }

  /** `uc | firstByteMark[len]` */
  method FirstByte(uc: nat, len: nat) returns (b: nat)
    requires 1 <= len <= 4 && uc < [0x80, 0x20, 0x10, 0x08][len - 1]
    ensures b == [0x00, 0xC0, 0xE0, 0xF0][len - 1] + uc
  {
    var x := ToWord(uc);
    var y := MarkWord(x, len);
    b := y as nat;
  }

  lemma Within(h: bv32, l: bv32)
    requires 0xD800 <= h as nat <= 0xDBFF && 0xDC00 <= l as nat <= 0xDFFF
    ensures 0xD800 <= h <= 0xDBFF && 0xDC00 <= l <= 0xDFFF
  {
  }

  method CombineWords(h: bv32, l: bv32) returns (u: bv32)
    requires 0xD800 <= h as nat <= 0xDBFF && 0xDC00 <= l as nat <= 0xDFFF
    ensures u as nat == 0x10000 + (h as nat - 0xD800) * 0x400 + (l as nat - 0xDC00)
  {
    Within(h, l);
    PairBits(h, l);
    u := 0x10000 + (((h & 0x3FF) << 10) | (l & 0x3FF));
  }

  method ToWord(n: nat) returns (x: bv32)
    requires n < UINT32
    ensures x as nat == n
  {
    WordHolds(n);
    x := n as bv32;
  }

  /** `0x10000 + (((uc & 0x3FF) << 10) | (uc2 & 0x3FF))` */
  method CombinePair(hi: nat, lo: nat) returns (u: nat)
    requires 0xD800 <= hi <= 0xDBFF && 0xDC00 <= lo <= 0xDFFF
    ensures u == 0x10000 + (hi - 0xD800) * 0x400 + (lo - 0xDC00)
  {
    var h := ToWord(hi);
    var l := ToWord(lo);
    var w := CombineWords(h, l);
    u := w as nat;
  }

  // ----- two digits in a byte

  function PackWord(hi: bv8, lo: bv8): bv8 { (hi << 4) | lo }

  lemma PackBits(hi: bv8, lo: bv8)
    requires hi as nat < 16 && lo as nat < 16
    ensures PackWord(hi, lo) as nat == 16 * (hi as nat) + lo as nat
  {
  }
}
