/** `pow2gt`: the size to which a print buffer grows. */
module PowerOfTwo {
  import Words

  predicate IsPow2(n: nat) {
    n == 1 || (n > 1 && n % 2 == 0 && IsPow2(n / 2))
  }

  /** The smallest power of two not below `x`. */
  function RoundUp(x: nat): (r: nat)
    requires x >= 1
    ensures IsPow2(r) && r / 2 < x <= r
  {
    if x == 1 then 1 else 2 * RoundUp((x + 1) / 2)
  }

  /** No other power of two fits. */
  lemma {:induction false} RoundUpIs(x: nat, r: nat)
    requires x >= 1 && IsPow2(r) && r / 2 < x <= r
    ensures RoundUp(x) == r
  {
    if x > 1 { RoundUpIs((x + 1) / 2, r / 2); }
  }

  /** `--x; x |= x >> 1; x |= x >> 2; ...; return x + 1;` */
  function Pow2Gt(x: bv32): bv32 {
    var a := x - 1;
    var b := a | (a >> 1);
    var c := b | (b >> 2);
    var d := c | (c >> 4);
    var e := d | (d >> 8);
    var f := e | (e >> 16);
    f + 1
  }

  // ----- the bits, range by range

  lemma Smear0To7(x: bv32)
    ensures 0x0 < x <= 0x1 ==> Pow2Gt(x) == 0x1
    ensures 0x1 < x <= 0x2 ==> Pow2Gt(x) == 0x2
    ensures 0x2 < x <= 0x4 ==> Pow2Gt(x) == 0x4
    ensures 0x4 < x <= 0x8 ==> Pow2Gt(x) == 0x8
    ensures 0x8 < x <= 0x10 ==> Pow2Gt(x) == 0x10
    ensures 0x10 < x <= 0x20 ==> Pow2Gt(x) == 0x20
    ensures 0x20 < x <= 0x40 ==> Pow2Gt(x) == 0x40
    ensures 0x40 < x <= 0x80 ==> Pow2Gt(x) == 0x80
  {
  }

  lemma Smear8To15(x: bv32)
    ensures 0x80 < x <= 0x100 ==> Pow2Gt(x) == 0x100
    ensures 0x100 < x <= 0x200 ==> Pow2Gt(x) == 0x200
    ensures 0x200 < x <= 0x400 ==> Pow2Gt(x) == 0x400
    ensures 0x400 < x <= 0x800 ==> Pow2Gt(x) == 0x800
    ensures 0x800 < x <= 0x1000 ==> Pow2Gt(x) == 0x1000
    ensures 0x1000 < x <= 0x2000 ==> Pow2Gt(x) == 0x2000
    ensures 0x2000 < x <= 0x4000 ==> Pow2Gt(x) == 0x4000
    ensures 0x4000 < x <= 0x8000 ==> Pow2Gt(x) == 0x8000
  {
  }

  lemma Smear16To23(x: bv32)
    ensures 0x8000 < x <= 0x10000 ==> Pow2Gt(x) == 0x10000
    ensures 0x10000 < x <= 0x20000 ==> Pow2Gt(x) == 0x20000
    ensures 0x20000 < x <= 0x40000 ==> Pow2Gt(x) == 0x40000
    ensures 0x40000 < x <= 0x80000 ==> Pow2Gt(x) == 0x80000
    ensures 0x80000 < x <= 0x100000 ==> Pow2Gt(x) == 0x100000
    ensures 0x100000 < x <= 0x200000 ==> Pow2Gt(x) == 0x200000
    ensures 0x200000 < x <= 0x400000 ==> Pow2Gt(x) == 0x400000
    ensures 0x400000 < x <= 0x800000 ==> Pow2Gt(x) == 0x800000
  {
  }

  lemma Smear24To30(x: bv32)
    ensures 0x800000 < x <= 0x1000000 ==> Pow2Gt(x) == 0x1000000
    ensures 0x1000000 < x <= 0x2000000 ==> Pow2Gt(x) == 0x2000000
    ensures 0x2000000 < x <= 0x4000000 ==> Pow2Gt(x) == 0x4000000
    ensures 0x4000000 < x <= 0x8000000 ==> Pow2Gt(x) == 0x8000000
    ensures 0x8000000 < x <= 0x10000000 ==> Pow2Gt(x) == 0x10000000
    ensures 0x10000000 < x <= 0x20000000 ==> Pow2Gt(x) == 0x20000000
    ensures 0x20000000 < x <= 0x40000000 ==> Pow2Gt(x) == 0x40000000
  {
  }

  lemma Powers()
    ensures IsPow2(0x1)
    ensures IsPow2(0x2)
    ensures IsPow2(0x4)
    ensures IsPow2(0x8)
    ensures IsPow2(0x10)
    ensures IsPow2(0x20)
    ensures IsPow2(0x40)
    ensures IsPow2(0x80)
    ensures IsPow2(0x100)
    ensures IsPow2(0x200)
    ensures IsPow2(0x400)
    ensures IsPow2(0x800)
    ensures IsPow2(0x1000)
    ensures IsPow2(0x2000)
    ensures IsPow2(0x4000)
    ensures IsPow2(0x8000)
    ensures IsPow2(0x10000)
    ensures IsPow2(0x20000)
    ensures IsPow2(0x40000)
    ensures IsPow2(0x80000)
    ensures IsPow2(0x100000)
    ensures IsPow2(0x200000)
    ensures IsPow2(0x400000)
    ensures IsPow2(0x800000)
    ensures IsPow2(0x1000000)
    ensures IsPow2(0x2000000)
    ensures IsPow2(0x4000000)
    ensures IsPow2(0x8000000)
    ensures IsPow2(0x10000000)
    ensures IsPow2(0x20000000)
    ensures IsPow2(0x40000000)
  {
    assert IsPow2(0x1);
    assert IsPow2(0x4);
    assert IsPow2(0x10);
    assert IsPow2(0x40);
    assert IsPow2(0x100);
    assert IsPow2(0x400);
    assert IsPow2(0x1000);
    assert IsPow2(0x4000);
    assert IsPow2(0x10000);
    assert IsPow2(0x40000);
    assert IsPow2(0x100000);
    assert IsPow2(0x400000);
    assert IsPow2(0x1000000);
    assert IsPow2(0x4000000);
    assert IsPow2(0x10000000);
    assert IsPow2(0x40000000);
  }

  lemma UpTo2(x: bv32)
    requires 0x0 < x <= 0x4
    ensures Pow2Gt(x) as nat == RoundUp(x as nat)
  {
    Powers();
    Smear0To7(x);
    if x <= 0x1 {
      assert 0x0 < x as nat <= 0x1;
      RoundUpIs(x as nat, 0x1);
    } else if x <= 0x2 {
      assert 0x1 < x as nat <= 0x2;
      RoundUpIs(x as nat, 0x2);
    } else {
      assert 0x2 < x as nat <= 0x4;
      RoundUpIs(x as nat, 0x4);
    }
  }

  lemma UpTo5(x: bv32)
    requires 0x4 < x <= 0x20
    ensures Pow2Gt(x) as nat == RoundUp(x as nat)
  {
    Powers();
    Smear0To7(x);
    if x <= 0x8 {
      assert 0x4 < x as nat <= 0x8;
      RoundUpIs(x as nat, 0x8);
    } else if x <= 0x10 {
      assert 0x8 < x as nat <= 0x10;
      RoundUpIs(x as nat, 0x10);
    } else {
      assert 0x10 < x as nat <= 0x20;
      RoundUpIs(x as nat, 0x20);
    }
  }

  lemma UpTo8(x: bv32)
    requires 0x20 < x <= 0x100
    ensures Pow2Gt(x) as nat == RoundUp(x as nat)
  {
    Powers();
    Smear0To7(x);
    Smear8To15(x);
    if x <= 0x40 {
      assert 0x20 < x as nat <= 0x40;
      RoundUpIs(x as nat, 0x40);
    } else if x <= 0x80 {
      assert 0x40 < x as nat <= 0x80;
      RoundUpIs(x as nat, 0x80);
    } else {
      assert 0x80 < x as nat <= 0x100;
      RoundUpIs(x as nat, 0x100);
    }
  }

  lemma UpTo11(x: bv32)
    requires 0x100 < x <= 0x800
    ensures Pow2Gt(x) as nat == RoundUp(x as nat)
  {
    Powers();
    Smear8To15(x);
    if x <= 0x200 {
      assert 0x100 < x as nat <= 0x200;
      RoundUpIs(x as nat, 0x200);
    } else if x <= 0x400 {
      assert 0x200 < x as nat <= 0x400;
      RoundUpIs(x as nat, 0x400);
    } else {
      assert 0x400 < x as nat <= 0x800;
      RoundUpIs(x as nat, 0x800);
    }
  }

  lemma UpTo14(x: bv32)
    requires 0x800 < x <= 0x4000
    ensures Pow2Gt(x) as nat == RoundUp(x as nat)
  {
    Powers();
    Smear8To15(x);
    if x <= 0x1000 {
      assert 0x800 < x as nat <= 0x1000;
      RoundUpIs(x as nat, 0x1000);
    } else if x <= 0x2000 {
      assert 0x1000 < x as nat <= 0x2000;
      RoundUpIs(x as nat, 0x2000);
    } else {
      assert 0x2000 < x as nat <= 0x4000;
      RoundUpIs(x as nat, 0x4000);
    }
  }

  lemma UpTo17(x: bv32)
    requires 0x4000 < x <= 0x20000
    ensures Pow2Gt(x) as nat == RoundUp(x as nat)
  {
    Powers();
    Smear8To15(x);
    Smear16To23(x);
    if x <= 0x8000 {
      assert 0x4000 < x as nat <= 0x8000;
      RoundUpIs(x as nat, 0x8000);
    } else if x <= 0x10000 {
      assert 0x8000 < x as nat <= 0x10000;
      RoundUpIs(x as nat, 0x10000);
    } else {
      assert 0x10000 < x as nat <= 0x20000;
      RoundUpIs(x as nat, 0x20000);
    }
  }

  lemma UpTo20(x: bv32)
    requires 0x20000 < x <= 0x100000
    ensures Pow2Gt(x) as nat == RoundUp(x as nat)
  {
    Powers();
    Smear16To23(x);
    if x <= 0x40000 {
      assert 0x20000 < x as nat <= 0x40000;
      RoundUpIs(x as nat, 0x40000);
    } else if x <= 0x80000 {
      assert 0x40000 < x as nat <= 0x80000;
      RoundUpIs(x as nat, 0x80000);
    } else {
      assert 0x80000 < x as nat <= 0x100000;
      RoundUpIs(x as nat, 0x100000);
    }
  }

  lemma UpTo23(x: bv32)
    requires 0x100000 < x <= 0x800000
    ensures Pow2Gt(x) as nat == RoundUp(x as nat)
  {
    Powers();
    Smear16To23(x);
    if x <= 0x200000 {
      assert 0x100000 < x as nat <= 0x200000;
      RoundUpIs(x as nat, 0x200000);
    } else if x <= 0x400000 {
      assert 0x200000 < x as nat <= 0x400000;
      RoundUpIs(x as nat, 0x400000);
    } else {
      assert 0x400000 < x as nat <= 0x800000;
      RoundUpIs(x as nat, 0x800000);
    }
  }

  lemma UpTo26(x: bv32)
    requires 0x800000 < x <= 0x4000000
    ensures Pow2Gt(x) as nat == RoundUp(x as nat)
  {
    Powers();
    Smear24To30(x);
    if x <= 0x1000000 {
      assert 0x800000 < x as nat <= 0x1000000;
      RoundUpIs(x as nat, 0x1000000);
    } else if x <= 0x2000000 {
      assert 0x1000000 < x as nat <= 0x2000000;
      RoundUpIs(x as nat, 0x2000000);
    } else {
      assert 0x2000000 < x as nat <= 0x4000000;
      RoundUpIs(x as nat, 0x4000000);
    }
  }

  lemma UpTo29(x: bv32)
    requires 0x4000000 < x <= 0x20000000
    ensures Pow2Gt(x) as nat == RoundUp(x as nat)
  {
    Powers();
    Smear24To30(x);
    if x <= 0x8000000 {
      assert 0x4000000 < x as nat <= 0x8000000;
      RoundUpIs(x as nat, 0x8000000);
    } else if x <= 0x10000000 {
      assert 0x8000000 < x as nat <= 0x10000000;
      RoundUpIs(x as nat, 0x10000000);
    } else {
      assert 0x10000000 < x as nat <= 0x20000000;
      RoundUpIs(x as nat, 0x20000000);
    }
  }

  lemma UpTo30(x: bv32)
    requires 0x20000000 < x <= 0x40000000
    ensures Pow2Gt(x) as nat == RoundUp(x as nat)
  {
    Powers();
    Smear24To30(x);
    {
      assert 0x20000000 < x as nat <= 0x40000000;
      RoundUpIs(x as nat, 0x40000000);
    }
  }

  /** On every size a 32-bit `int` can round up, the bits give that power of two. */
  lemma Pow2GtRoundsUp(x: bv32)
    requires 1 <= x as nat <= 0x4000_0000
    ensures Pow2Gt(x) as nat == RoundUp(x as nat)
  {
    assert 1 <= x <= 0x4000_0000;
    if x <= 0x4 {
      UpTo2(x);
    } else if x <= 0x20 {
      UpTo5(x);
    } else if x <= 0x100 {
      UpTo8(x);
    } else if x <= 0x800 {
      UpTo11(x);
    } else if x <= 0x4000 {
      UpTo14(x);
    } else if x <= 0x20000 {
      UpTo17(x);
    } else if x <= 0x100000 {
      UpTo20(x);
    } else if x <= 0x800000 {
      UpTo23(x);
    } else if x <= 0x4000000 {
      UpTo26(x);
    } else if x <= 0x20000000 {
      UpTo29(x);
    } else {
      UpTo30(x);
    }
  }

  method GrowWord(x: bv32) returns (r: nat)
    requires 1 <= x as nat <= 0x4000_0000
    ensures r == RoundUp(x as nat)
  {
    Pow2GtRoundsUp(x);
    r := Pow2Gt(x) as nat;
  }

  /** `pow2gt` of an `int`. */
  method Grow(n: nat) returns (r: nat)
    requires 1 <= n <= 0x4000_0000
    ensures r == RoundUp(n)
  {
    var x := Words.ToWord(n);
    r := GrowWord(x);
  }
}
