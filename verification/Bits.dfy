/** Machine words as numbers: bits, or, and-not, shifts, and the next power of two. */
module Bits {

  predicate Bit(x: nat, i: nat)
    decreases i
  {
    if i == 0 then x % 2 == 1 else Bit(x / 2, i - 1)
  }

  function Pow2(n: nat): (p: nat)
    ensures p > 0
  {
    if n == 0 then 1 else 2 * Pow2(n - 1)
  }

  function Or(x: nat, y: nat): nat {
    if x == 0 then y else 2 * Or(x / 2, y / 2) + (if x % 2 == 1 || y % 2 == 1 then 1 else 0)
  }

  /** x & ~y. */
  function AndNot(x: nat, y: nat): nat {
    if x == 0 then 0 else 2 * AndNot(x / 2, y / 2) + (if x % 2 == 1 && y % 2 == 0 then 1 else 0)
  }

  function Shr(x: nat, m: nat): nat
    decreases m
  {
    if m == 0 then x else Shr(x / 2, m - 1)
  }

  lemma {:induction false} ZeroBit(i: nat)
    ensures !Bit(0, i)
  {
    if i > 0 { ZeroBit(i - 1); }
  }

  lemma {:induction false} OrBit(x: nat, y: nat, i: nat)
    ensures Bit(Or(x, y), i) == (Bit(x, i) || Bit(y, i))
  {
    if x == 0 {
      ZeroBit(i);
    } else if i > 0 {
      OrBit(x / 2, y / 2, i - 1);
    }
  }

  lemma {:induction false} AndNotBit(x: nat, y: nat, i: nat)
    ensures Bit(AndNot(x, y), i) == (Bit(x, i) && !Bit(y, i))
  {
    if x == 0 {
      ZeroBit(i);
    } else if i > 0 {
      AndNotBit(x / 2, y / 2, i - 1);
    }
  }

  lemma {:induction false} ShrBit(x: nat, m: nat, i: nat)
    ensures Bit(Shr(x, m), i) == Bit(x, i + m)
    decreases m
  {
    if m > 0 { ShrBit(x / 2, m - 1, i); }
  }

  lemma {:induction false} Pow2Bit(n: nat, i: nat)
    ensures Bit(Pow2(n), i) == (i == n)
  {
    if n == 0 {
      if i > 0 { ZeroBit(i - 1); }
    } else if i > 0 {
      Pow2Bit(n - 1, i - 1);
    }
  }

  /** A number is determined by its bits; zero is the one without any. */
  lemma {:induction false} SomeBit(x: nat) returns (i: nat)
    requires x > 0
    ensures Bit(x, i)
  {
    if x % 2 == 1 {
      i := 0;
    } else {
      var j := SomeBit(x / 2);
      i := j + 1;
    }
  }

  lemma {:induction false} HighBitsZero(x: nat, n: nat, i: nat)
    requires x < Pow2(n) && i >= n
    ensures !Bit(x, i)
  {
    if n == 0 {
      ZeroBit(i);
    } else {
      HighBitsZero(x / 2, n - 1, i - 1);
    }
  }

  /** Ones in all places below n and nowhere else make the number before the power of two. */
  lemma {:induction false} AllOnes(x: nat, n: nat)
    requires forall i: nat {:trigger Bit(x, i)} :: Bit(x, i) == (i < n)
    ensures x + 1 == Pow2(n)
    decreases n
  {
    if n == 0 {
      if x > 0 { var i := SomeBit(x); assert false; }
    } else {
      forall i: nat ensures Bit(x / 2, i) == (i < n - 1) {
        assert Bit(x, i + 1) == Bit(x / 2, i);
      }
      AllOnes(x / 2, n - 1);
      assert Bit(x, 0);
    }
  }

  // ---------------------------------------------------------------- pow2gt

  function Smear(x: nat, m: nat): nat { Or(x, Shr(x, m)) }

  /** The rounding helper of a print buffer. */
  function Pow2gt(x: int): nat
    requires x > 0
  {
    Smear(Smear(Smear(Smear(Smear(x - 1, 1), 2), 4), 8), 16) + 1
  }

  /** y has bit i exactly when x has one of the bits from i to i + w. */
  ghost predicate Smeared(y: nat, x: nat, w: nat) {
    forall i: nat {:trigger Bit(y, i)} :: Bit(y, i) == Within(x, i, w)
  }

  ghost predicate Within(x: nat, i: nat, w: nat) {
    exists j: nat {:trigger Bit(x, j)} :: i <= j < i + w && Bit(x, j)
  }

  lemma {:induction false} WithinTwice(x: nat, i: nat, w: nat)
    ensures Within(x, i, 2 * w) == (Within(x, i, w) || Within(x, i + w, w))
  {}

  lemma {:induction false} SmearDoubles(y: nat, x: nat, w: nat)
    requires Smeared(y, x, w)
    ensures Smeared(Smear(y, w), x, 2 * w)
  {
    forall i: nat ensures Bit(Smear(y, w), i) == Within(x, i, 2 * w) {
      OrBit(y, Shr(y, w), i);
      ShrBit(y, w, i);
      WithinTwice(x, i, w);
    }
  }

  /** The place of the highest bit. */
  lemma {:induction false} TopBit(x: nat) returns (n: nat)
    requires x > 0
    ensures Pow2(n) <= x < Pow2(n + 1) && Bit(x, n)
  {
    if x == 1 {
      n := 0;
      assert Pow2(1) == 2 * Pow2(0);
    } else {
      var m := TopBit(x / 2);
      n := m + 1;
    }
  }

  lemma {:induction false} Pow2Grows(m: nat, n: nat)
    requires m <= n
    ensures Pow2(m) <= Pow2(n)
  {
    if m < n { Pow2Grows(m, n - 1); }
  }

  lemma {:induction false} SmearAll(z: nat)
    ensures Smeared(Pow2gt(z + 1) - 1, z, 32)
  {
    var a := Smear(z, 1);
    var b := Smear(a, 2);
    var c := Smear(b, 4);
    var d := Smear(c, 8);
    assert Smeared(z, z, 1);
    SmearDoubles(z, z, 1);
    SmearDoubles(a, z, 2);
    SmearDoubles(b, z, 4);
    SmearDoubles(c, z, 8);
    SmearDoubles(d, z, 16);
  }

  lemma {:induction false} SmearedToPower(z: nat, e: nat) returns (n: nat)
    requires Smeared(e, z, 32) && z < Pow2(31)
    ensures n <= 31 && e + 1 == Pow2(n) && z < Pow2(n) && (n > 0 ==> Pow2(n - 1) <= z)
  {
    if z == 0 {
      n := 0;
      forall i: nat ensures Bit(e, i) == (i < 0) { OnlyZero(e, i); }
    } else {
      var top := TopBit(z);
      if top >= 31 { Pow2Grows(31, top); }
      n := top + 1;
      forall i: nat ensures Bit(e, i) == (i < n) { UpToTop(e, z, n, i); }
    }
    AllOnes(e, n);
  }

  lemma {:induction false} Rounded(z: nat) returns (n: nat)
    requires z < Pow2(30)
    ensures Pow2gt(z + 1) == Pow2(n) && z < Pow2(n) && (n > 0 ==> Pow2(n - 1) <= z)
  {
    Pow2Grows(30, 31);
    SmearAll(z);
    n := SmearedToPower(z, Pow2gt(z + 1) - 1);
  }

  /** The least power of two that is not below x: the next smaller one is. */
  lemma {:induction false} Pow2gtIsLeast(x: int) returns (n: nat)
    requires 0 < x <= Pow2(30)
    ensures Pow2gt(x) == Pow2(n) >= x && (n > 0 ==> Pow2(n - 1) < x)
  {
    n := Rounded(x - 1);
  }

  lemma {:induction false} SmallPowers()
    ensures Pow2(8) == 0x100 && Pow2(16) == 0x1_0000 && Pow2(30) == 0x4000_0000 && Pow2(32) == 0x1_0000_0000
  {
    assert Pow2(4) == 16;
    assert Pow2(8) == 256;
    assert Pow2(12) == 4096;
    assert Pow2(16) == 0x1_0000;
    assert Pow2(20) == 0x10_0000;
    assert Pow2(24) == 0x100_0000;
    assert Pow2(28) == 0x1000_0000;
  }

  lemma {:induction false} OnlyZero(e: nat, i: nat)
    requires Smeared(e, 0, 32)
    ensures !Bit(e, i)
  {
    if Within(0, i, 32) {
      var j: nat :| i <= j < i + 32 && Bit(0, j);
      ZeroBit(j);
    }
  }

  lemma {:induction false} UpToTop(e: nat, z: nat, n: nat, i: nat)
    requires Smeared(e, z, 32) && 0 < n <= 31 && z < Pow2(n) && Bit(z, n - 1)
    ensures Bit(e, i) == (i < n)
  {
    if i < n {
      assert i <= n - 1 < i + 32;
    } else if Within(z, i, 32) {
      var j: nat :| i <= j < i + 32 && Bit(z, j);
      HighBitsZero(z, n, j);
    }
  }
}
