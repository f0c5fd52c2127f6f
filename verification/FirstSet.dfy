/** __rt_ffs: the lowest set bit of a 32-bit word, found byte by byte in a table. */
module FirstSet {
  import opened Bits

  /** The rows of the table differ in their first entry only. */
  const HEADS: seq<nat> := [0, 4, 5, 4, 6, 4, 5, 4, 7, 4, 5, 4, 6, 4, 5, 4]
  const ROW: seq<nat> := [0, 0, 1, 0, 2, 0, 1, 0, 3, 0, 1, 0, 2, 0, 1, 0]

  function LowestBitBitmap(b: nat): nat
    requires b < 256
  {
    if b % 16 == 0 then HEADS[b / 16] else ROW[b % 16]
  }

  /** Bits are numbered from 1; 0 means there is none. */
  function Ffs(value: nat): nat
    requires value < 0x1_0000_0000
  {
    if value == 0 then 0
    else if value % 0x100 != 0 then LowestBitBitmap(value % 0x100) + 1
    else if value / 0x100 % 0x100 != 0 then LowestBitBitmap(value / 0x100 % 0x100) + 9
    else if value / 0x1_0000 % 0x100 != 0 then LowestBitBitmap(value / 0x1_0000 % 0x100) + 17
    else LowestBitBitmap(value / 0x100_0000 % 0x100) + 25
  }

  ghost predicate Lowest(x: nat, i: nat) {
    Bit(x, i) && forall j: nat {:trigger Bit(x, j)} :: j < i ==> !Bit(x, j)
  }

  lemma {:induction false} LowestZeroBit(x: nat, i: nat)
    requires x % 2 == 0 && Lowest(x / 2, i)
    ensures Lowest(x, i + 1)
  {
    forall j: nat | j < i + 1 ensures !Bit(x, j) {
      if j > 0 { assert Bit(x, j) == Bit(x / 2, j - 1); }
    }
  }

  lemma {:induction false} LowestOneBit(x: nat)
    requires x % 2 == 1
    ensures Lowest(x, 0)
  {}

  lemma {:induction false} RowEntry(r: nat)
    requires 0 < r < 16
    ensures ROW[r] == (if r % 2 == 1 then 0 else if r / 2 % 2 == 1 then 1 else if r / 4 % 2 == 1 then 2 else 3)
    ensures HEADS[r] == ROW[r] + 4
  {}

  lemma {:induction false} NibbleBits(x: nat)
    ensures x % 16 % 2 == x % 2 && x % 16 / 2 % 2 == x / 2 % 2 && x % 16 / 4 % 2 == x / 2 / 2 % 2
    ensures x % 16 != 0 && x % 2 == 0 && x / 2 % 2 == 0 && x / 2 / 2 % 2 == 0 ==> x / 2 / 2 / 2 % 2 == 1
  {
    var q, r := x / 16, x % 16;
    assert x / 2 == 8 * q + r / 2;
    assert x / 2 / 2 == 4 * q + r / 4;
    assert x / 2 / 2 / 2 == 2 * q + r / 8;
  }

  lemma {:induction false} NibbleLowest(x: nat)
    requires x % 16 != 0
    ensures Lowest(x, ROW[x % 16])
  {
    RowEntry(x % 16);
    NibbleBits(x);
    var y, z, w := x / 2, x / 2 / 2, x / 2 / 2 / 2;
    if x % 2 == 1 {
      LowestOneBit(x);
    } else if y % 2 == 1 {
      LowestOneBit(y);
      LowestZeroBit(x, 0);
    } else if z % 2 == 1 {
      LowestOneBit(z);
      LowestZeroBit(y, 0);
      LowestZeroBit(x, 1);
    } else {
      LowestOneBit(w);
      LowestZeroBit(z, 0);
      LowestZeroBit(y, 1);
      LowestZeroBit(x, 2);
    }
  }

  lemma {:induction false} LowestPastNibble(x: nat, i: nat)
    requires x % 16 == 0 && Lowest(x / 16, i)
    ensures Lowest(x, i + 4)
  {
    assert x / 2 / 2 / 2 / 2 == x / 16;
    LowestZeroBit(x / 2 / 2 / 2, i);
    LowestZeroBit(x / 2 / 2, i + 1);
    LowestZeroBit(x / 2, i + 2);
    LowestZeroBit(x, i + 3);
  }

  /** The table's entry for the low byte is the lowest bit of the whole word. */
  lemma {:induction false} ByteLowest(x: nat)
    requires x % 0x100 != 0
    ensures Lowest(x, LowestBitBitmap(x % 0x100))
  {
    ByteNibbles(x);
    if x % 16 != 0 {
      NibbleLowest(x);
    } else {
      RowEntry(x / 16 % 16);
      NibbleLowest(x / 16);
      LowestPastNibble(x, ROW[x / 16 % 16]);
    }
  }

  lemma {:induction false} ByteNibbles(x: nat)
    ensures x % 0x100 % 16 == x % 16 && x % 0x100 / 16 == x / 16 % 16
    ensures x % 0x100 != 0 && x % 16 == 0 ==> x / 16 % 16 != 0
  {}

  lemma {:induction false} LowestPastByte(x: nat, i: nat)
    requires x % 0x100 == 0 && Lowest(x / 0x100, i)
    ensures Lowest(x, i + 8)
  {
    assert x / 16 / 16 == x / 0x100 && x / 16 % 16 == 0;
    LowestPastNibble(x / 16, i);
    LowestPastNibble(x, i + 4);
  }

  /** As ByteLowest for the byte k bytes up, the ones below it being zero. */
  lemma {:induction false} HigherByte(x: nat, y: nat, z: nat, w: nat)
    requires y == x / 0x100 && z == y / 0x100 && w == z / 0x100 && x % 0x100 == 0
    ensures y % 0x100 != 0 ==> Lowest(x, LowestBitBitmap(y % 0x100) + 8)
    ensures y % 0x100 == 0 && z % 0x100 != 0 ==> Lowest(x, LowestBitBitmap(z % 0x100) + 16)
    ensures y % 0x100 == 0 && z % 0x100 == 0 && w % 0x100 != 0 ==> Lowest(x, LowestBitBitmap(w % 0x100) + 24)
  {
    if y % 0x100 != 0 {
      ByteLowest(y);
      LowestPastByte(x, LowestBitBitmap(y % 0x100));
    } else if z % 0x100 != 0 {
      ByteLowest(z);
      LowestPastByte(y, LowestBitBitmap(z % 0x100));
      LowestPastByte(x, LowestBitBitmap(z % 0x100) + 8);
    } else if w % 0x100 != 0 {
      ByteLowest(w);
      LowestPastByte(z, LowestBitBitmap(w % 0x100));
      LowestPastByte(y, LowestBitBitmap(w % 0x100) + 8);
      LowestPastByte(x, LowestBitBitmap(w % 0x100) + 16);
    }
  }

  lemma {:induction false} TableBound(b: nat)
    requires b < 256
    ensures LowestBitBitmap(b) <= 7
  {}

  /** For every 32-bit word, the lowest set bit, counted from one; zero exactly for the word without any. */
  lemma {:induction false} FfsIsLowest(value: nat)
    requires value < 0x1_0000_0000
    ensures Ffs(value) == 0 <==> value == 0
    ensures value != 0 ==> 1 <= Ffs(value) <= 32 && Lowest(value, Ffs(value) - 1)
  {
    var b, c, d := value / 0x100, value / 0x1_0000, value / 0x100_0000;
    assert b / 0x100 == c && c / 0x100 == d;
    TableBound(value % 0x100);
    TableBound(b % 0x100);
    TableBound(c % 0x100);
    TableBound(d % 0x100);
    if value % 0x100 != 0 {
      ByteLowest(value);
    } else {
      HigherByte(value, b, c, d);
    }
  }
}
