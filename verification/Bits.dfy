/** Bitmaps as natural numbers, and the find-first-set of src/kservice.c:1246-1290. */
module Bits {

  function Bit(v: nat, i: nat): bool {
    if i == 0 then v % 2 == 1 else Bit(v / 2, i - 1)
  }

  /** v | 1 << i */
  function SetBit(v: nat, i: nat): nat {
    if i == 0 then v / 2 * 2 + 1 else SetBit(v / 2, i - 1) * 2 + v % 2
  }

  /** v & ~(1 << i) */
  function ClearBit(v: nat, i: nat): nat {
    if i == 0 then v / 2 * 2 else ClearBit(v / 2, i - 1) * 2 + v % 2
  }

  lemma {:induction false} SetBitIs(v: nat, i: nat, j: nat)
    ensures Bit(SetBit(v, i), j) <==> j == i || Bit(v, j)
  {
    if i > 0 && j > 0 {
      SetBitIs(v / 2, i - 1, j - 1);
    }
  }

  lemma {:induction false} ClearBitIs(v: nat, i: nat, j: nat)
    ensures Bit(ClearBit(v, i), j) <==> j != i && Bit(v, j)
  {
    if i > 0 && j > 0 {
      ClearBitIs(v / 2, i - 1, j - 1);
    }
  }

  function Pow2(n: nat): nat {
    if n == 0 then 1 else 2 * Pow2(n - 1)
  }

  lemma DoubleFits(w: nat, b: nat, half: nat)
    requires w < half && b <= 1
    ensures w * 2 + b < 2 * half
  {
  }

  lemma {:induction false} BitsFit(v: nat, i: nat, n: nat)
    requires v < Pow2(n) && i < n
    ensures SetBit(v, i) < Pow2(n) && ClearBit(v, i) < Pow2(n)
  {
    var half, w, b := Pow2(n - 1), v / 2, v % 2;
    assert v == 2 * w + b && w < half;
    if i == 0 {
      DoubleFits(w, 1, half);
      DoubleFits(w, 0, half);
    } else {
      BitsFit(w, i - 1, n - 1);
      DoubleFits(SetBit(w, i - 1), b, half);
      DoubleFits(ClearBit(w, i - 1), b, half);
    }
  }

  lemma {:induction false} HighBitsClear(v: nat, i: nat, n: nat)
    requires v < Pow2(n) && Bit(v, i)
    ensures i < n
  {
    if n == 0 {
      ZeroHasNoBits(i);
    } else if i > 0 {
      HighBitsClear(v / 2, i - 1, n - 1);
    }
  }

  lemma {:induction false} ZeroHasNoBits(i: nat)
    ensures !Bit(0, i)
  {
    if i > 0 {
      ZeroHasNoBits(i - 1);
    }
  }

  // ---------- The lowest bit ----------

  /** The index of the lowest bit that is set. */
  function Low(v: nat): nat
    requires v > 0
  {
    if v % 2 == 1 then 0 else 1 + Low(v / 2)
  }

  lemma {:induction false} LowIs(v: nat, i: nat)
    requires v > 0
    ensures Bit(v, Low(v)) && (i < Low(v) ==> !Bit(v, i))
  {
    if v % 2 == 0 {
      LowIs(v / 2, if i == 0 then 0 else i - 1);
    }
  }

  /** The k lowest bits are clear. */
  predicate Clear(u: nat, k: nat) {
    k == 0 || (u % 2 == 0 && Clear(u / 2, k - 1))
  }

  lemma {:induction false} LowAdd(u: nat, l: nat, k: nat)
    requires Clear(u, k) && 0 < l < Pow2(k)
    ensures Low(u + l) == Low(l)
  {
    if l % 2 == 0 {
      assert (u + l) / 2 == u / 2 + l / 2;
      LowAdd(u / 2, l / 2, k - 1);
    }
  }

  lemma LowDouble(w: nat)
    requires w > 0
    ensures Low(2 * w) == 1 + Low(w)
  {
  }

  lemma ClearDouble(w: nat, k: nat)
    requires Clear(w, k)
    ensures Clear(2 * w, k + 1)
  {
  }

  lemma Low16(w: nat)
    requires w > 0
    ensures Low(16 * w) == 4 + Low(w)
  {
    LowDouble(w);
    LowDouble(2 * w);
    LowDouble(4 * w);
    LowDouble(8 * w);
  }

  lemma Clear16(w: nat, k: nat)
    requires Clear(w, k)
    ensures Clear(16 * w, k + 4)
  {
    ClearDouble(w, k);
    ClearDouble(2 * w, k + 1);
    ClearDouble(4 * w, k + 2);
    ClearDouble(8 * w, k + 3);
  }

  // ---------- __rt_ffs ----------

  /** The entry of __lowest_bit_bitmap in row h and column l: rows differ in their first entry only. */
  function Entry(h: nat, l: nat): nat
    requires h < 16 && l < 16
  {
    if l == 0 then [0, 4, 5, 4, 6, 4, 5, 4, 7, 4, 5, 4, 6, 4, 5, 4][h]
    else [0, 0, 1, 0, 2, 0, 1, 0, 3, 0, 1, 0, 2, 0, 1, 0][l]
  }

  /** __lowest_bit_bitmap. */
  function LowestBit(b: nat): nat
    requires b < 256
  {
    Entry(b / 16, b % 16)
  }

  function Ffs(value: nat): nat
    requires value < 0x1_0000_0000
  {
    if value == 0 then 0
    else if value % 0x100 != 0 then LowestBit(value % 0x100) + 1
    else if value / 0x100 % 0x100 != 0 then LowestBit(value / 0x100 % 0x100) + 9
    else if value / 0x1_0000 % 0x100 != 0 then LowestBit(value / 0x1_0000 % 0x100) + 17
    else LowestBit(value / 0x100_0000 % 0x100) + 25
  }

  lemma Nibble(l: nat)
    requires 0 < l < 16
    ensures Low(l) == [0, 0, 1, 0, 2, 0, 1, 0, 3, 0, 1, 0, 2, 0, 1, 0][l]
  {
    if l % 2 == 0 {
      var h := l / 2;
      LowDouble(h);
      HalfNibble(h);
      assert [0, 0, 1, 0, 2, 0, 1, 0, 3, 0, 1, 0, 2, 0, 1, 0][2 * h] == [0, 0, 1, 0, 2, 0, 1, 0][h] + 1;
    }
  }

  lemma HalfNibble(l: nat)
    requires 0 < l < 8
    ensures Low(l) == [0, 0, 1, 0, 2, 0, 1, 0][l]
  {
    assert Low(1) == 0 && Low(2) == 1 && Low(4) == 1 + Low(2);
    assert Low(3) == 0 && Low(5) == 0 && Low(7) == 0 && Low(6) == 1 + Low(3);
  }

  lemma RowIs(h: nat)
    requires 0 < h < 16
    ensures Low(16 * h) == [0, 4, 5, 4, 6, 4, 5, 4, 7, 4, 5, 4, 6, 4, 5, 4][h]
  {
    Low16(h);
    Nibble(h);
    RowStart(h);
  }

  lemma CellIs(h: nat, l: nat)
    requires 0 < l < 16
    ensures Low(16 * h + l) == [0, 0, 1, 0, 2, 0, 1, 0, 3, 0, 1, 0, 2, 0, 1, 0][l]
  {
    Clear16(h, 0);
    assert Pow2(4) == 16 by { assert Pow2(2) == 4; }
    LowAdd(16 * h, l, 4);
    Nibble(l);
  }

  lemma EntryIs(h: nat, l: nat)
    requires h < 16 && l < 16 && h + l > 0
    ensures Low(16 * h + l) == Entry(h, l)
  {
    if l == 0 {
      RowIs(h);
    } else {
      CellIs(h, l);
    }
  }

  lemma TableIs(b: nat)
    requires 0 < b < 256
    ensures LowestBit(b) == Low(b)
  {
    assert b == 16 * (b / 16) + b % 16;
    EntryIs(b / 16, b % 16);
  }

  /** The first entries of the rows. */
  lemma RowStart(h: nat)
    requires 0 < h < 16
    ensures [0, 4, 5, 4, 6, 4, 5, 4, 7, 4, 5, 4, 6, 4, 5, 4][h] ==
              4 + [0, 0, 1, 0, 2, 0, 1, 0, 3, 0, 1, 0, 2, 0, 1, 0][h]
  {
  }

  lemma LowByte(w: nat)
    requires w > 0
    ensures Low(256 * w) == 8 + Low(w)
  {
    Low16(w);
    Low16(16 * w);
  }

  lemma ByteIs(v: nat)
    requires v % 256 > 0
    ensures LowestBit(v % 256) == Low(v)
  {
    var h, l := v / 256, v % 256;
    assert v == 256 * h + l;
    Clear16(h, 0);
    Clear16(16 * h, 4);
    assert Pow2(8) == 256 by { assert Pow2(2) == 4 && Pow2(4) == 16 && Pow2(6) == 64; }
    LowAdd(256 * h, l, 8);
    TableIs(l);
  }

  /** One byte at a time. */
  lemma ByteStep(v: nat)
    requires v > 0
    ensures v % 256 != 0 ==> Low(v) == LowestBit(v % 256)
    ensures v % 256 == 0 ==> v / 256 > 0 && Low(v) == 8 + Low(v / 256)
  {
    if v % 256 != 0 {
      ByteIs(v);
    } else {
      assert v == 256 * (v / 256);
      LowByte(v / 256);
    }
  }

  lemma Quotients(value: nat)
    ensures value / 0x100 / 0x100 == value / 0x1_0000 && value / 0x1_0000 / 0x100 == value / 0x100_0000
    ensures value < 0x1_0000_0000 ==> value / 0x100_0000 < 0x100
  {
  }

  /** The table look-ups find the lowest bit: 0 for no bit, else its index counted from 1. */
  lemma FfsIs(value: nat)
    requires value < 0x1_0000_0000
    ensures Ffs(value) == if value == 0 then 0 else Low(value) + 1
  {
    Quotients(value);
    if value != 0 {
      ByteStep(value);
      if value % 0x100 == 0 {
        var v1, v2, v3 := value / 0x100, value / 0x1_0000, value / 0x100_0000;
        ByteStep(v1);
        if v1 % 0x100 == 0 {
          ByteStep(v2);
          if v2 % 0x100 == 0 {
            ByteStep(v3);
          }
        }
      }
    }
  }
}
