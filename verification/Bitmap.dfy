/** Words as bitmaps of ready priorities, and the find-first-set of rt-smart/src/kservice.c. */
module Bitmap {
  // Bit k of a word, counted from the least significant one.
  predicate Bit(v: nat, k: nat) {
    if k == 0 then v % 2 == 1 else Bit(v / 2, k - 1)
  }

  // 1 << k
  function Mask(k: nat): (m: nat)
    ensures m > 0
  {
    if k == 0 then 1 else 2 * Mask(k - 1)
  }

  // v | w
  function Or(v: nat, w: nat): nat {
    if v == 0 && w == 0 then 0 else 2 * Or(v / 2, w / 2) + if v % 2 == 1 || w % 2 == 1 then 1 else 0
  }

  // v & ~w
  function AndNot(v: nat, w: nat): nat {
    if v == 0 then 0 else 2 * AndNot(v / 2, w / 2) + if v % 2 == 1 && w % 2 == 0 then 1 else 0
  }

  lemma {:induction false} NoBit(k: nat)
    ensures !Bit(0, k)
  {
    if k > 0 {
      NoBit(k - 1);
    }
  }

  lemma {:induction false} MaskBit(k: nat, j: nat)
    ensures Bit(Mask(k), j) <==> j == k
  {
    if k == 0 && j > 0 {
      NoBit(j - 1);
    } else if k > 0 && j > 0 {
      MaskBit(k - 1, j - 1);
    }
  }

  lemma {:induction false} OrBit(v: nat, w: nat, j: nat)
    ensures Bit(Or(v, w), j) <==> Bit(v, j) || Bit(w, j)
    decreases j
  {
    if v == 0 && w == 0 {
      NoBit(j);
    } else if j > 0 {
      OrBit(v / 2, w / 2, j - 1);
    }
  }

  lemma {:induction false} AndNotBit(v: nat, w: nat, j: nat)
    ensures Bit(AndNot(v, w), j) <==> Bit(v, j) && !Bit(w, j)
    decreases j
  {
    if v == 0 {
      NoBit(j);
    } else if j > 0 {
      AndNotBit(v / 2, w / 2, j - 1);
    }
  }

  lemma {:induction false} SomeBit(v: nat) returns (k: nat)
    requires v > 0
    ensures Bit(v, k)
    decreases v
  {
    if v % 2 == 1 {
      k := 0;
    } else {
      var j := SomeBit(v / 2);
      k := j + 1;
    }
  }

  lemma {:induction false} BitPositive(v: nat, k: nat)
    requires Bit(v, k)
    ensures v > 0
  {
    if v == 0 {
      NoBit(k);
    }
  }

  // No bit at or above n.
  predicate Within(v: nat, n: nat) {
    v < Mask(n)
  }

  lemma {:induction false} WithinBit(v: nat, n: nat, k: nat)
    requires Within(v, n) && Bit(v, k)
    ensures k < n
    decreases n
  {
    if n == 0 {
      NoBit(k);
    } else if k > 0 {
      WithinBit(v / 2, n - 1, k - 1);
    }
  }

  lemma {:induction false} OrWithin(v: nat, w: nat, n: nat)
    requires Within(v, n) && Within(w, n)
    ensures Within(Or(v, w), n)
    decreases n
  {
    if n > 0 && (v > 0 || w > 0) {
      OrWithin(v / 2, w / 2, n - 1);
    }
  }

  lemma {:induction false} AndNotWithin(v: nat, w: nat, n: nat)
    requires Within(v, n)
    ensures Within(AndNot(v, w), n)
    decreases n
  {
    if n > 0 && v > 0 {
      AndNotWithin(v / 2, w / 2, n - 1);
    }
  }

  lemma {:induction false} MaskWithin(k: nat, n: nat)
    requires k < n
    ensures Within(Mask(k), n)
    decreases n
  {
    if k < n - 1 {
      MaskWithin(k, n - 1);
    }
  }

  // One row of __lowest_bit_bitmap
  function Row(first: nat): (row: seq<nat>)
    ensures |row| == 16
  {
    [first, 0, 1, 0, 2, 0, 1, 0, 3, 0, 1, 0, 2, 0, 1, 0]
  }

  const FIRSTS: seq<nat> := [0, 4, 5, 4, 6, 4, 5, 4, 7, 4, 5, 4, 6, 4, 5, 4]

  // __lowest_bit_bitmap
  function Table(i: nat): nat
    requires i < 256
  {
    Row(FIRSTS[i / 16])[i % 16]
  }

  // The number of the lowest bit that is set.
  function Lowest(v: nat): nat
    requires v > 0
  {
    if v % 2 == 1 then 0 else 1 + Lowest(v / 2)
  }

  lemma {:induction false} LowestIs(v: nat, j: nat)
    requires v > 0
    ensures Bit(v, Lowest(v)) && (Bit(v, j) ==> Lowest(v) <= j)
    decreases v
  {
    if v % 2 == 0 {
      LowestIs(v / 2, if j > 0 then j - 1 else 0);
    }
  }

  function LowestOfFour(r: nat): nat {
    if r % 2 == 1 then 0 else if r / 2 % 2 == 1 then 1 else if r / 4 % 2 == 1 then 2 else 3
  }

  lemma NibbleLowest(q: nat, r: nat)
    requires r < 16 && q + r > 0
    ensures Lowest(16 * q + r) == if r > 0 then LowestOfFour(r) else 4 + Lowest(q)
  {
    var a, b, c := 8 * q + r / 2, 4 * q + r / 4, 2 * q + r / 8;
    NibbleBits(q, r);
    assert c > 0 ==> Lowest(c) == if r / 8 % 2 == 1 then 0 else 1 + Lowest(q);
    assert b > 0 ==> Lowest(b) == if r / 4 % 2 == 1 then 0 else 1 + Lowest(c);
    assert a > 0 ==> Lowest(a) == if r / 2 % 2 == 1 then 0 else 1 + Lowest(b);
  }

  lemma NibbleBits(q: nat, r: nat)
    requires r < 16
    ensures var a, b, c := 8 * q + r / 2, 4 * q + r / 4, 2 * q + r / 8;
            && (16 * q + r) / 2 == a && a / 2 == b && b / 2 == c && c / 2 == q
            && (16 * q + r) % 2 == r % 2 && a % 2 == r / 2 % 2 && b % 2 == r / 4 % 2 && c % 2 == r / 8 % 2
            && (r > 0 ==> r % 2 + r / 2 % 2 + r / 4 % 2 + r / 8 % 2 > 0)
  {
  }

  lemma RowLowest(r: nat, first: nat)
    requires 0 < r < 16
    ensures Row(first)[r] == LowestOfFour(r)
  {
  }

  lemma FirstsLowest(h: nat)
    requires 0 < h < 16
    ensures FIRSTS[h] == 4 + LowestOfFour(h)
  {
  }

  lemma TableLowest(h: nat, r: nat)
    requires h < 16 && r < 16 && h + r > 0
    ensures Table(16 * h + r) == Lowest(16 * h + r)
  {
    NibbleLowest(h, r);
    assert (16 * h + r) / 16 == h && (16 * h + r) % 16 == r;
    hide Lowest, LowestOfFour, Row;
    if r > 0 {
      RowLowest(r, FIRSTS[h]);
    } else {
      FirstsLowest(h);
      NibbleLowest(0, h);
      assert Row(FIRSTS[h])[0] == FIRSTS[h] by {
        RowFirst(FIRSTS[h]);
      }
    }
  }

  lemma RowFirst(first: nat)
    ensures Row(first)[0] == first
  {
  }

  lemma DigitsLowest(p: nat, h: nat, r: nat)
    requires h < 16 && r < 16 && p + h + r > 0
    ensures if h + r > 0 then Lowest(16 * (16 * p + h) + r) == Lowest(16 * h + r)
            else Lowest(16 * (16 * p + h) + r) == 8 + Lowest(p)
  {
    hide Lowest, LowestOfFour;
    NibbleLowest(16 * p + h, r);
    if r == 0 {
      NibbleLowest(p, h);
    }
    if h + r > 0 {
      NibbleLowest(h, r);
      if r == 0 {
        NibbleLowest(0, h);
      }
    }
  }

  lemma Digits(v: nat)
    ensures var p, h, r := v / 256, v / 16 % 16, v % 16;
            h < 16 && r < 16 && v == 16 * (16 * p + h) + r && v % 256 == 16 * h + r
  {
  }

  lemma ByteLowest(v: nat)
    requires v > 0
    ensures if v % 256 > 0 then Table(v % 256) == Lowest(v) else Lowest(v) == 8 + Lowest(v / 256)
  {
    hide Lowest, Table;
    var p, h, r := v / 256, v / 16 % 16, v % 16;
    Digits(v);
    DigitsLowest(p, h, r);
    if h + r > 0 {
      TableLowest(h, r);
    }
  }

  // __rt_ffs
  function Ffs(value: nat): nat {
    if value == 0 then 0
    else if value % 256 != 0 then Table(value % 256) + 1
    else if value / 256 % 256 != 0 then Table(value / 256 % 256) + 9
    else if value / 65536 % 256 != 0 then Table(value / 65536 % 256) + 17
    else Table(value / 16777216 % 256) + 25
  }

  /** The table lookups find the lowest bit of every 32-bit word, numbered from one. */
  lemma FfsIsLowest(value: nat)
    requires 0 < value < 0x1_0000_0000
    ensures Ffs(value) == Lowest(value) + 1
  {
    hide Lowest, Table;
    ByteLowest(value);
    if value % 256 == 0 {
      ByteLowest(value / 256);
      assert value / 256 / 256 == value / 65536;
      if value / 256 % 256 == 0 {
        ByteLowest(value / 65536);
        assert value / 65536 / 256 == value / 16777216;
        if value / 65536 % 256 == 0 {
          ByteLowest(value / 16777216);
        }
      }
    }
  }

  lemma MaskValues()
    ensures Mask(8) == 256 && Mask(32) == 0x1_0000_0000
  {
    assert Mask(4) == 16;
    assert Mask(8) == 256;
    assert Mask(12) == 4096;
    assert Mask(16) == 65536;
    assert Mask(20) == 1048576;
    assert Mask(24) == 16777216;
    assert Mask(28) == 268435456;
  }
}
