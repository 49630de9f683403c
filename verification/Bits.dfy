// Bitwise arithmetic on machine words, on mathematical naturals.
// A word is a number below a power of two; bit i of x is Bit(x, i).

module Bits {
  type u8 = x: int | 0 <= x < 0x100
  type u32 = x: int | 0 <= x < 0x1_0000_0000

  function Pow2(k: nat): (p: nat)
    ensures p >= 1
  {
    if k == 0 then 1 else 2 * Pow2(k - 1)
  }

  predicate Bit(x: nat, i: nat) {
    if i == 0 then x % 2 == 1 else Bit(x / 2, i - 1)
  }

  // x >> k
  function Shr(x: nat, k: nat): nat {
    if k == 0 then x else Shr(x / 2, k - 1)
  }

  // x << k, nothing dropped
  function Shl(x: nat, k: nat): nat {
    if k == 0 then x else 2 * Shl(x, k - 1)
  }

  // The low k bits of x
  function Low(x: nat, k: nat): nat {
    if k == 0 then 0 else x % 2 + 2 * Low(x / 2, k - 1)
  }

  function Or(x: nat, y: nat): nat {
    if x == 0 && y == 0 then 0
    else (if x % 2 == 1 || y % 2 == 1 then 1 else 0) + 2 * Or(x / 2, y / 2)
  }

  function And(x: nat, y: nat): nat {
    if x == 0 && y == 0 then 0
    else (if x % 2 == 1 && y % 2 == 1 then 1 else 0) + 2 * And(x / 2, y / 2)
  }

  // ---- bits of the operations

  lemma {:induction false} BitOfZero(i: nat)
    ensures !Bit(0, i)
  {
    if i > 0 { BitOfZero(i - 1); }
  }

  lemma {:induction false} BitOfShr(x: nat, k: nat, i: nat)
    ensures Bit(Shr(x, k), i) == Bit(x, i + k)
  {
    if k > 0 { BitOfShr(x / 2, k - 1, i); }
  }

  lemma {:induction false} BitOfShl(x: nat, k: nat, i: nat)
    ensures Bit(Shl(x, k), i) == (i >= k && Bit(x, i - k))
  {
    if k > 0 && i > 0 {
      assert Shl(x, k) / 2 == Shl(x, k - 1);
      BitOfShl(x, k - 1, i - 1);
    }
  }

  lemma {:induction false} BitOfLow(x: nat, k: nat, i: nat)
    ensures Bit(Low(x, k), i) == (i < k && Bit(x, i))
  {
    if k == 0 {
      BitOfZero(i);
    } else if i > 0 {
      assert Low(x, k) / 2 == Low(x / 2, k - 1);
      BitOfLow(x / 2, k - 1, i - 1);
    }
  }

  lemma {:induction false} BitOfOr(x: nat, y: nat, i: nat)
    ensures Bit(Or(x, y), i) == (Bit(x, i) || Bit(y, i))
  {
    if x == 0 && y == 0 {
      BitOfZero(i);
    } else if i > 0 {
      assert Or(x, y) / 2 == Or(x / 2, y / 2);
      BitOfOr(x / 2, y / 2, i - 1);
    }
  }

  lemma {:induction false} BitOfAnd(x: nat, y: nat, i: nat)
    ensures Bit(And(x, y), i) == (Bit(x, i) && Bit(y, i))
  {
    if x == 0 && y == 0 {
      BitOfZero(i);
    } else if i > 0 {
      assert And(x, y) / 2 == And(x / 2, y / 2);
      BitOfAnd(x / 2, y / 2, i - 1);
    }
  }

  // Concatenation: the k low bits are lo's, the others are hi's.
  lemma {:induction false} BitOfConcat(lo: nat, hi: nat, k: nat, i: nat)
    requires lo < Pow2(k)
    ensures Bit(lo + hi * Pow2(k), i) == if i < k then Bit(lo, i) else Bit(hi, i - k)
  {
    if k > 0 {
      var x := lo + hi * Pow2(k);
      assert hi * Pow2(k) == 2 * (hi * Pow2(k - 1));
      assert x / 2 == lo / 2 + hi * Pow2(k - 1) && x % 2 == lo % 2;
      if i > 0 { BitOfConcat(lo / 2, hi, k - 1, i - 1); }
    }
  }

  lemma {:induction false} BitAbove(x: nat, k: nat, i: nat)
    requires x < Pow2(k) && k <= i
    ensures !Bit(x, i)
  {
    if k == 0 { BitOfZero(i); } else { BitAbove(x / 2, k - 1, i - 1); }
  }

  // A mask of k ones.
  lemma {:induction false} BitOfMask(k: nat, i: nat)
    ensures Bit(Pow2(k) - 1, i) == (i < k)
  {
    if k == 0 { BitOfZero(i); }
    else {
      assert (Pow2(k) - 1) / 2 == Pow2(k - 1) - 1;
      if i > 0 { BitOfMask(k - 1, i - 1); }
    }
  }

  // ---- bounds and extensionality

  lemma {:induction false} SameBits(x: nat, y: nat, k: nat)
    requires x < Pow2(k) && y < Pow2(k)
    requires forall i :: 0 <= i < k ==> Bit(x, i) == Bit(y, i)
    ensures x == y
  {
    if k > 0 {
      assert Bit(x, 0) == Bit(y, 0);
      forall i | 0 <= i < k - 1 ensures Bit(x / 2, i) == Bit(y / 2, i) {
        assert Bit(x, i + 1) == Bit(y, i + 1);
      }
      SameBits(x / 2, y / 2, k - 1);
    }
  }

  lemma {:induction false} LowBound(x: nat, k: nat)
    ensures Low(x, k) < Pow2(k)
  {
    if k > 0 { LowBound(x / 2, k - 1); }
  }

  lemma {:induction false} LowAll(x: nat, k: nat)
    requires x < Pow2(k)
    ensures Low(x, k) == x
  {
    if k > 0 { LowAll(x / 2, k - 1); }
  }

  lemma {:induction false} OrBound(x: nat, y: nat, k: nat)
    requires x < Pow2(k) && y < Pow2(k)
    ensures Or(x, y) < Pow2(k)
  {
    if k > 0 && (x != 0 || y != 0) { OrBound(x / 2, y / 2, k - 1); }
  }

  lemma {:induction false} AndBound(x: nat, y: nat, k: nat)
    requires y < Pow2(k)
    ensures And(x, y) < Pow2(k)
    decreases k, x
  {
    if x != 0 || y != 0 {
      if k == 0 { AndWithZero(x); } else { AndBound(x / 2, y / 2, k - 1); }
    }
  }

  lemma {:induction false} AndWithZero(x: nat)
    ensures And(x, 0) == 0
  {
    if x > 0 { AndWithZero(x / 2); }
  }

  lemma {:induction false} ShrBound(x: nat, k: nat)
    ensures Shr(x, k) <= x
  {
    if k > 0 { ShrBound(x / 2, k - 1); }
  }

  lemma {:induction false} Pow2Monotone(a: nat, b: nat)
    requires a <= b
    ensures Pow2(a) <= Pow2(b)
  {
    if a < b { Pow2Monotone(a, b - 1); }
  }

  lemma Pow2Values()
    ensures Pow2(1) == 2 && Pow2(8) == 0x100
    ensures Pow2(30) == 0x4000_0000 && Pow2(31) == 0x8000_0000 && Pow2(32) == 0x1_0000_0000
  {
    assert Pow2(4) == 16;
    assert Pow2(8) == 0x100;
    assert Pow2(12) == 0x1000;
    assert Pow2(16) == 0x1_0000;
    assert Pow2(20) == 0x10_0000;
    assert Pow2(24) == 0x100_0000;
    assert Pow2(28) == 0x1000_0000;
  }

  lemma Pow2Table()
    ensures Pow2(1) == 0x2 && Pow2(2) == 0x4 && Pow2(3) == 0x8 && Pow2(4) == 0x10
    ensures Pow2(5) == 0x20 && Pow2(6) == 0x40 && Pow2(7) == 0x80 && Pow2(8) == 0x100
    ensures Pow2(9) == 0x200 && Pow2(10) == 0x400 && Pow2(11) == 0x800 && Pow2(12) == 0x1000
    ensures Pow2(13) == 0x2000 && Pow2(14) == 0x4000 && Pow2(15) == 0x8000 && Pow2(16) == 0x1_0000
    ensures Pow2(17) == 0x2_0000 && Pow2(18) == 0x4_0000 && Pow2(19) == 0x8_0000 && Pow2(20) == 0x10_0000
    ensures Pow2(21) == 0x20_0000 && Pow2(22) == 0x40_0000 && Pow2(23) == 0x80_0000 && Pow2(24) == 0x100_0000
    ensures Pow2(25) == 0x200_0000 && Pow2(26) == 0x400_0000 && Pow2(27) == 0x800_0000 && Pow2(28) == 0x1000_0000
    ensures Pow2(29) == 0x2000_0000 && Pow2(30) == 0x4000_0000 && Pow2(31) == 0x8000_0000 && Pow2(32) == 0x10000_0000
  {
    assert Pow2(4) == 16;
    assert Pow2(8) == 0x100;
    assert Pow2(12) == 0x1000;
    assert Pow2(16) == 0x1_0000;
    assert Pow2(20) == 0x10_0000;
    assert Pow2(24) == 0x100_0000;
    assert Pow2(28) == 0x1000_0000;
  }

  // ---- the unsigned 32-bit operators

  lemma NoBitAbove31(x: u32, i: nat)
    requires i >= 32
    ensures !Bit(x, i)
  {
    Pow2Values();
    BitAbove(x, 32, i);
  }

  // uint32_t << k: the bits shifted past bit 31 are dropped
  function Shl32(x: u32, k: nat): (r: u32)
    ensures forall i: nat :: Bit(r, i) == (k <= i < 32 && Bit(x, i - k))
  {
    LowBound(Shl(x, k), 32);
    Pow2Values();
    var r := Low(Shl(x, k), 32);
    assert forall i: nat :: Bit(r, i) == (k <= i < 32 && Bit(x, i - k)) by {
      forall i: nat ensures Bit(r, i) == (k <= i < 32 && Bit(x, i - k)) {
        BitOfLow(Shl(x, k), 32, i);
        BitOfShl(x, k, i);
      }
    }
    r
  }

  function Shr32(x: u32, k: nat): (r: u32)
    ensures forall i: nat :: Bit(r, i) == Bit(x, i + k)
  {
    ShrBound(x, k);
    var r := Shr(x, k);
    assert forall i: nat :: Bit(r, i) == Bit(x, i + k) by {
      forall i: nat ensures Bit(r, i) == Bit(x, i + k) { BitOfShr(x, k, i); }
    }
    r
  }

  function Or32(x: u32, y: u32): (r: u32)
    ensures forall i: nat :: Bit(r, i) == (Bit(x, i) || Bit(y, i))
  {
    Pow2Values();
    OrBound(x, y, 32);
    var r := Or(x, y);
    assert forall i: nat :: Bit(r, i) == (Bit(x, i) || Bit(y, i)) by {
      forall i: nat ensures Bit(r, i) == (Bit(x, i) || Bit(y, i)) { BitOfOr(x, y, i); }
    }
    r
  }

  function And32(x: u32, y: u32): (r: u32)
    ensures forall i: nat :: Bit(r, i) == (Bit(x, i) && Bit(y, i))
    ensures r < 0x1_0000_0000
  {
    Pow2Values();
    AndBound(x, y, 32);
    var r := And(x, y);
    assert forall i: nat :: Bit(r, i) == (Bit(x, i) && Bit(y, i)) by {
      forall i: nat ensures Bit(r, i) == (Bit(x, i) && Bit(y, i)) { BitOfAnd(x, y, i); }
    }
    r
  }

  // Addition and subtraction of machine words
  function Add32(x: u32, y: u32): u32 {
    if x + y < 0x1_0000_0000 then x + y else x + y - 0x1_0000_0000
  }

  function Sub32(x: u32, y: u32): u32 {
    if x >= y then x - y else x - y + 0x1_0000_0000
  }

  lemma Modular32(x: u32, y: u32)
    ensures Add32(x, y) == (x + y) % 0x1_0000_0000
    ensures Sub32(x, y) == (x - y) % 0x1_0000_0000
  {
  }

  lemma AddDifference(p: u32, last: u32, d: u32)
    ensures Add32(Add32(p, last), Sub32(d, p)) == Add32(d, last)
  {
  }

  lemma SubtractSum(t: u32, d: u32)
    ensures Sub32(Add32(t, d), t) == d
  {
  }

  lemma AddAssociates(x: u32, y: u32, z: u32)
    ensures Add32(Add32(x, y), z) == Add32(x, Add32(y, z))
    ensures Add32(x, y) == Add32(y, x)
  {
  }
}
