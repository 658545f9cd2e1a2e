/** Bits of natural numbers: shifts, masks and disjunction. */
module Bits {
  import opened Common

  function Pow2(n: nat): (p: nat)
    ensures p > 0
  {
    if n == 0 then 1 else 2 * Pow2(n - 1)
  }

  predicate Bit(x: nat, i: nat)
    decreases i
  {
    if i == 0 then x % 2 == 1 else Bit(x / 2, i - 1)
  }

  function Shl(x: nat, k: nat): nat { if k == 0 then x else 2 * Shl(x, k - 1) }

  function Shr(x: nat, k: nat): nat
    decreases k
  {
    if k == 0 then x else Shr(x / 2, k - 1)
  }

  /** The low `k` bits, as left by a conversion to a `k`-bit unsigned type. */
  function Low(x: nat, k: nat): nat
    decreases k
  {
    if k == 0 then 0 else x % 2 + 2 * Low(x / 2, k - 1)
  }

  function And(x: nat, y: nat): nat
    decreases x
  {
    if x == 0 then 0 else (if x % 2 == 1 && y % 2 == 1 then 1 else 0) + 2 * And(x / 2, y / 2)
  }

  function Or(x: nat, y: nat): nat
    decreases x + y
  {
    if x == 0 && y == 0 then 0 else (if x % 2 == 1 || y % 2 == 1 then 1 else 0) + 2 * Or(x / 2, y / 2)
  }

  function PopCount(x: nat): nat { if x == 0 then 0 else x % 2 + PopCount(x / 2) }

  // ---------------------------------------------------------------- bit by bit

  lemma {:induction false} ZeroBits(i: nat)
    ensures !Bit(0, i)
  {
    if i != 0 {
      ZeroBits(i - 1);
    }
  }

  lemma {:induction false} BitShl(x: nat, k: nat, i: nat)
    ensures Bit(Shl(x, k), i) == (i >= k && Bit(x, i - k))
  {
    if k != 0 && i != 0 {
      assert Shl(x, k) / 2 == Shl(x, k - 1);
      BitShl(x, k - 1, i - 1);
    }
  }

  lemma {:induction false} BitShr(x: nat, k: nat, i: nat)
    ensures Bit(Shr(x, k), i) == Bit(x, i + k)
    decreases k
  {
    if k != 0 {
      BitShr(x / 2, k - 1, i);
    }
  }

  lemma {:induction false} BitLow(x: nat, k: nat, i: nat)
    ensures Bit(Low(x, k), i) == (i < k && Bit(x, i))
    decreases k
  {
    if k == 0 {
      ZeroBits(i);
    } else {
      assert Low(x, k) / 2 == Low(x / 2, k - 1);
      if i != 0 {
        BitLow(x / 2, k - 1, i - 1);
      }
    }
  }

  lemma {:induction false} BitAnd(x: nat, y: nat, i: nat)
    ensures Bit(And(x, y), i) == (Bit(x, i) && Bit(y, i))
    decreases x
  {
    if x == 0 {
      ZeroBits(i);
    } else {
      assert And(x, y) / 2 == And(x / 2, y / 2);
      if i != 0 {
        BitAnd(x / 2, y / 2, i - 1);
      }
    }
  }

  lemma {:induction false} BitOr(x: nat, y: nat, i: nat)
    ensures Bit(Or(x, y), i) == (Bit(x, i) || Bit(y, i))
    decreases x + y
  {
    if x == 0 && y == 0 {
      ZeroBits(i);
    } else {
      assert Or(x, y) / 2 == Or(x / 2, y / 2);
      if i != 0 {
        BitOr(x / 2, y / 2, i - 1);
      }
    }
  }

  lemma {:induction false} HighBits(x: nat, k: nat, i: nat)
    requires x < Pow2(k) && i >= k
    ensures !Bit(x, i)
    decreases k
  {
    if k == 0 {
      ZeroBits(i);
    } else {
      HighBits(x / 2, k - 1, i - 1);
    }
  }

  lemma {:induction false} BitOnes(k: nat, i: nat)
    ensures Bit(Pow2(k) - 1, i) == (i < k)
  {
    if k == 0 {
      ZeroBits(i);
    } else if i != 0 {
      assert (Pow2(k) - 1) / 2 == Pow2(k - 1) - 1;
      BitOnes(k - 1, i - 1);
    }
  }

  /** A number is its bits. */
  lemma {:induction false} SameBits(x: nat, y: nat)
    requires forall i: nat :: Bit(x, i) == Bit(y, i)
    ensures x == y
    decreases x + y
  {
    if x + y > 0 {
      assert Bit(x, 0) == Bit(y, 0);
      forall i: nat ensures Bit(x / 2, i) == Bit(y / 2, i) {
        assert Bit(x, i + 1) == Bit(y, i + 1);
      }
      SameBits(x / 2, y / 2);
    }
  }

  // ---------------------------------------------------------------- arithmetic

  lemma {:induction false} ShlIsMul(x: nat, k: nat)
    ensures Shl(x, k) == x * Pow2(k)
  {
    if k != 0 {
      ShlIsMul(x, k - 1);
      assert x * (2 * Pow2(k - 1)) == 2 * (x * Pow2(k - 1));
    }
  }

  lemma {:induction false} HalveThenDivide(x: nat, p: nat)
    requires p > 0
    ensures x / 2 / p == x / (2 * p)
  {
    var q, r := x / 2 / p, x / 2 % p;
    assert x / 2 == q * p + r;
    assert q * (2 * p) == 2 * (q * p);
    DivModUnique(x, 2 * p, q, 2 * r + x % 2);
  }

  lemma {:induction false} ShrIsDiv(x: nat, k: nat)
    ensures Shr(x, k) == x / Pow2(k)
    decreases k
  {
    if k != 0 {
      ShrIsDiv(x / 2, k - 1);
      HalveThenDivide(x, Pow2(k - 1));
    }
  }

  lemma {:induction false} LowLess(x: nat, k: nat)
    ensures Low(x, k) < Pow2(k)
    decreases k
  {
    if k != 0 {
      LowLess(x / 2, k - 1);
    }
  }

  lemma Pow2Of32()
    ensures Pow2(32) == 0x1_0000_0000
  {
    Pow2Of8();
    Pow2Adds(8, 8);
    Pow2Adds(16, 16);
  }

  lemma {:induction false} Pow2Adds(a: nat, b: nat)
    ensures Pow2(a + b) == Pow2(a) * Pow2(b)
  {
    if b != 0 {
      Pow2Adds(a, b - 1);
      assert Pow2(a) * (2 * Pow2(b - 1)) == 2 * (Pow2(a) * Pow2(b - 1));
    }
  }

  lemma {:induction false} LowOfSmall(x: nat, k: nat)
    requires x < Pow2(k)
    ensures Low(x, k) == x
    decreases k
  {
    if k != 0 {
      LowOfSmall(x / 2, k - 1);
    }
  }

  lemma {:induction false} ShlLess(x: nat, m: nat, k: nat)
    requires x < Pow2(m)
    ensures Shl(x, k) < Pow2(m + k)
  {
    if k != 0 {
      ShlLess(x, m, k - 1);
    }
  }

  lemma {:induction false} ShrLess(x: nat, m: nat, k: nat)
    requires x < Pow2(m + k)
    ensures Shr(x, k) < Pow2(m)
    decreases k
  {
    if k != 0 {
      ShrLess(x / 2, m, k - 1);
    }
  }

  lemma {:induction false} Pow2Mono(m: nat, n: nat)
    requires m <= n
    ensures Pow2(m) <= Pow2(n)
  {
    if m < n {
      Pow2Mono(m, n - 1);
    }
  }

  lemma {:induction false} ShrShl(x: nat, k: nat)
    ensures Shr(Shl(x, k), k) == x
  {
    if k != 0 {
      assert Shl(x, k) / 2 == Shl(x, k - 1);
      ShrShl(x, k - 1);
    }
  }

  /** Masking with `2^k - 1` keeps the low `k` bits. */
  lemma MaskIsLow(x: nat, k: nat)
    ensures And(x, Pow2(k) - 1) == Low(x, k)
  {
    forall i: nat ensures Bit(And(x, Pow2(k) - 1), i) == Bit(Low(x, k), i) {
      BitAnd(x, Pow2(k) - 1, i);
      BitOnes(k, i);
      BitLow(x, k, i);
    }
    SameBits(And(x, Pow2(k) - 1), Low(x, k));
  }

  lemma {:induction false} PopCountOfOnes(k: nat)
    ensures PopCount(Pow2(k) - 1) == k
  {
    if k != 0 {
      assert (Pow2(k) - 1) / 2 == Pow2(k - 1) - 1;
      PopCountOfOnes(k - 1);
    }
  }

  lemma {:induction false} Joined(x: nat, y: nat, k: nat, i: nat)
    requires x < Pow2(k)
    ensures Bit(x + Shl(y, k), i) == if i < k then Bit(x, i) else Bit(y, i - k)
    decreases k
  {
    if k != 0 {
      assert (x + Shl(y, k)) / 2 == x / 2 + Shl(y, k - 1);
      if i != 0 {
        Joined(x / 2, y, k - 1, i - 1);
      }
    }
  }

  // ---------------------------------------------------------------- bytes

  /** The number whose bytes, least significant first, are `bs`. */
  function LeNat(bs: seq<Byte>): nat { if bs == [] then 0 else bs[0] + 256 * LeNat(bs[1..]) }

  /** The low `n` bytes of a number, least significant first. */
  function LeBytes(x: nat, n: nat): (bs: seq<Byte>)
    ensures |bs| == n
    decreases n
  {
    if n == 0 then [] else [x % 256] + LeBytes(x / 256, n - 1)
  }

  function Reversed(bs: seq<Byte>): (r: seq<Byte>)
    ensures |r| == |bs|
  {
    seq(|bs|, i requires 0 <= i < |bs| => bs[|bs| - 1 - i])
  }

  function BeNat(bs: seq<Byte>): nat { LeNat(Reversed(bs)) }

  lemma Pow2Of8()
    ensures Pow2(8) == 256
  {
    assert Pow2(4) == 16;
    assert Pow2(5) == 32 && Pow2(6) == 64;
  }

  lemma ShlBy8(y: nat)
    ensures Shl(y, 8) == 256 * y
  {
    ShlIsMul(y, 8);
    Pow2Of8();
  }

  lemma {:induction false} LeNatBit(bs: seq<Byte>, i: nat)
    ensures Bit(LeNat(bs), i) == (i < 8 * |bs| && Bit(bs[i / 8], i % 8))
  {
    if bs == [] {
      ZeroBits(i);
    } else {
      Pow2Of8();
      ShlBy8(LeNat(bs[1..]));
      Joined(bs[0], LeNat(bs[1..]), 8, i);
      if i >= 8 {
        LeNatBit(bs[1..], i - 8);
        assert i < 8 * |bs| ==> bs[i / 8] == bs[1..][(i - 8) / 8];
      }
    }
  }

  lemma {:induction false} BytesRoundTrip(x: nat, n: nat)
    ensures LeNat(LeBytes(x, n)) == Low(x, 8 * n)
    decreases n
  {
    if n != 0 {
      BytesRoundTrip(x / 256, n - 1);
      LowBy8(x, 8 * n - 8);
    }
  }

  lemma LowBy8(x: nat, k: nat)
    ensures Low(x, k + 8) == x % 256 + 256 * Low(x / 256, k)
  {
    LowBy4(x, k + 4);
    LowBy4(x / 16, k);
  }

  lemma LowBy4(x: nat, k: nat)
    ensures Low(x, k + 4) == x % 16 + 16 * Low(x / 16, k)
  {
    assert Low(x, k + 4) == x % 2 + 2 * Low(x / 2, k + 3);
    assert Low(x / 2, k + 3) == x / 2 % 2 + 2 * Low(x / 4, k + 2);
    assert Low(x / 4, k + 2) == x / 4 % 2 + 2 * Low(x / 8, k + 1);
    assert Low(x / 8, k + 1) == x / 8 % 2 + 2 * Low(x / 16, k);
  }
}
