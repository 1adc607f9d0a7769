/** Single bits of a byte. */
module Bits {
  import opened Basics
  import opened Codec

  /** Whether `n & (1 << k)` is not zero. */
  predicate BitOf(n: nat, k: nat) {
    if k == 0 then n % 2 == 1 else BitOf(n / 2, k - 1)
  }

  /** `n | (1 << k)`. */
  function WithBit(n: nat, k: nat): nat {
    if k == 0 then n - n % 2 + 1 else n % 2 + 2 * WithBit(n / 2, k - 1)
  }

  /** `n & !(1 << k)`. */
  function WithoutBit(n: nat, k: nat): nat {
    if k == 0 then n - n % 2 else n % 2 + 2 * WithoutBit(n / 2, k - 1)
  }

  /** In numbers: a bit is the parity after `k` halvings, and setting or clearing it adds or takes 2^k. */
  lemma {:induction false} BitInNumbers(n: nat, k: nat)
    ensures BitOf(n, k) <==> (n / Pow2(k)) % 2 == 1
    ensures WithBit(n, k) == if BitOf(n, k) then n else n + Pow2(k)
    ensures WithoutBit(n, k) == if BitOf(n, k) then n - Pow2(k) else n
    decreases k
  {
    if k > 0 {
      BitInNumbers(n / 2, k - 1);
      DividedTwice(n, 2, Pow2(k - 1));
    }
  }

  predicate Bit(b: Byte, k: nat)
    requires k < 8
  {
    BitOf(b, k)
  }

  function SetBit(b: Byte, k: nat): (r: Byte)
    requires k < 8
    ensures forall j :: 0 <= j < 8 ==> Bit(r, j) == (j == k || Bit(b, j))
  {
    Pow2Is256();
    StaysBelow(b, k, 8);
    assert forall j :: 0 <= j < 8 ==> BitOf(WithBit(b, k), j) == (j == k || BitOf(b, j)) by {
      forall j: nat | j < 8 { BitsAfter(b, k, j); }
    }
    WithBit(b, k)
  }

  function ClearBit(b: Byte, k: nat): (r: Byte)
    requires k < 8
    ensures forall j :: 0 <= j < 8 ==> Bit(r, j) == (j != k && Bit(b, j))
  {
    Pow2Is256();
    StaysBelow(b, k, 8);
    assert forall j :: 0 <= j < 8 ==> BitOf(WithoutBit(b, k), j) == (j != k && BitOf(b, j)) by {
      forall j: nat | j < 8 { BitsAfter(b, k, j); }
    }
    WithoutBit(b, k)
  }

  lemma Pow2Is256()
    ensures Pow2(8) == 256
  {
    assert Pow2(4) == 16;
    Pow2Sum(4, 4);
  }

  lemma {:induction false} StaysBelow(n: nat, k: nat, width: nat)
    requires n < Pow2(width) && k < width
    ensures WithBit(n, k) < Pow2(width) && WithoutBit(n, k) < Pow2(width)
    decreases k
  {
    if k > 0 {
      StaysBelow(n / 2, k - 1, width - 1);
    }
  }

  /** Setting or clearing a bit changes that bit only. */
  lemma {:induction false} BitsAfter(n: nat, k: nat, j: nat)
    ensures BitOf(WithBit(n, k), j) == (j == k || BitOf(n, j))
    ensures BitOf(WithoutBit(n, k), j) == (j != k && BitOf(n, j))
    decreases k
  {
    hide WithBit, WithoutBit;
    HalvesAfter(n, k);
    if k > 0 && j > 0 {
      BitsAfter(n / 2, k - 1, j - 1);
    }
  }

  /** The lowest bit, and what stands above it. */
  lemma HalvesAfter(n: nat, k: nat)
    ensures WithBit(n, k) % 2 == (if k == 0 then 1 else n % 2)
    ensures WithBit(n, k) / 2 == (if k == 0 then n / 2 else WithBit(n / 2, k - 1))
    ensures WithoutBit(n, k) % 2 == (if k == 0 then 0 else n % 2)
    ensures WithoutBit(n, k) / 2 == (if k == 0 then n / 2 else WithoutBit(n / 2, k - 1))
  {
  }

  lemma {:induction false} BitsDecide(a: nat, b: nat, width: nat)
    requires a < Pow2(width) && b < Pow2(width)
    requires forall k: nat :: k < width ==> BitOf(a, k) == BitOf(b, k)
    ensures a == b
    decreases width
  {
    if width > 0 {
      assert BitOf(a, 0) == BitOf(b, 0);
      forall k: nat | k < width - 1
        ensures BitOf(a / 2, k) == BitOf(b / 2, k)
      {
        assert BitOf(a, k + 1) == BitOf(b, k + 1);
      }
      BitsDecide(a / 2, b / 2, width - 1);
    }
  }

  /** A byte is determined by its bits. */
  lemma ByteIsItsBits(a: Byte, b: Byte)
    requires forall k: nat :: k < 8 ==> Bit(a, k) == Bit(b, k)
    ensures a == b
  {
    Pow2Is256();
    forall k: nat | k < 8
      ensures BitOf(a, k) == BitOf(b, k)
    {
      assert Bit(a, k) == Bit(b, k);
    }
    BitsDecide(a, b, 8);
  }
}
