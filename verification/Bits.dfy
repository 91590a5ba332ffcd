/** Bit strings, most significant bit first, and the machine-word operations the codec uses on them. */
module Bits {
  type byte = x: int | 0 <= x < 256

  function Pow2(n: nat): (p: nat)
    ensures p >= 1
  {
    if n == 0 then 1 else 2 * Pow2(n - 1)
  }

  /** v << n, before any truncation to a word. */
  function Shl(v: nat, n: nat): (r: nat)
  {
    if n == 0 then v else 2 * Shl(v, n - 1)
  }

  /** v >> n. */
  function Shr(v: nat, n: nat): (r: nat)
  {
    if n == 0 then v else Shr(v / 2, n - 1)
  }

  /** v & ((1 << n) - 1). */
  function LowBits(v: nat, n: nat): (r: nat)
    ensures r < Pow2(n)
  {
    if n == 0 then 0 else 2 * LowBits(v / 2, n - 1) + v % 2
  }

  /** A 32-bit left shift drops what leaves the top of the word. */
  function Shl32(v: nat, n: nat): (r: nat)
  {
    LowBits(Shl(v, n), 32)
  }

  function Or(a: nat, b: nat): (r: nat)
  {
    if a == 0 then b else if b == 0 then a
    else 2 * Or(a / 2, b / 2) + (if a % 2 == 1 || b % 2 == 1 then 1 else 0)
  }

  /** The number a bit string denotes. */
  function Value(bs: seq<bool>): (v: nat)
    ensures v < Pow2(|bs|)
  {
    PrefixValue(bs, |bs|)
  }

  /** The number its first n bits denote. */
  function PrefixValue(bs: seq<bool>, n: nat): (v: nat)
    requires n <= |bs|
    ensures v < Pow2(n)
  {
    if n == 0 then 0 else 2 * PrefixValue(bs, n - 1) + (if bs[n - 1] then 1 else 0)
  }

  /** The low n bits of v. */
  function BitsOf(v: nat, n: nat): (bs: seq<bool>)
    ensures |bs| == n
  {
    if n == 0 then [] else BitsOf(v / 2, n - 1) + [v % 2 == 1]
  }

  function Zeros(n: nat): (bs: seq<bool>)
    ensures |bs| == n
  {
    if n == 0 then [] else Zeros(n - 1) + [false]
  }

  // ---------- shifts ----------

  lemma {:induction false} Pow2Monotone(a: nat, b: nat)
    requires a <= b
    ensures Pow2(a) <= Pow2(b)
    decreases b - a
  {
    if a < b { Pow2Monotone(a, b - 1); }
  }

  lemma {:induction false} ShlOfOne(n: nat)
    ensures Shl(1, n) == Pow2(n)
  {
    if n > 0 { ShlOfOne(n - 1); }
  }

  lemma {:induction false} ShlAdd(a: nat, b: nat, n: nat)
    ensures Shl(a + b, n) == Shl(a, n) + Shl(b, n)
  {
    if n > 0 { ShlAdd(a, b, n - 1); }
  }

  lemma {:induction false} ShlShl(v: nat, m: nat, n: nat)
    ensures Shl(Shl(v, m), n) == Shl(v, m + n)
  {
    if n > 0 { ShlShl(v, m, n - 1); }
  }

  lemma {:induction false} ShlMonotone(a: nat, b: nat, n: nat)
    requires a <= b
    ensures Shl(a, n) <= Shl(b, n)
  {
    if n > 0 { ShlMonotone(a, b, n - 1); }
  }

  lemma {:induction false} ShlDouble(v: nat, n: nat)
    ensures Shl(2 * v, n) == 2 * Shl(v, n)
  {
    if n > 0 { ShlDouble(v, n - 1); }
  }

  /** A value of n bits, shifted left by k, has n + k bits. */
  lemma {:induction false} ShlBound(v: nat, n: nat, k: nat)
    requires v < Pow2(n)
    ensures Shl(v, k) < Pow2(n + k)
  {
    if k > 0 { ShlBound(v, n, k - 1); }
  }

  /** Shifting left and filling the vacated bits is undone by taking the high and the low part. */
  lemma {:induction false} SplitWord(q: nat, r: nat, n: nat)
    requires r < Pow2(n)
    ensures Shr(Shl(q, n) + r, n) == q
    ensures LowBits(Shl(q, n) + r, n) == r
  {
    if n > 0 {
      var x := Shl(q, n) + r;
      assert x / 2 == Shl(q, n - 1) + r / 2 && x % 2 == r % 2;
      SplitWord(q, r / 2, n - 1);
    }
  }

  lemma LowBitsSmall(v: nat, n: nat)
    requires v < Pow2(n)
    ensures LowBits(v, n) == v
  {
    ShlZero(n);
    SplitWord(0, v, n);
  }

  lemma {:induction false} ShlZero(n: nat)
    ensures Shl(0, n) == 0
  {
    if n > 0 { ShlZero(n - 1); }
  }

  /** Or with a value that fits in the vacated low bits is addition. */
  lemma {:induction false} OrDisjoint(a: nat, b: nat, k: nat)
    requires b < Pow2(k)
    ensures Or(Shl(a, k), b) == Shl(a, k) + b
  {
    if b != 0 && Shl(a, k) != 0 {
      assert k > 0;
      OrDisjoint(a, b / 2, k - 1);
    }
  }

  // ---------- the two views of a bit string agree ----------

  /** Only the first n bits matter to the value of the first n bits. */
  lemma {:induction false} PrefixValueSame(a: seq<bool>, b: seq<bool>, n: nat)
    requires n <= |a| && n <= |b| && forall i :: 0 <= i < n ==> a[i] == b[i]
    ensures PrefixValue(a, n) == PrefixValue(b, n)
  {
    if n > 0 { PrefixValueSame(a, b, n - 1); }
  }

  lemma {:induction false} BitsOfValue(bs: seq<bool>)
    ensures BitsOf(Value(bs), |bs|) == bs
  {
    if bs != [] {
      var front := bs[..|bs| - 1];
      PrefixValueSame(front, bs, |front|);
      BitsOfValue(front);
    }
  }

  lemma {:induction false} ValueOfBits(v: nat, n: nat)
    ensures Value(BitsOf(v, n)) == LowBits(v, n)
  {
    if n > 0 {
      ValueOfBits(v / 2, n - 1);
      PrefixValueSame(BitsOf(v, n), BitsOf(v / 2, n - 1), n - 1);
    }
  }

  lemma ValueOfSmallBits(v: nat, n: nat)
    requires v < Pow2(n)
    ensures Value(BitsOf(v, n)) == v
  {
    ValueOfBits(v, n);
    LowBitsSmall(v, n);
  }

  lemma ValueConcat(a: seq<bool>, b: seq<bool>)
    ensures Value(a + b) == Shl(Value(a), |b|) + Value(b)
  {
    PrefixValueConcat(a, b, |b|);
  }

  lemma {:induction false} PrefixValueConcat(a: seq<bool>, b: seq<bool>, n: nat)
    requires n <= |b|
    ensures PrefixValue(a + b, |a| + n) == Shl(Value(a), n) + PrefixValue(b, n)
  {
    if n == 0 {
      PrefixValueSame(a + b, a, |a|);
    } else {
      PrefixValueConcat(a, b, n - 1);
    }
  }

  /** The first part of a bit string is a right shift of its value, the second the bits masked off. */
  lemma {:induction false} ValueSplit(a: seq<bool>, b: seq<bool>)
    ensures Value(a + b) == Shl(Value(a), |b|) + Value(b)
    ensures Shr(Value(a + b), |b|) == Value(a) && LowBits(Value(a + b), |b|) == Value(b)
  {
    ValueConcat(a, b);
    SplitWord(Value(a), Value(b), |b|);
  }

  lemma {:induction false} ZerosValue(n: nat)
    ensures Value(Zeros(n)) == 0
  {
    if n > 0 {
      ZerosValue(n - 1);
      PrefixValueSame(Zeros(n), Zeros(n - 1), n - 1);
    }
  }

  lemma {:induction false} ZeroBits(n: nat)
    ensures BitsOf(0, n) == Zeros(n)
  {
    if n > 0 { ZeroBits(n - 1); }
  }

  /** Bit i of the low n bits of v, by a shift. */
  lemma {:induction false} BitAt(v: nat, n: nat, i: nat)
    requires i < n
    ensures BitsOf(v, n)[i] == (Shr(v, n - 1 - i) % 2 == 1)
  {
    if i < n - 1 { BitAt(v / 2, n - 1, i); }
  }

  lemma {:induction false} ZerosSplit(m: nat, n: nat)
    ensures Zeros(m + n) == Zeros(m) + Zeros(n)
  {
    if n > 0 {
      ZerosSplit(m, n - 1);
      assert Zeros(m + n) == Zeros(m + n - 1) + [false];
    } else {
      assert Zeros(m) + Zeros(0) == Zeros(m);
    }
  }
}
