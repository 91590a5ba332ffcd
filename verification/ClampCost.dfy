/**
 * What the repair can cost: with a one-bit code and a code over the limit, it may settle for a dearer code than it
 * need.
 */
module ClampCost {
  import opened Bits
  import opened Canonical
  import opened SymbolOrder
  import opened HuffmanTree
  import opened HuffmanDepths
  import opened HuffmanQueues
  import opened HuffmanCode
  import opened Clamp
  import opened AssignLengths
  import OneBitCode
  import SteepCode

  /** A one-bit code is kept exactly when Huffman's tree is within the limit. */
  lemma OneBitKept(freq: seq<nat>, limit: nat, s: nat)
    requires Alphabet(freq) && limit > 1 && |Used(freq, |freq|)| > 1 && s < |freq| && Unlimited(freq)[s] == 1
    ensures Assigned(freq, limit)[s] == 1 <==> Height(TreeOfCode(freq)) <= limit
  {
    hide Used, Unlimited, Clamped, Kraft;
    UnlimitedIsComplete(freq);
    SteepCode.BoundedByHeight(freq, limit);
    OneBitCode.OneBitSurvives(Unlimited(freq), limit, Height(TreeOfCode(freq)), s);
  }

  // ---------- over the limit, yet cheapest ----------

  /** With as many symbols as there are codes of limit bits, each must have one of those. */
  lemma {:induction false} NoneToSpare(lens: seq<nat>, xs: seq<nat>, limit: nat)
    requires Indexes(xs, |lens|) && forall i :: 0 <= i < |xs| ==> 0 < lens[xs[i]] <= limit
    ensures SharesOf(lens, xs, limit) >= |xs|
    ensures SharesOf(lens, xs, limit) == |xs| ==> forall i :: 0 <= i < |xs| ==> lens[xs[i]] == limit
  {
    if xs != [] {
      NoneToSpare(lens, xs[1..], limit);
      assert lens[xs[0]] < limit ==> Share(lens[xs[0]], limit) == 2 * Pow2(limit - lens[xs[0]] - 1);
    }
  }

  lemma {:induction false} SameCosts(freq: seq<nat>, a: seq<nat>, b: seq<nat>, xs: seq<nat>)
    requires |freq| == |a| == |b| && Indexes(xs, |freq|) && forall i :: 0 <= i < |xs| ==> a[xs[i]] == b[xs[i]]
    ensures CostsOf(freq, a, xs) == CostsOf(freq, b, xs)
  {
    if xs != [] { SameCosts(freq, a, b, xs[1..]); }
  }

  lemma CrowdedIsFlat(freq: seq<nat>, limit: nat, lens: seq<nat>)
    requires |Used(freq, |freq|)| == Pow2(limit) && |lens| == |freq| && Bounded(lens, limit) &&
             Kraft(lens, |lens|, limit) <= Pow2(limit)
    requires forall s :: 0 <= s < |freq| && freq[s] > 0 ==> lens[s] > 0
    ensures forall i :: 0 <= i < |Used(freq, |freq|)| ==> lens[Used(freq, |freq|)[i]] == limit
  {
    hide Used, Kraft, SharesOf;
    UsedAre(freq, |freq|);
    UsedSums(freq, lens, |freq|, limit);
    NoneToSpare(lens, Used(freq, |freq|), limit);
  }

  /**
   * When every code of the limit's length is needed, what is assigned is the cheapest there is within the limit,
   * however high the tree.
   */
  lemma CrowdedIsCheapest(freq: seq<nat>, limit: nat, other: seq<nat>)
    requires Alphabet(freq) && limit > 0 && |Used(freq, |freq|)| == Pow2(limit)
    requires |other| == |freq| && Bounded(other, limit) && Kraft(other, |other|, limit) <= Pow2(limit)
    requires forall s :: 0 <= s < |freq| && freq[s] > 0 ==> other[s] > 0
    ensures Cost(freq, Assigned(freq, limit), |freq|) == Cost(freq, other, |freq|)
  {
    hide Used, Kraft, Unlimited, Clamped, SharesOf, CostsOf, Cost;
    var used, lens := Used(freq, |freq|), Assigned(freq, limit);
    UnlimitedIsComplete(freq);
    SameUsed(freq, Unlimited(freq), |freq|);
    ClampedIsComplete(Unlimited(freq), limit);
    CrowdedIsFlat(freq, limit, lens);
    CrowdedIsFlat(freq, limit, other);
    UsedSums(freq, lens, |freq|, limit);
    UsedSums(freq, other, |freq|, limit);
    SameCosts(freq, lens, other, used);
  }

  // ---------- an alphabet for which that is dear ----------

  /**
   * The frequencies: 1, 1, 2, 3, 5 and so on to 1597, then 16000, which occurs more often than all of those together.
   */
  function Often(i: nat): nat
  {
    if i < 17 then Fib(i + 1) else if i == 17 then 16000 else 0
  }

  /** Lengths that keep the one-bit code within a limit of 16, and make do with 16 bits for the four rarest symbols. */
  function Shorter(i: nat): nat
  {
    if i < 4 then 16 else if i < 18 then 18 - i else 0
  }

  function Skewed(n: nat): (freq: seq<nat>)
    ensures |freq| == n && forall i :: 0 <= i < n ==> freq[i] == Often(i)
  {
    seq(n, i requires 0 <= i => Often(i))
  }

  function Cheap(n: nat): (lens: seq<nat>)
    ensures |lens| == n && forall i :: 0 <= i < n ==> lens[i] == Shorter(i)
  {
    seq(n, i requires 0 <= i => Shorter(i))
  }

  lemma FibValues()
    ensures Fib(6) == 8 && Fib(7) == 13 && Fib(18) == 2584 && Fib(19) == 4181 && Fib(20) == 6765
  {
  }

  lemma SkewedAlphabet(n: nat)
    requires 18 <= n <= 512
    ensures Alphabet(Skewed(n)) && forall i :: 0 <= i < 18 ==> Skewed(n)[i] > 0
  {
    hide Fib;
    forall i | 0 <= i < n
      ensures Skewed(n)[i] < 0x1_0000_0000 && (i < 18 ==> Skewed(n)[i] > 0)
    {
      if i < 17 {
        FibValues();
        FibMonotone(i + 1, 18);
        FibPositive(i + 1);
      }
    }
  }

  lemma FibPositive(i: nat)
    requires i > 0
    ensures Fib(i) > 0
  {
    FibMonotone(1, i);
  }

  // ---------- Huffman's tree for it ----------

  function Upto(k: nat, n: nat): (xs: seq<nat>)
    requires k <= n
    ensures |xs| == n - k && forall i {:trigger xs[i]} :: 0 <= i < n - k ==> xs[i] == k + i
  {
    seq(n - k, i requires 0 <= i => k + i)
  }

  lemma {:induction false} SkewedUsed(n: nat, k: nat)
    requires 18 <= n <= 512 && k <= n
    ensures Used(Skewed(n), k) == Upto(0, if k < 18 then k else 18)
    decreases k
  {
    if k > 0 {
      SkewedUsed(n, k - 1);
      SkewedAlphabet(n);
    }
  }

  lemma {:induction false} SkewedSorted(n: nat, k: nat)
    requires 18 <= n <= 512 && k <= 18
    ensures SortBy(Skewed(n), Upto(k, 18)) == Upto(k, 18)
    decreases 18 - k
  {
    hide Fib;
    if k < 18 {
      SkewedSorted(n, k + 1);
      assert Upto(k, 18)[1..] == Upto(k + 1, 18) && Upto(k, 18) == [k] + Upto(k + 1, 18);
      if k < 17 {
        FibValues();
        FibMonotone(k + 1, k + 2);
        FibMonotone(k + 1, 18);
        assert Before(Skewed(n), k, Upto(k + 1, 18)[0]);
      }
    }
  }

  lemma LeafNext(n: nat, k: nat)
    requires 18 <= n && k < 18
    ensures LeafTrees(Skewed(n), Upto(0, 18), k) == [Leaf(k, Often(k))] + LeafTrees(Skewed(n), Upto(0, 18), k + 1)
    ensures LeafTrees(Skewed(n), Upto(0, 18), 18) == []
  {
    hide Fib;
  }

  /**
   * The leaves from number k on: each is heavier than those before its predecessor, which come to one less than Fib(k
   * + 2).
   */
  lemma {:induction false} SkewedSteep(n: nat, k: nat)
    requires 18 <= n <= 512 && 2 <= k <= 17
    ensures var ls := LeafTrees(Skewed(n), Upto(0, 18), k);
            && |ls| == 18 - k && SteepCode.AllLeaves(ls) && ls[0] == Leaf(k, Often(k)) && Fib(k + 2) > 0
            && SteepCode.Steep(Fib(k + 2) - 1, ls) && Total(ls) + Fib(k + 2) == 20181
    decreases 17 - k
  {
    hide Fib, LeafTrees, Skewed;
    var leaves := Upto(0, 18);
    var ls := LeafTrees(Skewed(n), leaves, k);
    FibPositive(k + 2);
    FibValues();
    LeafNext(n, k);
    if k == 17 {
      assert ls == [Leaf(17, 16000)];
    } else {
      var rest := LeafTrees(Skewed(n), leaves, k + 1);
      SkewedSteep(n, k + 1);
      FibNext(k + 3);
      assert ls[1..] == rest && ls[1] == rest[0];
    }
  }

  lemma SkewedStart(n: nat)
    requires 18 <= n <= 512
    ensures |Used(Skewed(n), n)| == 18 && Start(Skewed(n)) == Queues(LeafTrees(Skewed(n), Upto(0, 18), 0), [])
  {
    hide LeafTrees, Upto, SortBy;
    SkewedUsed(n, n);
    SkewedSorted(n, 0);
  }

  /** All eighteen symbols occur, 20180 times together, and the rarest of them get 17 bits. */
  lemma SkewedHeight(n: nat)
    requires 18 <= n <= 512
    ensures |Used(Skewed(n), n)| == 18 && Height(TreeOfCode(Skewed(n))) == 17 && Weight(TreeOfCode(Skewed(n))) == 20180
  {
    hide Used, Build, TreeOfCode, SteepCode.Steep;
    var leaves, freq := Upto(0, 18), Skewed(n);
    var ls := LeafTrees(freq, leaves, 0);
    SkewedStart(n);
    StartIs(freq);
    SkewedSteep(n, 2);
    var rest := LeafTrees(freq, leaves, 2);
    LeafNext(n, 0);
    LeafNext(n, 1);
    assert ls == [Leaf(0, 1)] + ([Leaf(1, 1)] + rest);
    assert ls[2..] == rest && ls[1..] == [Leaf(1, 1)] + rest && ls[1..][1..] == rest;
    SteepCode.SteepHeight(ls);
    BuildWeight(Start(freq));
  }

  // ---------- a cheaper code ----------

  lemma {:induction false} CheapKraft(n: nat, k: nat, limit: nat)
    requires 18 <= n && k <= n && limit == 16
    ensures Kraft(Cheap(n), k, limit) == if k <= 4 then k else if k <= 18 then Pow2(k - 2) else Pow2(limit)
    decreases k
  {
    if k > 0 {
      CheapKraft(n, k - 1, limit);
      if k <= 4 {
        assert Share(16, limit) == 1;
      } else if k <= 18 {
        assert Share(18 - (k - 1), limit) == Pow2(k - 3);
        assert k == 5 ==> Pow2(k - 3) == 4;
      }
    }
  }

  lemma CheapIsComplete(n: nat, limit: nat)
    requires 18 <= n && limit == 16
    ensures Complete(Cheap(n), limit)
  {
    hide Kraft, Pow2;
    CheapKraft(n, n, limit);
  }

  /** Up to the last, the symbols' cost has a closed form. */
  lemma {:induction false} CheapCostUpto(n: nat, k: nat)
    requires 18 <= n && 4 <= k <= 17
    ensures Cost(Skewed(n), Cheap(n), k) + 21 == (19 - k) * Fib(k + 2) + Fib(k + 3)
    decreases k
  {
    hide Cost, Fib, Skewed, Cheap;
    if k == 4 {
      FibValues();
      CheapCostFour(n);
    } else {
      CostNext(n, k);
      CheapCostUpto(n, k - 1);
      FibNext(k + 2);
      FibNext(k + 3);
      CostStep(k, Fib(k), Fib(k + 1), Cost(Skewed(n), Cheap(n), k - 1), Cost(Skewed(n), Cheap(n), k));
    }
  }

  lemma CostNext(n: nat, k: nat)
    requires 0 < k <= n
    ensures Cost(Skewed(n), Cheap(n), k) == Cost(Skewed(n), Cheap(n), k - 1) + Often(k - 1) * Shorter(k - 1)
  {
    hide Fib;
  }

  lemma CheapCostFour(n: nat)
    requires 18 <= n
    ensures Cost(Skewed(n), Cheap(n), 4) == 112
  {
    hide Cost;
    CostNext(n, 1);
    CostNext(n, 2);
    CostNext(n, 3);
    CostNext(n, 4);
    assert Fib(1) == 1 && Fib(2) == 1 && Fib(3) == 2 && Fib(4) == 3;
    NoneCosts(n);
  }

  lemma NoneCosts(n: nat)
    ensures Cost(Skewed(n), Cheap(n), 0) == 0
  {
  }

  lemma CostStep(k: nat, a: nat, b: nat, before: nat, after: nat)
    requires k <= 19 && before + 21 == (20 - k) * b + (a + b) && after == before + a * (19 - k)
    ensures after + 21 == (19 - k) * (a + b) + (b + (a + b))
  {
    assert (20 - k) * b == (19 - k) * b + b;
    assert (19 - k) * (a + b) == (19 - k) * a + (19 - k) * b;
  }

  lemma {:induction false} CheapCost(n: nat, k: nat)
    requires 18 <= k <= n
    ensures Cost(Skewed(n), Cheap(n), k) == 31106
    decreases k
  {
    hide Fib;
    if k == 18 {
      CheapCostUpto(n, 17);
      FibValues();
    } else {
      CheapCost(n, k - 1);
    }
  }

  lemma {:induction false} CostAtLeast(freq: seq<nat>, lens: seq<nat>, n: nat, s: nat)
    requires s < n <= |freq| == |lens|
    ensures Cost(freq, lens, n) >= freq[s] * lens[s]
  {
    if s < n - 1 {
      CostAtLeast(freq, lens, n - 1, s);
      assert freq[n - 1] * lens[n - 1] >= 0;
    } else {
      assert Cost(freq, lens, n - 1) >= 0;
    }
  }

  lemma SkewedCost(n: nat, limit: nat)
    requires 18 <= n <= 512 && limit == 16
    ensures |Used(Skewed(n), n)| == 18 && Cost(Skewed(n), Unlimited(Skewed(n)), n) <= 31106
  {
    hide Used, Unlimited, Kraft, Cost, Fib, Pow2;
    SkewedHeight(n);
    SkewedAlphabet(n);
    CheapIsComplete(n, limit);
    CheapCost(n, n);
    HuffmanIsOptimal(Skewed(n), Cheap(n), limit);
  }

  /** Huffman's own code gives the commonest symbol one bit: two would cost more than the cheap code does. */
  lemma SkewedOneBit(n: nat, limit: nat)
    requires 18 <= n <= 512 && limit == 16
    ensures |Used(Skewed(n), n)| == 18 && Unlimited(Skewed(n))[17] == 1
  {
    hide Used, Unlimited, Kraft, Cost, Fib, Pow2;
    SkewedCost(n, limit);
    UnlimitedIsComplete(Skewed(n));
    CostAtLeast(Skewed(n), Unlimited(Skewed(n)), n, 17);
  }

  /**
   * In any alphabet of 18 symbols or more: the code assigned within 16 bits costs more than a complete code within 16
   * bits.
   */
  lemma RepairIsNotCheapest(n: nat)
    requires 18 <= n <= 512
    ensures Alphabet(Skewed(n)) && |Used(Skewed(n), n)| == 18
    ensures Weight(TreeOfCode(Skewed(n))) == 20180 && Height(TreeOfCode(Skewed(n))) == 17
    ensures Complete(Cheap(n), 16) && forall s :: 0 <= s < n && Skewed(n)[s] > 0 ==> Cheap(n)[s] > 0
    ensures Cost(Skewed(n), Cheap(n), n) == 31106 && Cost(Skewed(n), Assigned(Skewed(n), 16), n) >= 32000
  {
    hide Used, Unlimited, Kraft, Cost, Fib, Assigned;
    var freq := Skewed(n);
    SkewedAlphabet(n);
    SkewedHeight(n);
    SkewedOneBit(n, 16);
    OneBitKept(freq, 16, 17);
    CheapIsComplete(n, 16);
    CheapCost(n, n);
    AssignedKeeps(freq, 16, 17);
    CostAtLeast(freq, Assigned(freq, 16), n, 17);
  }

  lemma AssignedKeeps(freq: seq<nat>, limit: nat, s: nat)
    requires Alphabet(freq) && limit == 16 && s < |freq| && freq[s] > 0
    ensures Assigned(freq, limit)[s] > 0
  {
    hide Assigned;
    Room(limit);
    AssignedIsUsable(freq, limit);
  }

  lemma {:induction false} Room(limit: nat)
    requires limit == 16
    ensures Pow2(limit) >= 512 && limit <= MAX_TREE_PATH
  {
    Pow2Monotone(9, limit);
    assert Pow2(9) == 512;
  }
}
