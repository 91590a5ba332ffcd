/** The length limit: cap every length, then repair the code until it is complete again. */
module Clamp {
  import opened Bits
  import opened Canonical
  import opened SymbolOrder
  import opened HuffmanDepths
  import opened HuffmanCode

  function Cap(lens: seq<nat>, limit: nat): (r: seq<nat>)
    ensures |r| == |lens|
    ensures forall i :: 0 <= i < |lens| ==> r[i] == if lens[i] > limit then limit else lens[i]
  {
    seq(|lens|, i requires 0 <= i < |lens| => if lens[i] > limit then limit else lens[i])
  }

  /** Every listed symbol has a length, and none is over the limit. */
  predicate Coded(lens: seq<nat>, xs: seq<nat>, limit: nat)
  {
    Indexes(xs, |lens|) && Bounded(lens, limit) && forall i :: 0 <= i < |xs| ==> lens[xs[i]] > 0
  }

  /** The first listed symbol, from position j, that is short of the limit. */
  function FirstShort(lens: seq<nat>, xs: seq<nat>, limit: nat, j: nat): (k: nat)
    requires j <= |xs| && Indexes(xs, |lens|)
    ensures j <= k <= |xs|
    ensures k < |xs| ==> lens[xs[k]] < limit
    decreases |xs| - j
  {
    if j == |xs| || lens[xs[j]] < limit then j else FirstShort(lens, xs, limit, j + 1)
  }

  lemma Lengthen(lens: seq<nat>, s: nat, limit: nat)
    requires s < |lens| && 0 < lens[s] < limit
    ensures Kraft(lens[s := lens[s] + 1], |lens|, limit) + Pow2(limit - lens[s] - 1) == Kraft(lens, |lens|, limit)
  {
    KraftUpdate(lens, |lens|, limit, s, lens[s] + 1);
  }

  lemma Shorten(lens: seq<nat>, s: nat, limit: nat)
    requires s < |lens| && 1 < lens[s] <= limit
    ensures Kraft(lens[s := lens[s] - 1], |lens|, limit) == Kraft(lens, |lens|, limit) + Pow2(limit - lens[s])
  {
    KraftUpdate(lens, |lens|, limit, s, lens[s] - 1);
    assert limit - (lens[s] - 1) == limit - lens[s] + 1;
  }

  /** Over-subscribed: lengthens the first symbol in order that can be, until the code fits. */
  function Deepen(lens: seq<nat>, order: seq<nat>, limit: nat): (r: seq<nat>)
    requires Coded(lens, order, limit)
    ensures |r| == |lens|
    decreases Kraft(lens, |lens|, limit)
  {
    if Kraft(lens, |lens|, limit) <= Pow2(limit) then lens
    else
      var k := FirstShort(lens, order, limit, 0);
      if k == |order| then lens
      else
        Lengthen(lens, order[k], limit);
        Deepen(lens[order[k] := lens[order[k]] + 1], order, limit)
  }

  /** Of the first n listed symbols, the deepest that can be shortened within the slack; -1 when none can. */
  function Deepest(lens: seq<nat>, xs: seq<nat>, n: nat, total: nat, limit: nat): (b: int)
    requires n <= |xs| && Indexes(xs, |lens|)
    ensures -1 <= b < |lens|
    ensures b >= 0 ==> lens[b] > 1 && total + Share(lens[b], limit) <= Pow2(limit)
  {
    if n == 0 then -1
    else
      var b := Deepest(lens, xs, n - 1, total, limit);
      var s := xs[n - 1];
      if lens[s] <= 1 || total + Share(lens[s], limit) > Pow2(limit) then b
      else if b == -1 || lens[s] > lens[b] then s
      else b
  }

  /** Under-subscribed: shortens the deepest symbol that fits in the slack, until there is none. */
  function Fill(lens: seq<nat>, used: seq<nat>, limit: nat): (r: seq<nat>)
    requires Coded(lens, used, limit)
    ensures |r| == |lens|
    decreases Pow2(limit) - Kraft(lens, |lens|, limit)
  {
    var total := Kraft(lens, |lens|, limit);
    if total >= Pow2(limit) then lens
    else
      var b := Deepest(lens, used, |used|, total, limit);
      if b == -1 then lens
      else
        Shorten(lens, b, limit);
        Fill(lens[b := lens[b] - 1], used, limit)
  }

  /** The lengths after the limit has been imposed and repaired. */
  function Clamped(lens: seq<nat>, limit: nat): (r: seq<nat>)
    requires limit > 0
    ensures |r| == |lens|
  {
    var used := Used(lens, |lens|);
    var capped := Cap(lens, limit);
    UsedAre(lens, |lens|);
    var order := SortBy(capped, used);
    SortedCoded(capped, capped, used, limit);
    var fits := Deepen(capped, order, limit);
    DeepenKeeps(capped, order, limit);
    KeptCoded(capped, fits, used, limit);
    Fill(fits, used, limit)
  }

  lemma SortedCoded(key: seq<nat>, lens: seq<nat>, xs: seq<nat>, limit: nat)
    requires |key| == |lens| && Coded(lens, xs, limit)
    ensures Coded(lens, SortBy(key, xs), limit)
  {
    SortByIsSorted(key, xs);
    var ys := SortBy(key, xs);
    forall i | 0 <= i < |ys|
      ensures lens[ys[i]] > 0
    {
      assert ys[i] in multiset(xs);
    }
  }

  /** Neither repair gives a length to a symbol that had none, or takes one away. */
  predicate SameSymbols(a: seq<nat>, b: seq<nat>)
  {
    |a| == |b| && forall i :: 0 <= i < |a| ==> (a[i] > 0 <==> b[i] > 0)
  }

  lemma KeptCoded(a: seq<nat>, b: seq<nat>, xs: seq<nat>, limit: nat)
    requires SameSymbols(a, b) && Coded(a, xs, limit) && Bounded(b, limit)
    ensures Coded(b, xs, limit)
  {
  }

  lemma {:induction false} SameUsed(a: seq<nat>, b: seq<nat>, n: nat)
    requires SameSymbols(a, b) && n <= |a|
    ensures Used(a, n) == Used(b, n)
  {
    if n > 0 { SameUsed(a, b, n - 1); }
  }

  lemma {:induction false} DeepenKeeps(lens: seq<nat>, order: seq<nat>, limit: nat)
    requires Coded(lens, order, limit)
    ensures Bounded(Deepen(lens, order, limit), limit) && SameSymbols(lens, Deepen(lens, order, limit))
    decreases Kraft(lens, |lens|, limit)
  {
    if Kraft(lens, |lens|, limit) > Pow2(limit) {
      var k := FirstShort(lens, order, limit, 0);
      if k < |order| {
        Lengthen(lens, order[k], limit);
        DeepenKeeps(lens[order[k] := lens[order[k]] + 1], order, limit);
      }
    }
  }

  lemma {:induction false} FillKeeps(lens: seq<nat>, used: seq<nat>, limit: nat)
    requires Coded(lens, used, limit)
    ensures Bounded(Fill(lens, used, limit), limit) && SameSymbols(lens, Fill(lens, used, limit))
    decreases Pow2(limit) - Kraft(lens, |lens|, limit)
  {
    var total := Kraft(lens, |lens|, limit);
    if total < Pow2(limit) {
      var b := Deepest(lens, used, |used|, total, limit);
      if b != -1 {
        Shorten(lens, b, limit);
        FillKeeps(lens[b := lens[b] - 1], used, limit);
      }
    }
  }

  // ---------- the first repair always fits ----------

  /** The Kraft sum is the shares of the used symbols alone. */
  lemma {:induction false} UsedShares(lens: seq<nat>, n: nat, l: nat)
    requires n <= |lens|
    ensures SharesOf(lens, Used(lens, n), l) == Kraft(lens, n, l)
  {
    if n > 0 {
      UsedShares(lens, n - 1, l);
      AppendSymbol(lens, lens, Used(lens, n - 1), n - 1, l);
    }
  }

  lemma {:induction false} AllAtLimit(lens: seq<nat>, xs: seq<nat>, limit: nat)
    requires limit > 0 && Indexes(xs, |lens|) && forall i :: 0 <= i < |xs| ==> lens[xs[i]] == limit
    ensures SharesOf(lens, xs, limit) == |xs|
  {
    if xs != [] { AllAtLimit(lens, xs[1..], limit); }
  }

  lemma {:induction false} NoneShort(lens: seq<nat>, xs: seq<nat>, limit: nat, j: nat)
    requires j <= |xs| && Coded(lens, xs, limit) && FirstShort(lens, xs, limit, j) == |xs|
    ensures forall i :: j <= i < |xs| ==> lens[xs[i]] == limit
    decreases |xs| - j
  {
    if j < |xs| { NoneShort(lens, xs, limit, j + 1); }
  }

  /** With room for every symbol at the limit, lengthening brings the code within it. */
  lemma {:induction false} DeepenFits(lens: seq<nat>, key: seq<nat>, used: seq<nat>, limit: nat)
    requires limit > 0 && |key| == |lens| && used == Used(lens, |lens|) && |used| <= Pow2(limit)
    requires Coded(lens, SortBy(key, used), limit)
    ensures Kraft(Deepen(lens, SortBy(key, used), limit), |lens|, limit) <= Pow2(limit)
    decreases Kraft(lens, |lens|, limit)
  {
    var order := SortBy(key, used);
    if Kraft(lens, |lens|, limit) > Pow2(limit) {
      var k := FirstShort(lens, order, limit, 0);
      if k == |order| {
        NoneShort(lens, order, limit, 0);
        AllAtLimit(lens, order, limit);
        SortBySums(key, lens, lens, used, limit);
        UsedShares(lens, |lens|, limit);
      } else {
        var longer := lens[order[k] := lens[order[k]] + 1];
        Lengthen(lens, order[k], limit);
        SameUsed(lens, longer, |lens|);
        DeepenFits(longer, key, used, limit);
      }
    }
  }

  // ---------- the second repair always completes ----------

  /** The slack of a code no deeper than m is a whole number of depth-m shares. */
  lemma {:induction false} SlackIsWhole(lens: seq<nat>, m: nat, l: nat)
    requires m <= l && Bounded(lens, m) && Kraft(lens, |lens|, l) < Pow2(l)
    ensures Kraft(lens, |lens|, l) + Pow2(l - m) <= Pow2(l)
    decreases l
  {
    if m < l {
      NoneOfLength(lens, |lens|, l);
      KraftStep(lens, |lens|, l);
      SlackIsWhole(lens, m, l - 1);
    }
  }

  /** Two symbols of length 1 already fill a code. */
  lemma {:induction false} OneBitFull(lens: seq<nat>, l: nat)
    requires 0 < l && Bounded(lens, 1) && |Used(lens, |lens|)| > 1
    ensures Kraft(lens, |lens|, l) >= Pow2(l)
  {
    if l == 1 {
      UsedAre(lens, |lens|);
      AllAtLimit(lens, Used(lens, |lens|), 1);
      UsedShares(lens, |lens|, 1);
      assert Pow2(1) == 2;
    } else {
      KraftStep(lens, |lens|, l);
      OneBitFull(lens, l - 1);
    }
  }

  lemma {:induction false} DeepestFinds(lens: seq<nat>, xs: seq<nat>, n: nat, total: nat, limit: nat, i: nat)
    requires i < n <= |xs| && Indexes(xs, |lens|)
    requires lens[xs[i]] > 1 && total + Share(lens[xs[i]], limit) <= Pow2(limit)
    ensures Deepest(lens, xs, n, total, limit) >= 0
  {
    if i < n - 1 { DeepestFinds(lens, xs, n - 1, total, limit, i); }
  }

  /** While there is slack, some symbol can be shortened: the deepest one fits. */
  lemma {:induction false} SomeSymbolFits(lens: seq<nat>, used: seq<nat>, limit: nat)
    requires used == Used(lens, |lens|) && |used| > 1 && Coded(lens, used, limit)
    requires 0 < limit && Kraft(lens, |lens|, limit) < Pow2(limit)
    ensures Deepest(lens, used, |used|, Kraft(lens, |lens|, limit), limit) >= 0
  {
    var m := MaxLength(lens);
    LongestBounds(lens, |lens|);
    MaxLengthBounds(lens, limit);
    UsedAre(lens, |lens|);
    if m <= 1 {
      OneBitFull(lens, limit);
    }
    var s :| 0 <= s < |lens| && lens[s] == m;
    assert s in used;
    var i :| 0 <= i < |used| && used[i] == s;
    SlackIsWhole(lens, m, limit);
    DeepestFinds(lens, used, |used|, Kraft(lens, |lens|, limit), limit, i);
  }

  lemma {:induction false} FillCompletes(lens: seq<nat>, used: seq<nat>, limit: nat)
    requires used == Used(lens, |lens|) && |used| > 1 && Coded(lens, used, limit)
    requires 0 < limit && Kraft(lens, |lens|, limit) <= Pow2(limit)
    ensures Kraft(Fill(lens, used, limit), |lens|, limit) == Pow2(limit)
    decreases Pow2(limit) - Kraft(lens, |lens|, limit)
  {
    var total := Kraft(lens, |lens|, limit);
    if total < Pow2(limit) {
      SomeSymbolFits(lens, used, limit);
      var b := Deepest(lens, used, |used|, total, limit);
      var shorter := lens[b := lens[b] - 1];
      Shorten(lens, b, limit);
      SameUsed(lens, shorter, |lens|);
      FillCompletes(shorter, used, limit);
    }
  }

  /** Whatever the lengths were, the repaired ones are a complete code within the limit, of the same symbols. */
  lemma ClampedIsComplete(lens: seq<nat>, limit: nat)
    requires limit > 0 && 1 < |Used(lens, |lens|)| <= Pow2(limit)
    ensures Complete(Clamped(lens, limit), limit)
    ensures SameSymbols(lens, Clamped(lens, limit))
  {
    var used := Used(lens, |lens|);
    var capped := Cap(lens, limit);
    UsedAre(lens, |lens|);
    SameUsed(lens, capped, |lens|);
    var order := SortBy(capped, used);
    SortedCoded(capped, capped, used, limit);
    var fits := Deepen(capped, order, limit);
    DeepenKeeps(capped, order, limit);
    DeepenFits(capped, capped, used, limit);
    KeptCoded(capped, fits, used, limit);
    SameUsed(capped, fits, |lens|);
    FillCompletes(fits, used, limit);
    FillKeeps(fits, used, limit);
  }

  /** A complete code already within the limit is left as it is. */
  lemma ClampedLeavesAlone(lens: seq<nat>, limit: nat)
    requires limit > 0 && Complete(lens, limit)
    ensures Clamped(lens, limit) == lens
  {
    assert Cap(lens, limit) == lens;
  }

  // ---------- which symbols the repairs change ----------

  /** A listed symbol that can be shortened: it has more than one bit, and twice its share still fits. */
  predicate CanShorten(lens: seq<nat>, s: nat, total: nat, limit: nat)
    requires s < |lens|
  {
    lens[s] > 1 && total + Share(lens[s], limit) <= Pow2(limit)
  }

  /** The one shortened next is the first of the deepest that can be, and there is none just when none can. */
  lemma {:induction false} DeepestIs(lens: seq<nat>, xs: seq<nat>, n: nat, total: nat, limit: nat)
    requires n <= |xs| && Indexes(xs, |lens|)
    ensures var b := Deepest(lens, xs, n, total, limit);
            if b == -1 then forall i {:trigger xs[i]} :: 0 <= i < n ==> !CanShorten(lens, xs[i], total, limit)
            else
              exists k {:trigger xs[k]} ::
                && 0 <= k < n && xs[k] == b && CanShorten(lens, b, total, limit)
                && forall i {:trigger xs[i]} :: 0 <= i < n && CanShorten(lens, xs[i], total, limit) ==>
                     lens[xs[i]] <= lens[b] && (i < k ==> lens[xs[i]] < lens[b])
  {
    hide Share, Pow2;
    if n > 0 {
      DeepestIs(lens, xs, n - 1, total, limit);
      assert xs[n - 1] == xs[n - 1];
    }
  }

  /**
   * Where the lengthening has got to: all listed before place k are at the limit, and all after it are as they were.
   */
  ghost predicate DeepenedTo(lens: seq<nat>, r: seq<nat>, order: seq<nat>, limit: nat, k: nat)
    requires |r| == |lens| && Indexes(order, |lens|)
  {
    && k < |order| && lens[order[k]] < r[order[k]] <= limit
    && (forall i {:trigger order[i]} :: 0 <= i < k ==> r[order[i]] == limit)
    && (forall i {:trigger order[i]} :: k < i < |order| ==> r[order[i]] == lens[order[i]])
    && forall s :: 0 <= s < |lens| && s !in order ==> r[s] == lens[s]
  }

  predicate Different(xs: seq<nat>)
  {
    forall i, j {:trigger xs[i], xs[j]} :: 0 <= i < j < |xs| ==> xs[i] != xs[j]
  }

  /** Symbols are lengthened to the limit one after another in order, the last just as far as the code's fit asks. */
  lemma {:induction false} DeepenInOrder(lens: seq<nat>, order: seq<nat>, limit: nat) returns (k: nat)
    requires Coded(lens, order, limit) && Different(order)
    ensures var r := Deepen(lens, order, limit);
            || r == lens
            || (DeepenedTo(lens, r, order, limit, k) &&
                Kraft(r[order[k] := r[order[k]] - 1], |lens|, limit) > Pow2(limit))
    decreases Kraft(lens, |lens|, limit)
  {
    hide Pow2, Kraft, DeepenedTo, Different;
    k := 0;
    if Kraft(lens, |lens|, limit) > Pow2(limit) {
      var j := FirstShort(lens, order, limit, 0);
      if j < |order| {
        var s, longer := order[j], lens[order[j] := lens[order[j]] + 1];
        FirstIsShort(lens, order, limit, 0);
        Lengthen(lens, s, limit);
        PowerPositive(limit - lens[s] - 1);
        k := DeepenInOrder(longer, order, limit);
        if Deepen(longer, order, limit) == longer {
          k := j;
          DeepenedOnce(lens, order, limit, j);
          assert longer[s := longer[s] - 1] == lens;
        } else {
          DeepenedFurther(lens, Deepen(longer, order, limit), order, limit, j, k);
        }
      }
    }
  }

  lemma DeepenedOnce(lens: seq<nat>, order: seq<nat>, limit: nat, j: nat)
    requires Indexes(order, |lens|) && Different(order) && j < |order| && lens[order[j]] < limit
    requires forall i {:trigger order[i]} :: 0 <= i < j ==> lens[order[i]] == limit
    ensures DeepenedTo(lens, lens[order[j] := lens[order[j]] + 1], order, limit, j)
  {
  }

  /** Once one more symbol has been lengthened, what comes of the rest is what comes of all. */
  lemma DeepenedFurther(lens: seq<nat>, r: seq<nat>, order: seq<nat>, limit: nat, j: nat, k: nat)
    requires Indexes(order, |lens|) && Different(order) && j < |order| && lens[order[j]] < limit && |r| == |lens|
    requires forall i {:trigger order[i]} :: 0 <= i < j ==> lens[order[i]] == limit
    requires DeepenedTo(lens[order[j] := lens[order[j]] + 1], r, order, limit, k)
    ensures DeepenedTo(lens, r, order, limit, k)
  {
    var longer := lens[order[j] := lens[order[j]] + 1];
    assert order[j] == order[j] && order[k] == order[k];
    assert k >= j;
  }

  lemma PowerPositive(n: nat)
    ensures Pow2(n) > 0
  {
  }

  lemma {:induction false} FirstIsShort(lens: seq<nat>, xs: seq<nat>, limit: nat, j: nat)
    requires j <= |xs| && Coded(lens, xs, limit)
    ensures forall i {:trigger xs[i]} :: j <= i < FirstShort(lens, xs, limit, j) ==> lens[xs[i]] == limit
    decreases |xs| - j
  {
    if j < |xs| && lens[xs[j]] == limit { FirstIsShort(lens, xs, limit, j + 1); }
  }
}
