/** The encoder's code lengths for an alphabet, from its frequencies. */
module AssignLengths {
  import opened Bits
  import opened Canonical
  import opened SymbolOrder
  import opened HuffmanTree
  import opened HuffmanDepths
  import opened HuffmanQueues
  import opened HuffmanCode
  import opened Clamp

  /** An alphabet the encoder codes: small, with 32-bit frequencies. */
  predicate Alphabet(freq: seq<nat>)
  {
    2 <= |freq| <= 512 && forall s :: 0 <= s < |freq| ==> freq[s] < 0x1_0000_0000
  }

  /**
   * One bit for the only symbol that occurs, and one for another: together they fill a code, which neither does
   * alone.
   */
  function Pair(n: nat, s: nat): (lens: seq<nat>)
    requires s < n && n >= 2
    ensures |lens| == n
  {
    NoLengths(n)[s := 1][(if s == 0 then 1 else 0) := 1]
  }

  /** None, a pair, or Huffman's lengths brought within the limit. */
  ghost function Assigned(freq: seq<nat>, limit: nat): (lens: seq<nat>)
    requires Alphabet(freq) && limit > 0
    ensures |lens| == |freq|
  {
    var used := Used(freq, |freq|);
    if |used| == 0 then NoLengths(|freq|)
    else if |used| == 1 then UsedAre(freq, |freq|); Pair(|freq|, used[0])
    else Clamped(Unlimited(freq), limit)
  }

  lemma PairIsComplete(n: nat, s: nat, limit: nat)
    requires s < n && n >= 2 && limit > 0
    ensures Complete(Pair(n, s), limit)
  {
    var none := NoLengths(n);
    var other := if s == 0 then 1 else 0;
    AbsentKraft(none, n, limit);
    KraftUpdate(none, n, limit, s, 1);
    KraftUpdate(none[s := 1], n, limit, other, 1);
  }

  /** Every symbol that occurs gets a code, no code is over the limit, and the code is one a decoder accepts. */
  lemma {:induction false} AssignedIsUsable(freq: seq<nat>, limit: nat)
    requires Alphabet(freq) && 0 < limit <= MAX_TREE_PATH && |freq| <= Pow2(limit)
    ensures Usable(Assigned(freq, limit)) && Bounded(Assigned(freq, limit), limit)
    ensures forall s :: 0 <= s < |freq| && freq[s] > 0 ==> Assigned(freq, limit)[s] > 0
    ensures (exists s :: 0 <= s < |freq| && freq[s] > 0) ==> Complete(Assigned(freq, limit), MAX_TREE_PATH)
  {
    var used := Used(freq, |freq|);
    UsedAre(freq, |freq|);
    if |used| == 1 {
      PairIsComplete(|freq|, used[0], limit);
      CompleteWider(Pair(|freq|, used[0]), limit, MAX_TREE_PATH);
    } else if |used| > 1 {
      var lens := Unlimited(freq);
      UnlimitedIsComplete(freq);
      SameUsed(freq, lens, |freq|);
      ClampedIsComplete(lens, limit);
      CompleteWider(Clamped(lens, limit), limit, MAX_TREE_PATH);
    }
  }

  /**
   * When Huffman's code is within the limit, nothing cheaper exists. The converse does not hold: over the limit, the
   * repaired code may be the cheapest within it (ClampCost.CrowdedIsCheapest), or may not
   * (ClampCost.RepairIsNotCheapest).
   */
  lemma AssignedIsOptimal(freq: seq<nat>, limit: nat, other: seq<nat>, bound: nat)
    requires Alphabet(freq) && limit > 0 && |Used(freq, |freq|)| > 1 && Height(TreeOfCode(freq)) <= limit
    requires |other| == |freq| && Bounded(other, bound) && Kraft(other, |other|, bound) <= Pow2(bound)
    requires forall s :: 0 <= s < |freq| && freq[s] > 0 ==> other[s] > 0
    ensures Cost(freq, Assigned(freq, limit), |freq|) <= Cost(freq, other, |freq|)
  {
    UnlimitedIsComplete(freq);
    CompleteWider(Unlimited(freq), Height(TreeOfCode(freq)), limit);
    ClampedLeavesAlone(Unlimited(freq), limit);
    HuffmanIsOptimal(freq, other, bound);
  }

  // ---------- the computation ----------

  /** The symbols that occur. */
  method UsedSymbols(freq: seq<nat>) returns (used: seq<nat>)
    ensures used == Used(freq, |freq|)
  {
    used := [];
    for i := 0 to |freq|
      invariant used == Used(freq, i)
    {
      if freq[i] > 0 { used := used + [i]; }
    }
  }

  /** The lengths for an alphabet of these frequencies. */
  method Assign(freq: seq<nat>, limit: nat) returns (r: seq<nat>)
    requires Alphabet(freq) && limit > 0
    ensures r == Assigned(freq, limit)
  {
    var lens := new nat[|freq|](_ => 0);
    assert lens[..] == NoLengths(|freq|);
    var used := UsedSymbols(freq);
    UsedAre(freq, |freq|);
    if |used| == 0 {
      return lens[..];
    }
    if |used| == 1 {
      lens[used[0]] := 1;
      var other := 0;
      if used[0] == 0 { other := 1; }
      if other < lens.Length { lens[other] := 1; }
      return lens[..];
    }
    HuffmanLengths(freq, used, lens);
    UnlimitedIsComplete(freq);
    SameUsed(freq, Unlimited(freq), |freq|);
    ClampLengths(lens, used, limit);
    r := lens[..];
  }

  /** Huffman's algorithm, by two queues; recording a depth never cuts it short. */
  method HuffmanLengths(freq: seq<nat>, used: seq<nat>, lens: array<nat>)
    requires Alphabet(freq) && used == Used(freq, |freq|) && |used| > 1
    requires lens.Length == |freq| && lens[..] == NoLengths(|freq|)
    modifies lens
    ensures lens[..] == Unlimited(freq)
  {
    var nodes := MergeQueues(freq, used);
    DepthFitsByte(freq);
    Walk(freq, nodes, |nodes| - 1, 0, lens);
  }

  /** Imposes the limit and repairs the code, in place. */
  method ClampLengths(lens: array<nat>, used: seq<nat>, limit: nat)
    requires used == Used(lens[..], lens.Length) && limit > 0
    modifies lens
    ensures lens[..] == Clamped(old(lens[..]), limit)
  {
    ghost var capped := Cap(lens[..], limit);
    UsedAre(lens[..], lens.Length);
    SortedCoded(capped, capped, used, limit);
    CapLengths(lens, used, limit);
    ghost var fits := Deepen(capped, SortBy(capped, used), limit);
    DeepenKeeps(capped, SortBy(capped, used), limit);
    KeptCoded(capped, fits, used, limit);
    SameUsed(old(lens[..]), capped, lens.Length);

    var total := KraftTotal(lens, used, limit);
    var order := SortBy(lens[..], used);
    var moved;
    total, moved := DeepenLengths(lens, order, total, limit);
    if !moved { return; }
    FillLengths(lens, used, total, limit);
  }

  method CapLengths(lens: array<nat>, used: seq<nat>, limit: nat)
    requires used == Used(lens[..], lens.Length)
    modifies lens
    ensures lens[..] == Cap(old(lens[..]), limit)
  {
    UsedAre(lens[..], lens.Length);
    ghost var before := lens[..];
    for j := 0 to |used|
      invariant forall i :: 0 <= i < lens.Length ==>
        lens[i] == if i in used[..j] && before[i] > limit then limit else before[i]
    {
      if lens[used[j]] > limit { lens[used[j]] := limit; }
    }
    assert used[..|used|] == used;
    assert lens[..] == Cap(before, limit);
  }

  /** The Kraft sum, scaled to one << limit. */
  method KraftTotal(lens: array<nat>, used: seq<nat>, limit: nat) returns (total: nat)
    requires used == Used(lens[..], lens.Length) && Coded(lens[..], used, limit)
    ensures total == Kraft(lens[..], lens.Length, limit)
  {
    ghost var ls := lens[..];
    total := 0;
    for j := 0 to |used|
      invariant total == SharesOf(ls, used[..j], limit)
    {
      ShareIsShift(ls[used[j]], limit);
      AppendSymbol(ls, ls, used[..j], used[j], limit);
      assert used[..j + 1] == used[..j] + [used[j]];
      total := total + Shr(Shl(1, limit), lens[used[j]]);
    }
    assert used[..|used|] == used;
    UsedShares(ls, |ls|, limit);
  }

  lemma ShareIsShift(len: nat, limit: nat)
    requires 0 < len <= limit
    ensures Shr(Shl(1, limit), len) == Share(len, limit)
  {
    ShlOfOne(limit);
    ShrPow2(len, limit);
  }

  lemma {:induction false} ShrPow2(n: nat, limit: nat)
    requires n <= limit
    ensures Shr(Pow2(limit), n) == Pow2(limit - n)
  {
    if n > 0 { ShrPow2(n - 1, limit - 1); }
  }

  method DeepenLengths(lens: array<nat>, order: seq<nat>, start: nat, limit: nat) returns (total: nat, moved: bool)
    requires Coded(lens[..], order, limit) && start == Kraft(lens[..], lens.Length, limit)
    modifies lens
    ensures lens[..] == Deepen(old(lens[..]), order, limit)
    ensures total == Kraft(lens[..], lens.Length, limit)
    ensures !moved ==> total > Pow2(limit)
  {
    ghost var before := lens[..];
    ShlOfOne(limit);
    total, moved := start, true;
    while total > Shl(1, limit)
      invariant Coded(lens[..], order, limit) && total == Kraft(lens[..], lens.Length, limit)
      invariant Deepen(lens[..], order, limit) == Deepen(before, order, limit)
      decreases total
    {
      var k := FindShort(lens, order, limit);
      if k == |order| { moved := false; return; }
      var s := order[k];
      ghost var ls := lens[..];
      Lengthen(ls, s, limit);
      ShareIsShift(ls[s] + 1, limit);
      total := total - Shr(Shl(1, limit), lens[s] + 1);
      lens[s] := lens[s] + 1;
      assert lens[..] == ls[s := ls[s] + 1];
    }
  }

  method FindShort(lens: array<nat>, order: seq<nat>, limit: nat) returns (k: nat)
    requires Indexes(order, lens.Length)
    ensures k == FirstShort(lens[..], order, limit, 0)
  {
    k := 0;
    while k < |order|
      invariant k <= |order| && FirstShort(lens[..], order, limit, k) == FirstShort(lens[..], order, limit, 0)
    {
      if lens[order[k]] < limit { return; }
      k := k + 1;
    }
  }

  method FillLengths(lens: array<nat>, used: seq<nat>, start: nat, limit: nat)
    requires Coded(lens[..], used, limit) && start == Kraft(lens[..], lens.Length, limit)
    modifies lens
    ensures lens[..] == Fill(old(lens[..]), used, limit)
  {
    ghost var before := lens[..];
    ShlOfOne(limit);
    var total := start;
    while total < Shl(1, limit)
      invariant Coded(lens[..], used, limit) && total == Kraft(lens[..], lens.Length, limit)
      invariant Fill(lens[..], used, limit) == Fill(before, used, limit)
      decreases Pow2(limit) - total
    {
      var best := FindDeepest(lens, used, total, limit);
      if best == -1 { return; }
      ghost var ls := lens[..];
      Shorten(ls, best, limit);
      ShareIsShift(ls[best], limit);
      total := total + Shr(Shl(1, limit), lens[best]);
      lens[best] := lens[best] - 1;
      assert lens[..] == ls[best := ls[best] - 1];
    }
  }

  method FindDeepest(lens: array<nat>, used: seq<nat>, total: nat, limit: nat) returns (best: int)
    requires Coded(lens[..], used, limit)
    ensures best == Deepest(lens[..], used, |used|, total, limit)
  {
    ShlOfOne(limit);
    best := -1;
    for j := 0 to |used|
      invariant best == Deepest(lens[..], used, j, total, limit)
    {
      var s := used[j];
      ShareIsShift(lens[..][s], limit);
      if lens[s] <= 1 { continue; }
      if total + Shr(Shl(1, limit), lens[s]) > Shl(1, limit) { continue; }
      if best == -1 || lens[s] > lens[best] { best := s; }
    }
  }
}
