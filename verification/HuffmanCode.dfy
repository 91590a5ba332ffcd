/** The encoder's Huffman code is one: complete, shallow enough for a byte, and cheaper than no other prefix code. */
module HuffmanCode {
  import opened Bits
  import opened Canonical
  import opened SymbolOrder
  import opened HuffmanTree
  import opened HuffmanDepths
  import opened HuffmanOptimal
  import opened HuffmanRun
  import opened HuffmanQueues

  ghost function Start(freq: seq<nat>): Queues
  {
    UsedAre(freq, |freq|);
    var leaves := SortBy(freq, Used(freq, |freq|));
    Queues(LeafTrees(freq, leaves, 0), [])
  }

  ghost function TreeOfCode(freq: seq<nat>): Tree
    requires |Used(freq, |freq|)| > 0
  {
    UsedAre(freq, |freq|);
    CodeTree(freq, Used(freq, |freq|))
  }

  function NoLengths(n: nat): (lens: seq<nat>)
    ensures |lens| == n && Absent(lens)
  {
    seq(n, _ => 0)
  }

  /** The code length of every symbol, before any limit. */
  ghost function Unlimited(freq: seq<nat>): (lens: seq<nat>)
    requires |Used(freq, |freq|)| > 1
    ensures |lens| == |freq|
  {
    TreeShape(freq);
    Depths(TreeOfCode(freq), 0, NoLengths(|freq|))
  }

  // ---------- the start state ----------

  lemma {:induction false} LeafTreeAt(freq: seq<nat>, leaves: seq<nat>, li: nat, i: nat)
    requires Indexes(leaves, |freq|) && li + i < |leaves|
    ensures |LeafTrees(freq, leaves, li)| == |leaves| - li
    ensures LeafTrees(freq, leaves, li)[i] == Leaf(leaves[li + i], freq[leaves[li + i]])
    decreases |leaves| - li
  {
    Sizes(freq, leaves, [], li, 0);
    if i > 0 { LeafTreeAt(freq, leaves, li + 1, i - 1); }
  }

  lemma StartIs(freq: seq<nat>)
    requires |Used(freq, |freq|)| > 0
    ensures TreeOfCode(freq) == Build(Start(freq)) && Size(Start(freq)) == |Used(freq, |freq|)|
  {
    UsedAre(freq, |freq|);
    Sizes(freq, SortBy(freq, Used(freq, |freq|)), [], 0, 0);
    assert NodeTrees(freq, [], 0) == [];
  }

  lemma SortedUsed(freq: seq<nat>) returns (leaves: seq<nat>)
    ensures leaves == SortBy(freq, Used(freq, |freq|)) && Indexes(leaves, |freq|) && Rising(freq, leaves)
    ensures multiset(leaves) == multiset(Used(freq, |freq|))
    ensures forall i :: 0 <= i < |leaves| ==> freq[leaves[i]] > 0
  {
    UsedAre(freq, |freq|);
    leaves := SortBy(freq, Used(freq, |freq|));
    SortByIsSorted(freq, Used(freq, |freq|));
    forall i | 0 <= i < |leaves|
      ensures freq[leaves[i]] > 0
    {
      assert leaves[i] in multiset(leaves);
    }
  }

  lemma StartOrdered(freq: seq<nat>)
    ensures Ordered(Start(freq), 0) && AllCarry(Start(freq).leaves, freq)
  {
    var leaves := SortedUsed(freq);
    var ts := LeafTrees(freq, leaves, 0);
    Sizes(freq, leaves, [], 0, 0);
    forall i | 0 <= i < |ts|
      ensures Waiting(ts[i], 0) && Carries(ts[i], freq) && Weight(ts[i]) == freq[leaves[i]]
    {
      LeafTreeAt(freq, leaves, 0, i);
    }
  }

  lemma {:induction false} LeafBag(freq: seq<nat>, leaves: seq<nat>, li: nat)
    requires Indexes(leaves, |freq|) && li <= |leaves|
    ensures BagOf(LeafTrees(freq, leaves, li)) == multiset(leaves[li..])
    decreases |leaves| - li
  {
    if li < |leaves| {
      LeafBag(freq, leaves, li + 1);
      assert leaves[li..] == [leaves[li]] + leaves[li + 1..];
    }
  }

  // ---------- the tree ----------

  lemma {:induction false} BuildIsJoin(q: Queues)
    requires Size(q) > 1
    ensures Build(q).Join?
    decreases Size(q)
  {
    if Size(q) > 2 { BuildIsJoin(JoinTwo(q)); }
  }

  /** The tree has one leaf for each used symbol and none besides, carrying its frequency. */
  lemma TreeShape(freq: seq<nat>)
    requires |Used(freq, |freq|)| > 1
    ensures var t := TreeOfCode(freq);
            t.Join? && Within(t, |freq|) && Distinct(t) && Carries(t, freq) && Balanced(t)
    ensures forall s :: 0 <= s < |freq| ==> (Has(TreeOfCode(freq), s) <==> freq[s] > 0)
  {
    var q := Start(freq);
    var leaves := SortedUsed(freq);
    StartIs(freq);
    StartOrdered(freq);
    BuildIsJoin(q);
    BuildCarries(q, freq);
    CarriesWithin(Build(q), freq);
    BuildIsBalanced(q, 0);
    BuildContents(q);
    LeafBag(freq, leaves, 0);
    assert leaves[0..] == leaves;
    UsedAre(freq, |freq|);
    BagDistinct(Build(q));
    forall s | 0 <= s < |freq|
      ensures Has(TreeOfCode(freq), s) <==> freq[s] > 0
    {
      HasIsInBag(Build(q), s);
      assert s in Used(freq, |freq|) <==> freq[s] > 0;
    }
  }

  // ---------- depth ----------

  function Total(ts: seq<Tree>): nat
  {
    if ts == [] then 0 else Weight(ts[0]) + Total(ts[1..])
  }

  lemma {:induction false} TotalAppend(ts: seq<Tree>, t: Tree)
    ensures Total(ts + [t]) == Total(ts) + Weight(t)
  {
    if ts == [] {
      assert [t][1..] == [];
    } else {
      TotalAppend(ts[1..], t);
      assert (ts + [t])[1..] == ts[1..] + [t];
    }
  }

  lemma RestTotal(q: Queues)
    requires Size(q) > 0
    ensures Total(q.leaves) + Total(q.joined) == Total(Rest(q).leaves) + Total(Rest(q).joined) + Weight(Front(q))
  {
  }

  /** Joining conserves weight. */
  lemma {:induction false} BuildWeight(q: Queues)
    requires Size(q) > 0
    ensures Weight(Build(q)) == Total(q.leaves) + Total(q.joined)
    decreases Size(q)
  {
    RestTotal(q);
    if Size(q) > 1 {
      RestTotal(Rest(q));
      TotalAppend(Rest(Rest(q)).joined, Join(Front(q), Front(Rest(q))));
      BuildWeight(JoinTwo(q));
    }
  }

  lemma {:induction false} LeafTotal(freq: seq<nat>, leaves: seq<nat>, li: nat)
    requires Indexes(leaves, |freq|) && li <= |leaves|
    requires forall s :: 0 <= s < |freq| ==> freq[s] < 0x1_0000_0000
    ensures Total(LeafTrees(freq, leaves, li)) <= (|leaves| - li) * 0x1_0000_0000
    decreases |leaves| - li
  {
    if li < |leaves| {
      LeafTotal(freq, leaves, li + 1);
      assert freq[leaves[li]] < 0x1_0000_0000;
    }
  }

  /** A symbol at depth d forces a total frequency of at least Fib(d + 2). */
  lemma DepthForcesWeight(freq: seq<nat>, s: nat)
    requires |Used(freq, |freq|)| > 1 && s < |freq|
    ensures Total(Start(freq).leaves) >= Fib(Unlimited(freq)[s] + 2)
  {
    TreeShape(freq);
    StartIs(freq);
    BuildWeight(Start(freq));
    HeightBound(TreeOfCode(freq));
    DepthsAt(TreeOfCode(freq), 0, NoLengths(|freq|), s);
    FibMonotone(Unlimited(freq)[s] + 2, Height(TreeOfCode(freq)) + 2);
  }

  /** 32-bit frequencies over an alphabet this small cannot make a code too long for a byte. */
  lemma DepthFitsByte(freq: seq<nat>)
    requires 1 < |Used(freq, |freq|)| && |freq| <= 512
    requires forall s :: 0 <= s < |freq| ==> freq[s] < 0x1_0000_0000
    ensures Height(TreeOfCode(freq)) < 256
  {
    var h := Height(TreeOfCode(freq));
    var leaves := SortedUsed(freq);
    TreeShape(freq);
    StartIs(freq);
    BuildWeight(Start(freq));
    LeafTotal(freq, leaves, 0);
    if h >= 256 {
      TallIsHeavy(TreeOfCode(freq), 42);
      BigPower(42);
    }
  }

  lemma TallIsHeavy(t: Tree, k: nat)
    requires Balanced(t) && Height(t) >= 2 * k
    ensures Weight(t) >= Pow2(k)
  {
    HeightBound(t);
    FibGrows(k);
    FibMonotone(2 * k + 2, Height(t) + 2);
  }

  lemma {:induction false} BigPower(n: nat)
    requires n == 42
    ensures Pow2(n) > 512 * 0x1_0000_0000
  {
    TenDoublings(n - 10);
    TenDoublings(n - 20);
    TenDoublings(n - 30);
    TenDoublings(n - 40);
    assert Pow2(n - 40) == 4 * Pow2(n - 42);
  }

  lemma TenDoublings(n: nat)
    ensures Pow2(n + 10) == 1024 * Pow2(n)
  {
    assert Pow2(n + 2) == 4 * Pow2(n) && Pow2(n + 4) == 4 * Pow2(n + 2) && Pow2(n + 6) == 4 * Pow2(n + 4);
    assert Pow2(n + 8) == 4 * Pow2(n + 6) && Pow2(n + 10) == 4 * Pow2(n + 8);
  }

  /** The code is complete, and exactly the used symbols are in it. */
  lemma UnlimitedIsComplete(freq: seq<nat>)
    requires |Used(freq, |freq|)| > 1
    ensures Complete(Unlimited(freq), Height(TreeOfCode(freq)))
    ensures forall s :: 0 <= s < |freq| ==> (Unlimited(freq)[s] > 0 <==> freq[s] > 0)
  {
    TreeShape(freq);
    TreeIsComplete(TreeOfCode(freq), NoLengths(|freq|), Height(TreeOfCode(freq)));
  }

  // ---------- cost ----------

  /** The entries of f at the symbols xs. */
  function Project(f: seq<nat>, xs: seq<nat>): (r: seq<nat>)
    requires Indexes(xs, |f|)
    ensures |r| == |xs|
  {
    if xs == [] then [] else [f[xs[0]]] + Project(f, xs[1..])
  }

  lemma {:induction false} ProjectAt(f: seq<nat>, xs: seq<nat>, i: nat)
    requires Indexes(xs, |f|) && i < |xs|
    ensures Project(f, xs)[i] == f[xs[i]]
  {
    if i > 0 { ProjectAt(f, xs[1..], i - 1); }
  }

  function SharesOf(lens: seq<nat>, xs: seq<nat>, l: nat): nat
    requires Indexes(xs, |lens|)
  {
    if xs == [] then 0 else Share(lens[xs[0]], l) + SharesOf(lens, xs[1..], l)
  }

  function CostsOf(freq: seq<nat>, lens: seq<nat>, xs: seq<nat>): nat
    requires |freq| == |lens| && Indexes(xs, |lens|)
  {
    if xs == [] then 0 else freq[xs[0]] * lens[xs[0]] + CostsOf(freq, lens, xs[1..])
  }

  lemma {:induction false} ProjectSums(freq: seq<nat>, lens: seq<nat>, xs: seq<nat>, l: nat)
    requires |freq| == |lens| && Indexes(xs, |lens|)
    ensures Kraft(Project(lens, xs), |xs|, l) == SharesOf(lens, xs, l)
    ensures Cost(Project(freq, xs), Project(lens, xs), |xs|) == CostsOf(freq, lens, xs)
  {
    if xs != [] {
      var x, rest := xs[0], xs[1..];
      ProjectSums(freq, lens, rest, l);
      KraftConcat([lens[x]], Project(lens, rest), |rest|, l);
      CostConcat([freq[x]], [lens[x]], Project(freq, rest), Project(lens, rest), |rest|);
      assert Kraft([lens[x]], 1, l) == Kraft([lens[x]], 0, l) + Share(lens[x], l);
      assert Cost([freq[x]], [lens[x]], 1) == Cost([freq[x]], [lens[x]], 0) + freq[x] * lens[x];
    }
  }

  lemma {:induction false} InsertBySums(key: seq<nat>, freq: seq<nat>, lens: seq<nat>, x: nat, ys: seq<nat>, l: nat)
    requires |key| == |freq| == |lens| && x < |lens| && Indexes(ys, |lens|)
    ensures SharesOf(lens, InsertBy(key, x, ys), l) == SharesOf(lens, ys, l) + Share(lens[x], l)
    ensures CostsOf(freq, lens, InsertBy(key, x, ys)) == CostsOf(freq, lens, ys) + freq[x] * lens[x]
  {
    if ys == [] || Before(key, x, ys[0]) {
      assert ([x] + ys)[1..] == ys;
    } else {
      InsertBySums(key, freq, lens, x, ys[1..], l);
      var r := InsertBy(key, x, ys[1..]);
      assert ([ys[0]] + r)[1..] == r;
    }
  }

  lemma {:induction false} SortBySums(key: seq<nat>, freq: seq<nat>, lens: seq<nat>, xs: seq<nat>, l: nat)
    requires |key| == |freq| == |lens| && Indexes(xs, |lens|)
    ensures SharesOf(lens, SortBy(key, xs), l) == SharesOf(lens, xs, l)
    ensures CostsOf(freq, lens, SortBy(key, xs)) == CostsOf(freq, lens, xs)
  {
    if xs != [] {
      SortBySums(key, freq, lens, xs[1..], l);
      InsertBySums(key, freq, lens, xs[0], SortBy(key, xs[1..]), l);
    }
  }

  lemma {:induction false} AppendSymbol(freq: seq<nat>, lens: seq<nat>, xs: seq<nat>, x: nat, l: nat)
    requires |freq| == |lens| && Indexes(xs, |lens|) && x < |lens|
    ensures SharesOf(lens, xs + [x], l) == SharesOf(lens, xs, l) + Share(lens[x], l)
    ensures CostsOf(freq, lens, xs + [x]) == CostsOf(freq, lens, xs) + freq[x] * lens[x]
  {
    if xs == [] {
      assert ([] + [x])[1..] == [];
    } else {
      AppendSymbol(freq, lens, xs[1..], x, l);
      assert (xs + [x])[1..] == xs[1..] + [x];
    }
  }

  lemma {:induction false} UsedSums(freq: seq<nat>, lens: seq<nat>, n: nat, l: nat)
    requires n <= |freq| == |lens|
    ensures SharesOf(lens, Used(freq, n), l) <= Kraft(lens, n, l)
    ensures CostsOf(freq, lens, Used(freq, n)) == Cost(freq, lens, n)
  {
    if n > 0 {
      UsedSums(freq, lens, n - 1, l);
      AppendSymbol(freq, lens, Used(freq, n - 1), n - 1, l);
    }
  }

  lemma {:induction false} LeafWeights(freq: seq<nat>, leaves: seq<nat>, li: nat)
    requires Indexes(leaves, |freq|) && li <= |leaves|
    ensures Weights(LeafTrees(freq, leaves, li)) == multiset(Project(freq, leaves[li..]))
    ensures CostOf(LeafTrees(freq, leaves, li)) == 0
    decreases |leaves| - li
  {
    hide Weights, CostOf, Project;
    if li < |leaves| {
      LeafWeights(freq, leaves, li + 1);
      LeafFirst(Leaf(leaves[li], freq[leaves[li]]), LeafTrees(freq, leaves, li + 1));
      ProjectFirst(freq, leaves, li);
    } else {
      NoLeaves(freq, leaves);
    }
  }

  lemma LeafFirst(t: Tree, ts: seq<Tree>)
    requires t.Leaf?
    ensures Weights([t] + ts) == multiset{Weight(t)} + Weights(ts) && CostOf([t] + ts) == CostOf(ts)
  {
    assert ([t] + ts)[1..] == ts;
  }

  lemma ProjectFirst(freq: seq<nat>, leaves: seq<nat>, li: nat)
    requires Indexes(leaves, |freq|) && li < |leaves|
    ensures multiset(Project(freq, leaves[li..])) ==
            multiset{freq[leaves[li]]} + multiset(Project(freq, leaves[li + 1..]))
  {
    assert leaves[li..][1..] == leaves[li + 1..];
  }

  lemma NoLeaves(freq: seq<nat>, leaves: seq<nat>)
    requires Indexes(leaves, |freq|)
    ensures Weights([]) == multiset(Project(freq, leaves[|leaves|..])) && CostOf([]) == 0
  {
  }

  /** The code costs what merging the sorted frequencies two at a time costs. */
  lemma UnlimitedCost(freq: seq<nat>, leaves: seq<nat>)
    requires |Used(freq, |freq|)| > 1 && leaves == SortBy(freq, Used(freq, |freq|))
    ensures Sorted(Project(freq, leaves))
    ensures Cost(freq, Unlimited(freq), |freq|) == MergeCost(Project(freq, leaves))
  {
    hide Used;
    var t := TreeOfCode(freq);
    var s := Project(freq, leaves);
    var same := SortedUsed(freq);
    forall i, j | 0 <= i < j < |s|
      ensures s[i] <= s[j]
    {
      ProjectAt(freq, leaves, i);
      ProjectAt(freq, leaves, j);
    }
    StartIs(freq);
    StartOrdered(freq);
    LeafWeights(freq, leaves, 0);
    assert leaves[0..] == leaves;
    BuildCost(Start(freq), 0, s);
    TreeShape(freq);
    var none := NoLengths(|freq|);
    AbsentIsClear(t, none);
    DepthsCost(t, 0, freq, none);
    NoCost(freq, none, |freq|);
  }

  lemma {:induction false} NoCost(freq: seq<nat>, lens: seq<nat>, n: nat)
    requires n <= |freq| == |lens| && Absent(lens)
    ensures Cost(freq, lens, n) == 0
  {
    if n > 0 { NoCost(freq, lens, n - 1); }
  }

  /** No prefix code that gives every used symbol a length writes the symbols in fewer bits. */
  lemma HuffmanIsOptimal(freq: seq<nat>, other: seq<nat>, limit: nat)
    requires |Used(freq, |freq|)| > 1 && |other| == |freq|
    requires Bounded(other, limit) && Kraft(other, |other|, limit) <= Pow2(limit)
    requires forall s :: 0 <= s < |freq| && freq[s] > 0 ==> other[s] > 0
    ensures Cost(freq, Unlimited(freq), |freq|) <= Cost(freq, other, |freq|)
  {
    var leaves := SortedUsed(freq);
    var ls := Project(other, leaves);
    UnlimitedCost(freq, leaves);
    SortBySums(freq, freq, other, Used(freq, |freq|), limit);
    ProjectSums(freq, other, leaves, limit);
    UsedSums(freq, other, |freq|, limit);
    forall i | 0 <= i < |ls|
      ensures 0 < ls[i] <= limit
    {
      ProjectAt(other, leaves, i);
    }
    LowerBound(Project(freq, leaves), ls, limit);
  }
}
