/** What the two-queue algorithm computes: a tree over exactly the given leaves, as cheap as merging least weights. */
module HuffmanRun {
  import opened Bits
  import opened HuffmanTree
  import opened HuffmanDepths
  import opened HuffmanOptimal

  // ---------- symbols ----------

  function Bag(t: Tree): multiset<nat>
  {
    match t
    case Leaf(s, _) => multiset{s}
    case Join(a, b) => Bag(a) + Bag(b)
  }

  function BagOf(ts: seq<Tree>): multiset<nat>
  {
    if ts == [] then multiset{} else Bag(ts[0]) + BagOf(ts[1..])
  }

  function Contents(q: Queues): multiset<nat>
  {
    BagOf(q.leaves) + BagOf(q.joined)
  }

  lemma {:induction false} BagOfAppend(ts: seq<Tree>, t: Tree)
    ensures BagOf(ts + [t]) == BagOf(ts) + Bag(t)
  {
    if ts == [] {
      assert [t][1..] == [];
    } else {
      BagOfAppend(ts[1..], t);
      assert (ts + [t])[1..] == ts[1..] + [t];
    }
  }

  lemma ContentsRest(q: Queues)
    requires Size(q) > 0
    ensures Contents(q) == Contents(Rest(q)) + Bag(Front(q))
  {
  }

  /** The tree built holds the symbols of the queues, each as often as they do. */
  lemma {:induction false} BuildContents(q: Queues)
    requires Size(q) > 0
    ensures Bag(Build(q)) == Contents(q)
    decreases Size(q)
  {
    ContentsRest(q);
    if Size(q) == 1 {
      assert Contents(Rest(q)) == multiset{};
    } else {
      ContentsRest(Rest(q));
      var q2 := Rest(Rest(q));
      BagOfAppend(q2.joined, Join(Front(q), Front(Rest(q))));
      BuildContents(JoinTwo(q));
    }
  }

  lemma {:induction false} HasIsInBag(t: Tree, s: nat)
    ensures Has(t, s) <==> s in Bag(t)
  {
    match t
    case Leaf(_, _) =>
    case Join(a, b) =>
      HasIsInBag(a, s);
      HasIsInBag(b, s);
  }

  lemma {:induction false} BagDistinct(t: Tree)
    requires forall s :: Bag(t)[s] <= 1
    ensures Distinct(t)
  {
    match t
    case Leaf(_, _) =>
    case Join(a, b) =>
      assert forall s :: Bag(t)[s] == Bag(a)[s] + Bag(b)[s];
      BagDistinct(a);
      BagDistinct(b);
      forall s: nat | Has(a, s)
        ensures !Has(b, s)
      {
        HasIsInBag(a, s);
        HasIsInBag(b, s);
      }
  }

  predicate AllCarry(ts: seq<Tree>, freq: seq<nat>)
  {
    forall i :: 0 <= i < |ts| ==> Carries(ts[i], freq)
  }

  lemma {:induction false} BuildCarries(q: Queues, freq: seq<nat>)
    requires Size(q) > 0 && AllCarry(q.leaves, freq) && AllCarry(q.joined, freq)
    ensures Carries(Build(q), freq)
    decreases Size(q)
  {
    if Size(q) > 1 {
      BuildCarries(JoinTwo(q), freq);
    }
  }

  // ---------- cost ----------

  function Weights(ts: seq<Tree>): multiset<nat>
  {
    if ts == [] then multiset{} else multiset{Weight(ts[0])} + Weights(ts[1..])
  }

  function AllWeights(q: Queues): multiset<nat>
  {
    Weights(q.leaves) + Weights(q.joined)
  }

  function CostOf(ts: seq<Tree>): nat
  {
    if ts == [] then 0 else TreeCost(ts[0]) + CostOf(ts[1..])
  }

  function CostSoFar(q: Queues): nat
  {
    CostOf(q.leaves) + CostOf(q.joined)
  }

  lemma {:induction false} AppendSums(ts: seq<Tree>, t: Tree)
    ensures Weights(ts + [t]) == Weights(ts) + multiset{Weight(t)}
    ensures CostOf(ts + [t]) == CostOf(ts) + TreeCost(t)
  {
    if ts == [] {
      assert [t][1..] == [];
    } else {
      AppendSums(ts[1..], t);
      assert (ts + [t])[1..] == ts[1..] + [t];
    }
  }

  lemma RestSums(q: Queues)
    requires Size(q) > 0
    ensures AllWeights(q) == AllWeights(Rest(q)) + multiset{Weight(Front(q))}
    ensures CostSoFar(q) == CostSoFar(Rest(q)) + TreeCost(Front(q))
  {
  }

  lemma {:induction false} WeightsAtLeast(ts: seq<Tree>, floor: nat, w: nat)
    requires QueueOrdered(ts, floor) && w in Weights(ts)
    ensures w >= floor
  {
    assert Waiting(ts[0], floor);
    if w != Weight(ts[0]) {
      forall i | 0 <= i < |ts[1..]|
        ensures Waiting(ts[1..][i], floor)
      {
        assert Waiting(ts[i + 1], floor);
      }
      WeightsAtLeast(ts[1..], floor, w);
    }
  }

  lemma AllWeightsAtLeast(q: Queues, floor: nat, w: nat)
    requires Ordered(q, floor) && w in AllWeights(q)
    ensures w >= floor
  {
    if w in Weights(q.leaves) {
      WeightsAtLeast(q.leaves, floor, w);
    } else {
      WeightsAtLeast(q.joined, floor, w);
    }
  }

  lemma SortedFirst(s: seq<nat>, w: nat)
    requires Sorted(s) && w in multiset(s)
    ensures s != [] && s[0] <= w
  {
    assert w in s;
  }

  lemma SortedRest(s: seq<nat>)
    requires Sorted(s) && s != []
    ensures multiset(s) == multiset{s[0]} + multiset(s[1..]) && Sorted(s[1..])
  {
    assert s == [s[0]] + s[1..];
  }

  /** The front tree weighs what comes first when all the weights are sorted. */
  lemma FrontIsFirst(q: Queues, floor: nat, s: seq<nat>)
    requires Size(q) > 0 && Ordered(q, floor) && Sorted(s) && multiset(s) == AllWeights(q)
    ensures s != [] && Weight(Front(q)) == s[0]
    ensures multiset(s[1..]) == AllWeights(Rest(q)) && Sorted(s[1..])
  {
    var w := Weight(Front(q));
    FrontIsLeast(q, floor);
    RestSums(q);
    SortedFirst(s, w);
    SortedRest(s);
    BagCancel(AllWeights(Rest(q)), w, multiset(s[1..]), s[0]);
    if s[0] != w {
      AllWeightsAtLeast(Rest(q), w, s[0]);
    }
  }

  lemma BagCancel(a: multiset<nat>, w: nat, b: multiset<nat>, x: nat)
    requires a + multiset{w} == multiset{x} + b
    ensures if x == w then a == b else x in a
  {
    if x == w {
      assert a == (a + multiset{w}) - multiset{w};
      assert b == (multiset{x} + b) - multiset{x};
    } else {
      assert (a + multiset{w})[x] == a[x];
    }
  }

  lemma InsertBag(x: nat, s: seq<nat>)
    ensures multiset(Insert(x, s)) == multiset(s) + multiset{x}
  {
    var p := Position(x, s);
    assert s == s[..p] + s[p..];
  }

  /** The joins made from here on cost what merging the sorted weights two at a time costs. */
  lemma {:induction false} BuildCost(q: Queues, floor: nat, s: seq<nat>)
    requires Size(q) > 0 && Ordered(q, floor) && Sorted(s) && multiset(s) == AllWeights(q) && |s| == Size(q)
    requires q.joined != [] ==> q.joined[|q.joined| - 1].Join?
    ensures TreeCost(Build(q)) == CostSoFar(q) + MergeCost(s)
    decreases Size(q)
  {
    RestSums(q);
    if Size(q) == 1 {
      assert CostSoFar(Rest(q)) == 0;
    } else {
      StepCost(q, floor, s);
      JoinTwoKeepsOrder(q, floor);
      MergeCostStep(s);
      BuildCost(JoinTwo(q), Weight(Front(Rest(q))), Insert(s[0] + s[1], s[2..]));
    }
  }

  lemma StepCost(q: Queues, floor: nat, s: seq<nat>)
    requires Size(q) > 1 && Ordered(q, floor) && Sorted(s) && multiset(s) == AllWeights(q) && |s| == Size(q)
    ensures multiset(Insert(s[0] + s[1], s[2..])) == AllWeights(JoinTwo(q))
    ensures CostSoFar(JoinTwo(q)) == CostSoFar(q) + s[0] + s[1]
  {
    hide Ordered, Insert, JoinTwo, Front, Rest, Weight, CostSoFar, AllWeights, Sorted;
    TwoFirst(q, floor, s);
    JoinSums(q);
    InsertBag(s[0] + s[1], s[2..]);
  }

  lemma TwoFirst(q: Queues, floor: nat, s: seq<nat>)
    requires Size(q) > 1 && Ordered(q, floor) && Sorted(s) && multiset(s) == AllWeights(q) && |s| == Size(q)
    ensures Weight(Front(q)) == s[0] && Weight(Front(Rest(q))) == s[1]
    ensures multiset(s[2..]) == AllWeights(Rest(Rest(q)))
  {
    FrontIsFirst(q, floor, s);
    FrontIsLeast(q, floor);
    FrontIsFirst(Rest(q), Weight(Front(q)), s[1..]);
    assert s[1..][1..] == s[2..];
  }

  lemma JoinSums(q: Queues)
    requires Size(q) > 1
    ensures AllWeights(JoinTwo(q)) == AllWeights(Rest(Rest(q))) + multiset{Weight(Front(q)) + Weight(Front(Rest(q)))}
    ensures CostSoFar(JoinTwo(q)) == CostSoFar(q) + Weight(Front(q)) + Weight(Front(Rest(q)))
  {
    RestSums(q);
    RestSums(Rest(q));
    AppendSums(Rest(Rest(q)).joined, Join(Front(q), Front(Rest(q))));
  }
}
