/** Huffman's algorithm over two queues of trees: what it picks, what it keeps, how deep and how costly its tree is. */
module HuffmanTree {
  import opened Bits

  datatype Tree = Leaf(sym: nat, freq: nat) | Join(left: Tree, right: Tree)

  function Weight(t: Tree): nat
  {
    match t
    case Leaf(_, w) => w
    case Join(a, b) => Weight(a) + Weight(b)
  }

  function Height(t: Tree): nat
  {
    match t
    case Leaf(_, _) => 0
    case Join(a, b) => 1 + (if Height(a) >= Height(b) then Height(a) else Height(b))
  }

  /** The symbols at the leaves, left to right. */
  function Symbols(t: Tree): (ss: seq<nat>)
    ensures |ss| > 0
  {
    match t
    case Leaf(s, _) => [s]
    case Join(a, b) => Symbols(a) + Symbols(b)
  }

  /** The two queues: leaves in increasing weight, joined trees in creation order. */
  datatype Queues = Queues(leaves: seq<Tree>, joined: seq<Tree>)

  function Size(q: Queues): nat
  {
    |q.leaves| + |q.joined|
  }

  /** The front of one queue or the other: the leaf when it is no heavier. */
  predicate TakesLeaf(q: Queues)
  {
    q.leaves != [] && (q.joined == [] || Weight(q.leaves[0]) <= Weight(q.joined[0]))
  }

  function Front(q: Queues): Tree
    requires Size(q) > 0
  {
    if TakesLeaf(q) then q.leaves[0] else q.joined[0]
  }

  function Rest(q: Queues): (r: Queues)
    requires Size(q) > 0
    ensures Size(r) == Size(q) - 1
  {
    if TakesLeaf(q) then Queues(q.leaves[1..], q.joined) else Queues(q.leaves, q.joined[1..])
  }

  function JoinTwo(q: Queues): (r: Queues)
    requires Size(q) > 1
    ensures Size(r) == Size(q) - 1
  {
    var q1 := Rest(q);
    var q2 := Rest(q1);
    Queues(q2.leaves, q2.joined + [Join(Front(q), Front(q1))])
  }

  function Build(q: Queues): Tree
    requires Size(q) > 0
    decreases Size(q)
  {
    if Size(q) == 1 then Front(q) else Build(JoinTwo(q))
  }

  // ---------- what every step keeps ----------

  predicate Ascending(ts: seq<Tree>)
  {
    forall i, j :: 0 <= i < j < |ts| ==> Weight(ts[i]) <= Weight(ts[j])
  }

  predicate ChildrenAtMost(t: Tree, floor: nat)
  {
    t.Join? ==> Weight(t.left) <= floor && Weight(t.right) <= floor
  }

  /** The sibling property: whoever is below a tree is no heavier than that tree's sibling. */
  predicate Balanced(t: Tree)
  {
    match t
    case Leaf(_, w) => w > 0
    case Join(a, b) => Balanced(a) && Balanced(b) && ChildrenAtMost(a, Weight(b)) && ChildrenAtMost(b, Weight(a))
  }

  /** A tree that may wait in a queue when everything taken so far weighs at most floor. */
  predicate Waiting(t: Tree, floor: nat)
  {
    Weight(t) >= floor && ChildrenAtMost(t, floor) && Balanced(t)
  }

  ghost predicate QueueOrdered(ts: seq<Tree>, floor: nat)
  {
    Ascending(ts) && forall i {:trigger Waiting(ts[i], floor)} :: 0 <= i < |ts| ==> Waiting(ts[i], floor)
  }

  /** Both queues ascend, and everything taken so far is no heavier than anything still there. */
  ghost predicate Ordered(q: Queues, floor: nat)
  {
    QueueOrdered(q.leaves, floor) && QueueOrdered(q.joined, floor)
  }

  lemma QueueFront(ts: seq<Tree>, floor: nat, w: nat)
    requires QueueOrdered(ts, floor) && floor <= w && (ts != [] ==> w <= Weight(ts[0]))
    ensures QueueOrdered(ts, w)
    ensures ts != [] ==> QueueOrdered(ts[1..], w) && (|ts| > 1 ==> Weight(ts[0]) <= Weight(ts[1]))
  {
    forall i | 0 <= i < |ts|
      ensures Waiting(ts[i], w)
    {
      assert Waiting(ts[i], floor);
    }
    if ts != [] {
      forall i | 0 <= i < |ts[1..]|
        ensures Waiting(ts[1..][i], w)
      {
        assert Waiting(ts[i + 1], w);
      }
    }
  }

  /** Front takes a tree of least weight: none that stays behind is lighter. */
  lemma FrontIsLeast(q: Queues, floor: nat)
    requires Size(q) > 0 && Ordered(q, floor)
    ensures Waiting(Front(q), floor)
    ensures Ordered(Rest(q), Weight(Front(q)))
  {
    var w := Weight(Front(q));
    if q.leaves != [] { assert Waiting(q.leaves[0], floor); }
    if q.joined != [] { assert Waiting(q.joined[0], floor); }
    QueueFront(q.leaves, floor, w);
    QueueFront(q.joined, floor, w);
  }

  lemma QueueAppend(ts: seq<Tree>, t: Tree, floor: nat)
    requires QueueOrdered(ts, floor) && Waiting(t, floor)
    requires ts != [] ==> Weight(ts[|ts| - 1]) <= Weight(t)
    ensures QueueOrdered(ts + [t], floor)
  {
    var us := ts + [t];
    forall i | 0 <= i < |us|
      ensures Waiting(us[i], floor) && Weight(us[i]) <= Weight(t)
    {
      if i < |ts| { assert Waiting(ts[i], floor); }
    }
  }

  /** The last tree joined is no heavier than the next one will be. */
  lemma LastJoined(q: Queues, floor: nat)
    requires Size(q) > 1 && Ordered(q, floor)
    requires q.joined != [] ==> q.joined[|q.joined| - 1].Join?
    ensures var js := Rest(Rest(q)).joined;
            js != [] ==> Weight(js[|js| - 1]) <= Weight(Front(q)) + Weight(Front(Rest(q)))
  {
    FrontIsLeast(q, floor);
    FrontIsLeast(Rest(q), Weight(Front(q)));
    var js := Rest(Rest(q)).joined;
    if js != [] {
      assert js[|js| - 1] == q.joined[|q.joined| - 1];
      assert Waiting(q.joined[|q.joined| - 1], floor);
    }
  }

  lemma JoinTwoKeepsOrder(q: Queues, floor: nat)
    requires Size(q) > 1 && Ordered(q, floor)
    requires q.joined != [] ==> q.joined[|q.joined| - 1].Join?
    ensures Ordered(JoinTwo(q), Weight(Front(Rest(q))))
    ensures JoinTwo(q).joined[|JoinTwo(q).joined| - 1] == Join(Front(q), Front(Rest(q)))
    ensures Weight(Front(q)) <= Weight(Front(Rest(q)))
  {
    var a, q1 := Front(q), Rest(q);
    FrontIsLeast(q, floor);
    var b, q2 := Front(q1), Rest(q1);
    FrontIsLeast(q1, Weight(a));
    LastJoined(q, floor);
    QueueAppend(q2.joined, Join(a, b), Weight(b));
  }

  /** The tree built has the sibling property. */
  lemma {:induction false} BuildIsBalanced(q: Queues, floor: nat)
    requires Size(q) > 0 && Ordered(q, floor)
    requires q.joined != [] ==> q.joined[|q.joined| - 1].Join?
    ensures Balanced(Build(q))
    decreases Size(q)
  {
    if Size(q) > 1 {
      JoinTwoKeepsOrder(q, floor);
      BuildIsBalanced(JoinTwo(q), Weight(Front(Rest(q))));
    } else {
      FrontIsLeast(q, floor);
    }
  }

  // ---------- depth ----------

  function Fib(n: nat): nat
  {
    if n < 2 then n else Fib(n - 2) + Fib(n - 1)
  }

  lemma {:induction false} FibMonotone(m: nat, n: nat)
    requires m <= n
    ensures Fib(m) <= Fib(n)
    decreases n - m
  {
    if m < n {
      FibMonotone(m, n - 1);
      if n >= 2 { FibNext(n); }
    }
  }

  lemma FibNext(n: nat)
    requires n >= 2
    ensures Fib(n) == Fib(n - 2) + Fib(n - 1)
  {
  }

  lemma {:induction false} FibGrows(k: nat)
    ensures Fib(2 * k + 2) >= Pow2(k)
  {
    if k > 0 {
      FibGrows(k - 1);
      FibNext(2 * k + 2);
      FibMonotone(2 * k, 2 * k + 1);
    }
  }

  /** A tree of height h weighs at least Fib(h + 2): depth costs weight exponentially. */
  lemma {:induction false} HeightBound(t: Tree)
    requires Balanced(t)
    ensures Weight(t) >= Fib(Height(t) + 2)
  {
    match t
    case Leaf(_, _) =>
    case Join(a, b) =>
      HeightBound(a);
      HeightBound(b);
      if Height(a) >= Height(b) {
        SiblingWeight(a, b);
      } else {
        SiblingWeight(b, a);
      }
  }

  lemma {:induction false} SiblingWeight(a: Tree, b: Tree)
    requires Balanced(a) && Balanced(b) && ChildrenAtMost(a, Weight(b))
    requires Weight(a) >= Fib(Height(a) + 2) && Height(a) >= Height(b)
    ensures Weight(a) + Weight(b) >= Fib(Height(a) + 3)
    decreases a
  {
    FibNext(Height(a) + 3);
    match a
    case Leaf(_, _) =>
      assert Fib(1) == 1;
      LeafWeight(b);
    case Join(a1, a2) =>
      HeightBound(a1);
      HeightBound(a2);
  }

  lemma {:induction false} LeafWeight(t: Tree)
    requires Balanced(t)
    ensures Weight(t) > 0
  {
    match t
    case Leaf(_, _) =>
    case Join(a, b) => LeafWeight(a);
  }
}
