/** Code lengths by Huffman's algorithm, as the encoder computes them: two queues, child references, a walk down. */
module HuffmanQueues {
  import opened Bits
  import opened Canonical
  import opened SymbolOrder
  import opened HuffmanTree
  import opened HuffmanDepths

  /** An internal node. A child is an earlier node's index, or -s - 1 for the leaf of symbol s. */
  datatype Node = Node(weight: nat, left: int, right: int)

  ghost predicate Linked(freq: seq<nat>, nodes: seq<Node>)
  {
    forall k {:trigger nodes[k]} :: 0 <= k < |nodes| ==>
      -|freq| <= nodes[k].left < k && -|freq| <= nodes[k].right < k
  }

  /** The tree a reference stands for. */
  ghost function RefTree(freq: seq<nat>, nodes: seq<Node>, ref: int): Tree
    requires Linked(freq, nodes) && -|freq| <= ref < |nodes|
    decreases if ref < 0 then 0 else ref + 1
  {
    if ref < 0 then Leaf(-ref - 1, freq[-ref - 1])
    else Join(RefTree(freq, nodes, nodes[ref].left), RefTree(freq, nodes, nodes[ref].right))
  }

  ghost function LeafTrees(freq: seq<nat>, leaves: seq<nat>, li: nat): seq<Tree>
    requires li <= |leaves| && Indexes(leaves, |freq|)
    decreases |leaves| - li
  {
    if li == |leaves| then [] else [Leaf(leaves[li], freq[leaves[li]])] + LeafTrees(freq, leaves, li + 1)
  }

  ghost function NodeTrees(freq: seq<nat>, nodes: seq<Node>, ni: nat): seq<Tree>
    requires ni <= |nodes| && Linked(freq, nodes)
    decreases |nodes| - ni
  {
    if ni == |nodes| then [] else [RefTree(freq, nodes, ni)] + NodeTrees(freq, nodes, ni + 1)
  }

  ghost function State(freq: seq<nat>, leaves: seq<nat>, nodes: seq<Node>, li: nat, ni: nat): Queues
    requires li <= |leaves| && Indexes(leaves, |freq|) && ni <= |nodes| && Linked(freq, nodes)
  {
    Queues(LeafTrees(freq, leaves, li), NodeTrees(freq, nodes, ni))
  }

  ghost predicate Weighed(freq: seq<nat>, nodes: seq<Node>)
    requires Linked(freq, nodes)
  {
    forall k {:trigger RefTree(freq, nodes, k)} ::
      0 <= k < |nodes| ==> nodes[k].weight == Weight(RefTree(freq, nodes, k))
  }

  lemma {:induction false} Sizes(freq: seq<nat>, leaves: seq<nat>, nodes: seq<Node>, li: nat, ni: nat)
    requires li <= |leaves| && Indexes(leaves, |freq|) && ni <= |nodes| && Linked(freq, nodes)
    ensures |LeafTrees(freq, leaves, li)| == |leaves| - li && |NodeTrees(freq, nodes, ni)| == |nodes| - ni
    decreases |leaves| - li + |nodes| - ni
  {
    if li < |leaves| {
      Sizes(freq, leaves, nodes, li + 1, ni);
    } else if ni < |nodes| {
      Sizes(freq, leaves, nodes, li, ni + 1);
    }
  }

  /** Adding a node leaves what the earlier references stand for alone. */
  lemma {:induction false} RefTreeAppend(freq: seq<nat>, nodes: seq<Node>, x: Node, ref: int)
    requires Linked(freq, nodes) && Linked(freq, nodes + [x]) && -|freq| <= ref < |nodes|
    ensures RefTree(freq, nodes + [x], ref) == RefTree(freq, nodes, ref)
    decreases if ref < 0 then 0 else ref + 1
  {
    if ref >= 0 {
      assert (nodes + [x])[ref] == nodes[ref];
      RefTreeAppend(freq, nodes, x, nodes[ref].left);
      RefTreeAppend(freq, nodes, x, nodes[ref].right);
    }
  }

  lemma {:induction false} NodeTreesAppend(freq: seq<nat>, nodes: seq<Node>, x: Node, ni: nat)
    requires Linked(freq, nodes) && Linked(freq, nodes + [x]) && ni <= |nodes|
    ensures NodeTrees(freq, nodes + [x], ni) == NodeTrees(freq, nodes, ni) + [RefTree(freq, nodes + [x], |nodes|)]
    decreases |nodes| - ni
  {
    if ni < |nodes| {
      RefTreeAppend(freq, nodes, x, ni);
      NodeTreesAppend(freq, nodes, x, ni + 1);
    } else {
      assert NodeTrees(freq, nodes + [x], ni + 1) == [];
    }
  }

  /** The tree the algorithm builds over the used symbols, sorted by frequency. */
  ghost function CodeTree(freq: seq<nat>, used: seq<nat>): Tree
    requires Indexes(used, |freq|) && |used| > 0
  {
    var leaves := SortBy(freq, used);
    Sizes(freq, leaves, [], 0, 0);
    Build(State(freq, leaves, [], 0, 0))
  }

  /** Takes the next-smallest node: the front of one queue or the other. */
  method Next(freq: seq<nat>, leaves: seq<nat>, nodes: seq<Node>, li: nat, ni: nat)
    returns (weight: nat, ref: int, li': nat, ni': nat)
    requires li <= |leaves| && Indexes(leaves, |freq|) && ni <= |nodes| && Linked(freq, nodes) && Weighed(freq, nodes)
    requires Size(State(freq, leaves, nodes, li, ni)) > 0
    ensures li <= li' <= |leaves| && ni <= ni' <= |nodes| && li' + ni' == li + ni + 1
    ensures -|freq| <= ref < |nodes|
    ensures RefTree(freq, nodes, ref) == Front(State(freq, leaves, nodes, li, ni))
    ensures weight == Weight(Front(State(freq, leaves, nodes, li, ni)))
    ensures State(freq, leaves, nodes, li', ni') == Rest(State(freq, leaves, nodes, li, ni))
  {
    Sizes(freq, leaves, nodes, li, ni);
    if ni < |nodes| { assert nodes[ni].weight == Weight(RefTree(freq, nodes, ni)); }
    if li < |leaves| && (ni >= |nodes| || freq[leaves[li]] <= nodes[ni].weight) {
      weight, ref, li', ni' := freq[leaves[li]], -(leaves[li] as int) - 1, li + 1, ni;
    } else {
      weight, ref, li', ni' := nodes[ni].weight, ni, li, ni + 1;
    }
  }

  lemma AddNode(freq: seq<nat>, leaves: seq<nat>, nodes: seq<Node>, x: Node, li: nat, ni: nat)
    requires li <= |leaves| && Indexes(leaves, |freq|) && ni <= |nodes| && Linked(freq, nodes) && Weighed(freq, nodes)
    requires -|freq| <= x.left < |nodes| && -|freq| <= x.right < |nodes|
    requires x.weight == Weight(RefTree(freq, nodes, x.left)) + Weight(RefTree(freq, nodes, x.right))
    ensures Linked(freq, nodes + [x]) && Weighed(freq, nodes + [x])
    ensures State(freq, leaves, nodes + [x], li, ni)
         == Queues(LeafTrees(freq, leaves, li),
                   NodeTrees(freq, nodes, ni) + [Join(RefTree(freq, nodes, x.left), RefTree(freq, nodes, x.right))])
  {
    var ns := nodes + [x];
    assert ns[|nodes|] == x;
    RefTreeAppend(freq, nodes, x, x.left);
    RefTreeAppend(freq, nodes, x, x.right);
    NodeTreesAppend(freq, nodes, x, ni);
    forall k | 0 <= k < |ns|
      ensures ns[k].weight == Weight(RefTree(freq, ns, k))
    {
      if k < |nodes| {
        RefTreeAppend(freq, nodes, x, k);
        assert nodes[k].weight == Weight(RefTree(freq, nodes, k));
      }
    }
  }

  /** Joins the two least until one is left. */
  method MergeQueues(freq: seq<nat>, used: seq<nat>) returns (nodes: seq<Node>)
    requires Indexes(used, |freq|) && |used| > 1
    ensures Linked(freq, nodes) && |nodes| > 0
    ensures RefTree(freq, nodes, |nodes| - 1) == CodeTree(freq, used)
  {
    var leaves := SortBy(freq, used);
    nodes := [];
    var li, ni := 0, 0;
    Sizes(freq, leaves, nodes, li, ni);
    while (|leaves| - li) + (|nodes| - ni) > 1
      invariant li <= |leaves| && ni <= |nodes| && Linked(freq, nodes) && Weighed(freq, nodes)
      invariant Size(State(freq, leaves, nodes, li, ni)) == (|leaves| - li) + (|nodes| - ni) > 0
      invariant Build(State(freq, leaves, nodes, li, ni)) == CodeTree(freq, used)
      invariant if nodes == [] then li == 0 else ni < |nodes|
      decreases (|leaves| - li) + (|nodes| - ni)
    {
      var w1, r1, l1, n1 := Next(freq, leaves, nodes, li, ni);
      var w2, r2, l2, n2 := Next(freq, leaves, nodes, l1, n1);
      AddNode(freq, leaves, nodes, Node(w1 + w2, r1, r2), l2, n2);
      nodes := nodes + [Node(w1 + w2, r1, r2)];
      li, ni := l2, n2;
      Sizes(freq, leaves, nodes, li, ni);
    }
    LastNode(freq, leaves, nodes, li, ni);
  }

  /** With every leaf taken and joined, what is left is the newest node. */
  lemma LastNode(freq: seq<nat>, leaves: seq<nat>, nodes: seq<Node>, li: nat, ni: nat)
    requires li <= |leaves| && Indexes(leaves, |freq|) && ni <= |nodes| && Linked(freq, nodes)
    requires (|leaves| - li) + (|nodes| - ni) == 1 && |leaves| > 1 && (if nodes == [] then li == 0 else ni < |nodes|)
    ensures |nodes| > 0 && RefTree(freq, nodes, |nodes| - 1) == Build(State(freq, leaves, nodes, li, ni))
  {
    Sizes(freq, leaves, nodes, li, ni);
    assert li == |leaves| && ni == |nodes| - 1;
  }

  /** A length is stored in a byte. */
  function Byte(v: nat): nat
  {
    v % 256
  }

  /** Walks down from ref, recording each leaf's depth. */
  method Walk(freq: seq<nat>, nodes: seq<Node>, ref: int, depth: nat, lens: array<nat>)
    requires Linked(freq, nodes) && -|freq| <= ref < |nodes| && lens.Length == |freq|
    requires depth + Height(RefTree(freq, nodes, ref)) < 256 && (ref < 0 ==> depth > 0)
    modifies lens
    ensures Within(RefTree(freq, nodes, ref), |freq|)
    ensures lens[..] == Depths(RefTree(freq, nodes, ref), depth, old(lens[..]))
    decreases if ref < 0 then 0 else ref + 1
  {
    if ref < 0 {
      var d := if depth == 0 then 1 else depth;
      lens[-ref - 1] := Byte(d);
      return;
    }
    Walk(freq, nodes, nodes[ref].left, depth + 1, lens);
    Walk(freq, nodes, nodes[ref].right, depth + 1, lens);
  }
}
