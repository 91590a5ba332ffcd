/** Frequencies that grow so fast that Huffman's tree is a chain, as deep as there are symbols. */
module SteepCode {
  import opened Bits
  import opened Canonical
  import opened SymbolOrder
  import opened HuffmanTree
  import opened HuffmanDepths
  import opened HuffmanQueues
  import opened HuffmanCode

  /** The longest code is as long as the tree is high. */
  lemma {:induction false} DeepestSymbol(t: Tree, d: nat, lens: seq<nat>) returns (s: nat)
    requires Within(t, |lens|) && Distinct(t)
    ensures Has(t, s) && s < |lens| && Depths(t, d, lens)[s] == d + Height(t)
  {
    match t
    case Leaf(x, _) =>
      s := x;
    case Join(a, b) =>
      var la := Depths(a, d + 1, lens);
      if Height(a) >= Height(b) {
        s := DeepestSymbol(a, d + 1, lens);
        DepthsAt(b, d + 1, la, s);
      } else {
        s := DeepestSymbol(b, d + 1, la);
      }
  }

  /** Huffman's code is within a limit exactly when its tree is. */
  lemma BoundedByHeight(freq: seq<nat>, limit: nat)
    requires |Used(freq, |freq|)| > 1
    ensures Bounded(Unlimited(freq), limit) <==> Height(TreeOfCode(freq)) <= limit
  {
    hide TreeOfCode, Used;
    TreeShape(freq);
    UnlimitedIsComplete(freq);
    var s := DeepestSymbol(TreeOfCode(freq), 0, NoLengths(|freq|));
  }

  /** Each leaf but the first is heavier than w and all the leaves before its predecessor together. */
  predicate Steep(w: nat, ls: seq<Tree>)
    decreases |ls|
  {
    |ls| < 2 || (w < Weight(ls[1]) && Steep(w + Weight(ls[0]), ls[1..]))
  }

  predicate AllLeaves(ls: seq<Tree>)
  {
    forall i {:trigger ls[i]} :: 0 <= i < |ls| ==> ls[i].Leaf?
  }

  lemma ChainStep(t: Tree, ls: seq<Tree>)
    requires ls != [] && Steep(Weight(t), ls)
    ensures JoinTwo(Queues(ls, [t])) == Queues(ls[1..], [Join(t, ls[0])]) ||
            JoinTwo(Queues(ls, [t])) == Queues(ls[1..], [Join(ls[0], t)])
  {
    hide Weight;
    assert [t][1..] == [];
  }

  /** Every join takes the chain and the next leaf. */
  lemma {:induction false} ChainHeight(t: Tree, ls: seq<Tree>)
    requires AllLeaves(ls) && Steep(Weight(t), ls)
    ensures Height(Build(Queues(ls, [t]))) == Height(t) + |ls|
    decreases |ls|
  {
    if ls != [] {
      ChainStep(t, ls);
      var longer := JoinTwo(Queues(ls, [t])).joined[0];
      ChainHeight(longer, ls[1..]);
    }
  }

  /** From leaves alone: the first two are joined, and the rest hung on one by one. */
  lemma SteepHeight(ls: seq<Tree>)
    requires |ls| > 1 && AllLeaves(ls) && Steep(Weight(ls[0]) + Weight(ls[1]), ls[2..])
    ensures Height(Build(Queues(ls, []))) == |ls| - 1
  {
    assert ls[1..][1..] == ls[2..];
    var q := JoinTwo(Queues(ls, []));
    assert q == Queues(ls[2..], [Join(ls[0], ls[1])]);
    ChainHeight(Join(ls[0], ls[1]), ls[2..]);
  }
}
