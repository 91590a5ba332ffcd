/** The code lengths read off a tree: they cover its symbols, their Kraft sum is exactly one, and what they cost. */
module HuffmanDepths {
  import opened Bits
  import opened Canonical
  import opened HuffmanTree

  /** Records each leaf's depth, counting from depth d at the root of t. */
  function Depths(t: Tree, d: nat, lens: seq<nat>): (r: seq<nat>)
    requires Within(t, |lens|)
    ensures |r| == |lens|
  {
    match t
    case Leaf(s, _) => lens[s := d]
    case Join(a, b) => Depths(b, d + 1, Depths(a, d + 1, lens))
  }

  /** Every symbol of t is below n. */
  predicate Within(t: Tree, n: nat)
  {
    match t
    case Leaf(s, _) => s < n
    case Join(a, b) => Within(a, n) && Within(b, n)
  }

  predicate Has(t: Tree, s: nat)
  {
    match t
    case Leaf(x, _) => x == s
    case Join(a, b) => Has(a, s) || Has(b, s)
  }

  /** No symbol is at two leaves. */
  ghost predicate Distinct(t: Tree)
  {
    match t
    case Leaf(_, _) => true
    case Join(a, b) => Distinct(a) && Distinct(b) && Apart(a, b)
  }

  ghost predicate Apart(a: Tree, b: Tree)
  {
    forall s: nat :: Has(a, s) ==> !Has(b, s)
  }

  /** None of t's symbols has a length yet. */
  predicate Clear(t: Tree, lens: seq<nat>)
  {
    match t
    case Leaf(s, _) => s < |lens| && lens[s] == 0
    case Join(a, b) => Clear(a, lens) && Clear(b, lens)
  }

  lemma {:induction false} ClearKept(t: Tree, a: Tree, d: nat, lens: seq<nat>)
    requires Within(a, |lens|) && Clear(t, lens) && Apart(a, t)
    ensures Clear(t, Depths(a, d, lens))
  {
    match t
    case Leaf(s, _) =>
      assert Has(t, s);
      DepthsAt(a, d, lens, s);
    case Join(x, y) =>
      assert forall s: nat :: Has(x, s) || Has(y, s) ==> Has(t, s);
      ClearKept(x, a, d, lens);
      ClearKept(y, a, d, lens);
  }

  lemma {:induction false} AbsentIsClear(t: Tree, lens: seq<nat>)
    requires Within(t, |lens|) && Absent(lens)
    ensures Clear(t, lens)
  {
    match t
    case Leaf(_, _) =>
    case Join(a, b) =>
      AbsentIsClear(a, lens);
      AbsentIsClear(b, lens);
  }

  /** Only the symbols of t change, and theirs become depths between d and d plus the height. */
  lemma {:induction false} DepthsAt(t: Tree, d: nat, lens: seq<nat>, s: nat)
    requires Within(t, |lens|) && s < |lens|
    ensures !Has(t, s) ==> Depths(t, d, lens)[s] == lens[s]
    ensures Has(t, s) ==> d <= Depths(t, d, lens)[s] <= d + Height(t)
    ensures Has(t, s) && t.Join? ==> d < Depths(t, d, lens)[s]
  {
    match t
    case Leaf(_, _) =>
    case Join(a, b) =>
      var la := Depths(a, d + 1, lens);
      DepthsAt(a, d + 1, lens, s);
      DepthsAt(b, d + 1, la, s);
  }

  lemma {:induction false} KraftUpdate(lens: seq<nat>, n: nat, l: nat, i: nat, v: nat)
    requires n <= |lens| && i < |lens|
    ensures Kraft(lens[i := v], n, l) == Kraft(lens, n, l) + (if i < n then Share(v, l) - Share(lens[i], l) else 0)
  {
    if n > 0 { KraftUpdate(lens, n - 1, l, i, v); }
  }

  /** A tree hung at depth d takes up exactly the share of a code of length d. */
  lemma {:induction false} DepthsKraft(t: Tree, d: nat, lens: seq<nat>, limit: nat)
    requires Within(t, |lens|) && Distinct(t) && Clear(t, lens) && 0 < d && d + Height(t) <= limit
    ensures Kraft(Depths(t, d, lens), |lens|, limit) == Kraft(lens, |lens|, limit) + Pow2(limit - d)
  {
    match t
    case Leaf(s, _) =>
      KraftUpdate(lens, |lens|, limit, s, d);
    case Join(a, b) =>
      DepthsKraft(a, d + 1, lens, limit);
      ClearKept(b, a, d + 1, lens);
      DepthsKraft(b, d + 1, Depths(a, d + 1, lens), limit);
  }

  /** The lengths of a whole tree of two leaves or more are a complete code. */
  lemma {:induction false} TreeIsComplete(t: Tree, lens: seq<nat>, limit: nat)
    requires t.Join? && Within(t, |lens|) && Distinct(t) && Height(t) <= limit && Absent(lens)
    ensures Complete(Depths(t, 0, lens), limit)
    ensures forall s :: 0 <= s < |lens| ==> (Depths(t, 0, lens)[s] > 0 <==> Has(t, s))
  {
    AbsentKraft(lens, |lens|, limit);
    AbsentIsClear(t, lens);
    DepthsKraft(t.left, 1, lens, limit);
    ClearKept(t.right, t.left, 1, lens);
    DepthsKraft(t.right, 1, Depths(t.left, 1, lens), limit);
    forall s | 0 <= s < |lens|
      ensures Depths(t, 0, lens)[s] <= limit
      ensures Depths(t, 0, lens)[s] > 0 <==> Has(t, s)
    {
      DepthsAt(t, 0, lens, s);
    }
  }

  // ---------- cost ----------

  /** The bits it takes to write every symbol i of the first n freq[i] times. */
  function Cost(freq: seq<nat>, lens: seq<nat>, n: nat): nat
    requires n <= |freq| == |lens|
  {
    if n == 0 then 0 else Cost(freq, lens, n - 1) + freq[n - 1] * lens[n - 1]
  }

  /** The weights of all the joins in t, which is what its leaves cost at their depths. */
  function TreeCost(t: Tree): nat
  {
    match t
    case Leaf(_, _) => 0
    case Join(a, b) => Weight(t) + TreeCost(a) + TreeCost(b)
  }

  /** Every leaf carries its symbol's frequency. */
  predicate Carries(t: Tree, freq: seq<nat>)
  {
    match t
    case Leaf(s, w) => s < |freq| && freq[s] == w
    case Join(a, b) => Carries(a, freq) && Carries(b, freq)
  }

  lemma {:induction false} CarriesWithin(t: Tree, freq: seq<nat>)
    requires Carries(t, freq)
    ensures Within(t, |freq|)
  {
    match t
    case Leaf(_, _) =>
    case Join(a, b) =>
      CarriesWithin(a, freq);
      CarriesWithin(b, freq);
  }

  lemma {:induction false} CostUpdate(freq: seq<nat>, lens: seq<nat>, n: nat, i: nat, v: nat)
    requires n <= |freq| == |lens| && i < |lens|
    ensures Cost(freq, lens[i := v], n) == Cost(freq, lens, n) + (if i < n then freq[i] * v - freq[i] * lens[i] else 0)
  {
    if n > 0 { CostUpdate(freq, lens, n - 1, i, v); }
  }

  lemma {:induction false} DepthsCost(t: Tree, d: nat, freq: seq<nat>, lens: seq<nat>)
    requires |freq| == |lens| && Carries(t, freq) && Within(t, |lens|) && Distinct(t) && Clear(t, lens)
    ensures Cost(freq, Depths(t, d, lens), |lens|) == Cost(freq, lens, |lens|) + TreeCost(t) + Weight(t) * d
  {
    match t
    case Leaf(s, w) =>
      CostUpdate(freq, lens, |lens|, s, d);
    case Join(a, b) =>
      DepthsCost(a, d + 1, freq, lens);
      ClearKept(b, a, d + 1, lens);
      DepthsCost(b, d + 1, freq, Depths(a, d + 1, lens));
      OneDeeper(Weight(a), Weight(b), d);
  }

  lemma OneDeeper(a: nat, b: nat, d: nat)
    ensures a * (d + 1) + b * (d + 1) == a + b + (a + b) * d
  {
  }
}
