/** The encoder's table form of a canonical code. */
module EncodeTable {
  import opened Bits
  import opened Canonical

  /** The code of every symbol that has one, in symbol order; 0 for the rest. */
  function Codes(lens: seq<nat>, n: nat): (cs: seq<nat>)
    requires n <= |lens|
    ensures |cs| == n
  {
    if n == 0 then [] else Codes(lens, n - 1) + [if lens[n - 1] > 0 then Code(lens, n - 1) else 0]
  }

  lemma {:induction false} CodesAt(lens: seq<nat>, n: nat, i: nat)
    requires i < n <= |lens| && lens[i] > 0
    ensures Codes(lens, n)[i] == Code(lens, i)
  {
    if i < n - 1 { CodesAt(lens, n - 1, i); }
  }

  /** Codes in symbol order within each length. */
  method CanonicalCodes(lens: seq<nat>) returns (codes: seq<nat>)
    requires Bounded(lens, MAX_TREE_PATH)
    ensures codes == Codes(lens, |lens|)
  {
    var next := FirstCodes(lens);
    codes := [];
    for i := 0 to |lens|
      invariant codes == Codes(lens, i)
      invariant forall l {:trigger next[l]} :: 0 < l <= MAX_TREE_PATH ==> next[l] == First(lens, l) + Count(lens, i, l)
    {
      var l := lens[i];
      if l != 0 {
        codes := codes + [next[l]];
        next[l] := next[l] + 1;
      } else {
        codes := codes + [0];
      }
    }
  }

  method FirstCodes(lens: seq<nat>) returns (next: array<nat>)
    requires Bounded(lens, MAX_TREE_PATH)
    ensures fresh(next) && next.Length == MAX_TREE_PATH + 2
    ensures forall l {:trigger next[l]} :: 0 < l <= MAX_TREE_PATH ==> next[l] == First(lens, l)
  {
    var count := CountLengths(lens);
    next := new nat[MAX_TREE_PATH + 2](_ => 0);
    var code := 0;
    for l := 1 to MAX_TREE_PATH + 1
      modifies next
      invariant forall m {:trigger next[m]} :: 0 < m < l ==> next[m] == First(lens, m)
      invariant l > 1 ==> code == First(lens, l - 1)
      invariant l == 1 ==> code == 0
    {
      code := 2 * (code + count[l - 1]);
      next[l] := code;
    }
  }

  /** Absent symbols are left uncounted: they must not seed the first length's code. */
  method CountLengths(lens: seq<nat>) returns (count: array<nat>)
    requires Bounded(lens, MAX_TREE_PATH)
    ensures fresh(count) && count.Length == MAX_TREE_PATH + 2 && count[0] == 0
    ensures forall l {:trigger count[l]} :: 0 < l <= MAX_TREE_PATH ==> count[l] == Count(lens, |lens|, l)
  {
    count := new nat[MAX_TREE_PATH + 2](_ => 0);
    for i := 0 to |lens|
      invariant forall l {:trigger count[l]} :: 0 <= l <= MAX_TREE_PATH ==> count[l] == Count(lens, i, l)
    {
      count[lens[i]] := count[lens[i]] + 1;
    }
    count[0] := 0;
  }
}
