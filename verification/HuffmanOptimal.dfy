/** No prefix code is cheaper: the cost of merging two least weights at a time bounds every code from below. */
module HuffmanOptimal {
  import opened Bits
  import opened Canonical
  import opened HuffmanTree
  import opened HuffmanDepths

  predicate Sorted(s: seq<nat>)
  {
    forall i, j :: 0 <= i < j < |s| ==> s[i] <= s[j]
  }

  function Position(x: nat, s: seq<nat>): (p: nat)
    ensures p <= |s|
  {
    if s == [] || x <= s[0] then 0 else 1 + Position(x, s[1..])
  }

  function InsertAt<T>(s: seq<T>, p: nat, x: T): (r: seq<T>)
    requires p <= |s|
    ensures |r| == |s| + 1
  {
    s[..p] + ([x] + s[p..])
  }

  function Insert(x: nat, s: seq<nat>): (r: seq<nat>)
    ensures |r| == |s| + 1
  {
    InsertAt(s, Position(x, s), x)
  }

  /** What it costs to merge the two least weights until one is left. */
  function MergeCost(s: seq<nat>): nat
    decreases |s|
  {
    if |s| < 2 then 0 else s[0] + s[1] + MergeCost(Insert(s[0] + s[1], s[2..]))
  }

  lemma {:induction false} PositionSplits(x: nat, s: seq<nat>)
    requires Sorted(s)
    ensures forall i :: 0 <= i < Position(x, s) ==> s[i] <= x
    ensures forall i :: Position(x, s) <= i < |s| ==> x <= s[i]
  {
    if s != [] && s[0] < x {
      PositionSplits(x, s[1..]);
      forall i | 0 < i < |s|
        ensures i < Position(x, s) ==> s[i] <= x
        ensures Position(x, s) <= i ==> x <= s[i]
      {
        assert s[1..][i - 1] == s[i];
      }
    }
  }

  lemma InsertSorted(x: nat, s: seq<nat>)
    requires Sorted(s)
    ensures Sorted(Insert(x, s))
  {
    PositionSplits(x, s);
  }

  // ---------- sums over parallel sequences ----------

  lemma {:induction false} CostConcat(f: seq<nat>, l: seq<nat>, g: seq<nat>, m: seq<nat>, n: nat)
    requires |f| == |l| && n <= |g| == |m|
    ensures Cost(f + g, l + m, |f| + n) == Cost(f, l, |f|) + Cost(g, m, n)
  {
    if n > 0 {
      CostConcat(f, l, g, m, n - 1);
    } else {
      CostPrefix(f, l, f + g, l + m, |f|);
    }
  }

  lemma {:induction false} CostPrefix(f: seq<nat>, l: seq<nat>, g: seq<nat>, m: seq<nat>, n: nat)
    requires |f| == |l| && |g| == |m| && n <= |f| && n <= |g|
    requires forall i :: 0 <= i < n ==> f[i] == g[i] && l[i] == m[i]
    ensures Cost(f, l, n) == Cost(g, m, n)
  {
    if n > 0 { CostPrefix(f, l, g, m, n - 1); }
  }

  lemma {:induction false} KraftConcat(a: seq<nat>, b: seq<nat>, n: nat, l: nat)
    requires n <= |b|
    ensures Kraft(a + b, |a| + n, l) == Kraft(a, |a|, l) + Kraft(b, n, l)
  {
    if n > 0 {
      KraftConcat(a, b, n - 1, l);
    } else {
      KraftPrefix(a, a + b, |a|, l);
    }
  }

  lemma {:induction false} KraftPrefix(a: seq<nat>, b: seq<nat>, n: nat, l: nat)
    requires n <= |a| && n <= |b| && forall i :: 0 <= i < n ==> a[i] == b[i]
    ensures Kraft(a, n, l) == Kraft(b, n, l)
  {
    if n > 0 { KraftPrefix(a, b, n - 1, l); }
  }

  lemma {:induction false} InsertAtCost(f: seq<nat>, l: seq<nat>, p: nat, x: nat, v: nat)
    requires p <= |f| == |l|
    ensures Cost(InsertAt(f, p, x), InsertAt(l, p, v), |f| + 1) == Cost(f, l, |f|) + x * v
  {
    CostConcat([x], [v], f[p..], l[p..], |f| - p);
    CostConcat(f[..p], l[..p], [x] + f[p..], [v] + l[p..], |f| - p + 1);
    CostConcat(f[..p], l[..p], f[p..], l[p..], |f| - p);
    assert f[..p] + f[p..] == f && l[..p] + l[p..] == l;
    assert Cost([x], [v], 1) == Cost([x], [v], 0) + x * v;
  }

  lemma {:induction false} InsertAtKraft(l: seq<nat>, p: nat, v: nat, limit: nat)
    requires p <= |l|
    ensures Kraft(InsertAt(l, p, v), |l| + 1, limit) == Kraft(l, |l|, limit) + Share(v, limit)
  {
    KraftConcat([v], l[p..], |l| - p, limit);
    KraftConcat(l[..p], [v] + l[p..], |l| - p + 1, limit);
    KraftConcat(l[..p], l[p..], |l| - p, limit);
    assert l[..p] + l[p..] == l;
    assert Kraft([v], 1, limit) == Kraft([v], 0, limit) + Share(v, limit);
  }

  // ---------- exchange ----------

  /** Lengths of a prefix code, complete or not, none longer than limit. */
  ghost predicate Prefixes(ls: seq<nat>, limit: nat)
  {
    && (forall i :: 0 <= i < |ls| ==> 0 < ls[i] <= limit)
    && Kraft(ls, |ls|, limit) <= Pow2(limit)
  }

  function Swap(ls: seq<nat>, i: nat, j: nat): (r: seq<nat>)
    requires i < |ls| && j < |ls|
    ensures |r| == |ls|
  {
    ls[i := ls[j]][j := ls[i]]
  }

  /** Giving the longer code to the lighter weight never costs more. */
  lemma SwapHelps(s: seq<nat>, ls: seq<nat>, i: nat, j: nat, limit: nat)
    requires |s| == |ls| && Sorted(s) && i <= j < |ls| && ls[i] <= ls[j] && Prefixes(ls, limit)
    ensures Prefixes(Swap(ls, i, j), limit)
    ensures Cost(s, Swap(ls, i, j), |s|) <= Cost(s, ls, |s|)
  {
    var l1 := ls[i := ls[j]];
    KraftUpdate(ls, |ls|, limit, i, ls[j]);
    KraftUpdate(l1, |ls|, limit, j, ls[i]);
    CostUpdate(s, ls, |ls|, i, ls[j]);
    CostUpdate(s, l1, |ls|, j, ls[i]);
    Exchange(s[i], s[j], ls[i], ls[j]);
  }

  lemma Exchange(a: nat, b: nat, x: nat, y: nat)
    requires a <= b && x <= y
    ensures a * y + b * x <= a * x + b * y
  {
    var d, e := b - a, y - x;
    assert d * e >= 0;
    assert b * y - a * y == d * y && b * x - a * x == d * x && d * y - d * x == d * e;
  }

  lemma {:induction false} LongestFrom(ls: seq<nat>, from: nat) returns (m: nat)
    requires from < |ls|
    ensures from <= m < |ls| && forall i :: from <= i < |ls| ==> ls[i] <= ls[m]
    decreases |ls| - from
  {
    if from == |ls| - 1 {
      m := from;
    } else {
      m := LongestFrom(ls, from + 1);
      if ls[from] > ls[m] { m := from; }
    }
  }

  /** The codes that end strictly below length l leave room at length l. */
  lemma {:induction false} KraftStrict(ls: seq<nat>, l: nat, limit: nat, i: nat)
    requires l < limit && i < |ls| && l < ls[i] <= limit && Kraft(ls, |ls|, limit) <= Pow2(limit)
    ensures Kraft(ls, |ls|, l) < Pow2(l)
    decreases limit - l
  {
    KraftStep(ls, |ls|, l + 1);
    if ls[i] == l + 1 {
      KraftBelow(ls, l + 1, limit);
      CountBefore(ls, i, |ls|);
    } else {
      KraftStrict(ls, l + 1, limit, i);
    }
  }

  /** Lengths that fit within l also fit within any larger limit. */
  lemma {:induction false} KraftAbove(ls: seq<nat>, l: nat, limit: nat)
    requires l <= limit && Bounded(ls, l) && Kraft(ls, |ls|, l) <= Pow2(l)
    ensures Kraft(ls, |ls|, limit) <= Pow2(limit)
    decreases limit - l
  {
    if l < limit {
      KraftAbove(ls, l, limit - 1);
      NoneOfLength(ls, |ls|, limit);
      KraftStep(ls, |ls|, limit);
    }
  }

  /** A lone longest code can be cut to the length of the next longest. */
  lemma CutFirst(s: seq<nat>, ls: seq<nat>, limit: nat)
    requires |s| == |ls| > 1 && Prefixes(ls, limit) && ls[1] <= ls[0]
    requires forall i :: 1 <= i < |ls| ==> ls[i] <= ls[1]
    ensures Prefixes(ls[0 := ls[1]], limit)
    ensures Cost(s, ls[0 := ls[1]], |s|) <= Cost(s, ls, |s|)
  {
    var m := ls[1];
    var l1 := ls[0 := m];
    CostUpdate(s, ls, |ls|, 0, m);
    Exchange(0, s[0], m, ls[0]);
    if m < ls[0] {
      KraftStrict(ls, m, limit, 0);
      KraftUpdate(ls, |ls|, m, 0, m);
      assert Share(m, m) == 1;
      KraftAbove(l1, m, limit);
    } else {
      assert l1 == ls;
    }
  }

  /** Any code can be made no dearer with its two longest codes, of equal length, on the two lightest weights. */
  lemma Rearrange(s: seq<nat>, ls: seq<nat>, limit: nat) returns (r: seq<nat>)
    requires |s| == |ls| > 1 && Sorted(s) && Prefixes(ls, limit)
    ensures |r| == |s| && Prefixes(r, limit) && r[0] == r[1]
    ensures Cost(s, r, |s|) <= Cost(s, ls, |s|)
  {
    var m := LongestFrom(ls, 0);
    var l1 := Swap(ls, 0, m);
    SwapHelps(s, ls, 0, m, limit);
    assert forall i :: 0 <= i < |l1| ==> l1[i] <= l1[0];
    var m1 := LongestFrom(l1, 1);
    var l2 := Swap(l1, 1, m1);
    SwapHelps(s, l1, 1, m1, limit);
    CutFirst(s, l2, limit);
    r := l2[0 := l2[1]];
  }

  // ---------- the lower bound ----------

  /** Folding two codes of equal length into their common parent frees exactly their weights. */
  lemma FoldFront(s: seq<nat>, ls: seq<nat>, t: seq<nat>, lt: seq<nat>, limit: nat) returns (r: seq<nat>)
    requires |s| == |ls| == 2 && |t| == |lt| > 0 && Prefixes(ls + lt, limit) && ls[0] == ls[1]
    ensures |r| == |t| + 1 && Prefixes(r, limit)
    ensures Cost(s + t, ls + lt, 2 + |t|) == Cost(Insert(s[0] + s[1], t), r, |t| + 1) + s[0] + s[1]
  {
    hide Cost, Position, Kraft;
    var p := Position(s[0] + s[1], t);
    assert (ls + lt)[0] == ls[0] && forall i :: 0 <= i < |lt| ==> lt[i] == (ls + lt)[2 + i];
    if ls[0] == 1 {
      ThreeOnes(ls, lt, limit);
    }
    FoldSums(s, ls, t, lt, p, limit);
    r := InsertAt(lt, p, ls[0] - 1);
    InsertAtWithin(lt, p, ls[0] - 1, limit);
  }

  lemma FoldStep(s: seq<nat>, ls: seq<nat>, limit: nat) returns (r: seq<nat>)
    requires |s| == |ls| > 2 && Prefixes(ls, limit) && ls[0] == ls[1]
    ensures |r| == |s| - 1 && Prefixes(r, limit)
    ensures Cost(s, ls, |s|) == Cost(Insert(s[0] + s[1], s[2..]), r, |s| - 1) + s[0] + s[1]
  {
    var a, t := CutTwo(s);
    var la, lt := CutTwo(ls);
    r := FoldFront(a, la, t, lt, limit);
  }

  lemma CutTwo(s: seq<nat>) returns (a: seq<nat>, t: seq<nat>)
    requires |s| > 2
    ensures s == a + t && t == s[2..] && |a| == 2 && |t| == |s| - 2 && a[0] == s[0] && a[1] == s[1]
  {
    a, t := s[..2], s[2..];
  }

  lemma InsertAtWithin(ls: seq<nat>, p: nat, v: nat, limit: nat)
    requires p <= |ls| && 0 < v <= limit && forall i :: 0 <= i < |ls| ==> 0 < ls[i] <= limit
    ensures forall i :: 0 <= i < |ls| + 1 ==> 0 < InsertAt(ls, p, v)[i] <= limit
  {
  }

  lemma FoldSums(s: seq<nat>, ls: seq<nat>, t: seq<nat>, lt: seq<nat>, p: nat, limit: nat)
    requires |s| == |ls| == 2 && |t| == |lt| && p <= |t| && ls[0] == ls[1] && 1 < ls[0] <= limit
    ensures Cost(s + t, ls + lt, 2 + |t|)
         == Cost(InsertAt(t, p, s[0] + s[1]), InsertAt(lt, p, ls[0] - 1), |t| + 1) + s[0] + s[1]
    ensures Kraft(InsertAt(lt, p, ls[0] - 1), |t| + 1, limit) == Kraft(ls + lt, 2 + |t|, limit)
  {
    InsertAtCost(t, lt, p, s[0] + s[1], ls[0] - 1);
    InsertAtKraft(lt, p, ls[0] - 1, limit);
    CostConcat(s, ls, t, lt, |t|);
    KraftConcat(ls, lt, |t|, limit);
    PairSums(s, ls, limit);
    OneLess(s[0] + s[1], ls[0]);
  }

  lemma OneLess(w: nat, m: nat)
    requires m > 0
    ensures w * m == w * (m - 1) + w
  {
  }

  lemma PairSums(s: seq<nat>, ls: seq<nat>, limit: nat)
    requires |s| == |ls| == 2 && ls[0] == ls[1] && 1 < ls[0] <= limit
    ensures Cost(s, ls, 2) == (s[0] + s[1]) * ls[0]
    ensures Kraft(ls, 2, limit) == Share(ls[0] - 1, limit)
  {
    assert Cost(s, ls, 2) == Cost(s, ls, 0) + s[0] * ls[0] + s[1] * ls[1];
    assert (s[0] + s[1]) * ls[0] == s[0] * ls[0] + s[1] * ls[0];
    assert Kraft(ls, 2, limit) == Kraft(ls, 0, limit) + Share(ls[0], limit) + Share(ls[1], limit);
  }

  /** Two one-bit codes leave no room for a third code. */
  lemma ThreeOnes(ls: seq<nat>, lt: seq<nat>, limit: nat)
    requires |ls| == 2 && ls[0] == ls[1] == 1 && |lt| > 0 && 0 < lt[0] <= limit
    ensures Kraft(ls + lt, 2 + |lt|, limit) > Pow2(limit)
  {
    KraftConcat(ls, lt, |lt|, limit);
    assert Kraft(ls, 2, limit) == Kraft(ls, 0, limit) + Share(1, limit) + Share(1, limit);
    KraftFirst(lt, |lt|, limit);
  }

  lemma {:induction false} KraftFirst(ls: seq<nat>, n: nat, limit: nat)
    requires 0 < n <= |ls| && 0 < ls[0] <= limit
    ensures Kraft(ls, n, limit) > 0
  {
    if n > 1 { KraftFirst(ls, n - 1, limit); }
  }

  /** Every prefix code for two or more weights costs at least what merging the least two at a time does. */
  lemma {:induction false} LowerBound(s: seq<nat>, ls: seq<nat>, limit: nat)
    requires |s| == |ls| > 1 && Sorted(s) && Prefixes(ls, limit)
    ensures MergeCost(s) <= Cost(s, ls, |s|)
    decreases |s|
  {
    if |s| == 2 {
      TwoCost(s, ls);
    } else {
      var r := Rearrange(s, ls, limit);
      var f := FoldStep(s, r, limit);
      MergeCostStep(s);
      LowerBound(Insert(s[0] + s[1], s[2..]), f, limit);
    }
  }

  lemma MergeCostStep(s: seq<nat>)
    requires |s| > 1 && Sorted(s)
    ensures MergeCost(s) == s[0] + s[1] + MergeCost(Insert(s[0] + s[1], s[2..]))
    ensures Sorted(Insert(s[0] + s[1], s[2..]))
  {
    InsertSorted(s[0] + s[1], s[2..]);
  }

  lemma TwoCost(s: seq<nat>, ls: seq<nat>)
    requires |s| == |ls| == 2 && ls[0] > 0 && ls[1] > 0
    ensures MergeCost(s) <= Cost(s, ls, 2)
  {
    assert Cost(s, ls, 2) == Cost(s, ls, 0) + s[0] * ls[0] + s[1] * ls[1];
    Exchange(0, s[0], 1, ls[0]);
    Exchange(0, s[1], 1, ls[1]);
    assert |Insert(s[0] + s[1], s[2..])| == 1;
  }
}
