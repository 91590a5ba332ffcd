/** The reader's limits told from a walk: how many visits there are, and how deep its directories lie. */
module TreeMeasures {
  import opened Bits
  import opened ResourceFormat
  import opened Dentries
  import opened Records
  import opened Layout
  import opened TreeRoundTrip
  import opened Capture

  // ---------- what is under a node ----------

  /** Node y is c, or somewhere under it. */
  ghost predicate Under(t: seq<Node>, parent: seq<nat>, c: nat, y: nat)
    requires Linked(t, parent) && y < |t|
    decreases y
  {
    y == c || (y > 0 && Under(t, parent, c, parent[y]))
  }

  /** Node y is under one of d's children, from number i on. */
  ghost predicate UnderChild(t: seq<Node>, parent: seq<nat>, d: nat, i: nat, y: nat)
    requires Linked(t, parent) && d < |t| && y < |t|
  {
    exists j {:trigger t[d].children[j]} :: i <= j < |t[d].children| && Under(t, parent, t[d].children[j], y)
  }

  lemma {:induction false} UnderIsLater(t: seq<Node>, parent: seq<nat>, c: nat, y: nat)
    requires Linked(t, parent) && y < |t| && Under(t, parent, c, y)
    ensures c <= y
    decreases y
  {
    if y != c { UnderIsLater(t, parent, c, parent[y]); }
  }

  /** Nothing is under two children of one directory. */
  lemma {:induction false} OneBranch(t: seq<Node>, parent: seq<nat>, d: nat, j: nat, k: nat, y: nat)
    requires Linked(t, parent) && d < |t| && j < |t[d].children| && k < |t[d].children| && j != k && y < |t|
    requires Under(t, parent, t[d].children[j], y)
    ensures !Under(t, parent, t[d].children[k], y)
    decreases y
  {
    var a, b := t[d].children[j], t[d].children[k];
    assert Distinct(t[d].children);
    assert d < a && d < b && parent[a] == d && parent[b] == d;
    if Under(t, parent, b, y) {
      if y == a {
        UnderIsLater(t, parent, b, parent[y]);
      } else if y == b {
        UnderIsLater(t, parent, a, parent[y]);
      } else {
        OneBranch(t, parent, d, j, k, parent[y]);
      }
    }
  }

  /** What is under d is d, or under one of its children. */
  lemma {:induction false} UnderSplits(t: seq<Node>, parent: seq<nat>, d: nat, y: nat)
    requires Linked(t, parent) && d < |t| && y < |t|
    ensures Under(t, parent, d, y) <==> y == d || UnderChild(t, parent, d, 0, y)
    ensures !UnderChild(t, parent, d, 0, d)
    decreases y
  {
    if UnderChild(t, parent, d, 0, d) {
      var j :| 0 <= j < |t[d].children| && Under(t, parent, t[d].children[j], d);
      UnderIsLater(t, parent, t[d].children[j], d);
    }
    if y != d && Under(t, parent, d, y) {
      UnderSplits(t, parent, d, parent[y]);
      if parent[y] == d {
        assert y in t[d].children;
        var j :| 0 <= j < |t[d].children| && t[d].children[j] == y;
      } else {
        var j :| 0 <= j < |t[d].children| && Under(t, parent, t[d].children[j], parent[y]);
        assert Under(t, parent, t[d].children[j], y);
      }
    }
    if UnderChild(t, parent, d, 0, y) {
      var j :| 0 <= j < |t[d].children| && Under(t, parent, t[d].children[j], y);
      ChildIsUnder(t, parent, d, j, y);
    }
  }

  lemma {:induction false} ChildIsUnder(t: seq<Node>, parent: seq<nat>, d: nat, j: nat, y: nat)
    requires Linked(t, parent) && d < |t| && j < |t[d].children| && y < |t| && Under(t, parent, t[d].children[j], y)
    ensures Under(t, parent, d, y)
    decreases y
  {
    if y == t[d].children[j] {
      assert Under(t, parent, d, parent[y]);
    } else {
      ChildIsUnder(t, parent, d, j, parent[y]);
    }
  }

  lemma {:induction false} AllUnderRoot(t: seq<Node>, parent: seq<nat>, y: nat)
    requires Linked(t, parent) && y < |t|
    ensures Under(t, parent, 0, y)
    decreases y
  {
    if y > 0 { AllUnderRoot(t, parent, parent[y]); }
  }

  // ---------- how many ----------

  ghost function Family(t: seq<Node>, parent: seq<nat>, d: nat): (s: set<nat>)
    requires Linked(t, parent) && d < |t|
  {
    set y {:trigger Under(t, parent, d, y)} | 0 <= y < |t| && Under(t, parent, d, y)
  }

  ghost function Descendants(t: seq<Node>, parent: seq<nat>, d: nat, i: nat): (s: set<nat>)
    requires Linked(t, parent) && d < |t|
  {
    set y {:trigger UnderChild(t, parent, d, i, y)} | 0 <= y < |t| && UnderChild(t, parent, d, i, y)
  }

  lemma FamilyIs(t: seq<Node>, parent: seq<nat>, d: nat)
    requires Linked(t, parent) && d < |t|
    ensures Family(t, parent, d) == {d} + Descendants(t, parent, d, 0) && d !in Descendants(t, parent, d, 0)
  {
    hide Linked, Under, UnderChild;
    forall y: nat | y < |t|
      ensures Under(t, parent, d, y) <==> y == d || UnderChild(t, parent, d, 0, y)
    {
      UnderSplits(t, parent, d, y);
    }
    UnderSplits(t, parent, d, d);
  }

  lemma ChildSplits(t: seq<Node>, parent: seq<nat>, d: nat, i: nat, y: nat)
    requires Linked(t, parent) && d < |t| && i < |t[d].children| && y < |t|
    ensures UnderChild(t, parent, d, i, y) <==>
            Under(t, parent, t[d].children[i], y) || UnderChild(t, parent, d, i + 1, y)
    ensures !(Under(t, parent, t[d].children[i], y) && UnderChild(t, parent, d, i + 1, y))
  {
    hide Under;
    if Under(t, parent, t[d].children[i], y) && UnderChild(t, parent, d, i + 1, y) {
      var j :| i + 1 <= j < |t[d].children| && Under(t, parent, t[d].children[j], y);
      OneBranch(t, parent, d, i, j, y);
    }
  }

  lemma DescendantsAre(t: seq<Node>, parent: seq<nat>, d: nat, i: nat)
    requires Linked(t, parent) && d < |t| && i < |t[d].children|
    ensures t[d].children[i] < |t|
    ensures Descendants(t, parent, d, i) == Family(t, parent, t[d].children[i]) + Descendants(t, parent, d, i + 1)
    ensures Family(t, parent, t[d].children[i]) !! Descendants(t, parent, d, i + 1)
  {
    var c := t[d].children[i];
    hide Under, UnderChild;
    forall y: nat | y < |t|
      ensures UnderChild(t, parent, d, i, y) <==> Under(t, parent, c, y) || UnderChild(t, parent, d, i + 1, y)
      ensures !(Under(t, parent, c, y) && UnderChild(t, parent, d, i + 1, y))
    {
      ChildSplits(t, parent, d, i, y);
    }
  }

  lemma NoDescendants(t: seq<Node>, parent: seq<nat>, d: nat)
    requires Linked(t, parent) && d < |t|
    ensures Descendants(t, parent, d, |t[d].children|) == {}
  {
  }

  /** The recursive count is the number of nodes there are. */
  lemma {:induction false} CountIs(t: seq<Node>, parent: seq<nat>, d: nat, i: nat)
    requires Linked(t, parent) && d < |t| && i <= |t[d].children|
    ensures CountFrom(t, parent, d, i) == |Descendants(t, parent, d, i)|
    decreases |t| - d, |t[d].children| - i
  {
    hide Descendants, Family;
    if i == |t[d].children| {
      NoDescendants(t, parent, d);
    } else {
      var c := t[d].children[i];
      DescendantsAre(t, parent, d, i);
      CountIs(t, parent, c, 0);
      CountIs(t, parent, d, i + 1);
      FamilyIs(t, parent, c);
    }
  }

  lemma {:induction false} RangeSize(s: set<nat>, n: nat)
    requires forall y: nat {:trigger y in s} :: y in s <==> y < n
    ensures |s| == n
  {
    if n == 0 {
      assert s == {};
    } else {
      RangeSize(s - {n - 1}, n - 1);
    }
  }

  lemma CountIsAll(t: seq<Node>, parent: seq<nat>)
    requires Linked(t, parent)
    ensures 1 + CountFrom(t, parent, 0, 0) == |t|
  {
    hide Descendants, CountFrom;
    CountIs(t, parent, 0, 0);
    FamilyIs(t, parent, 0);
    forall y: nat | y < |t|
      ensures Under(t, parent, 0, y)
    {
      AllUnderRoot(t, parent, y);
    }
    RangeSize(Family(t, parent, 0), |t|);
  }

  // ---------- how deep ----------

  /** How many steps below the root a node is. */
  ghost function Depth(t: seq<Node>, parent: seq<nat>, y: nat): (n: nat)
    requires Linked(t, parent) && y < |t|
    decreases y
  {
    if y == 0 then 0 else 1 + Depth(t, parent, parent[y])
  }

  /** No directory of these lies deeper than that. */
  ghost predicate NoDeeper(t: seq<Node>, parent: seq<nat>, s: set<nat>, m: nat)
    requires Linked(t, parent)
  {
    forall y {:trigger y in s} :: y in s && y < |t| && t[y].isDir ==> Depth(t, parent, y) <= m
  }

  /** The recursive level count is the depth of the deepest directory. */
  lemma {:induction false} LevelsAre(t: seq<Node>, parent: seq<nat>, d: nat, i: nat, m: nat)
    requires Linked(t, parent) && d < |t| && i <= |t[d].children|
    ensures LevelsFrom(t, parent, d, i) <= m <==>
            NoDeeper(t, parent, Descendants(t, parent, d, i), Depth(t, parent, d) + m)
    decreases |t| - d, |t[d].children| - i
  {
    hide Descendants, Family;
    if i == |t[d].children| {
      NoDescendants(t, parent, d);
    } else {
      var c := t[d].children[i];
      DescendantsAre(t, parent, d, i);
      FamilyIs(t, parent, c);
      LevelsAre(t, parent, d, i + 1, m);
      if t[c].isDir && m > 0 { LevelsAre(t, parent, c, 0, m - 1); }
      if !t[c].isDir { NoDescendants(t, parent, c); }
      assert Depth(t, parent, c) == Depth(t, parent, d) + 1;
      assert c in {c};
    }
  }

  /** A tree is within the reader's limits when it has no more nodes than that, and no directory is deeper. */
  lemma LimitsAre(t: seq<Node>, parent: seq<nat>)
    requires Linked(t, parent)
    ensures WithinLimits(t, parent)
       <==> |t| <= MAX_TREE_NODES &&
            forall y {:trigger t[y]} :: 0 <= y < |t| && t[y].isDir ==> Depth(t, parent, y) < MAX_TREE_DEPTH
  {
    hide LevelsFrom, CountFrom, Descendants;
    CountIsAll(t, parent);
    LevelsAre(t, parent, 0, 0, MAX_TREE_DEPTH - 1);
    FamilyIs(t, parent, 0);
    assert Depth(t, parent, 0) == 0;
    if NoDeeper(t, parent, Descendants(t, parent, 0, 0), MAX_TREE_DEPTH - 1) {
      forall y | 0 <= y < |t| && t[y].isDir
        ensures Depth(t, parent, y) < MAX_TREE_DEPTH
      {
        AllUnderRoot(t, parent, y);
        assert y in Family(t, parent, 0);
      }
    }
  }

  // ---------- told from the walk ----------

  /** At most 2^20 visits, and no directory's path longer than 63 names. */
  ghost predicate Shallow(vs: seq<Visit>)
  {
    |vs| <= MAX_TREE_NODES &&
      forall i {:trigger vs[i]} :: 0 <= i < |vs| && vs[i].kind == Directory ==> |vs[i].path| < MAX_TREE_DEPTH
  }

  lemma {:induction false} DepthIsLength(t: seq<Node>, parent: seq<nat>, vs: seq<Visit>, sds: seq<seq<byte>>,
                                         hash: Hasher, y: nat)
    requires Walk(vs) && Grown(t, parent, vs, sds, hash) && Linked(t, parent) && y < |t|
    ensures Depth(t, parent, y) == |vs[y].path| && t[y].isDir == (vs[y].kind == Directory)
    decreases y
  {
    hide Linked, Recordable;
    assert NodeOf(t[y], vs[y], sds, hash) && InParent(t, parent, vs, y);
    assert vs[y] == vs[y];
    if y > 0 { DepthIsLength(t, parent, vs, sds, hash, parent[y]); }
  }

  /** What is captured of a walk can be read back exactly when the walk is shallow. */
  lemma ShallowIsWithin(t: seq<Node>, parent: seq<nat>, vs: seq<Visit>, sds: seq<seq<byte>>, hash: Hasher)
    requires Walk(vs) && Grown(t, parent, vs, sds, hash) && Linked(t, parent) && |t| == |vs|
    ensures WithinLimits(t, parent) <==> Shallow(vs)
  {
    hide Walk, Grown, Linked, WithinLimits;
    LimitsAre(t, parent);
    forall y: nat | y < |t|
      ensures Depth(t, parent, y) == |vs[y].path| && t[y].isDir == (vs[y].kind == Directory)
    {
      DepthIsLength(t, parent, vs, sds, hash, y);
    }
    assert Shallow(vs) ==> forall y {:trigger t[y]} :: 0 <= y < |t| && t[y].isDir ==> vs[y].kind == Directory;
  }
}
