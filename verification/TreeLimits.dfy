/** Where the writer and the reader part: the writer takes trees deeper than the reader does. */
module TreeLimits {
  import opened Bits
  import opened Names
  import opened Dentries
  import opened Records
  import opened Layout
  import opened TreeRoundTrip

  /** Directory i of n, each of which holds just the next. */
  function Link(i: nat, n: nat): Node
  {
    Node(if i == 0 then [] else [97], true, ATTR_DIRECTORY, 0, NO_HASH, 0, if i + 1 < n then [i + 1] else [])
  }

  /** n directories one inside the other. */
  function Chain(n: nat): (t: seq<Node>)
    ensures |t| == n && forall i {:trigger t[i]} :: 0 <= i < n ==> t[i] == Link(i, n)
  {
    seq(n, i requires 0 <= i => Link(i, n))
  }

  function ChainParents(n: nat): (p: seq<nat>)
    ensures |p| == n && forall i {:trigger p[i]} :: 0 < i < n ==> p[i] == i - 1
  {
    seq(n, i requires 0 <= i => if i == 0 then 0 else i - 1)
  }

  lemma ChainIsCapturable(n: nat)
    requires n > 0
    ensures Capturable(Chain(n), ChainParents(n))
  {
    hide Chain, ChainParents, Encode, NO_HASH;
    var t, p := Chain(n), ChainParents(n);
    forall x | 0 <= x < |t|
      ensures Recordable(t[x]) && (x > 0 ==> Named(t[x], false)) && Distinct(t[x].children) && SiblingsDiffer(t, x)
    {
      ShortName(97);
      LinkRecordable(x, n);
    }
    forall x, i | 0 <= x < |t| && 0 <= i < |t[x].children|
      ensures x < t[x].children[i] < |t| && p[t[x].children[i]] == x
    {
    }
    forall y | 0 < y < |t|
      ensures p[y] < y && y in t[p[y]].children
    {
      assert t[y - 1] == Link(y - 1, n);
      assert t[y - 1].children == [y];
    }
  }

  lemma ShortName(r: Rune)
    requires r < 0x1_0000
    ensures |Encode([r])| == 1 && |Encode([])| == 0
  {
    assert [r][1..] == [];
  }

  lemma LinkRecordable(i: nat, n: nat)
    ensures Recordable(Link(i, n))
  {
    ShortName(97);
  }

  lemma {:induction false} ChainMeasures(n: nat, d: nat)
    requires d < n && Linked(Chain(n), ChainParents(n))
    ensures LevelsFrom(Chain(n), ChainParents(n), d, 0) == n - 1 - d &&
            CountFrom(Chain(n), ChainParents(n), d, 0) == n - 1 - d
    decreases n - d
  {
    hide Linked;
    var t, p := Chain(n), ChainParents(n);
    assert t[d] == Link(d, n);
    if d + 1 < n {
      ChainMeasures(n, d + 1);
      assert t[d + 1] == Link(d + 1, n);
      assert LevelsFrom(t, p, d, 1) == 0 && CountFrom(t, p, d, 1) == 0;
    }
  }

  /** Up to 64 nested directories, the root among them, can be read back; from 65 on they cannot. */
  lemma ChainWithinLimits(n: nat)
    requires n > 0
    ensures Capturable(Chain(n), ChainParents(n))
    ensures WithinLimits(Chain(n), ChainParents(n)) <==> n <= 64
  {
    hide Capturable;
    ChainIsCapturable(n);
    CapturableLinked(n);
    ChainMeasures(n, 0);
  }

  lemma CapturableLinked(n: nat)
    requires Capturable(Chain(n), ChainParents(n))
    ensures Linked(Chain(n), ChainParents(n))
  {
  }
}
