/** Giving every record its place, breadth first: records and terminators do not overlap, and leave no gaps. */
module Placement {
  import opened Bits
  import opened ResourceFormat
  import opened Records
  import opened Layout

  predicate Apart(a: nat, la: nat, b: nat, lb: nat)
  {
    a + la <= b || b + lb <= a
  }

  ghost predicate NodePlaced(t: seq<Node>, off: seq<nat>, base: nat, pos: nat, x: nat)
    requires |off| == |t| && x < |t|
  {
    base <= off[x] && off[x] + Len(t[x]) <= pos
  }

  ghost predicate NodesApart(t: seq<Node>, off: seq<nat>, x: nat, y: nat)
    requires |off| == |t| && x < |t| && y < |t|
  {
    x != y ==> Apart(off[x], Len(t[x]), off[y], Len(t[y]))
  }

  /** Directory d's children lie end to end from sub[d], with room for a terminator after them. */
  ghost predicate ListPlaced(t: seq<Node>, off: seq<nat>, sub: seq<nat>, base: nat, pos: nat, d: nat)
    requires |off| == |sub| == |t| && d < |t|
  {
    && ChildrenIn(t, d) && base < sub[d]
    && (forall i {:trigger t[d].children[i]} ::
          0 <= i < |t[d].children| ==> off[t[d].children[i]] == EndOf(t, t[d].children, sub[d], i))
    && ListEnd(t, d, sub[d]) + 8 <= pos
  }

  ghost predicate KidsIn(t: seq<Node>, d: nat, placed: set<nat>)
    requires d < |t|
  {
    forall c {:trigger c in t[d].children} :: c in t[d].children ==> c in placed
  }

  ghost predicate EndApart(t: seq<Node>, off: seq<nat>, sub: seq<nat>, d: nat, x: nat)
    requires |off| == |sub| == |t| && d < |t| && x < |t|
  {
    ChildrenIn(t, d) && Apart(ListEnd(t, d, sub[d]), 8, off[x], Len(t[x]))
  }

  /** The root's own list is the root and a terminator. */
  ghost predicate RootEndApart(t: seq<Node>, off: seq<nat>, x: nat)
    requires |off| == |t| > 0 && x < |t|
  {
    Apart(off[0] + Len(t[0]), 8, off[x], Len(t[x]))
  }

  /** The nodes in placed and the lists of the directories in done have their places, between base and pos. */
  ghost predicate Placed(t: seq<Node>, off: seq<nat>, sub: seq<nat>, base: nat, pos: nat, placed: set<nat>,
                         done: set<nat>)
  {
    && |off| == |sub| == |t| > 0 && 0 in placed && off[0] == base && base + Len(t[0]) + 8 <= pos
    && (forall x {:trigger x in placed} ::
          x in placed ==> x < |t| && NodePlaced(t, off, base, pos, x) && RootEndApart(t, off, x))
    && (forall x, y {:trigger NodesApart(t, off, x, y)} :: x in placed && y in placed ==> NodesApart(t, off, x, y))
    && (forall d {:trigger d in done} ::
          d in done ==> d < |t| && d in placed && ListPlaced(t, off, sub, base, pos, d) && KidsIn(t, d, placed))
    && (forall d, x {:trigger EndApart(t, off, sub, d, x)} :: d in done && x in placed ==> EndApart(t, off, sub, d, x))
  }

  // ---------- one directory ----------

  /** The first i children put end to end from start. */
  function PlaceChildren(t: seq<Node>, off: seq<nat>, ch: seq<nat>, start: nat, i: nat): (r: seq<nat>)
    requires |off| == |t| && i <= |ch| && forall j :: 0 <= j < |ch| ==> ch[j] < |t|
    ensures |r| == |t|
  {
    if i == 0 then off else PlaceChildren(t, off, ch, start, i - 1)[ch[i - 1] := EndOf(t, ch, start, i - 1)]
  }

  lemma {:induction false} PlacedAt(t: seq<Node>, off: seq<nat>, ch: seq<nat>, start: nat, i: nat, j: nat)
    requires |off| == |t| && j < i <= |ch| && Distinct(ch) && forall k :: 0 <= k < |ch| ==> ch[k] < |t|
    ensures PlaceChildren(t, off, ch, start, i)[ch[j]] == EndOf(t, ch, start, j)
  {
    if j < i - 1 { PlacedAt(t, off, ch, start, i - 1, j); }
  }

  lemma {:induction false} PlacedElse(t: seq<Node>, off: seq<nat>, ch: seq<nat>, start: nat, i: nat, y: nat)
    requires |off| == |t| && i <= |ch| && y < |t| && y !in ch && forall j :: 0 <= j < |ch| ==> ch[j] < |t|
    ensures PlaceChildren(t, off, ch, start, i)[y] == off[y]
  {
    if i > 0 { PlacedElse(t, off, ch, start, i - 1, y); }
  }

  function Members(xs: seq<nat>): (s: set<nat>)
  {
    set x | x in xs
  }

  /**
   * Where a node is after directory d's children have been given places from start on: where it was, or in the new
   * stretch.
   */
  lemma WhereIs(t: seq<Node>, off: seq<nat>, d: nat, start: nat, placed: set<nat>, y: nat)
    requires |off| == |t| && d < |t| && ChildrenIn(t, d) && Distinct(t[d].children) && y < |t|
    requires forall c :: c in t[d].children ==> c !in placed
    ensures var after := PlaceChildren(t, off, t[d].children, start, |t[d].children|);
            && (y in placed ==> after[y] == off[y])
            && (y in t[d].children ==> start <= after[y] && after[y] + Len(t[y]) <= ListEnd(t, d, start))
  {
    hide EndOf, PlaceChildren, Len;
    var ch := t[d].children;
    if y in placed { PlacedElse(t, off, ch, start, |ch|, y); }
    if y in ch {
      var j :| 0 <= j < |ch| && ch[j] == y;
      PlacedAt(t, off, ch, start, |ch|, j);
      EndOfMonotone(t, ch, start, j + 1, |ch|);
      EndOfStep(t, ch, start, j);
    }
  }

  lemma EndOfStep(t: seq<Node>, ch: seq<nat>, start: nat, j: nat)
    requires j < |ch| && forall k :: 0 <= k < |ch| ==> ch[k] < |t|
    ensures EndOf(t, ch, start, j + 1) == EndOf(t, ch, start, j) + Len(t[ch[j]]) && EndOf(t, ch, start, j) >= start
  {
  }

  /** Two children of one list do not overlap. */
  lemma SiblingsApart(t: seq<Node>, off: seq<nat>, d: nat, start: nat, x: nat, y: nat)
    requires |off| == |t| && d < |t| && ChildrenIn(t, d) && Distinct(t[d].children) && x in t[d].children &&
             y in t[d].children
    ensures NodesApart(t, PlaceChildren(t, off, t[d].children, start, |t[d].children|), x, y)
  {
    hide EndOf, PlaceChildren, Len;
    var ch := t[d].children;
    var i :| 0 <= i < |ch| && ch[i] == x;
    var j :| 0 <= j < |ch| && ch[j] == y;
    PlacedAt(t, off, ch, start, |ch|, i);
    PlacedAt(t, off, ch, start, |ch|, j);
    EndOfStep(t, ch, start, i);
    EndOfStep(t, ch, start, j);
    if i < j { EndOfMonotone(t, ch, start, i + 1, j); }
    if j < i { EndOfMonotone(t, ch, start, j + 1, i); }
  }

  /** Placing one more directory's list keeps all that was placed, and nothing overlaps the new stretch. */
  lemma PlaceList(t: seq<Node>, off: seq<nat>, sub: seq<nat>, base: nat, pos: nat, placed: set<nat>, done: set<nat>,
                  d: nat)
    requires Placed(t, off, sub, base, pos, placed, done) && d in placed && d !in done && ChildrenIn(t, d) &&
             Distinct(t[d].children)
    requires forall c :: c in t[d].children ==> c !in placed
    ensures Placed(t, PlaceChildren(t, off, t[d].children, pos, |t[d].children|), sub[d := pos], base,
                   ListEnd(t, d, pos) + 8,
                   placed + Members(t[d].children), done + {d})
  {
    hide PlaceChildren, EndOf, ListEnd, Len, Distinct, Apart;
    var ch := t[d].children;
    var off', sub', pos' := PlaceChildren(t, off, ch, pos, |ch|), sub[d := pos], ListEnd(t, d, pos) + 8;
    var placed', done' := placed + Members(ch), done + {d};
    ListEndAfter(t, d, pos);
    WhereIs(t, off, d, pos, placed, 0);
    forall x | x in placed'
      ensures x < |t| && NodePlaced(t, off', base, pos', x) && RootEndApart(t, off', x)
    {
      WhereIs(t, off, d, pos, placed, x);
      NewApart(off[0] + Len(t[0]), 8, off'[x], Len(t[x]), pos);
    }
    forall x, y | x in placed' && y in placed'
      ensures NodesApart(t, off', x, y)
    {
      WhereIs(t, off, d, pos, placed, x);
      WhereIs(t, off, d, pos, placed, y);
      if x in placed && y in placed {
        assert NodesApart(t, off, x, y);
      } else if x in ch && y in ch {
        SiblingsApart(t, off, d, pos, x, y);
      } else if x in placed {
        NewApart(off'[x], Len(t[x]), off'[y], Len(t[y]), pos);
      } else {
        NewApart(off'[y], Len(t[y]), off'[x], Len(t[x]), pos);
      }
    }
    forall e | e in done'
      ensures e < |t| && e in placed' && ListPlaced(t, off', sub', base, pos', e) && KidsIn(t, e, placed')
    {
      ListKept(t, off, sub, base, pos, placed, done, d, e);
    }
    forall e, x | e in done' && x in placed'
      ensures EndApart(t, off', sub', e, x)
    {
      WhereIs(t, off, d, pos, placed, x);
      if e == d {
        EndsAfter(t, off, d, pos, placed, pos, x);
      } else if x in placed {
        assert EndApart(t, off, sub, e, x);
      } else {
        NewApart(ListEnd(t, e, sub[e]), 8, off'[x], Len(t[x]), pos);
      }
    }
  }

  lemma ListEndAfter(t: seq<Node>, d: nat, start: nat)
    requires d < |t| && ChildrenIn(t, d)
    ensures ListEnd(t, d, start) >= start
  {
  }

  /** What ends by pos lies apart from what begins there or later. */
  lemma NewApart(a: nat, la: nat, b: nat, lb: nat, pos: nat)
    requires a + la <= pos
    ensures b >= pos ==> Apart(a, la, b, lb) && Apart(b, lb, a, la)
  {
  }

  lemma EndsAfter(t: seq<Node>, off: seq<nat>, d: nat, pos: nat, placed: set<nat>, limit: nat, x: nat)
    requires |off| == |t| && d < |t| && ChildrenIn(t, d) && Distinct(t[d].children) && x < |t|
    requires forall c :: c in t[d].children ==> c !in placed
    requires (x in placed && off[x] + Len(t[x]) <= pos) || x in t[d].children
    ensures Apart(ListEnd(t, d, pos), 8, PlaceChildren(t, off, t[d].children, pos, |t[d].children|)[x], Len(t[x]))
  {
    hide PlaceChildren, EndOf, ListEnd, Len;
    WhereIs(t, off, d, pos, placed, x);
    ListEndAfter(t, d, pos);
  }

  lemma ListKept(t: seq<Node>, off: seq<nat>, sub: seq<nat>, base: nat, pos: nat, placed: set<nat>, done: set<nat>,
                 d: nat, e: nat)
    requires Placed(t, off, sub, base, pos, placed, done) && d in placed && d !in done && ChildrenIn(t, d) &&
             Distinct(t[d].children)
    requires (forall c :: c in t[d].children ==> c !in placed) && e in done + {d}
    ensures e < |t| && e in placed && KidsIn(t, e, placed + Members(t[d].children))
    ensures ListPlaced(t, PlaceChildren(t, off, t[d].children, pos, |t[d].children|), sub[d := pos], base,
                       ListEnd(t, d, pos) + 8, e)
  {
    hide PlaceChildren, EndOf, ListEnd, Len, NodesApart, EndApart, RootEndApart;
    var ch := t[d].children;
    var off', sub' := PlaceChildren(t, off, ch, pos, |ch|), sub[d := pos];
    ListEndAfter(t, d, pos);
    if e == d {
      forall i | 0 <= i < |ch|
        ensures off'[ch[i]] == EndOf(t, ch, pos, i)
      {
        PlacedAt(t, off, ch, pos, |ch|, i);
      }
    } else {
      assert e in done && ListPlaced(t, off, sub, base, pos, e) && KidsIn(t, e, placed);
      forall i | 0 <= i < |t[e].children|
        ensures off'[t[e].children[i]] == off[t[e].children[i]]
      {
        assert t[e].children[i] in t[e].children;
        PlacedElse(t, off, ch, pos, |ch|, t[e].children[i]);
      }
    }
  }

  // ---------- no gaps ----------

  /** The terminators of two lists do not overlap. */
  ghost predicate EndsApart(t: seq<Node>, sub: seq<nat>, d: nat, e: nat)
    requires |sub| == |t| && d < |t| && e < |t|
  {
    ChildrenIn(t, d) && ChildrenIn(t, e) && (d != e ==> Apart(ListEnd(t, d, sub[d]), 8, ListEnd(t, e, sub[e]), 8))
  }

  /** Nor does one with the root's. */
  ghost predicate RootsApart(t: seq<Node>, off: seq<nat>, sub: seq<nat>, d: nat)
    requires |off| == |sub| == |t| > 0 && d < |t|
  {
    ChildrenIn(t, d) && Apart(off[0] + Len(t[0]), 8, ListEnd(t, d, sub[d]), 8)
  }

  ghost predicate InRecord(t: seq<Node>, off: seq<nat>, p: nat, x: nat)
    requires |off| == |t|
  {
    x < |t| && off[x] <= p < off[x] + Len(t[x])
  }

  ghost predicate InEnd(t: seq<Node>, sub: seq<nat>, p: nat, d: nat)
    requires |sub| == |t|
  {
    d < |t| && ChildrenIn(t, d) && ListEnd(t, d, sub[d]) <= p < ListEnd(t, d, sub[d]) + 8
  }

  /** Byte p belongs to a record, to a list's terminator or to the root's. */
  ghost predicate Taken(t: seq<Node>, off: seq<nat>, sub: seq<nat>, placed: set<nat>, done: set<nat>, p: nat)
    requires |off| == |sub| == |t| > 0
  {
    || (exists x {:trigger InRecord(t, off, p, x)} :: x in placed && InRecord(t, off, p, x))
    || (exists d {:trigger InEnd(t, sub, p, d)} :: d in done && InEnd(t, sub, p, d))
    || off[0] + Len(t[0]) <= p < off[0] + Len(t[0]) + 8
  }

  /** No two terminators overlap, and between base and pos there is not a byte to spare. */
  ghost predicate Filled(t: seq<Node>, off: seq<nat>, sub: seq<nat>, base: nat, pos: nat, placed: set<nat>,
                         done: set<nat>)
  {
    && |off| == |sub| == |t| > 0
    && (forall d {:trigger d in done} :: d in done ==> d < |t| && RootsApart(t, off, sub, d))
    && (forall d, e {:trigger EndsApart(t, sub, d, e)} :: d in done && e in done ==> EndsApart(t, sub, d, e))
    && (forall p {:trigger Taken(t, off, sub, placed, done, p)} ::
          base <= p < pos ==> Taken(t, off, sub, placed, done, p))
  }

  /** A byte of a list belongs to one of its records. */
  lemma {:induction false} ChildAt(t: seq<Node>, ch: seq<nat>, start: nat, n: nat, p: nat) returns (i: nat)
    requires n <= |ch| && (forall k :: 0 <= k < |ch| ==> ch[k] < |t|) && start <= p < EndOf(t, ch, start, n)
    ensures i < n && EndOf(t, ch, start, i) <= p < EndOf(t, ch, start, i) + Len(t[ch[i]])
  {
    hide Len;
    if p < EndOf(t, ch, start, n - 1) {
      i := ChildAt(t, ch, start, n - 1, p);
    } else {
      i := n - 1;
    }
  }

  /** What was taken stays taken. */
  lemma StillTaken(t: seq<Node>, off: seq<nat>, sub: seq<nat>, placed: set<nat>, done: set<nat>, d: nat, pos: nat,
                   p: nat)
    requires |off| == |sub| == |t| > 0 && Taken(t, off, sub, placed, done, p) && 0 in placed
    requires d < |t| && d !in done && ChildrenIn(t, d) && Distinct(t[d].children) &&
             forall c :: c in t[d].children ==> c !in placed
    ensures Taken(t, PlaceChildren(t, off, t[d].children, pos, |t[d].children|), sub[d := pos],
                  placed + Members(t[d].children), done + {d}, p)
  {
    hide PlaceChildren, EndOf, ListEnd, Len, Distinct;
    var off', sub' := PlaceChildren(t, off, t[d].children, pos, |t[d].children|), sub[d := pos];
    WhereIs(t, off, d, pos, placed, 0);
    if x :| x in placed && InRecord(t, off, p, x) {
      WhereIs(t, off, d, pos, placed, x);
      assert InRecord(t, off', p, x);
    } else if e :| e in done && InEnd(t, sub, p, e) {
      assert InEnd(t, sub', p, e);
    }
  }

  /** The new stretch is taken up by the children's records and their terminator. */
  lemma NewTaken(t: seq<Node>, off: seq<nat>, sub: seq<nat>, placed: set<nat>, done: set<nat>, d: nat, pos: nat, p: nat)
    requires |off| == |sub| == |t| > 0 && d < |t| && ChildrenIn(t, d) && Distinct(t[d].children) &&
             pos <= p < ListEnd(t, d, pos) + 8
    ensures Taken(t, PlaceChildren(t, off, t[d].children, pos, |t[d].children|), sub[d := pos],
                  placed + Members(t[d].children), done + {d}, p)
  {
    hide PlaceChildren, EndOf, Len, Distinct;
    var ch := t[d].children;
    if p < ListEnd(t, d, pos) {
      var i := ChildAt(t, ch, pos, |ch|, p);
      PlacedAt(t, off, ch, pos, |ch|, i);
      assert InRecord(t, PlaceChildren(t, off, ch, pos, |ch|), p, ch[i]) && ch[i] in ch;
    } else {
      assert InEnd(t, sub[d := pos], p, d);
    }
  }

  /** The new terminator is beyond the others. */
  lemma NewEndApart(t: seq<Node>, off: seq<nat>, sub: seq<nat>, base: nat, pos: nat, placed: set<nat>, done: set<nat>,
                    d: nat, e: nat)
    requires Placed(t, off, sub, base, pos, placed, done) && d < |t| && d !in done && ChildrenIn(t, d) && e in done
    ensures e < |t| && EndsApart(t, sub[d := pos], d, e) && EndsApart(t, sub[d := pos], e, d)
  {
    hide EndOf, ListEnd, Len, NodesApart, EndApart, RootEndApart, NodePlaced, KidsIn;
    assert ListPlaced(t, off, sub, base, pos, e);
    ListEndAfter(t, d, pos);
  }

  lemma NewRootApart(t: seq<Node>, off: seq<nat>, sub: seq<nat>, d: nat, pos: nat)
    requires |off| == |sub| == |t| > 0 && d < |t| && ChildrenIn(t, d) && off[0] + Len(t[0]) + 8 <= pos
    ensures RootsApart(t, off, sub[d := pos], d)
  {
    hide EndOf, ListEnd, Len;
    ListEndAfter(t, d, pos);
  }

  /** Placing one more directory's list leaves no gap, and its terminator to itself. */
  lemma FillList(t: seq<Node>, off: seq<nat>, sub: seq<nat>, base: nat, pos: nat, placed: set<nat>, done: set<nat>,
                 d: nat)
    requires Placed(t, off, sub, base, pos, placed, done) && Filled(t, off, sub, base, pos, placed, done)
    requires d in placed && d !in done && ChildrenIn(t, d) && Distinct(t[d].children) &&
             forall c :: c in t[d].children ==> c !in placed
    ensures Filled(t, PlaceChildren(t, off, t[d].children, pos, |t[d].children|), sub[d := pos], base,
                   ListEnd(t, d, pos) + 8,
                   placed + Members(t[d].children), done + {d})
  {
    hide PlaceChildren, EndOf, ListEnd, Len, Distinct, Apart, Taken, NodesApart, EndApart, RootEndApart, NodePlaced,
      KidsIn, ListPlaced;
    var off', sub', pos' := PlaceChildren(t, off, t[d].children, pos, |t[d].children|), sub[d := pos],
      ListEnd(t, d, pos) + 8;
    var placed', done' := placed + Members(t[d].children), done + {d};
    WhereIs(t, off, d, pos, placed, 0);
    forall e | e in done'
      ensures e < |t| && RootsApart(t, off', sub', e)
    {
      if e == d {
        NewRootApart(t, off', sub, d, pos);
      } else {
        assert RootsApart(t, off, sub, e);
      }
    }
    forall e, f | e in done' && f in done'
      ensures EndsApart(t, sub', e, f)
    {
      if e != d && f != d {
        assert EndsApart(t, sub, e, f);
      } else if e != d {
        NewEndApart(t, off, sub, base, pos, placed, done, d, e);
      } else if f != d {
        NewEndApart(t, off, sub, base, pos, placed, done, d, f);
      }
    }
    forall p | base <= p < pos'
      ensures Taken(t, off', sub', placed', done', p)
    {
      if p < pos {
        StillTaken(t, off, sub, placed, done, d, pos, p);
      } else {
        NewTaken(t, off, sub, placed, done, d, pos, p);
      }
    }
  }
}
