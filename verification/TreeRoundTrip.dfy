/**
 * A tree laid out as the writer lays it is read back, provided it is not too deep or too big; otherwise it is
 * refused.
 */
module TreeRoundTrip {
  import opened Bits
  import opened Canonical
  import opened LittleEndian
  import opened ResourceFormat
  import opened Names
  import opened Dentries
  import opened DentryBounds
  import opened Records
  import opened Layout

  // ---------- the captured tree's measures ----------

  /** How many nodes there are below directory d, from its child number i on. */
  ghost function CountFrom(t: seq<Node>, parent: seq<nat>, d: nat, i: nat): (n: nat)
    requires Linked(t, parent) && d < |t| && i <= |t[d].children|
    decreases |t| - d, |t[d].children| - i
  {
    if i == |t[d].children| then 0
    else
      var c := t[d].children[i];
      1 + (if t[c].isDir then CountFrom(t, parent, c, 0) else 0) + CountFrom(t, parent, d, i + 1)
  }

  /** How many lists are nested below directory d's own, from its child number i on. */
  ghost function LevelsFrom(t: seq<Node>, parent: seq<nat>, d: nat, i: nat): (n: nat)
    requires Linked(t, parent) && d < |t| && i <= |t[d].children|
    decreases |t| - d, |t[d].children| - i
  {
    if i == |t[d].children| then 0
    else
      var c := t[d].children[i];
      var first := if t[c].isDir then 1 + LevelsFrom(t, parent, c, 0) else 0;
      var rest := LevelsFrom(t, parent, d, i + 1);
      if first > rest then first else rest
  }

  /** What the children of directory d, from number i on, are read as, in the order they lie. */
  ghost function BuiltFrom(t: seq<Node>, parent: seq<nat>, streams: Streams, d: nat, i: nat): (ds: seq<Dentry>)
    requires Linked(t, parent) && d < |t| && i <= |t[d].children|
    ensures |ds| == |t[d].children| - i
    decreases |t| - d, |t[d].children| - i
  {
    if i == |t[d].children| then []
    else
      var c := t[d].children[i];
      [BuiltNode(t, parent, streams, c)] + BuiltFrom(t, parent, streams, d, i + 1)
  }

  /** What node x is read as: its own record, with its children sorted by name. */
  ghost function BuiltNode(t: seq<Node>, parent: seq<nat>, streams: Streams, x: nat): (e: Dentry)
    requires Linked(t, parent) && x < |t|
    ensures e.name == t[x].name
    decreases |t| - x, |t[x].children| + 1
  {
    var e := EntryOf(t[x], streams);
    if t[x].isDir then e.(children := Sort(BuiltFrom(t, parent, streams, x, 0))) else e
  }

  // ---------- names among siblings ----------

  predicate DifferentNames(ds: seq<Dentry>)
  {
    forall i, j {:trigger ds[i], ds[j]} :: 0 <= i < j < |ds| ==> ds[i].name != ds[j].name
  }

  /** The children of a directory have different names. */
  ghost predicate SiblingsDiffer(t: seq<Node>, d: nat)
    requires d < |t|
  {
    forall i, j {:trigger t[d].children[i], t[d].children[j]} ::
      0 <= i < j < |t[d].children| && t[d].children[i] < |t| && t[d].children[j] < |t| ==>
      t[t[d].children[i]].name != t[t[d].children[j]].name
  }

  lemma {:induction false} BuiltName(t: seq<Node>, parent: seq<nat>, streams: Streams, d: nat, i: nat, k: nat)
    requires Linked(t, parent) && d < |t| && i <= k < |t[d].children|
    ensures BuiltFrom(t, parent, streams, d, i)[k - i].name == t[t[d].children[k]].name
    decreases k - i
  {
    if i < k { BuiltName(t, parent, streams, d, i + 1, k); }
  }

  lemma BuiltDiffer(t: seq<Node>, parent: seq<nat>, streams: Streams, d: nat)
    requires Linked(t, parent) && d < |t| && SiblingsDiffer(t, d)
    ensures DifferentNames(BuiltFrom(t, parent, streams, d, 0))
  {
    var ds := BuiltFrom(t, parent, streams, d, 0);
    forall i, j | 0 <= i < j < |ds|
      ensures ds[i].name != ds[j].name
    {
      BuiltName(t, parent, streams, d, 0, i);
      BuiltName(t, parent, streams, d, 0, j);
    }
  }

  lemma {:induction false} InsertApart(d: Dentry, ds: seq<Dentry>)
    requires Ascending(ds) && forall e {:trigger e in ds} :: e in ds ==> e.name != d.name
    ensures Ascending(Insert(d, ds))
  {
    hide Less, Size, Nested, Ordered, WeaklyAscending;
    if ds != [] && !Less(d.name, ds[0].name) {
      var rest := Insert(d, ds[1..]);
      assert ds[0] in ds && forall e {:trigger e in ds[1..]} :: e in ds[1..] ==> e in ds;
      InsertApart(d, ds[1..]);
      InsertKeeps(d, ds[1..]);
      LessTotal(d.name, ds[0].name);
      forall j | 0 <= j < |rest|
        ensures Less(ds[0].name, rest[j].name)
      {
        InsertedIs(d, ds[1..], rest[j]);
      }
    } else if ds != [] {
      forall j | 0 <= j < |ds|
        ensures Less(d.name, ds[j].name)
      {
        if j > 0 { LessTransitive(d.name, ds[0].name, ds[j].name); }
      }
    }
  }

  lemma InsertedIs(d: Dentry, ds: seq<Dentry>, x: Dentry)
    requires x in Insert(d, ds)
    ensures x == d || x in ds
  {
    hide Size, Nested, Ordered, Insert;
    InsertKeeps(d, ds);
    assert x in multiset(Insert(d, ds));
  }

  /** Sorting entries of different names leaves no twins. */
  lemma {:induction false} SortsApart(ds: seq<Dentry>)
    requires DifferentNames(ds)
    ensures Ascending(Sort(ds)) && NoTwins(Sort(ds))
  {
    if ds != [] {
      var front, d := ds[..|ds| - 1], ds[|ds| - 1];
      SortsApart(front);
      SortKeeps(front);
      forall e | e in Sort(front)
        ensures e.name != d.name
      {
        assert e in multiset(Sort(front));
      }
      InsertApart(d, Sort(front));
    }
    AscendingIsApart(Sort(ds));
  }

  lemma AscendingIsApart(ds: seq<Dentry>)
    requires Ascending(ds)
    ensures NoTwins(ds)
  {
    forall i | 0 < i < |ds|
      ensures ds[i].name != ds[i - 1].name
    {
      LessTotal(ds[i - 1].name, ds[i].name);
    }
  }

  // ---------- reading a list ----------

  /**
   * A tree that can be captured: linked up, with recordable nodes, path components for names, and no two siblings
   * alike.
   */
  ghost predicate Capturable(t: seq<Node>, parent: seq<nat>)
  {
    && Linked(t, parent) && AllRecordable(t)
    && Named(t[0], true) && (forall x {:trigger Named(t[x], false)} :: 0 < x < |t| ==> Named(t[x], false))
    && (forall d: nat {:trigger SiblingsDiffer(t, d)} :: d < |t| ==> SiblingsDiffer(t, d))
  }

  /** Everything a read of directory d's list, from child number i on, needs. */
  ghost predicate ReadyToRead(md: seq<byte>, t: seq<Node>, parent: seq<nat>, off: seq<nat>, sub: seq<nat>)
  {
    Capturable(t, parent) && Laid(md, t, off, sub) && |md| < WORD &&
      forall x {:trigger sub[x]} :: 0 <= x < |t| ==> sub[x] < WORD
  }

  /** Reading on from child number i gives the rest of the list, or is refused where the tree is too deep or too big. */
  ghost predicate ReadsFrom(md: seq<byte>, t: seq<Node>, parent: seq<nat>, streams: Streams, d: nat, i: nat, p: nat,
                            depth: nat,
                            out: seq<Dentry>, nodes: nat)
    requires Linked(t, parent) && d < |t| && i <= |t[d].children| && |md| < WORD && nodes <= MAX_TREE_NODES
  {
    ReadList(md, p, depth, false, streams, out, nodes)
    == if depth + LevelsFrom(t, parent, d, i) <= MAX_TREE_DEPTH &&
       nodes + CountFrom(t, parent, d, i) <= MAX_TREE_NODES then
         Some(Listed(Sort(out + BuiltFrom(t, parent, streams, d, i)), nodes + CountFrom(t, parent, d, i)))
       else None
  }

  lemma {:induction false} ListReads(md: seq<byte>, t: seq<Node>, parent: seq<nat>, off: seq<nat>, sub: seq<nat>,
                                     streams: Streams,
                                     d: nat, i: nat, depth: nat, out: seq<Dentry>, nodes: nat)
    requires ReadyToRead(md, t, parent, off, sub) && d < |t| && t[d].isDir && i <= |t[d].children|
    requires nodes <= MAX_TREE_NODES && DifferentNames(out + BuiltFrom(t, parent, streams, d, i))
    ensures ChildrenIn(t, d) &&
            ReadsFrom(md, t, parent, streams, d, i, EndOf(t, t[d].children, sub[d], i), depth, out, nodes)
    decreases |t| - d, |t[d].children| - i
  {
    hide Less, Sort, NoTwins, DifferentNames, ReadEntry, EntryOf, Linked, RecordLaid, Field, ReadList, BuiltFrom,
      BuiltNode, EndOf, EightZeros, AllRecordable, SiblingsDiffer;
    assert ListLaid(md, t, off, sub, d);
    var p := EndOf(t, t[d].children, sub[d], i);
    if depth > MAX_TREE_DEPTH {
      TooDeep(md, p, depth, streams, out, nodes);
    } else if i == |t[d].children| {
      ListStops(md, t, parent, streams, d, p, depth, out, nodes);
    } else {
      var c := t[d].children[i];
      ChildReads(md, t, parent, off, sub, streams, d, i);
      if nodes == MAX_TREE_NODES {
        TooMany(md, p, depth, streams, out, nodes);
      } else {
        var built := BuiltNode(t, parent, streams, c);
        BuiltMore(t, parent, streams, d, i, out);
        var e := Entry(EntryOf(t[c], streams), sub[c], p + Len(t[c]));
        if t[c].isDir {
          BuiltDiffer(t, parent, streams, c);
          Nothing(BuiltFrom(t, parent, streams, c, 0));
          ListReads(md, t, parent, off, sub, streams, c, 0, depth + 1, [], nodes + 1);
          DirectoryStep(md, p, depth, streams, out, nodes, e);
          if depth + 1 + LevelsFrom(t, parent, c, 0) <= MAX_TREE_DEPTH &&
            nodes + 1 + CountFrom(t, parent, c, 0) <= MAX_TREE_NODES {
            BuiltDirectory(t, parent, streams, c);
            ListReads(md, t, parent, off, sub, streams, d, i + 1, depth, out + [built],
                      nodes + 1 + CountFrom(t, parent, c, 0));
          }
        } else {
          FileStep(md, p, depth, streams, out, nodes, e);
          BuiltFile(t, parent, streams, c);
          ListReads(md, t, parent, off, sub, streams, d, i + 1, depth, out + [built], nodes + 1);
        }
      }
    }
  }

  // the steps of the reader

  lemma TooDeep(md: seq<byte>, p: nat, depth: nat, streams: Streams, out: seq<Dentry>, nodes: nat)
    requires |md| < WORD && nodes <= MAX_TREE_NODES && depth > MAX_TREE_DEPTH
    ensures ReadList(md, p, depth, false, streams, out, nodes) == None
  {
  }

  lemma TooMany(md: seq<byte>, p: nat, depth: nat, streams: Streams, out: seq<Dentry>, nodes: nat)
    requires |md| < WORD && nodes == MAX_TREE_NODES && Fits(md, p, 8) && Field(md, p, 8) != 0
    ensures ReadList(md, p, depth, false, streams, out, nodes) == None
  {
  }

  lemma FileStep(md: seq<byte>, p: nat, depth: nat, streams: Streams, out: seq<Dentry>, nodes: nat, e: Entry)
    requires |md| < WORD && nodes < MAX_TREE_NODES && depth <= MAX_TREE_DEPTH && Fits(md, p, 8) && Field(md, p, 8) != 0
    requires ReadEntry(md, p, false, streams) == Some(e) && !HasList(e.d.attributes, e.subdir)
    ensures ReadList(md, p, depth, false, streams, out, nodes) ==
            ReadList(md, e.next, depth, false, streams, out + [e.d], nodes + 1)
  {
  }

  lemma DirectoryStep(md: seq<byte>, p: nat, depth: nat, streams: Streams, out: seq<Dentry>, nodes: nat, e: Entry)
    requires |md| < WORD && nodes < MAX_TREE_NODES && depth <= MAX_TREE_DEPTH && Fits(md, p, 8) && Field(md, p, 8) != 0
    requires ReadEntry(md, p, false, streams) == Some(e) && HasList(e.d.attributes, e.subdir)
    ensures ReadList(md, p, depth, false, streams, out, nodes)
         == match ReadList(md, e.subdir, depth + 1, false, streams, [], nodes + 1)
            case None => None
            case Some(sub) => ReadList(md, e.next, depth, false, streams, out + [e.d.(children := sub.list)], sub.nodes)
  {
  }

  lemma ListStops(md: seq<byte>, t: seq<Node>, parent: seq<nat>, streams: Streams, d: nat, p: nat, depth: nat,
                  out: seq<Dentry>, nodes: nat)
    requires Linked(t, parent) && d < |t| && |md| < WORD && nodes <= MAX_TREE_NODES && depth <= MAX_TREE_DEPTH &&
             EightZeros(md, p)
    requires DifferentNames(out + BuiltFrom(t, parent, streams, d, |t[d].children|))
    ensures ReadsFrom(md, t, parent, streams, d, |t[d].children|, p, depth, out, nodes)
  {
    hide Less, Sort, NoTwins, DifferentNames, Linked, Field, EightZeros;
    ZeroEnds(md, p);
    assert out + BuiltFrom(t, parent, streams, d, |t[d].children|) == out;
    SortsApart(out);
  }

  // the steps of the tree

  lemma BuiltMore(t: seq<Node>, parent: seq<nat>, streams: Streams, d: nat, i: nat, out: seq<Dentry>)
    requires Linked(t, parent) && d < |t| && i < |t[d].children|
    ensures out + BuiltFrom(t, parent, streams, d, i)
         == (out + [BuiltNode(t, parent, streams, t[d].children[i])]) + BuiltFrom(t, parent, streams, d, i + 1)
  {
    hide BuiltNode;
  }

  lemma BuiltDirectory(t: seq<Node>, parent: seq<nat>, streams: Streams, x: nat)
    requires Linked(t, parent) && x < |t| && t[x].isDir
    ensures BuiltNode(t, parent, streams, x) ==
            EntryOf(t[x], streams).(children := Sort(BuiltFrom(t, parent, streams, x, 0)))
  {
    hide Sort, EntryOf, BuiltFrom;
  }

  lemma BuiltFile(t: seq<Node>, parent: seq<nat>, streams: Streams, x: nat)
    requires Linked(t, parent) && x < |t| && !t[x].isDir
    ensures BuiltNode(t, parent, streams, x) == EntryOf(t[x], streams)
  {
    hide EntryOf;
  }

  lemma ZeroEnds(md: seq<byte>, p: nat)
    requires EightZeros(md, p)
    ensures Fits(md, p, 8) && Field(md, p, 8) == 0
  {
    ZeroIsPut(8);
    GetPut(0, 8);
  }

  lemma Nothing(ds: seq<Dentry>)
    ensures [] + ds == ds
  {
  }

  /** Child number i of directory d is found where the list puts it. */
  lemma ChildReads(md: seq<byte>, t: seq<Node>, parent: seq<nat>, off: seq<nat>, sub: seq<nat>, streams: Streams,
                   d: nat, i: nat)
    requires ReadyToRead(md, t, parent, off, sub) && d < |t| && t[d].isDir && i < |t[d].children| && ChildrenIn(t, d)
    ensures var c, p := t[d].children[i], EndOf(t, t[d].children, sub[d], i);
            && d < c < |t| && Fits(md, p, 8) && Field(md, p, 8) != 0
            && ReadEntry(md, p, false, streams) == Some(Entry(EntryOf(t[c], streams), sub[c], p + Len(t[c])))
            && HasList(EntryOf(t[c], streams).attributes, sub[c]) == t[c].isDir
            && (t[c].isDir ==> sub[c] == EndOf(t, t[c].children, sub[c], 0) && ChildrenIn(t, c) && SiblingsDiffer(t, c))
            && p + Len(t[c]) == EndOf(t, t[d].children, sub[d], i + 1)
  {
    hide Record, Field, ReadEntry, EightZeros, IsComponent, Len, Encode, HasList, EntryOf, Recordable, ReadList,
      SiblingsDiffer, Linked, ListLaid, EndOf, ChildrenIn;
    ChildIsLater(t, parent, d, i);
    var c := t[d].children[i];
    ListPlaces(md, t, off, sub, d, i);
    assert Recordable(t[c]) && Named(t[c], false);
    assert RecordLaid(md, t, off, sub, c);
    EntryRead(md, off[c], t[c], sub[c], false, streams);
    AttributesSay(t[c], sub[c], streams);
    assert SiblingsDiffer(t, c);
    if t[c].isDir { ListStarts(md, t, off, sub, c); }
  }

  lemma ListPlaces(md: seq<byte>, t: seq<Node>, off: seq<nat>, sub: seq<nat>, d: nat, i: nat)
    requires Laid(md, t, off, sub) && d < |t| && t[d].isDir && i < |t[d].children| && ChildrenIn(t, d)
    ensures var c, p := t[d].children[i], EndOf(t, t[d].children, sub[d], i);
            off[c] == p && p + Len(t[c]) == EndOf(t, t[d].children, sub[d], i + 1)
  {
    hide EightZeros, RecordLaid, Len;
    assert ListLaid(md, t, off, sub, d);
  }

  lemma ListStarts(md: seq<byte>, t: seq<Node>, off: seq<nat>, sub: seq<nat>, d: nat)
    requires Laid(md, t, off, sub) && d < |t| && t[d].isDir
    ensures ChildrenIn(t, d) && sub[d] > 0 && EndOf(t, t[d].children, sub[d], 0) == sub[d]
  {
    hide EightZeros, RecordLaid;
    assert ListLaid(md, t, off, sub, d);
  }

  lemma ChildIsLater(t: seq<Node>, parent: seq<nat>, d: nat, i: nat)
    requires Linked(t, parent) && d < |t| && i < |t[d].children|
    ensures d < t[d].children[i] < |t| && parent[t[d].children[i]] == d
  {
  }

  lemma AttributesSay(n: Node, sub: nat, streams: Streams)
    requires Recordable(n)
    ensures HasList(EntryOf(n, streams).attributes, sub) == (n.isDir && sub != 0)
    ensures EntryOf(n, streams).attributes == n.attrs && IsDirectory(n.attrs) == n.isDir
  {
  }

  // ---------- the whole tree ----------

  /** What the reader can take: at most 65 nested lists, the root's included, and at most 2^20 entries. */
  ghost predicate WithinLimits(t: seq<Node>, parent: seq<nat>)
    requires Linked(t, parent)
  {
    1 + LevelsFrom(t, parent, 0, 0) <= MAX_TREE_DEPTH && 1 + CountFrom(t, parent, 0, 0) <= MAX_TREE_NODES
  }

  lemma RootStep(md: seq<byte>, p: nat, streams: Streams, e: Entry)
    requires |md| < WORD && Fits(md, p, 8) && Field(md, p, 8) != 0 && ReadEntry(md, p, true, streams) == Some(e)
    requires HasList(e.d.attributes, e.subdir) && EightZeros(md, e.next) && IsDirectory(e.d.attributes)
    ensures ReadList(md, p, 0, true, streams, [], 0)
         == match ReadList(md, e.subdir, 1, false, streams, [], 1)
            case None => None
            case Some(sub) => Some(Listed([e.d.(children := sub.list)], sub.nodes))
  {
    hide ReadEntry, Field;
    match ReadList(md, e.subdir, 1, false, streams, [], 1)
    case None =>
    case Some(sub) =>
      ZeroEnds(md, e.next);
      var d := e.d.(children := sub.list);
      OneSorted(d);
      assert [] + [d] == [d];
      RootStops(md, e.next, streams, d, sub.nodes);
  }

  lemma OneSorted(d: Dentry)
    ensures Sort([d]) == [d] && NoTwins([d])
  {
    assert [d][..0] == [];
    assert Sort([]) == [];
  }

  lemma RootStops(md: seq<byte>, p: nat, streams: Streams, d: Dentry, nodes: nat)
    requires |md| < WORD && Fits(md, p, 8) && Field(md, p, 8) == 0 && nodes <= MAX_TREE_NODES
    ensures ReadList(md, p, 0, true, streams, [d], nodes) == Some(Listed([d], nodes))
  {
    OneSorted(d);
  }

  /**
   * The metadata of a captured tree parses to that tree exactly when the tree is within the reader's limits, and to
   * nothing otherwise.
   */
  lemma ParsesBack(md: seq<byte>, t: seq<Node>, parent: seq<nat>, off: seq<nat>, sub: seq<nat>, streams: Streams)
    requires ReadyToRead(md, t, parent, off, sub) && TreeOffset(md) == Some(off[0])
    ensures Parse(md, streams) == if WithinLimits(t, parent) then Some(BuiltNode(t, parent, streams, 0)) else None
  {
    hide ReadEntry, Field, ReadList, Record, EntryOf, HasList, Linked, RecordLaid, EndOf, Sort, TreeOffset, IsDirectory,
      Encode, Recordable, EightZeros, BuiltFrom, SiblingsDiffer, AllRecordable;
    RootPlaced(md, t, parent, off, sub, streams);
    var e := Entry(EntryOf(t[0], streams), sub[0], off[0] + Len(t[0]));
    AttributesSay(t[0], sub[0], streams);
    BuiltDiffer(t, parent, streams, 0);
    Nothing(BuiltFrom(t, parent, streams, 0, 0));
    ListStarts(md, t, off, sub, 0);
    ListReads(md, t, parent, off, sub, streams, 0, 0, 1, [], 1);
    RootStep(md, off[0], streams, e);
    BuiltDirectory(t, parent, streams, 0);
  }

  lemma RootPlaced(md: seq<byte>, t: seq<Node>, parent: seq<nat>, off: seq<nat>, sub: seq<nat>, streams: Streams)
    requires ReadyToRead(md, t, parent, off, sub)
    ensures t[0].isDir && Recordable(t[0]) && SiblingsDiffer(t, 0) && EightZeros(md, off[0] + Len(t[0]))
    ensures Fits(md, off[0], 8) && Field(md, off[0], 8) != 0
    ensures ReadEntry(md, off[0], true, streams) == Some(Entry(EntryOf(t[0], streams), sub[0], off[0] + Len(t[0])))
  {
    hide Record, Field, ReadEntry, EightZeros, Encode, EntryOf, ListLaid;
    assert Recordable(t[0]) && Named(t[0], true) && RecordLaid(md, t, off, sub, 0) && SiblingsDiffer(t, 0);
    EntryRead(md, off[0], t[0], sub[0], true, streams);
  }
}
