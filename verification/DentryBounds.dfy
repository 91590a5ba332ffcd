/**
 * Whatever bytes are parsed, cyclic and shared offsets among them, the tree that comes of it is bounded and in order.
 */
module DentryBounds {
  import opened Bits
  import opened Canonical
  import opened ResourceFormat
  import opened Names
  import opened Dentries

  /** How many entries a list holds, those below them included. */
  function Size(ds: seq<Dentry>): (n: nat)
  {
    if ds == [] then 0 else 1 + Size(ds[0].children) + Size(ds[1..])
  }

  /** How many lists are nested below a list. */
  function Nested(ds: seq<Dentry>): (n: nat)
  {
    if ds == [] then 0
    else
      var first := if ds[0].children == [] then 0 else 1 + Nested(ds[0].children);
      var rest := Nested(ds[1..]);
      if first > rest then first else rest
  }

  /** Strictly ascending by name. */
  predicate Ascending(ds: seq<Dentry>)
  {
    forall i, j {:trigger ds[i], ds[j]} :: 0 <= i < j < |ds| ==> Less(ds[i].name, ds[j].name)
  }

  predicate AllComponents(ds: seq<Dentry>)
  {
    forall d :: d in ds ==> IsComponent(d.name)
  }

  /**
   * Only directories that are no links to elsewhere have children, every list below is strictly ascending, and every
   * name in them is a path component.
   */
  predicate Ordered(ds: seq<Dentry>)
  {
    ds != [] ==>
      && (ds[0].children != [] ==> IsDirectory(ds[0].attributes) && !IsReparsePoint(ds[0].attributes))
      && Ascending(ds[0].children) && Ordered(ds[0].children) && AllComponents(ds[0].children)
      && Ordered(ds[1..])
  }

  // ---------- sorting changes none of it ----------

  predicate WeaklyAscending(ds: seq<Dentry>)
  {
    forall i, j {:trigger ds[i], ds[j]} :: 0 <= i < j < |ds| ==> !Less(ds[j].name, ds[i].name)
  }

  lemma {:induction false} InsertKeeps(d: Dentry, ds: seq<Dentry>)
    ensures Size(Insert(d, ds)) == Size([d] + ds) && Nested(Insert(d, ds)) == Nested([d] + ds)
    ensures Ordered(Insert(d, ds)) == Ordered([d] + ds)
    ensures multiset(Insert(d, ds)) == multiset([d] + ds)
  {
    hide Less, AllComponents, Ascending;
    if ds != [] && !Less(d.name, ds[0].name) {
      var rest := Insert(d, ds[1..]);
      InsertKeeps(d, ds[1..]);
      assert Insert(d, ds) == [ds[0]] + rest;
      assert ([ds[0]] + rest)[1..] == rest && ([d] + ds[1..])[1..] == ds[1..] && ([d] + ds)[1..] == ds;
      assert ds == [ds[0]] + ds[1..];
    }
  }

  lemma {:induction false} InsertSorts(d: Dentry, ds: seq<Dentry>)
    requires WeaklyAscending(ds)
    ensures WeaklyAscending(Insert(d, ds))
  {
    hide Less, Size, Nested, Ordered;
    if ds != [] && !Less(d.name, ds[0].name) {
      var rest := Insert(d, ds[1..]);
      InsertSorts(d, ds[1..]);
      InsertKeeps(d, ds[1..]);
      forall j | 0 <= j < |rest|
        ensures !Less(rest[j].name, ds[0].name)
      {
        assert rest[j] in multiset([d] + ds[1..]);
      }
    } else if ds != [] {
      forall j | 0 <= j < |ds|
        ensures !Less(ds[j].name, d.name)
      {
        LessTotal(ds[j].name, d.name);
        LessTotal(ds[0].name, ds[j].name);
        if Less(ds[j].name, d.name) { LessTransitive(ds[j].name, d.name, ds[0].name); }
      }
    }
  }

  lemma {:induction false} Append(ds: seq<Dentry>, d: Dentry)
    ensures Size(ds + [d]) == Size([d] + ds) && Nested(ds + [d]) == Nested([d] + ds) &&
            Ordered(ds + [d]) == Ordered([d] + ds)
  {
    hide Less, AllComponents, Ascending;
    assert ([d] + ds)[1..] == ds;
    if ds == [] {
      assert ds + [d] == [d] + ds;
    } else {
      Append(ds[1..], d);
      assert (ds + [d])[1..] == ds[1..] + [d] && ([d] + ds[1..])[1..] == ds[1..];
    }
  }

  lemma {:induction false} SortKeeps(ds: seq<Dentry>)
    ensures Size(Sort(ds)) == Size(ds) && Nested(Sort(ds)) == Nested(ds) && Ordered(Sort(ds)) == Ordered(ds)
    ensures multiset(Sort(ds)) == multiset(ds) && WeaklyAscending(Sort(ds))
  {
    hide Less, AllComponents, Ascending, Insert;
    if ds != [] {
      var front, d := ds[..|ds| - 1], ds[|ds| - 1];
      SortKeeps(front);
      InsertKeeps(d, Sort(front));
      InsertSorts(d, Sort(front));
      Append(front, d);
      assert ds == front + [d];
      FirstOf(d, Sort(front), front);
    }
  }

  lemma FirstOf(d: Dentry, a: seq<Dentry>, b: seq<Dentry>)
    requires Size(a) == Size(b) && Nested(a) == Nested(b) && Ordered(a) == Ordered(b)
    ensures Size([d] + a) == Size([d] + b) && Nested([d] + a) == Nested([d] + b) && Ordered([d] + a) == Ordered([d] + b)
  {
    hide Less, AllComponents, Ascending;
    assert ([d] + a)[1..] == a && ([d] + b)[1..] == b;
  }

  lemma NoTwinsAscends(ds: seq<Dentry>)
    requires WeaklyAscending(ds) && NoTwins(ds)
    ensures Ascending(ds)
  {
    forall i, j | 0 <= i < j < |ds|
      ensures Less(ds[i].name, ds[j].name)
    {
      LessTotal(ds[i].name, ds[j].name);
      if ds[i].name == ds[j].name {
        assert ds[i + 1].name != ds[i].name;
        LessTotal(ds[i].name, ds[i + 1].name);
        LessTotal(ds[i + 1].name, ds[j].name);
      }
    }
  }

  // ---------- lists ----------

  /** The entries before a list's end are within bounds so far. */
  predicate SoFar(out: seq<Dentry>, depth: nat, isRoot: bool)
  {
    Ordered(out) && depth + Nested(out) <= MAX_TREE_DEPTH && (isRoot || AllComponents(out))
  }

  lemma OneMore(out: seq<Dentry>, d: Dentry, depth: nat, isRoot: bool, kids: seq<Dentry>)
    requires SoFar(out, depth, isRoot) && (isRoot || IsComponent(d.name)) && d.children == kids
    requires kids != [] ==>
               IsDirectory(d.attributes) && !IsReparsePoint(d.attributes) && Ascending(kids) &&
                 SoFar(kids, depth + 1, false)
    ensures SoFar(out + [d], depth, isRoot) && Size(out + [d]) == Size(out) + 1 + Size(kids)
  {
    hide Less, IsComponent;
    Append(out, d);
    assert ([d] + out)[1..] == out;
  }

  /**
   * The number of entries is the number counted, lists are nested no deeper than the limit, and all are in strict
   * order.
   */
  lemma {:induction false} ListBounded(md: seq<byte>, off: nat, depth: nat, isRoot: bool, streams: Streams,
                                       out: seq<Dentry>, nodes: nat)
    requires |md| < WORD && nodes <= MAX_TREE_NODES && SoFar(out, depth, isRoot)
    requires ReadList(md, off, depth, isRoot, streams, out, nodes).Some?
    ensures var l := ReadList(md, off, depth, isRoot, streams, out, nodes).value;
            && l.nodes == nodes + Size(l.list) - Size(out)
            && Ascending(l.list) && SoFar(l.list, depth, isRoot)
    decreases if depth <= MAX_TREE_DEPTH then MAX_TREE_DEPTH + 1 - depth else 0, MAX_TREE_NODES - nodes
  {
    hide Ordered, Nested, Size, Less, AllComponents, Ascending, WeaklyAscending, NoTwins, ReadEntry, Field, Sort;
    if Field(md, off, 8) == 0 {
      SortKeeps(out);
      NoTwinsAscends(Sort(out));
      if !isRoot { SortComponents(out); }
    } else {
      var e := ReadEntry(md, off, isRoot, streams).value;
      EmptyList(depth + 1);
      if !HasList(e.d.attributes, e.subdir) {
        OneMore(out, e.d, depth, isRoot, []);
        ListBounded(md, e.next, depth, isRoot, streams, out + [e.d], nodes + 1);
      } else {
        var sub := ReadList(md, e.subdir, depth + 1, false, streams, [], nodes + 1).value;
        assert depth < MAX_TREE_DEPTH;
        ListBounded(md, e.subdir, depth + 1, false, streams, [], nodes + 1);
        var d := e.d.(children := sub.list);
        OneMore(out, d, depth, isRoot, sub.list);
        ListBounded(md, e.next, depth, isRoot, streams, out + [d], sub.nodes);
      }
    }
  }

  lemma EmptyList(depth: nat)
    ensures Size([]) == 0 && (depth <= MAX_TREE_DEPTH ==> SoFar([], depth, false) && SoFar([], depth, true))
  {
  }

  lemma SortComponents(out: seq<Dentry>)
    requires AllComponents(out)
    ensures AllComponents(Sort(out))
  {
    hide IsComponent, Sort;
    SortKeeps(out);
    forall d | d in Sort(out)
      ensures IsComponent(d.name)
    {
      assert d in multiset(Sort(out));
    }
  }

  /** A parsed tree holds at most 2^20 entries in at most 65 nested lists, each in strict name order. */
  lemma ParsedIsBounded(md: seq<byte>, streams: Streams)
    requires |md| < WORD && Parse(md, streams).Some?
    ensures var root := Parse(md, streams).value;
            && Size([root]) <= MAX_TREE_NODES && Nested([root]) <= MAX_TREE_DEPTH && Ordered([root])
            && IsDirectory(root.attributes) && root.name == []
  {
    hide ReadList, Size, Nested, Ordered, NoTwins;
    EmptyList(0);
    ListBounded(md, TreeOffset(md).value, 0, true, streams, [], 0);
    var l := ReadList(md, TreeOffset(md).value, 0, true, streams, [], 0).value;
    assert l.list == [l.list[0]];
    RootNameless(md, TreeOffset(md).value, streams);
  }

  lemma RootNameless(md: seq<byte>, off: nat, streams: Streams)
    requires |md| < WORD && ReadList(md, off, 0, true, streams, [], 0).Some? &&
             |ReadList(md, off, 0, true, streams, [], 0).value.list| == 1
    ensures ReadList(md, off, 0, true, streams, [], 0).value.list[0].name == []
  {
    NamelessList(md, off, streams, [], 0);
  }

  lemma {:induction false} NamelessList(md: seq<byte>, off: nat, streams: Streams, out: seq<Dentry>, nodes: nat)
    requires |md| < WORD && nodes <= MAX_TREE_NODES && ReadList(md, off, 0, true, streams, out, nodes).Some?
    requires forall d :: d in out ==> d.name == []
    ensures forall d :: d in ReadList(md, off, 0, true, streams, out, nodes).value.list ==> d.name == []
    decreases MAX_TREE_NODES - nodes
  {
    hide Sort, NoTwins, ReadEntry, Field;
    if Field(md, off, 8) == 0 {
      SortKeeps(out);
      forall d | d in Sort(out)
        ensures d.name == []
      {
        assert d in multiset(Sort(out));
      }
    } else {
      var e := ReadEntry(md, off, true, streams).value;
      if !HasList(e.d.attributes, e.subdir) {
        NamelessList(md, e.next, streams, out + [e.d], nodes + 1);
      } else {
        var sub := ReadList(md, e.subdir, 1, false, streams, [], nodes + 1).value;
        NamelessList(md, e.next, streams, out + [e.d.(children := sub.list)], sub.nodes);
      }
    }
  }
}
