/** Metadata as any writer may lay it out: which bytes are a tree, and which tree they are. */
module MetadataGrammar {
  import opened Bits
  import opened Canonical
  import opened LittleEndian
  import opened ResourceFormat
  import opened Names
  import opened Dentries
  import opened DentryBounds
  import opened TreeRoundTrip

  // ---------- one entry ----------

  function Round8(n: nat): (r: nat)
    ensures n <= r
  {
    (n + 7) / 8 * 8
  }

  /** A block at p of at least least bytes by its own account, and room for it filled up to a multiple of 8. */
  predicate BlockLies(md: seq<byte>, p: nat, least: nat)
    requires least >= 8
  {
    p + 8 <= |md| && least <= Field(md, p, 8) && p + Round8(Field(md, p, 8)) <= |md|
  }

  function BlockEnd(md: seq<byte>, p: nat): (e: nat)
    requires p + 8 <= |md|
  {
    p + Round8(Field(md, p, 8))
  }

  /** Stream entries lie end to end from p on. */
  predicate StreamsLie(md: seq<byte>, p: nat, count: nat)
    decreases count
  {
    count == 0 || (BlockLies(md, p, 38) && StreamsLie(md, BlockEnd(md, p), count - 1))
  }

  function StreamsEnd(md: seq<byte>, p: nat, count: nat): (e: nat)
    requires StreamsLie(md, p, count)
    ensures count > 0 ==> p + 38 <= |md|
    decreases count
  {
    if count == 0 then p else StreamsEnd(md, BlockEnd(md, p), count - 1)
  }

  function NameAt(md: seq<byte>, p: nat): Name
    requires p + 102 <= |md| && p + 102 + Field(md, p + 100, 2) <= |md|
  {
    Decode(Units(md[p + 102..p + 102 + Field(md, p + 100, 2)]))
  }

  /**
   * An entry lies at p: its names fit in the length it gives, its own is empty for a root and a path component for any
   * other, and its streams follow it.
   */
  predicate EntryLies(md: seq<byte>, p: nat, isRoot: bool)
  {
    && BlockLies(md, p, 102)
    && 102 + Field(md, p + 100, 2) + 2 + Field(md, p + 98, 2) <= Field(md, p, 8)
    && (if isRoot then NameAt(md, p) == [] else IsComponent(NameAt(md, p)))
    && StreamsLie(md, BlockEnd(md, p), Field(md, p + 96, 2))
  }

  function EntryEnd(md: seq<byte>, p: nat, isRoot: bool): (e: nat)
    requires EntryLies(md, p, isRoot)
  {
    StreamsEnd(md, BlockEnd(md, p), Field(md, p + 96, 2))
  }

  /** The hash of the first stream, if that has no name and the entry has no hash; the entry's own if not. */
  function HashAt(md: seq<byte>, p: nat, isRoot: bool): (h: seq<byte>)
    requires EntryLies(md, p, isRoot)
  {
    var own, after := md[p + 64..p + 84], BlockEnd(md, p);
    if own == NO_HASH && Field(md, p + 96, 2) > 0 && Field(md, after + 36, 2) == 0 then md[after + 16..after + 36]
    else own
  }

  /** What the entry at p is a record of, its children aside. */
  function FileAt(md: seq<byte>, p: nat, isRoot: bool, streams: Streams): (d: Dentry)
    requires EntryLies(md, p, isRoot)
  {
    var attributes, h := Field(md, p + 8, 4), HashAt(md, p, isRoot);
    var res := if attributes / 16 % 2 == 0 && h in streams && h != NO_HASH then Some(streams[h]) else None;
    Dentry(NameAt(md, p), attributes, Field(md, p + 56, 8), if res.Some? then res.value.uncompressed else 0, h, res,
           attributes / 16 % 2 == 0 && h !in streams && h != NO_HASH, [])
  }

  lemma Rounds(md: seq<byte>, p: nat, least: nat)
    requires |md| <= MAX_RESOURCE_SIZE && p + 8 <= |md| && least >= 8
    ensures Field(md, p, 8) < WORD
    ensures var len := Field(md, p, 8);
            var step := AlignUp8(len);
            BlockLies(md, p, least) <==> !(len < least || step < len || !Fits(md, p, step))
    ensures BlockLies(md, p, least) ==> AlignUp8(Field(md, p, 8)) == Round8(Field(md, p, 8))
  {
    hide Field;
    Bounds();
  }

  lemma {:induction false} StreamsRead(md: seq<byte>, p: nat, i: nat, count: nat, hash: seq<byte>)
    requires p <= |md| <= MAX_RESOURCE_SIZE && |hash| == 20 && i <= count
    ensures StreamsLie(md, p, count - i) ==>
              StreamsEnd(md, p, count - i) <= |md| &&
              StepStreams(md, p, i, count, hash) ==
                Some(Streamed(StreamsEnd(md, p, count - i),
                              if i == 0 < count && hash == NO_HASH && Field(md, p + 36, 2) == 0 then md[p + 16..p + 36]
                              else hash))
    ensures !StreamsLie(md, p, count - i) ==> StepStreams(md, p, i, count, hash) == None
    decreases count - i
  {
    hide Field, AlignUp8, Round8, BlockLies;
    if i < count && p + 8 <= |md| {
      Rounds(md, p, 38);
      if BlockLies(md, p, 38) {
        LongBlock(md, p);
        var h := if i == 0 && Field(md, p + 36, 2) == 0 && hash == NO_HASH then md[p + 16..p + 36] else hash;
        StreamsRead(md, BlockEnd(md, p), i + 1, count, h);
      }
    } else if i < count {
      NoBlock(md, p);
    }
  }

  lemma LongBlock(md: seq<byte>, p: nat)
    requires BlockLies(md, p, 38)
    ensures p + 38 <= |md| && BlockEnd(md, p) <= |md|
  {
    hide Field;
  }

  lemma NoBlock(md: seq<byte>, p: nat)
    requires p + 8 > |md|
    ensures !BlockLies(md, p, 38)
  {
  }

  /** An entry is read exactly where one lies, and as what it is a record of. */
  lemma EntryIsRead(md: seq<byte>, p: nat, isRoot: bool, streams: Streams)
    requires p + 8 <= |md| <= MAX_RESOURCE_SIZE
    ensures ReadEntry(md, p, isRoot, streams) ==
            if EntryLies(md, p, isRoot) then
              Some(Entry(FileAt(md, p, isRoot, streams), Field(md, p + 16, 8), EntryEnd(md, p, isRoot)))
            else None
  {
    hide Field, AlignUp8, Round8, Decode, Units, StepStreams;
    Rounds(md, p, 102);
    if BlockLies(md, p, 102) {
      StreamsRead(md, BlockEnd(md, p), 0, Field(md, p + 96, 2), md[p + 64..p + 84]);
    }
  }

  // ---------- lists ----------

  /** Where an entry of a list lies, and where those of its own list do if it has one. */
  datatype Place = Plain(at: nat) | Holder(at: nat, kids: seq<Place>)

  /** How many entries there are, those of the lists below included. */
  function Entries(ps: seq<Place>): (n: nat)
  {
    if ps == [] then 0 else 1 + (if ps[0].Holder? then Entries(ps[0].kids) else 0) + Entries(ps[1..])
  }

  /** How many lists are nested below this one. */
  function Levels(ps: seq<Place>): (n: nat)
  {
    if ps == [] then 0
    else
      var first, rest := if ps[0].Holder? then 1 + Levels(ps[0].kids) else 0, Levels(ps[1..]);
      if first > rest then first else rest
  }

  /** The entry at p has a list of its own: it is a directory, no link to elsewhere, and says where its list is. */
  predicate Listing(md: seq<byte>, p: nat)
    requires p + 102 <= |md|
  {
    Field(md, p + 8, 4) / 16 % 2 == 1 && Field(md, p + 8, 4) / 1024 % 2 == 0 && Field(md, p + 16, 8) != 0
  }

  /** A list lies at off: entries end to end, each with its own list if it has one, then eight zero bytes. */
  ghost predicate ListLies(md: seq<byte>, off: nat, isRoot: bool, ps: seq<Place>)
    decreases ps
  {
    if ps == [] then off + 8 <= |md| && Field(md, off, 8) == 0
    else
      && ps[0].at == off && EntryLies(md, off, isRoot) && (ps[0].Holder? <==> Listing(md, off))
      && (ps[0].Holder? ==> ListLies(md, Field(md, off + 16, 8), false, ps[0].kids))
      && ListLies(md, EntryEnd(md, off, isRoot), isRoot, ps[1..])
  }

  /** What the entries of a list are records of, in the order they lie, with their children sorted. */
  ghost function Shown(md: seq<byte>, off: nat, isRoot: bool, ps: seq<Place>, streams: Streams): (ds: seq<Dentry>)
    requires ListLies(md, off, isRoot, ps)
    ensures |ds| == |ps|
    decreases ps
  {
    if ps == [] then []
    else
      var kids := if ps[0].Holder? then Sort(Shown(md, Field(md, off + 16, 8), false, ps[0].kids, streams)) else [];
      [FileAt(md, off, isRoot, streams).(children := kids)] +
        Shown(md, EntryEnd(md, off, isRoot), isRoot, ps[1..], streams)
  }

  /** In every list below this one all names are different. */
  ghost predicate BelowDiffer(md: seq<byte>, off: nat, isRoot: bool, ps: seq<Place>, streams: Streams)
    requires ListLies(md, off, isRoot, ps)
    decreases ps
  {
    ps == [] ||
    (&& (ps[0].Holder? ==>
           var sub := Field(md, off + 16, 8);
           && DifferentNames(Shown(md, sub, false, ps[0].kids, streams))
           && BelowDiffer(md, sub, false, ps[0].kids, streams))
     && BelowDiffer(md, EntryEnd(md, off, isRoot), isRoot, ps[1..], streams))
  }

  /** The first entry of a list, with its children. */
  ghost function FirstShown(md: seq<byte>, off: nat, isRoot: bool, ps: seq<Place>, streams: Streams): (d: Dentry)
    requires ListLies(md, off, isRoot, ps) && ps != []
  {
    FileAt(md, off, isRoot, streams).(children :=
      if ps[0].Holder? then Sort(Shown(md, Field(md, off + 16, 8), false, ps[0].kids, streams)) else [])
  }

  // ---------- a list that lies there is read ----------

  /** Reading goes on behind an entry without a list. */
  lemma StepPlain(md: seq<byte>, off: nat, depth: nat, isRoot: bool, streams: Streams, out: seq<Dentry>, nodes: nat)
    requires |md| <= MAX_RESOURCE_SIZE && nodes < MAX_TREE_NODES && depth <= MAX_TREE_DEPTH
    requires EntryLies(md, off, isRoot) && !Listing(md, off)
    ensures ReadList(md, off, depth, isRoot, streams, out, nodes)
         == ReadList(md, EntryEnd(md, off, isRoot), depth, isRoot, streams,
                     out + [FileAt(md, off, isRoot, streams)], nodes + 1)
  {
    hide Field, EntryEnd, HashAt, NameAt, StreamsLie, ReadEntry;
    EntryIsRead(md, off, isRoot, streams);
  }

  /** An entry with a list has that read first. */
  lemma StepHolder(md: seq<byte>, off: nat, depth: nat, isRoot: bool, streams: Streams, out: seq<Dentry>, nodes: nat)
    requires |md| <= MAX_RESOURCE_SIZE && nodes < MAX_TREE_NODES && depth <= MAX_TREE_DEPTH
    requires EntryLies(md, off, isRoot) && Listing(md, off)
    ensures ReadList(md, off, depth, isRoot, streams, out, nodes)
         == match ReadList(md, Field(md, off + 16, 8), depth + 1, false, streams, [], nodes + 1)
            case None => None
            case Some(sub) =>
              ReadList(md, EntryEnd(md, off, isRoot), depth, isRoot, streams,
                       out + [FileAt(md, off, isRoot, streams).(children := sub.list)], sub.nodes)
  {
    hide Field, EntryEnd, HashAt, NameAt, StreamsLie, ReadEntry;
    EntryIsRead(md, off, isRoot, streams);
  }

  lemma StepNowhere(md: seq<byte>, off: nat, depth: nat, isRoot: bool, streams: Streams, out: seq<Dentry>, nodes: nat)
    requires off + 8 <= |md| <= MAX_RESOURCE_SIZE && nodes < MAX_TREE_NODES && depth <= MAX_TREE_DEPTH
    requires Field(md, off, 8) != 0 && !EntryLies(md, off, isRoot)
    ensures ReadList(md, off, depth, isRoot, streams, out, nodes) == None
  {
    hide Field, EntryLies, ReadEntry;
    EntryIsRead(md, off, isRoot, streams);
  }

  lemma StepEnd(md: seq<byte>, off: nat, depth: nat, isRoot: bool, streams: Streams, out: seq<Dentry>, nodes: nat)
    requires off + 8 <= |md| <= MAX_RESOURCE_SIZE && nodes <= MAX_TREE_NODES && depth <= MAX_TREE_DEPTH
    requires Field(md, off, 8) == 0
    ensures ReadList(md, off, depth, isRoot, streams, out, nodes) ==
            if DifferentNames(out) then Some(Listed(Sort(out), nodes)) else None
  {
    hide Field, NoTwins, Sort, DifferentNames;
    if DifferentNames(out) { SortsApart(out); }
    if NoTwins(Sort(out)) { TwinsDiffer(out); }
  }

  lemma {:induction false} ApartWas(d: Dentry, ds: seq<Dentry>)
    requires Ascending(Insert(d, ds))
    ensures Ascending(ds) && forall e {:trigger e in ds} :: e in ds ==> e.name != d.name
  {
    hide Less;
    var r := Insert(d, ds);
    if ds != [] && !Less(d.name, ds[0].name) {
      assert r[1..] == Insert(d, ds[1..]) && r[0] == ds[0];
      forall i, j | 0 <= i < j < |r[1..]|
        ensures Less(r[1..][i].name, r[1..][j].name)
      {
        assert r[1..][i] == r[i + 1] && r[1..][j] == r[j + 1];
      }
      ApartWas(d, ds[1..]);
      InsertedThere(d, ds[1..]);
      assert r == [ds[0]] + Insert(d, ds[1..]) && ds == [ds[0]] + ds[1..];
      FirstIsLess(ds[0], Insert(d, ds[1..]), d);
      forall i, j | 0 <= i < j < |ds|
        ensures Less(ds[i].name, ds[j].name)
      {
        if i == 0 {
          assert ds[j] == ds[1..][j - 1] && ds[1..][j - 1] in ds[1..];
          FirstIsLess(ds[0], Insert(d, ds[1..]), ds[1..][j - 1]);
        } else {
          assert ds[i] == ds[1..][i - 1] && ds[j] == ds[1..][j - 1];
        }
      }
    } else {
      assert r == [d] + ds;
      forall i, j | 0 <= i < j < |ds|
        ensures Less(ds[i].name, ds[j].name)
      {
        assert r[i + 1] == ds[i] && r[j + 1] == ds[j];
      }
      forall e | e in ds
        ensures e.name != d.name
      {
        FirstIsLess(d, ds, e);
      }
    }
  }

  lemma FirstIsLess(d: Dentry, ds: seq<Dentry>, e: Dentry)
    requires Ascending([d] + ds) && e in ds
    ensures Less(d.name, e.name) && d.name != e.name
  {
    hide Less;
    var k :| 0 <= k < |ds| && ds[k] == e;
    assert ([d] + ds)[0] == d && ([d] + ds)[k + 1] == e;
    LessTotal(d.name, e.name);
  }

  lemma InsertedThere(d: Dentry, ds: seq<Dentry>)
    ensures d in Insert(d, ds) && forall e {:trigger e in ds} :: e in ds ==> e in Insert(d, ds)
  {
    hide Insert, Size, Nested, Ordered;
    InsertKeeps(d, ds);
    assert d in multiset([d] + ds);
    forall e | e in ds
      ensures e in Insert(d, ds)
    {
      assert e in multiset([d] + ds);
    }
  }

  /** Sorting brings no two entries of different names together. */
  lemma {:induction false} TwinsDiffer(ds: seq<Dentry>)
    requires NoTwins(Sort(ds))
    ensures DifferentNames(ds)
  {
    hide NoTwins, Sort, Less;
    SortKeeps(ds);
    NoTwinsAscends(Sort(ds));
    AscendingDiffer(ds);
  }

  lemma {:induction false} AscendingDiffer(ds: seq<Dentry>)
    requires Ascending(Sort(ds))
    ensures DifferentNames(ds)
  {
    hide Ascending, Insert;
    if ds != [] {
      var front, d := ds[..|ds| - 1], ds[|ds| - 1];
      ApartWas(d, Sort(front));
      AscendingDiffer(front);
      SortedThere(front);
      assert ds == front + [d];
      forall i, j | 0 <= i < j < |ds|
        ensures ds[i].name != ds[j].name
      {
        assert ds[i] == front[i];
        if j == |ds| - 1 { assert ds[i] in front; } else { assert ds[j] == front[j]; }
      }
    }
  }

  lemma SortedThere(ds: seq<Dentry>)
    ensures forall e {:trigger e in ds} :: e in ds ==> e in Sort(ds)
  {
    hide Sort, Size, Nested, Ordered, WeaklyAscending;
    SortKeeps(ds);
    forall e | e in ds
      ensures e in Sort(ds)
    {
      assert e in multiset(ds);
    }
  }

  lemma EmptyLies(md: seq<byte>, off: nat, isRoot: bool, streams: Streams)
    requires ListLies(md, off, isRoot, [])
    ensures off + 8 <= |md| && Field(md, off, 8) == 0 && Shown(md, off, isRoot, [], streams) == []
  {
  }

  /** The first entry of a list, and the rest of it. */
  lemma ListFront(md: seq<byte>, off: nat, isRoot: bool, ps: seq<Place>, streams: Streams)
    requires ps != [] && ListLies(md, off, isRoot, ps) && BelowDiffer(md, off, isRoot, ps, streams)
    ensures EntryLies(md, off, isRoot) && off + 102 <= |md| && (ps[0].Holder? <==> Listing(md, off))
    ensures ListLies(md, EntryEnd(md, off, isRoot), isRoot, ps[1..])
    ensures BelowDiffer(md, EntryEnd(md, off, isRoot), isRoot, ps[1..], streams)
    ensures var d := FirstShown(md, off, isRoot, ps, streams);
            && Shown(md, off, isRoot, ps, streams)
            == [d] + Shown(md, EntryEnd(md, off, isRoot), isRoot, ps[1..], streams)
            && if ps[0].Holder? then
                 var sub := Field(md, off + 16, 8);
                 && ListLies(md, sub, false, ps[0].kids) && BelowDiffer(md, sub, false, ps[0].kids, streams)
                 && DifferentNames(Shown(md, sub, false, ps[0].kids, streams))
                 && d == FileAt(md, off, isRoot, streams).(children := Sort(Shown(md, sub, false, ps[0].kids, streams)))
               else d == FileAt(md, off, isRoot, streams)
  {
    hide Field, EntryLies, EntryEnd, Sort, DifferentNames;
    EntryIsLong(md, off, isRoot);
  }

  /** A list that lies there, not too deep and not too big, is read as what its entries are records of. */
  lemma {:induction false} ListIsRead(md: seq<byte>, off: nat, depth: nat, isRoot: bool, ps: seq<Place>,
                                      streams: Streams, out: seq<Dentry>, nodes: nat)
    requires |md| <= MAX_RESOURCE_SIZE && ListLies(md, off, isRoot, ps)
    requires depth + Levels(ps) <= MAX_TREE_DEPTH && nodes + Entries(ps) <= MAX_TREE_NODES
    requires BelowDiffer(md, off, isRoot, ps, streams)
    requires DifferentNames(out + Shown(md, off, isRoot, ps, streams))
    ensures ReadList(md, off, depth, isRoot, streams, out, nodes)
         == Some(Listed(Sort(out + Shown(md, off, isRoot, ps, streams)), nodes + Entries(ps)))
    decreases ps
  {
    hide Field, EntryLies, EntryEnd, FileAt, Sort, DifferentNames, Listing, ReadList, ListLies, Shown, BelowDiffer,
      FirstShown;
    if ps == [] {
      EmptyLies(md, off, isRoot, streams);
      assert out + [] == out;
      StepEnd(md, off, depth, isRoot, streams, out, nodes);
    } else {
      ListFront(md, off, isRoot, ps, streams);
      var first, next := FirstShown(md, off, isRoot, ps, streams), EntryEnd(md, off, isRoot);
      var rest := Shown(md, next, isRoot, ps[1..], streams);
      assert out + ([first] + rest) == (out + [first]) + rest;
      if ps[0].Holder? {
        var sub := Field(md, off + 16, 8);
        var kids := Shown(md, sub, false, ps[0].kids, streams);
        assert [] + kids == kids;
        ListIsRead(md, sub, depth + 1, false, ps[0].kids, streams, [], nodes + 1);
        StepHolder(md, off, depth, isRoot, streams, out, nodes);
        ListIsRead(md, next, depth, isRoot, ps[1..], streams, out + [first], nodes + 1 + Entries(ps[0].kids));
      } else {
        StepPlain(md, off, depth, isRoot, streams, out, nodes);
        ListIsRead(md, next, depth, isRoot, ps[1..], streams, out + [first], nodes + 1);
      }
    }
  }

  lemma NoKids(md: seq<byte>, off: nat, isRoot: bool, streams: Streams)
    requires EntryLies(md, off, isRoot)
    ensures FileAt(md, off, isRoot, streams).(children := []) == FileAt(md, off, isRoot, streams)
  {
  }

  // ---------- a list that is read lies there ----------

  /** All that the reader makes sure of before it takes a list. */
  ghost predicate ListAccepted(md: seq<byte>, off: nat, depth: nat, isRoot: bool, ps: seq<Place>, streams: Streams,
                               out: seq<Dentry>, nodes: nat)
  {
    && ListLies(md, off, isRoot, ps) && depth + Levels(ps) <= MAX_TREE_DEPTH && nodes + Entries(ps) <= MAX_TREE_NODES
    && BelowDiffer(md, off, isRoot, ps, streams) && DifferentNames(out + Shown(md, off, isRoot, ps, streams))
  }

  lemma NothingLies(md: seq<byte>, off: nat, depth: nat, isRoot: bool, streams: Streams, out: seq<Dentry>, nodes: nat)
    requires off + 8 <= |md| && Field(md, off, 8) == 0 && DifferentNames(out) && nodes <= MAX_TREE_NODES
    requires depth <= MAX_TREE_DEPTH
    ensures ListAccepted(md, off, depth, isRoot, [], streams, out, nodes)
  {
    assert out + [] == out;
  }

  lemma PlainLies(md: seq<byte>, off: nat, depth: nat, isRoot: bool, rest: seq<Place>, streams: Streams,
                  out: seq<Dentry>, nodes: nat)
    requires EntryLies(md, off, isRoot) && !Listing(md, off)
    requires ListAccepted(md, EntryEnd(md, off, isRoot), depth, isRoot, rest, streams,
                          out + [FileAt(md, off, isRoot, streams)], nodes + 1)
    ensures ListAccepted(md, off, depth, isRoot, [Plain(off)] + rest, streams, out, nodes)
  {
    hide Field, EntryLies, EntryEnd, FileAt, DifferentNames, Listing;
    var ps := [Plain(off)] + rest;
    assert ps[1..] == rest;
    NoKids(md, off, isRoot, streams);
    var first, shown := FileAt(md, off, isRoot, streams), Shown(md, EntryEnd(md, off, isRoot), isRoot, rest, streams);
    assert out + ([first] + shown) == (out + [first]) + shown;
  }

  lemma HolderLies(md: seq<byte>, off: nat, depth: nat, isRoot: bool, kids: seq<Place>, rest: seq<Place>,
                   streams: Streams, out: seq<Dentry>, nodes: nat, d: Dentry)
    requires EntryLies(md, off, isRoot) && Listing(md, off)
    requires ListAccepted(md, Field(md, off + 16, 8), depth + 1, false, kids, streams, [], nodes + 1)
    requires d == FileAt(md, off, isRoot, streams).(children :=
               Sort([] + Shown(md, Field(md, off + 16, 8), false, kids, streams)))
    requires ListAccepted(md, EntryEnd(md, off, isRoot), depth, isRoot, rest, streams, out + [d],
                          nodes + 1 + Entries(kids))
    ensures ListAccepted(md, off, depth, isRoot, [Holder(off, kids)] + rest, streams, out, nodes)
  {
    hide Field, EntryLies, EntryEnd, FileAt, DifferentNames, Listing, Sort;
    var ps := [Holder(off, kids)] + rest;
    assert ps[1..] == rest;
    EntryIsLong(md, off, isRoot);
    var below, shown := Shown(md, Field(md, off + 16, 8), false, kids, streams),
      Shown(md, EntryEnd(md, off, isRoot), isRoot, rest, streams);
    assert [] + below == below;
    assert out + ([d] + shown) == (out + [d]) + shown;
  }

  lemma {:induction false} ListFound(md: seq<byte>, off: nat, depth: nat, isRoot: bool, streams: Streams,
                                     out: seq<Dentry>, nodes: nat) returns (ps: seq<Place>)
    requires |md| <= MAX_RESOURCE_SIZE && nodes <= MAX_TREE_NODES
    requires ReadList(md, off, depth, isRoot, streams, out, nodes).Some?
    ensures ListAccepted(md, off, depth, isRoot, ps, streams, out, nodes)
    decreases if depth <= MAX_TREE_DEPTH then MAX_TREE_DEPTH + 1 - depth else 0, MAX_TREE_NODES - nodes
  {
    hide Field, EntryLies, EntryEnd, FileAt, Sort, DifferentNames, Listing, ReadList, ListAccepted;
    WithinDepth(md, off, depth, isRoot, streams, out, nodes);
    if Field(md, off, 8) == 0 {
      StepEnd(md, off, depth, isRoot, streams, out, nodes);
      NothingLies(md, off, depth, isRoot, streams, out, nodes);
      return [];
    }
    if !EntryLies(md, off, isRoot) { StepNowhere(md, off, depth, isRoot, streams, out, nodes); }
    var next, d := EntryEnd(md, off, isRoot), FileAt(md, off, isRoot, streams);
    EntryIsLong(md, off, isRoot);
    if Listing(md, off) {
      StepHolder(md, off, depth, isRoot, streams, out, nodes);
      var sub := Field(md, off + 16, 8);
      var kids := ListFound(md, sub, depth + 1, false, streams, [], nodes + 1);
      AcceptedIsRead(md, sub, depth + 1, false, kids, streams, [], nodes + 1);
      var e := d.(children := ReadList(md, sub, depth + 1, false, streams, [], nodes + 1).value.list);
      var rest := ListFound(md, next, depth, isRoot, streams, out + [e], nodes + 1 + Entries(kids));
      AcceptedLies(md, sub, depth + 1, false, kids, streams, [], nodes + 1);
      HolderLies(md, off, depth, isRoot, kids, rest, streams, out, nodes, e);
      ps := [Holder(off, kids)] + rest;
    } else {
      StepPlain(md, off, depth, isRoot, streams, out, nodes);
      var rest := ListFound(md, next, depth, isRoot, streams, out + [d], nodes + 1);
      PlainLies(md, off, depth, isRoot, rest, streams, out, nodes);
      ps := [Plain(off)] + rest;
    }
  }

  lemma WithinDepth(md: seq<byte>, off: nat, depth: nat, isRoot: bool, streams: Streams, out: seq<Dentry>, nodes: nat)
    requires |md| < WORD && nodes <= MAX_TREE_NODES && ReadList(md, off, depth, isRoot, streams, out, nodes).Some?
    ensures depth <= MAX_TREE_DEPTH && off + 8 <= |md| && (Field(md, off, 8) != 0 ==> nodes < MAX_TREE_NODES)
  {
    hide ReadEntry, Field, Sort, NoTwins;
  }

  lemma EntryIsLong(md: seq<byte>, off: nat, isRoot: bool)
    requires EntryLies(md, off, isRoot)
    ensures off + 102 <= |md|
  {
    hide Field, NameAt, StreamsLie;
  }

  lemma AcceptedLies(md: seq<byte>, off: nat, depth: nat, isRoot: bool, ps: seq<Place>, streams: Streams,
                     out: seq<Dentry>, nodes: nat)
    requires ListAccepted(md, off, depth, isRoot, ps, streams, out, nodes)
    ensures ListLies(md, off, isRoot, ps)
  {
  }

  lemma AcceptedIsRead(md: seq<byte>, off: nat, depth: nat, isRoot: bool, ps: seq<Place>, streams: Streams,
                       out: seq<Dentry>, nodes: nat)
    requires |md| <= MAX_RESOURCE_SIZE && ListAccepted(md, off, depth, isRoot, ps, streams, out, nodes)
    ensures ListLies(md, off, isRoot, ps) && nodes + Entries(ps) <= MAX_TREE_NODES
    ensures ReadList(md, off, depth, isRoot, streams, out, nodes)
         == Some(Listed(Sort(out + Shown(md, off, isRoot, ps, streams)), nodes + Entries(ps)))
  {
    hide ReadList, ListLies, Sort, DifferentNames;
    ListIsRead(md, off, depth, isRoot, ps, streams, out, nodes);
  }

  // ---------- the whole tree ----------

  /**
   * A tree lies in the metadata: behind the security table a list of one entry, a directory, with lists nested at most
   * 64 deep, at most 2^20 entries in all, and in no list two of one name.
   */
  ghost predicate TreeLies(md: seq<byte>, ps: seq<Place>, streams: Streams)
  {
    && |md| >= 8 && 8 + 8 * Field(md, 4, 4) <= Field(md, 0, 4) && Round8(Field(md, 0, 4)) <= |md|
    && var off := Round8(Field(md, 0, 4));
    && |ps| == 1 && ListLies(md, off, true, ps) && Levels(ps) <= 64 && Entries(ps) <= 0x10_0000
    && BelowDiffer(md, off, true, ps, streams) && Field(md, off + 8, 4) / 16 % 2 == 1
  }

  lemma TreeOffsetIs(md: seq<byte>)
    ensures TreeOffset(md) ==
            if |md| >= 8 && 8 + 8 * Field(md, 4, 4) <= Field(md, 0, 4) && Round8(Field(md, 0, 4)) <= |md| then
              Some(Round8(Field(md, 0, 4)))
            else None
  {
    hide Field;
  }

  /** Whoever wrote the metadata, the tree that lies in it is what is parsed. */
  lemma TreeIsParsed(md: seq<byte>, ps: seq<Place>, streams: Streams)
    requires |md| <= MAX_RESOURCE_SIZE && TreeLies(md, ps, streams)
    ensures Parse(md, streams) == Some(FirstShown(md, Round8(Field(md, 0, 4)), true, ps, streams))
  {
    hide Field, ReadList, EntryLies, EntryEnd, TreeOffset, BelowDiffer, ListLies, Shown, Sort, DifferentNames,
      FirstShown;
    TreeOffsetIs(md);
    var off := Round8(Field(md, 0, 4));
    var shown := Shown(md, off, true, ps, streams);
    assert [] + shown == shown == [shown[0]];
    OneSorted(shown[0]);
    ListIsRead(md, off, 0, true, ps, streams, [], 0);
    RootShown(md, off, ps, streams);
  }

  lemma AttributesAre(md: seq<byte>, off: nat, isRoot: bool, streams: Streams)
    requires EntryLies(md, off, isRoot)
    ensures FileAt(md, off, isRoot, streams).attributes == Field(md, off + 8, 4)
  {
  }

  lemma OneSorted(d: Dentry)
    ensures Sort([d]) == [d] && DifferentNames([d])
  {
    assert [d][..0] == [];
  }

  /** Metadata that is parsed has a tree lying in it. */
  lemma ParsedLies(md: seq<byte>, streams: Streams) returns (ps: seq<Place>)
    requires |md| <= MAX_RESOURCE_SIZE && Parse(md, streams).Some?
    ensures TreeLies(md, ps, streams)
  {
    hide Field, ReadList, EntryLies, EntryEnd, TreeOffset, BelowDiffer, ListLies, Shown;
    TreeOffsetIs(md);
    var off := Round8(Field(md, 0, 4));
    ps := ListFound(md, off, 0, true, streams, [], 0);
    AcceptedIsRead(md, off, 0, true, ps, streams, [], 0);
    var shown := Shown(md, off, true, ps, streams);
    assert [] + shown == shown == [shown[0]];
    OneSorted(shown[0]);
    RootShown(md, off, ps, streams);
  }

  lemma RootShown(md: seq<byte>, off: nat, ps: seq<Place>, streams: Streams)
    requires ListLies(md, off, true, ps) && |ps| == 1
    ensures EntryLies(md, off, true) && off + 102 <= |md|
    ensures Shown(md, off, true, ps, streams)[0].attributes == Field(md, off + 8, 4)
    ensures Shown(md, off, true, ps, streams)[0] == FirstShown(md, off, true, ps, streams)
  {
    hide Field, EntryLies, EntryEnd, Sort;
    EntryIsLong(md, off, true);
    AttributesAre(md, off, true, streams);
  }
}
