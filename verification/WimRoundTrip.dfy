/** What was captured and sealed is what an opened WIM shows: every path, and behind every path its content. */
module WimRoundTrip {
  import opened Bits
  import opened Canonical
  import opened ResourceFormat
  import opened Names
  import opened Dentries
  import opened DentryBounds
  import opened Records
  import opened Layout
  import opened TreeRoundTrip
  import opened FileTree
  import opened Chunks
  import opened BlobTable
  import opened WimHeader
  import opened WriterState
  import opened ImageRecords
  import opened WimWriter
  import RandomAccess
  import SealedWim
  import MetadataEncoder
  import MetadataQueue
  import Capture
  import TreeMeasures

  // ---------- reading ----------

  /** A whole resource. */
  function ReadWhole(file: seq<byte>, res: ResHdr, chunk: nat): (r: Option<seq<byte>>)
  {
    if !Plausible(res, chunk) || !Inside(file, res) then None
    else if res.uncompressed == 0 then Some([])
    else
      var r := ReadResource(file, res, chunk, LzxDecoder(), 0, res.uncompressed);
      if r.status == Ok || r.status == Eof then Some(r.bytes) else None
  }

  /** The tree of image i, counting from 1. */
  function ImageTree(file: seq<byte>, w: Wim, i: nat): (r: Option<Dentry>)
  {
    match ImageMeta(w, i)
    case None => None
    case Some(meta) =>
      match ReadWhole(file, meta, w.chunk)
      case None => None
      case Some(md) => if |md| < WORD then Parse(md, w.x.streams) else None
  }

  /** A file's content: nothing for a file with no resource, unless its stream is missing. */
  function Content(file: seq<byte>, w: Wim, d: Dentry): (r: Option<seq<byte>>)
  {
    if d.missing then None
    else
      match d.res
      case None => Some([])
      case Some(res) => ReadWhole(file, res, w.chunk)
  }

  /** A held resource is read back whole. */
  lemma HeldReadsWhole(file: seq<byte>, l: Logged, lzx: bool, chunk: nat)
    requires chunk > 0 && HoldsAt(file, l, lzx, chunk) && |file| < WORD && |l.data| <= MAX_RESOURCE_SIZE
    ensures ReadWhole(file, l.res, RandomAccess.ReaderChunk(lzx, chunk)) == Some(l.data)
  {
    hide ReadResource, LzxEncoder, LzxDecoder, ResourceFormat.Stored, RandomAccess.Holds;
    HeldIsReadable(file, l, lzx, chunk);
    RandomAccess.ReadsRangeLzx(file, l.res, lzx, l.data, chunk, 0, |l.data|);
    assert l.data[0..0 + |l.data|] == l.data;
    HeldPlausible(file, l, lzx, chunk);
  }

  lemma HeldPlausible(file: seq<byte>, l: Logged, lzx: bool, chunk: nat)
    requires chunk > 0 && HoldsAt(file, l, lzx, chunk) && |file| < WORD && |l.data| <= MAX_RESOURCE_SIZE
    ensures Plausible(l.res, RandomAccess.ReaderChunk(lzx, chunk)) && Inside(file, l.res) &&
            l.res.uncompressed == |l.data|
  {
    hide LzxEncoder, LzxDecoder, Body, Codec;
    if IsCompressed(l.res) {
      LzxIsCodec();
      RandomAccess.PlausibleCompressed(file, l.res, LzxEncoder(), LzxDecoder(), l.data, chunk);
    }
  }

  // ---------- paths ----------

  lemma {:induction false} BuiltAt(t: seq<Node>, parent: seq<nat>, streams: Streams, d: nat, i: nat, k: nat)
    requires Linked(t, parent) && d < |t| && i <= k < |t[d].children|
    ensures t[d].children[k] < |t| &&
            BuiltFrom(t, parent, streams, d, i)[k - i] == BuiltNode(t, parent, streams, t[d].children[k])
    decreases k - i
  {
    hide BuiltNode;
    if i < k { BuiltAt(t, parent, streams, d, i + 1, k); }
  }

  /** The children that are read for a directory are those it was captured with. */
  lemma BuiltChildren(t: seq<Node>, parent: seq<nat>, streams: Streams, x: nat, e: Dentry)
    requires Linked(t, parent) && x < |t|
    ensures e in BuiltNode(t, parent, streams, x).children
       <==> exists k {:trigger t[x].children[k]} ::
            0 <= k < |t[x].children| && e == BuiltNode(t, parent, streams, t[x].children[k])
  {
    hide Size, Nested, Ordered, WeaklyAscending, Sort;
    var built := BuiltFrom(t, parent, streams, x, 0);
    SortKeeps(built);
    assert e in Sort(built) <==> e in multiset(Sort(built));
    assert e in built <==> e in multiset(built);
    if e in built {
      var k :| 0 <= k < |built| && built[k] == e;
      BuiltAt(t, parent, streams, x, 0, k);
    }
    forall k | 0 <= k < |t[x].children| && e == BuiltNode(t, parent, streams, t[x].children[k])
      ensures e in built
    {
      BuiltAt(t, parent, streams, x, 0, k);
    }
    if !t[x].isDir { NoChildren(t, parent, streams, x); }
  }

  lemma NoChildren(t: seq<Node>, parent: seq<nat>, streams: Streams, x: nat)
    requires Linked(t, parent) && x < |t| && !t[x].isDir
    ensures t[x].children == [] && BuiltNode(t, parent, streams, x).children == []
  {
  }

  lemma {:induction false} LeadsOn(d: Dentry, cs: seq<Name>, e: Dentry, c: Dentry)
    requires Leads(d, cs, e) && c in e.children
    ensures Leads(d, cs + [c.name], c)
    decreases |cs|
  {
    if cs == [] {
      assert ([] + [c.name])[1..] == [] && Leads(c, [], c);
    } else {
      var f :| f in d.children && f.name == cs[0] && Leads(f, cs[1..], e);
      LeadsOn(f, cs[1..], e, c);
      assert (cs + [c.name])[1..] == cs[1..] + [c.name];
    }
  }

  /** Everything captured is at its path. */
  lemma {:induction false} NodeLeads(t: seq<Node>, parent: seq<nat>, vs: seq<Capture.Visit>, sds: seq<seq<byte>>,
                                     hash: Capture.Hasher, streams: Streams, y: nat)
    requires Capture.Walk(vs) && Capture.Grown(t, parent, vs, sds, hash) && Linked(t, parent) && y < |t|
    ensures Leads(BuiltNode(t, parent, streams, 0), vs[y].path, BuiltNode(t, parent, streams, y))
  {
    hide Linked, Leads, BuiltNode, Records.Recordable;
    assert vs[y] == vs[y];
    if y == 0 {
      LeadsNowhere(BuiltNode(t, parent, streams, 0));
    } else {
      assert Capture.InParent(t, parent, vs, y) && Capture.NodeOf(t[y], vs[y], sds, hash);
      var p, path := parent[y], vs[y].path;
      NodeLeads(t, parent, vs, sds, hash, streams, p);
      var k :| 0 <= k < |t[p].children| && t[p].children[k] == y;
      BuiltChildren(t, parent, streams, p, BuiltNode(t, parent, streams, y));
      LeadsOn(BuiltNode(t, parent, streams, 0), vs[p].path, BuiltNode(t, parent, streams, p),
              BuiltNode(t, parent, streams, y));
      assert path == Capture.Parent(path) + [Capture.Last(path)];
    }
  }

  lemma LeadsNowhere(d: Dentry)
    ensures Leads(d, [], d)
  {
  }

  /** e is what the node captured at this path is read as. */
  ghost predicate NodeAt(t: seq<Node>, parent: seq<nat>, vs: seq<Capture.Visit>, streams: Streams, path: seq<Name>,
                         e: Dentry, y: nat)
    requires Linked(t, parent)
  {
    y < |t| <= |vs| && vs[y].path == path && e == BuiltNode(t, parent, streams, y)
  }

  /** Nothing else is anywhere. */
  lemma {:induction false} LeadsToNodes(t: seq<Node>, parent: seq<nat>, vs: seq<Capture.Visit>, sds: seq<seq<byte>>,
                                        hash: Capture.Hasher, streams: Streams,
                                        x: nat, cs: seq<Name>, e: Dentry) returns (y: nat)
    requires Capture.Walk(vs) && Capture.Grown(t, parent, vs, sds, hash) && Linked(t, parent) && x < |t|
    requires Leads(BuiltNode(t, parent, streams, x), cs, e)
    ensures NodeAt(t, parent, vs, streams, vs[x].path + cs, e, y)
    decreases |cs|
  {
    hide BuiltNode, Capture.Grown, Capture.Walk;
    if cs == [] {
      y := x;
      GrownLength(t, parent, vs, sds, hash);
      assert vs[x].path + [] == vs[x].path;
    } else {
      var d := BuiltNode(t, parent, streams, x);
      var c :| c in d.children && c.name == cs[0] && Leads(c, cs[1..], e);
      BuiltChildren(t, parent, streams, x, c);
      var k :| 0 <= k < |t[x].children| && c == BuiltNode(t, parent, streams, t[x].children[k]);
      var z := t[x].children[k];
      ChildPath(t, parent, vs, sds, hash, x, k);
      y := LeadsToNodes(t, parent, vs, sds, hash, streams, z, cs[1..], e);
      assert vs[x].path + cs == (vs[x].path + [cs[0]]) + cs[1..];
    }
  }

  lemma GrownLength(t: seq<Node>, parent: seq<nat>, vs: seq<Capture.Visit>, sds: seq<seq<byte>>, hash: Capture.Hasher)
    requires Capture.Grown(t, parent, vs, sds, hash)
    ensures |t| <= |vs|
  {
  }

  lemma ChildPath(t: seq<Node>, parent: seq<nat>, vs: seq<Capture.Visit>, sds: seq<seq<byte>>, hash: Capture.Hasher,
                  x: nat, k: nat)
    requires Capture.Walk(vs) && Capture.Grown(t, parent, vs, sds, hash) && x < |t| && k < |t[x].children|
    ensures var z := t[x].children[k]; z < |t| && vs[z].path == vs[x].path + [t[z].name]
  {
    hide Records.Recordable;
    assert Capture.Kids(t, parent, x);
    var z := t[x].children[k];
    assert Capture.InParent(t, parent, vs, z) && Capture.NodeOf(t[z], vs[z], sds, hash);
    assert vs[z] == vs[z];
    assert vs[z].path == Capture.Parent(vs[z].path) + [Capture.Last(vs[z].path)];
  }

  /** Every name in a captured path is a component. */
  lemma {:induction false} PathComponents(t: seq<Node>, parent: seq<nat>, vs: seq<Capture.Visit>, sds: seq<seq<byte>>,
                                          hash: Capture.Hasher, y: nat)
    requires Capture.Walk(vs) && Capture.Grown(t, parent, vs, sds, hash) && y < |t|
    ensures Components(vs[y].path)
  {
    hide Records.Recordable, IsComponent;
    assert vs[y] == vs[y];
    if y > 0 {
      assert Capture.InParent(t, parent, vs, y);
      PathComponents(t, parent, vs, sds, hash, parent[y]);
      assert vs[y].path == Capture.Parent(vs[y].path) + [Capture.Last(vs[y].path)];
    }
  }

  // ---------- content ----------

  /** A record and what it is read as say the same. */
  lemma BuiltSays(t: seq<Node>, parent: seq<nat>, streams: Streams, y: nat)
    requires Linked(t, parent) && y < |t| && Records.Recordable(t[y])
    ensures var e := BuiltNode(t, parent, streams, y);
            && e.attributes == (if t[y].isDir then ATTR_DIRECTORY else ATTR_NORMAL) &&
               IsDirectory(e.attributes) == t[y].isDir
            && e.written == t[y].filetime && e.name == t[y].name && e.hash == t[y].hash
            && (t[y].isDir || t[y].hash == NO_HASH ==> e.res == None && !e.missing)
            && (!t[y].isDir && t[y].hash != NO_HASH && t[y].hash in streams ==>
                  e.res == Some(streams[t[y].hash]) && !e.missing)
  {
    hide Linked, BuiltFrom, Sort;
  }

  /** The stream a hash finds is one that was written with that hash. */
  lemma HashedStream(file: seq<byte>, log: seq<Logged>, end: nat, blobs: seq<BlobEntry>, byHash: map<seq<byte>, nat>,
                     images: seq<ImageEntry>,
                     lzx: bool, chunk: nat, hash: Capture.Hasher, x: Index, h: seq<byte>) returns (l: Logged)
    requires chunk > 0 && Tiled(log, HEADER_SIZE, end) && AllHeld(file, log, lzx, chunk) &&
             Indexed(blobs, byHash, StreamsOf(log), hash)
    requires Agrees(x, blobs, byHash, images) && h in byHash
    ensures h in x.streams && l in log && hash(l.data) == h && x.streams[h] == l.res && HoldsAt(file, l, lzx, chunk)
  {
    hide StreamsOf, MetasOf, Tiled, HoldsAt, IsMetadata;
    assert HashIndexed(blobs, byHash, h) && (h in x.streams || h !in x.streams);
    var j := byHash[h];
    assert EntryIndexed(blobs, byHash, StreamsOf(log), hash, j);
    MetasLater(log, HEADER_SIZE, end);
    l := StreamsOf(log)[j];
    var i :| 0 <= i < |log| && log[i] == l;
    assert HoldsAt(file, log[i], lzx, chunk);
  }

  // ---------- the whole way ----------

  /** The reader takes no resource longer than its limit. */
  ghost predicate NoneTooLong(wr: Writer)
    reads wr
  {
    forall l {:trigger l in wr.log} :: l in wr.log ==> |l.data| <= MAX_RESOURCE_SIZE
  }

  /** The reader takes no tree too deep or too big, and the security table's length has a field of 32 bits. */
  ghost predicate WithinReach(r: Recorded)
  {
    && TreeMeasures.Shallow(r.vs)
    && 8 + 8 * |r.c.security| + MetadataQueue.Total(r.c.security) < 0x1_0000_0000
  }

  /** A sealed WIM, which opens, and image k of it, which can be read. */
  ghost predicate Restorable(wr: Writer, k: nat)
    reads wr, wr.dst
  {
    wr.Sealed() && wr.Modest() && NoneTooLong(wr) && k < |wr.records| && WithinReach(wr.records[k])
  }

  /** Image k's tree is the captured one. */
  lemma TreeRestored(wr: Writer, k: nat)
    requires Restorable(wr, k)
    ensures Open(wr.dst.bytes).Some? && Linked(wr.records[k].c.nodes, wr.records[k].parent)
    ensures var w, r := Open(wr.dst.bytes).value, wr.records[k];
            && ImageTree(wr.dst.bytes, w, k + 1) == Some(BuiltNode(r.c.nodes, r.parent, w.x.streams, 0))
            && Ordered([ImageTree(wr.dst.bytes, w, k + 1).value])
  {
    hide Open, HoldsAt, StreamsOf, Tiled, Linked, WithinLimits, TreeMeasures.Shallow, Indexed, Parse, ReadWhole,
      PowerOfTwo, References, OneBoot, BuiltNode, Ordered, Size, Nested;
    hide Capture.Faithful, Capture.Walk, AllStored, FitsFields, HeaderOf, MetadataQueue.Total, MetasOf, Capturable;
    var w, r, l := Open(wr.dst.bytes).value, wr.records[k], MetasOf(wr.log)[k];
    MetaInLog(wr, k);
    assert wr.images[k].res == l.res && l.data == r.md;
    ResOfIs(wr.images, k);
    HeldReadsWhole(wr.dst.bytes, l, wr.lzx, wr.Chunk());
    assert Kept(r, wr.byHash, wr.hash);
    ReachIsLimits(wr, k);
    ParsesAsCaptured(r, w.x.streams);
    FileInWord(wr);
    ParsedIsBounded(r.md, w.x.streams);
  }

  lemma FileInWord(wr: Writer)
    requires wr.Modest()
    ensures |wr.dst.bytes| < WORD
  {
  }

  lemma ResOfIs(images: seq<ImageEntry>, i: nat)
    requires i < |images|
    ensures ResOf(images)[i] == images[i].res
  {
    SealedWim.ResOfAt(images, i);
  }

  lemma MetaInLog(wr: Writer, k: nat)
    requires Restorable(wr, k)
    ensures k < |MetasOf(wr.log)| && k < |wr.images| && HoldsAt(wr.dst.bytes, MetasOf(wr.log)[k], wr.lzx, wr.Chunk())
    ensures |wr.dst.bytes| < WORD && |MetasOf(wr.log)[k].data| <= MAX_RESOURCE_SIZE
  {
    hide Open, HoldsAt, StreamsOf, Tiled, WithinReach, Indexed, PowerOfTwo, References, OneBoot, MetasOf, AllKept,
      Agrees;
    var end: nat :| Tiled(wr.log, HEADER_SIZE, end);
    MetasLater(wr.log, HEADER_SIZE, end);
    var l := MetasOf(wr.log)[k];
    assert l in wr.log;
    var i :| 0 <= i < |wr.log| && wr.log[i] == l;
    assert HoldsAt(wr.dst.bytes, wr.log[i], wr.lzx, wr.Chunk());
  }

  lemma ParsesAsCaptured(r: Recorded, streams: Streams)
    requires ReadsBack(r) && WithinReach(r) && WithinLimits(r.c.nodes, r.parent) && |r.md| <= MAX_RESOURCE_SIZE
    ensures Parse(r.md, streams) == Some(BuiltNode(r.c.nodes, r.parent, streams, 0))
  {
    hide Parse, BuiltNode, Linked, WithinLimits, MetadataQueue.Total, Capturable, TreeMeasures.Shallow;
    hide MetadataEncoder.Described;
  }

  /** What an opened WIM shows of image k. */
  ghost function TreeOf(wr: Writer, k: nat): (d: Dentry)
    requires Restorable(wr, k)
    reads wr, wr.dst
  {
    TreeRestored(wr, k);
    ImageTree(wr.dst.bytes, Open(wr.dst.bytes).value, k + 1).value
  }

  lemma TreeOfIs(wr: Writer, k: nat)
    requires Restorable(wr, k)
    ensures Open(wr.dst.bytes).Some? && Linked(wr.records[k].c.nodes, wr.records[k].parent)
    ensures var w, r := Open(wr.dst.bytes).value, wr.records[k];
            TreeOf(wr, k) == BuiltNode(r.c.nodes, r.parent, w.x.streams, 0)
    ensures Ordered([TreeOf(wr, k)])
  {
    hide Restorable, Open, ImageTree, BuiltNode, Ordered, WithinReach;
    TreeRestored(wr, k);
    ReachIsLimits(wr, k);
  }

  /** What a walk within reach was captured as is within the reader's limits. */
  lemma ReachIsLimits(wr: Writer, k: nat)
    requires Restorable(wr, k)
    ensures k < |wr.records| && Linked(wr.records[k].c.nodes, wr.records[k].parent)
    ensures WithinLimits(wr.records[k].c.nodes, wr.records[k].parent)
  {
    hide Linked, Writer.Sealed, Writer.Modest, WithinLimits, Capture.Walk, Capture.Grown, TreeMeasures.Shallow,
      Capturable, AllStored;
    CapturedAs(wr, k);
    var r := wr.records[k];
    TreeMeasures.ShallowIsWithin(r.c.nodes, r.parent, r.vs, r.c.security, wr.hash);
  }

  lemma CapturedAs(wr: Writer, k: nat)
    requires Restorable(wr, k)
    ensures k < |wr.records|
    ensures var r := wr.records[k];
            && Capture.Walk(r.vs) && Capture.Grown(r.c.nodes, r.parent, r.vs, r.c.security, wr.hash) &&
               |r.c.nodes| == |r.vs|
            && r.vs != [] && Linked(r.c.nodes, r.parent) && AllStored(r.c, r.vs, wr.byHash) &&
               Capturable(r.c.nodes, r.parent)
  {
    hide Open, Linked, AllHeld, Indexed, Imaged, MetasHold, PowerOfTwo, References, OneBoot, Capture.Walk,
      Capture.Grown, Capturable, AllStored, Agrees;
    hide StreamsOf, MetasOf, Tiled, WithinLimits, MetadataQueue.Total, TreeMeasures.Shallow;
    assert Kept(wr.records[k], wr.byHash, wr.hash);
    CapturableLinked(wr.records[k].c, wr.records[k].parent);
    LinkedSome(wr.records[k].c.nodes, wr.records[k].parent);
  }

  lemma LinkedSome(t: seq<Node>, parent: seq<nat>)
    requires Linked(t, parent)
    ensures t != []
  {
  }

  /** Every path of image k, and no other, names something: what was found there when it was captured. */
  lemma PathsRestored(wr: Writer, k: nat, cs: seq<Name>)
    requires Restorable(wr, k) && cs != [] && Components(cs)
    ensures Resolved(TreeOf(wr, k), Join(cs)) == NotExist <==> !exists y {:trigger wr.records[k].vs[y]} ::
            0 <= y < |wr.records[k].vs| && wr.records[k].vs[y].path == cs
  {
    hide Restorable, TreeOf, Open, Linked, Leads, Ordered, BuiltNode, Capture.Walk, Capture.Grown, Capturable,
      AllStored, Resolved, Components, Join;
    CapturedAs(wr, k);
    TreeOfIs(wr, k);
    var r, root, streams := wr.records[k], TreeOf(wr, k), Open(wr.dst.bytes).value.x.streams;
    ListedAreFound(root, cs, root);
    if d: Dentry :| Leads(root, cs, d) {
      var y := LeadsToNodes(r.c.nodes, r.parent, r.vs, r.c.security, wr.hash, streams, 0, cs, d);
      RootPath(r.vs);
      assert [] + cs == cs && r.vs[y].path == cs;
    }
    forall y | 0 <= y < |r.vs| && r.vs[y].path == cs
      ensures exists d :: Leads(root, cs, d)
    {
      NodeLeads(r.c.nodes, r.parent, r.vs, r.c.security, wr.hash, streams, y);
    }
  }

  lemma RootPath(vs: seq<Capture.Visit>)
    requires Capture.Walk(vs) && |vs| > 0
    ensures vs[0].path == []
  {
    assert vs[0] == vs[0];
  }

  /** No other bytes have the hash of these. */
  ghost predicate Distinguishes(hash: Capture.Hasher, data: seq<byte>)
  {
    forall s: seq<byte> {:trigger hash(s)} :: hash(s) == hash(data) ==> s == data
  }

  /**
   * An entry says what was found when it was captured, and a file's content is what it was then, hash collisions
   * aside.
   */
  ghost predicate Shows(file: seq<byte>, w: Wim, hash: Capture.Hasher, v: Capture.Visit, d: Dentry)
  {
    && d.name == Capture.Last(v.path) && d.written == v.filetime
    && d.attributes == (if v.kind == Capture.Directory then ATTR_DIRECTORY else ATTR_NORMAL)
    && (IsDirectory(d.attributes) <==> v.kind == Capture.Directory)
    && (v.kind != Capture.Directory ==> Content(file, w, d).Some?)
    && (v.kind == Capture.File && (v.data == [] || Distinguishes(hash, v.data)) ==> Content(file, w, d) == Some(v.data))
  }

  /** What a look-up of the path of visit y finds. */
  ghost function Sought(wr: Writer, k: nat, y: nat): Found
    requires Restorable(wr, k) && y < |wr.records[k].vs|
    reads wr, wr.dst
  {
    var v := wr.records[k].vs[y];
    Resolved(TreeOf(wr, k), if v.path == [] then [DOT] else Join(v.path))
  }

  /** Whatever was captured is found at its path, with its content behind it. */
  lemma VisitRestored(wr: Writer, k: nat, y: nat)
    requires Restorable(wr, k) && y < |wr.records[k].vs|
    ensures Sought(wr, k, y).Hit? && Open(wr.dst.bytes).Some?
    ensures Shows(wr.dst.bytes, Open(wr.dst.bytes).value, wr.hash, wr.records[k].vs[y], Sought(wr, k, y).d)
  {
    hide Restorable, Open, Sought, BuiltNode, Shows;
    VisitFound(wr, k, y);
    NodeShows(wr, k, y);
  }

  /** What is found at a captured path is what its own node was read as. */
  lemma VisitFound(wr: Writer, k: nat, y: nat)
    requires Restorable(wr, k) && y < |wr.records[k].vs|
    ensures Open(wr.dst.bytes).Some? && Linked(wr.records[k].c.nodes, wr.records[k].parent) &&
            y < |wr.records[k].c.nodes|
    ensures var w, r := Open(wr.dst.bytes).value, wr.records[k];
            Sought(wr, k, y) == Hit(BuiltNode(r.c.nodes, r.parent, w.x.streams, y))
  {
    hide Restorable, TreeOf, Open, Linked, Leads, Ordered, BuiltNode, Capture.Walk, Capture.Grown, Capturable,
      AllStored, Components, Join, Shows, Walk, Split;
    CapturedAs(wr, k);
    TreeOfIs(wr, k);
    var r, root, streams := wr.records[k], TreeOf(wr, k), Open(wr.dst.bytes).value.x.streams;
    var v, e := r.vs[y], BuiltNode(r.c.nodes, r.parent, streams, y);
    NodeLeads(r.c.nodes, r.parent, r.vs, r.c.security, wr.hash, streams, y);
    if v.path == [] {
      DotIsRoot(root);
      WalkDistinct(r.vs, y);
    } else {
      PathComponents(r.c.nodes, r.parent, r.vs, r.c.security, wr.hash, y);
      ListedAreFound(root, v.path, e);
    }
  }

  lemma DotIsRoot(root: Dentry)
    ensures Resolved(root, [DOT]) == Hit(root)
  {
  }

  lemma WalkDistinct(vs: seq<Capture.Visit>, y: nat)
    requires Capture.Walk(vs) && y < |vs| && vs[y].path == []
    ensures y == 0
  {
    assert vs[y] == vs[y];
  }

  lemma NodeShows(wr: Writer, k: nat, y: nat)
    requires Restorable(wr, k) && y < |wr.records[k].vs|
    ensures Open(wr.dst.bytes).Some? && Linked(wr.records[k].c.nodes, wr.records[k].parent) &&
            y < |wr.records[k].c.nodes|
    ensures var w, r := Open(wr.dst.bytes).value, wr.records[k];
            Shows(wr.dst.bytes, w, wr.hash, r.vs[y], BuiltNode(r.c.nodes, r.parent, w.x.streams, y))
  {
    hide Restorable, TreeOf, Open, Linked, BuiltNode, Capture.Walk, Capture.Kids, Capture.InParent, Capturable,
      ReadWhole, IsDirectory, Records.Recordable, Capture.Hashes;
    CapturedAs(wr, k);
    TreeRestored(wr, k);
    var w, r := Open(wr.dst.bytes).value, wr.records[k];
    var v, n := r.vs[y], r.c.nodes[y];
    assert Capture.NodeOf(n, v, r.c.security, wr.hash);
    BuiltSays(r.c.nodes, r.parent, w.x.streams, y);
    if Capture.HasStream(v) {
      assert r.c.nodes[y].hash in wr.byHash;
      var l := StreamReads(wr, k, n.hash);
      HashesAll(wr, k, v.data);
    }
  }

  lemma HashesAll(wr: Writer, k: nat, data: seq<byte>)
    requires Restorable(wr, k)
    ensures wr.hash(data) != NO_HASH
  {
    hide Writer.Modest, WithinReach, NoneTooLong, Writer.Tabled, AllHeld, Open, Tiled, LegalChunk;
  }

  /** Every stream the writer knows by a hash can be read by it, and has it. */
  lemma StreamReads(wr: Writer, k: nat, h: seq<byte>) returns (l: Logged)
    requires Restorable(wr, k) && h in wr.byHash
    ensures Open(wr.dst.bytes).Some?
    ensures var w := Open(wr.dst.bytes).value;
            h in w.x.streams && w.x.streams[h] == l.res && l in wr.log && wr.hash(l.data) == h &&
              ReadWhole(wr.dst.bytes, w.x.streams[h], w.chunk) == Some(l.data)
  {
    hide Open, HoldsAt, StreamsOf, MetasOf, Tiled, WithinReach, Indexed, PowerOfTwo, References, OneBoot, AllKept,
      Agrees, AllHeld, ReadWhole, Imaged, MetasHold;
    var end: nat :| Tiled(wr.log, HEADER_SIZE, end);
    var w := Open(wr.dst.bytes).value;
    l := HashedStream(wr.dst.bytes, wr.log, end, wr.blobs, wr.byHash, wr.images, wr.lzx, wr.Chunk(), wr.hash, w.x, h);
    HeldReadsWhole(wr.dst.bytes, l, wr.lzx, wr.Chunk());
  }

  /** The bytes of image k's metadata. */
  lemma MetadataRestored(wr: Writer, k: nat)
    requires Restorable(wr, k)
    ensures Open(wr.dst.bytes).Some?
    ensures var w := Open(wr.dst.bytes).value;
            ImageMeta(w, k + 1).Some? &&
            ReadWhole(wr.dst.bytes, ImageMeta(w, k + 1).value, w.chunk) == Some(wr.records[k].md)
  {
    hide Open, HoldsAt, StreamsOf, Tiled, Linked, WithinLimits, TreeMeasures.Shallow, Indexed, Parse, ReadWhole,
      PowerOfTwo, References, OneBoot, BuiltNode, Ordered, Size, Nested;
    hide Capture.Faithful, Capture.Walk, AllStored, FitsFields, HeaderOf, MetadataQueue.Total, MetasOf, Capturable,
      ReadsBack;
    var w, r, l := Open(wr.dst.bytes).value, wr.records[k], MetasOf(wr.log)[k];
    MetaInLog(wr, k);
    assert wr.images[k].res == l.res && l.data == r.md;
    ResOfIs(wr.images, k);
    HeldReadsWhole(wr.dst.bytes, l, wr.lzx, wr.Chunk());
  }

  /** The record at p is read as visit v, has its time in all three places, and numbers its security descriptor. */
  ghost predicate RecordedAt(md: seq<byte>, v: Capture.Visit, p: nat, isRoot: bool)
    requires |md| < WORD
  {
    && p + 102 <= |md| && v.sd.Some? && MetadataQueue.DescriptorIn(md, Field(md, p + 12, 4)) == v.sd
    && Field(md, p + 40, 8) == Field(md, p + 48, 8) == Field(md, p + 56, 8) == v.filetime
    && var e := ReadEntry(md, p, isRoot, map[]); e.Some? && e.value.d.name == Capture.Last(v.path)
  }

  /** The security descriptor a visit found is in its image's metadata, under the number its record gives. */
  lemma SecurityRestored(wr: Writer, k: nat, y: nat) returns (p: nat)
    requires Restorable(wr, k) && y < |wr.records[k].vs|
    ensures Open(wr.dst.bytes).Some? && ImageMeta(Open(wr.dst.bytes).value, k + 1).Some?
    ensures var w := Open(wr.dst.bytes).value;
            var md := ReadWhole(wr.dst.bytes, ImageMeta(w, k + 1).value, w.chunk);
            md.Some? && |md.value| < WORD && RecordedAt(md.value, wr.records[k].vs[y], p, y == 0)
  {
    hide Open, ReadWhole, RecordedAt;
    MetadataRestored(wr, k);
    p := RecordThere(wr, k, y);
  }

  lemma RecordThere(wr: Writer, k: nat, y: nat) returns (p: nat)
    requires Restorable(wr, k) && y < |wr.records[k].vs|
    ensures |wr.records[k].md| < WORD && RecordedAt(wr.records[k].md, wr.records[k].vs[y], p, y == 0)
  {
    hide HoldsAt, StreamsOf, Tiled, Linked, Indexed, Parse, PowerOfTwo, References, OneBoot, RecordedAt, MetasOf,
      Capturable, MetadataQueue.Total, Capture.Walk, AllStored, FitsFields, HeaderOf, ParsesAs, Capture.BlobsSay,
      TreeMeasures.Shallow, MetadataEncoder.Described, Capture.Grown;
    var r, l := wr.records[k], MetasOf(wr.log)[k];
    MetaInLog(wr, k);
    assert l.data == r.md;
    assert Kept(r, wr.byHash, wr.hash);
    var places :| MetadataEncoder.Described(r.md, r.c.security, r.c.nodes, places);
    p := DescribedRecords(r, wr.hash, places, y);
  }

  lemma DescribedRecords(r: Recorded, hash: Capture.Hasher, places: seq<nat>, y: nat) returns (p: nat)
    requires |r.md| < WORD && y < |r.c.nodes| && Capture.Grown(r.c.nodes, r.parent, r.vs, r.c.security, hash)
    requires MetadataEncoder.Described(r.md, r.c.security, r.c.nodes, places)
    ensures y < |r.vs| && RecordedAt(r.md, r.vs[y], p, y == 0)
  {
    hide Capture.Kids, Capture.InParent, ReadEntry, MetadataQueue.DescriptorIn, Field, Records.Recordable;
    p := places[y];
    var n := r.c.nodes[y];
    assert MetadataEncoder.DescribesNode(r.md, r.c.security, r.c.nodes, places, y);
    assert Capture.NodeOf(n, r.vs[y], r.c.security, hash);
    assert EntryOf(n, map[]).name == n.name;
  }
}
