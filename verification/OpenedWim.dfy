/** Reading a written WIM through a caching reader: what the writer logged is all that opening a file of it needs. */
module OpenedWim {
  import opened Bits
  import opened Canonical
  import opened Chunks
  import opened ResourceFormat
  import opened Dentries
  import opened FileTree
  import opened TreeRoundTrip
  import opened BlobTable
  import opened WimHeader
  import opened WriterState
  import opened ImageRecords
  import opened WimWriter
  import opened WimRoundTrip
  import opened ResourceReader
  import opened FileReader
  import Capture
  import RandomAccess
  import Records

  /** A reader of the sealed file, with nothing remembered that is not so. */
  ghost predicate ReaderOf(wr: Writer, rd: Reader)
    reads wr, wr.dst, rd
  {
    && rd.Valid() && rd.r.data == wr.dst.bytes && wr.Chunk() > 0
    && rd.chunkSize == RandomAccess.ReaderChunk(wr.lzx, wr.Chunk()) && rd.known == KnownOf(wr.log)
  }

  /** A file of this content can be opened at the resource. */
  ghost predicate Opens(wr: Writer, rd: Reader, res: ResHdr, content: seq<byte>)
    reads wr
  {
    wr.Chunk() > 0 && rd.Knows(res) && RandomAccess.Holds(rd.r.data, res, wr.lzx, LzxEncoder(), content, wr.Chunk())
  }

  lemma LoggedOpens(wr: Writer, rd: Reader, k: nat, l: Logged)
    requires Restorable(wr, k) && ReaderOf(wr, rd) && l in wr.log
    ensures Opens(wr, rd, l.res, l.data)
  {
    hide Open, HoldsAt, StreamsOf, MetasOf, Tiled, WithinReach, Indexed, PowerOfTwo, References, OneBoot, AllKept,
      Agrees, KnownOf,
      Imaged, MetasHold, RandomAccess.Holds, Reader.Valid, IsCompressed;
    var end: nat :| Tiled(wr.log, HEADER_SIZE, end);
    var i: nat :| i < |wr.log| && wr.log[i] == l;
    assert HoldsAt(wr.dst.bytes, wr.log[i], wr.lzx, wr.Chunk());
    HeldIsReadable(wr.dst.bytes, l, wr.lzx, wr.Chunk());
    HeldInside(wr.dst.bytes, l, wr.lzx, wr.Chunk());
    if IsCompressed(l.res) { LoggedIsKnown(wr.dst.bytes, wr.log, HEADER_SIZE, end, wr.lzx, wr.Chunk(), i); }
  }

  lemma HeldInside(file: seq<byte>, l: Logged, lzx: bool, chunk: nat)
    requires chunk > 0 && HoldsAt(file, l, lzx, chunk) && |file| < WORD
    ensures Inside(file, l.res)
  {
    hide LzxEncoder, Stored;
  }

  /** What a file that was captured is read as can be opened, and has the content it had then, hash collisions aside. */
  lemma VisitOpens(wr: Writer, rd: Reader, k: nat, y: nat) returns (content: seq<byte>)
    requires Restorable(wr, k) && ReaderOf(wr, rd) && y < |wr.records[k].vs| && wr.records[k].vs[y].kind == Capture.File
    ensures Sought(wr, k, y).Hit? && !Sought(wr, k, y).d.missing
    ensures var v, d := wr.records[k].vs[y], Sought(wr, k, y).d;
            match d.res
            case None => content == [] == v.data
            case Some(res) => v.data != [] && Opens(wr, rd, res, content) && wr.hash(content) == wr.hash(v.data)
  {
    hide Restorable, Open, Sought, BuiltNode, ReaderOf, Opens, Capture.Kids, Capture.InParent, Capturable, ReadWhole,
      Records.Recordable, Capture.Walk, AllStored;
    VisitFound(wr, k, y);
    CapturedAs(wr, k);
    var w, r := Open(wr.dst.bytes).value, wr.records[k];
    var v, n := r.vs[y], r.c.nodes[y];
    assert Capture.NodeOf(n, v, r.c.security, wr.hash);
    NodeRecordable(r.c.nodes, r.parent, y);
    BuiltSays(r.c.nodes, r.parent, w.x.streams, y);
    content := [];
    if Capture.HasStream(v) {
      NodeStored(r.c, r.vs, wr.byHash, y);
      var l := StreamReads(wr, k, n.hash);
      HashesAll(wr, k, v.data);
      LoggedOpens(wr, rd, k, l);
      content := l.data;
    }
  }

  lemma NodeRecordable(t: seq<Records.Node>, parent: seq<nat>, y: nat)
    requires Capturable(t, parent) && y < |t|
    ensures Records.Recordable(t[y])
  {
  }

  lemma NodeStored(c: Capture.Captured, vs: seq<Capture.Visit>, byHash: map<seq<byte>, nat>, y: nat)
    requires AllStored(c, vs, byHash) && y < |c.nodes| && Capture.HasStream(vs[y])
    ensures c.nodes[y].hash in byHash
  {
    assert c.nodes[y] == c.nodes[y];
  }

  /** Opens a file that was captured: reading it, in whatever pieces, gives what it held then. */
  method OpenVisited(rd: Reader, d: Dentry, ghost wr: Writer, ghost k: nat, ghost y: nat) returns (f: File)
    requires Restorable(wr, k) && ReaderOf(wr, rd) && y < |wr.records[k].vs| && wr.records[k].vs[y].kind == Capture.File
    requires Sought(wr, k, y) == Hit(d)
    ensures f.Valid() && f.rd == rd && f.off == 0 && fresh(f) && fresh(f.cache) && fresh(f.cache.data) &&
            fresh(f.cache.raw)
    ensures var v := wr.records[k].vs[y]; v.data == [] || Distinguishes(wr.hash, v.data) ==> f.content == v.data
  {
    hide Restorable, Sought, LzxEncoder, RandomAccess.Holds, Reader.Valid, Reader.Knows, LegalChunk;
    ghost var content := VisitOpens(wr, rd, k, y);
    match d.res
    case None => f := new File(rd, false, ResHdr(0, 0, 0, 0), wr.lzx, wr.Chunk(), content);
    case Some(res) => f := new File(rd, true, res, wr.lzx, wr.Chunk(), content);
  }
}
