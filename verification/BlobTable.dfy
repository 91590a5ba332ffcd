/** The table of stored resources: how it is written, and what a reader makes of any table. */
module BlobTable {
  import opened Bits
  import opened BitStream
  import opened Canonical
  import opened LittleEndian
  import opened ResourceFormat
  import opened Dentries

  const BLOB_ENTRY_SIZE: nat := 50
  const FLAG_SPANNED: nat := 8
  const FLAG_SOLID: nat := 16

  datatype BlobEntry = BlobEntry(res: ResHdr, hash: seq<byte>, refs: nat)

  // ---------- one resource header ----------

  /** Seven bytes of size and one of flags, then the offset and the uncompressed size. */
  function PutResHdr(r: ResHdr): (b: seq<byte>)
    ensures |b| == 24
  {
    Put(r.size, 7) + Put(r.flags, 1) + Put(r.offset, 8) + Put(r.uncompressed, 8)
  }

  function GetResHdr(b: seq<byte>): (r: ResHdr)
    requires |b| >= 24
  {
    ResHdr(Get(b[0..7]), Get(b[7..8]), Get(b[8..16]), Get(b[16..24]))
  }

  /** Fields that are the width the format gives them. */
  predicate HdrFits(r: ResHdr)
  {
    r.flags < 0x100 && r.offset < WORD && r.uncompressed < WORD
  }

  /** A header survives the trip just when its size fits seven bytes. */
  lemma ResHdrRoundTrip(r: ResHdr)
    requires HdrFits(r)
    ensures GetResHdr(PutResHdr(r)) == r <==> r.size < 0x100_0000_0000_0000
  {
    hide Put, Get, Bound;
    HdrBounds();
    var b := PutResHdr(r);
    assert b[0..7] == Put(r.size, 7) && b[7..8] == Put(r.flags, 1) && b[8..16] == Put(r.offset, 8) &&
      b[16..24] == Put(r.uncompressed, 8);
    GetPut(r.flags, 1);
    GetPut(r.offset, 8);
    GetPut(r.uncompressed, 8);
    if r.size < Bound(7) { GetPut(r.size, 7); }
    assert Get(b[0..7]) < Bound(7);
  }

  lemma HdrBounds()
    ensures Bound(1) == 0x100 && Bound(4) == 0x1_0000_0000 && Bound(7) == 0x100_0000_0000_0000 && Bound(8) == WORD
  {
    Bounds();
  }

  // ---------- the table ----------

  /** A resource header, the part number, the reference count and the stream's hash. */
  function PutEntry(e: BlobEntry): (b: seq<byte>)
    requires |e.hash| == 20
    ensures |b| == BLOB_ENTRY_SIZE
  {
    PutResHdr(e.res) + Put(1, 2) + Put(e.refs, 4) + e.hash
  }

  predicate AllHashed(es: seq<BlobEntry>)
  {
    forall i {:trigger es[i]} :: 0 <= i < |es| ==> |es[i].hash| == 20
  }

  function PutTable(es: seq<BlobEntry>): (b: seq<byte>)
    requires AllHashed(es)
    ensures |b| == BLOB_ENTRY_SIZE * |es|
  {
    if es == [] then [] else PutEntry(es[0]) + PutTable(es[1..])
  }

  method EncodeBlobTable(es: seq<BlobEntry>) returns (b: seq<byte>)
    requires AllHashed(es)
    ensures b == PutTable(es)
  {
    hide PutEntry;
    b := [];
    assert es[0..] == es;
    for i := 0 to |es|
      invariant b + PutTable(es[i..]) == PutTable(es)
    {
      assert es[i..][1..] == es[i + 1..];
      ConcatAssoc(b, PutEntry(es[i]), PutTable(es[i + 1..]));
      b := b + PutEntry(es[i]);
    }
  }

  // ---------- reading ----------

  function EntryAt(b: seq<byte>): (e: BlobEntry)
    requires |b| == BLOB_ENTRY_SIZE
    ensures |e.hash| == 20
  {
    BlobEntry(GetResHdr(b), b[30..50], Get(b[26..30]))
  }

  /** An entry the reader can use: in one piece, in this file, and inside it. */
  predicate Readable(e: BlobEntry, size: nat)
  {
    e.res.flags / FLAG_SOLID % 2 == 0 && e.res.flags / FLAG_SPANNED % 2 == 0 && e.res.offset <= size &&
      e.res.size <= size - e.res.offset
  }

  /** The streams by hash, and the images' metadata in the order of the table. */
  datatype Index = Index(streams: Streams, metas: seq<ResHdr>)

  /** What one entry adds: a stream not seen before, or an image's metadata unless it has been superseded. */
  function AddEntry(x: Index, e: BlobEntry): Index
  {
    if IsMetadata(e.res) then (if e.refs == 0 then x else Index(x.streams, x.metas + [e.res]))
    else if e.hash == NO_HASH || e.hash in x.streams then x
    else Index(x.streams[e.hash := e.res], x.metas)
  }

  /** Reads the entries of the table from the first on. */
  function Scan(tbl: seq<byte>, x: Index, size: nat): (r: Option<Index>)
    decreases |tbl|
  {
    if |tbl| < BLOB_ENTRY_SIZE then Some(x)
    else
      var e := EntryAt(tbl[..BLOB_ENTRY_SIZE]);
      if Readable(e, size) then Scan(tbl[BLOB_ENTRY_SIZE..], AddEntry(x, e), size) else None
  }

  /** What the header says of the table and the images. */
  datatype Header = Header(table: ResHdr, imageCount: nat, bootIndex: nat, bootMeta: ResHdr)

  function ReadTable(file: seq<byte>, h: Header): (r: Option<Index>)
  {
    var t := h.table;
    if IsCompressed(t) || t.offset > |file| || t.size > |file| - t.offset || t.size % BLOB_ENTRY_SIZE != 0 ||
      t.size == 0 then None
    else
      match Scan(file[t.offset..t.offset + t.size], Index(map[], []), |file|)
      case None => None
      case Some(x) => if |x.metas| == h.imageCount && h.bootIndex <= h.imageCount then Some(x) else None
  }

  /**
   * The image to boot, numbered from 1: the one the header names, if its copy of that image's metadata header agrees.
   */
  function BootImage(x: Index, h: Header): (r: Option<nat>)
    requires h.bootIndex <= |x.metas|
    ensures r.Some? ==> 1 <= r.value <= |x.metas|
  {
    if h.bootIndex == 0 then (if |x.metas| == 1 then Some(1) else None)
    else if h.bootMeta.offset != 0 && h.bootMeta.offset != x.metas[h.bootIndex - 1].offset then None
    else Some(h.bootIndex)
  }

  // ---------- what is read of any table ----------

  /** All the entries of a table, added in turn. */
  function AddAll(x: Index, es: seq<BlobEntry>): Index
    decreases |es|
  {
    if es == [] then x else AddAll(AddEntry(x, es[0]), es[1..])
  }

  /** The live metadata among the entries, in order. */
  function LiveMetas(es: seq<BlobEntry>): seq<ResHdr>
  {
    if es == [] then []
    else (if IsMetadata(es[0].res) && es[0].refs != 0 then [es[0].res] else []) + LiveMetas(es[1..])
  }

  /** The first of the entries that is the stream with this hash. */
  function FirstStream(es: seq<BlobEntry>, hash: seq<byte>): Option<ResHdr>
  {
    if es == [] then None
    else if !IsMetadata(es[0].res) && es[0].hash == hash then Some(es[0].res)
    else FirstStream(es[1..], hash)
  }

  /** Images are numbered by the live metadata in table order. */
  lemma {:induction false} MetasAreLive(x: Index, es: seq<BlobEntry>)
    ensures AddAll(x, es).metas == x.metas + LiveMetas(es)
    decreases |es|
  {
    hide IsMetadata;
    if es != [] {
      MetasAreLive(AddEntry(x, es[0]), es[1..]);
      assert (x.metas + [es[0].res]) + LiveMetas(es[1..]) == x.metas + ([es[0].res] + LiveMetas(es[1..]));
      assert [] + LiveMetas(es[1..]) == LiveMetas(es[1..]);
    }
  }

  /** A hash finds the first stream that has it, and the empty stream's finds none. */
  lemma {:induction false} StreamsAreFirst(x: Index, es: seq<BlobEntry>, hash: seq<byte>)
    requires hash != NO_HASH
    ensures var s := AddAll(x, es).streams;
            if hash in x.streams then hash in s && s[hash] == x.streams[hash]
            else match FirstStream(es, hash)
                 case None => hash !in s
                 case Some(r) => hash in s && s[hash] == r
    decreases |es|
  {
    hide IsMetadata;
    if es != [] {
      StreamsAreFirst(AddEntry(x, es[0]), es[1..], hash);
    }
  }

  lemma {:induction false} EmptyIsNoStream(x: Index, es: seq<BlobEntry>)
    requires NO_HASH !in x.streams
    ensures NO_HASH !in AddAll(x, es).streams
    decreases |es|
  {
    if es != [] { EmptyIsNoStream(AddEntry(x, es[0]), es[1..]); }
  }

  // ---------- what is written is read ----------

  /** An entry whose numbers fit their fields. */
  predicate EntryFits(e: BlobEntry)
  {
    HdrFits(e.res) && e.res.size < 0x100_0000_0000_0000 && e.refs < 0x1_0000_0000 && |e.hash| == 20
  }

  lemma EntryRead(e: BlobEntry)
    requires EntryFits(e)
    ensures EntryAt(PutEntry(e)) == e
  {
    hide Put, Get, Bound, PutResHdr, GetResHdr;
    HdrBounds();
    var b, p := PutEntry(e), PutResHdr(e.res);
    assert b == p + (Put(1, 2) + Put(e.refs, 4) + e.hash);
    HdrInFront(p, Put(1, 2) + Put(e.refs, 4) + e.hash);
    ResHdrRoundTrip(e.res);
    assert b[26..30] == Put(e.refs, 4) && b[30..50] == e.hash;
    GetPut(e.refs, 4);
  }

  lemma HdrInFront(p: seq<byte>, rest: seq<byte>)
    requires |p| == 24
    ensures GetResHdr(p + rest) == GetResHdr(p)
  {
    var b := p + rest;
    assert b[0..7] == p[0..7] && b[7..8] == p[7..8] && b[8..16] == p[8..16] && b[16..24] == p[16..24];
  }

  ghost predicate AllReadable(es: seq<BlobEntry>, size: nat)
  {
    forall i {:trigger es[i]} :: 0 <= i < |es| ==> EntryFits(es[i]) && Readable(es[i], size)
  }

  /** A table read back adds up to the entries it was written from. */
  lemma {:induction false} ScanAddsAll(es: seq<BlobEntry>, x: Index, size: nat)
    requires AllHashed(es) && AllReadable(es, size)
    ensures Scan(PutTable(es), x, size) == Some(AddAll(x, es))
    decreases |es|
  {
    hide PutEntry, EntryAt, EntryFits, Readable, AddEntry;
    if es != [] {
      var b := PutTable(es);
      assert b[..BLOB_ENTRY_SIZE] == PutEntry(es[0]) && b[BLOB_ENTRY_SIZE..] == PutTable(es[1..]);
      assert EntryFits(es[0]);
      EntryRead(es[0]);
      ScanAddsAll(es[1..], AddEntry(x, es[0]), size);
    }
  }

  // ---------- the computation ----------

  /** Reads the table into an index. */
  method ReadBlobTable(file: seq<byte>, h: Header) returns (ok: bool, x: Index)
    ensures ReadTable(file, h) == if ok then Some(x) else None
  {
    x := Index(map[], []);
    var t := h.table;
    if IsCompressed(t) { return false, x; }
    if t.offset > |file| || t.size > |file| - t.offset { return false, x; }
    if t.size % BLOB_ENTRY_SIZE != 0 { return false, x; }
    var n := t.size / BLOB_ENTRY_SIZE;
    if n == 0 { return false, x; }
    var tbl := file[t.offset..t.offset + t.size];
    ok, x := ReadEntries(tbl, n, |file|);
    if !ok { return; }
    if |x.metas| != h.imageCount { return false, x; }
    if h.bootIndex > h.imageCount { return false, x; }
  }

  method ReadEntries(tbl: seq<byte>, n: nat, size: nat) returns (ok: bool, x: Index)
    requires |tbl| == n * BLOB_ENTRY_SIZE
    ensures Scan(tbl, Index(map[], []), size) == if ok then Some(x) else None
  {
    hide EntryAt, AddEntry, Readable;
    x := Index(map[], []);
    ghost var start := Scan(tbl, x, size);
    assert tbl[0..] == tbl;
    for i := 0 to n
      invariant Scan(tbl[i * BLOB_ENTRY_SIZE..], x, size) == start
    {
      var o := i * BLOB_ENTRY_SIZE;
      ghost var rest := tbl[o..];
      assert rest[..BLOB_ENTRY_SIZE] == tbl[o..o + BLOB_ENTRY_SIZE] &&
        rest[BLOB_ENTRY_SIZE..] == tbl[o + BLOB_ENTRY_SIZE..];
      var e := EntryAt(tbl[o..o + BLOB_ENTRY_SIZE]);
      if !Readable(e, size) { return false, x; }
      x := AddEntry(x, e);
    }
    ok := true;
  }

  // ---------- what any accepted table gives ----------

  /** Entry k of a table names bytes inside a file of this size, stored in one piece by themselves. */
  predicate EntryInFile(tbl: seq<byte>, k: nat, size: nat)
    requires 50 * k + 50 <= |tbl|
  {
    var o := 50 * k;
    tbl[o + 7] / 8 % 2 == 0 && tbl[o + 7] / 16 % 2 == 0 && Get(tbl[o + 8..o + 16]) + Get(tbl[o..o + 7]) <= size
  }

  ghost predicate AllInFile(tbl: seq<byte>, size: nat)
  {
    forall k: nat {:trigger EntryInFile(tbl, k, size)} :: 50 * k + 50 <= |tbl| ==> EntryInFile(tbl, k, size)
  }

  lemma FirstInFile(tbl: seq<byte>, size: nat)
    requires |tbl| >= 50
    ensures Readable(EntryAt(tbl[..50]), size) <==> EntryInFile(tbl, 0, size)
  {
    hide Get, Bound;
    var b := tbl[..50];
    assert b[0..7] == tbl[0..7] && b[7..8] == [tbl[7]] && b[8..16] == tbl[8..16];
    OneByte(tbl[7]);
  }

  lemma OneByte(x: byte)
    ensures Get([x]) == x
  {
    assert [x][1..] == [];
  }

  lemma RestInFile(tbl: seq<byte>, k: nat, size: nat)
    requires |tbl| >= 50 && 50 * k + 50 <= |tbl[50..]|
    ensures EntryInFile(tbl[50..], k, size) <==> EntryInFile(tbl, k + 1, size)
  {
    hide Get;
    var o, rest := 50 * k, tbl[50..];
    assert rest[o + 8..o + 16] == tbl[o + 58..o + 66] && rest[o..o + 7] == tbl[o + 50..o + 57];
    assert rest[o + 7] == tbl[o + 57];
  }

  /** A table is accepted just when every entry of it names bytes inside the file. */
  lemma {:induction false} ScanAccepts(tbl: seq<byte>, x: Index, size: nat)
    ensures Scan(tbl, x, size).Some? <==> AllInFile(tbl, size)
    decreases |tbl|
  {
    hide EntryAt, AddEntry, EntryInFile, Readable;
    if |tbl| >= 50 {
      var e := EntryAt(tbl[..50]);
      FirstInFile(tbl, size);
      ScanAccepts(tbl[50..], AddEntry(x, e), size);
      forall k: nat | 50 * k + 50 <= |tbl[50..]|
        ensures EntryInFile(tbl[50..], k, size) <==> EntryInFile(tbl, k + 1, size)
      {
        RestInFile(tbl, k, size);
      }
      if AllInFile(tbl[50..], size) && Readable(e, size) {
        forall k: nat | 50 * k + 50 <= |tbl|
          ensures EntryInFile(tbl, k, size)
        {
          if k > 0 { assert EntryInFile(tbl[50..], k - 1, size); }
        }
      }
      if AllInFile(tbl, size) { ShiftInFile(tbl, size); }
    }
  }

  lemma ShiftInFile(tbl: seq<byte>, size: nat)
    requires |tbl| >= 50 && AllInFile(tbl, size)
    ensures AllInFile(tbl[50..], size) && EntryInFile(tbl, 0, size)
  {
    hide EntryInFile;
    forall k: nat | 50 * k + 50 <= |tbl[50..]|
      ensures EntryInFile(tbl[50..], k, size)
    {
      RestInFile(tbl, k, size);
      assert EntryInFile(tbl, k + 1, size);
    }
    assert EntryInFile(tbl, 0, size);
  }

  /**
   * A resource a reader may use: inside a file of this size, and neither part of another nor in more than one piece.
   */
  predicate Sound(r: ResHdr, size: nat)
  {
    r.offset + r.size <= size && r.flags / 8 % 2 == 0 && r.flags / 16 % 2 == 0
  }

  /** Every resource in the index can be read, streams and images apart, and no stream has the empty stream's hash. */
  ghost predicate SoundIndex(x: Index, size: nat)
  {
    && (forall h {:trigger h in x.streams} :: h in x.streams ==>
          Sound(x.streams[h], size) && x.streams[h].flags / 2 % 2 == 0 && h != NO_HASH && |h| == 20)
    && forall i {:trigger x.metas[i]} :: 0 <= i < |x.metas| ==>
         Sound(x.metas[i], size) && x.metas[i].flags / 2 % 2 == 1
  }

  lemma {:induction false} ScanIsSound(tbl: seq<byte>, x: Index, size: nat)
    requires SoundIndex(x, size) && Scan(tbl, x, size).Some?
    ensures SoundIndex(Scan(tbl, x, size).value, size)
    decreases |tbl|
  {
    hide EntryAt, SoundIndex;
    if |tbl| >= 50 {
      var e := EntryAt(tbl[..50]);
      AddedIsSound(x, e, size);
      ScanIsSound(tbl[50..], AddEntry(x, e), size);
    }
  }

  lemma AddedIsSound(x: Index, e: BlobEntry, size: nat)
    requires SoundIndex(x, size) && Readable(e, size) && |e.hash| == 20
    ensures SoundIndex(AddEntry(x, e), size)
  {
  }

  /** Whatever file is opened, what its index names lies in the file, and there are as many images as it says. */
  lemma OpenedIsSound(file: seq<byte>, h: Header)
    requires ReadTable(file, h).Some?
    ensures var x := ReadTable(file, h).value;
            SoundIndex(x, |file|) && |x.metas| == h.imageCount && h.bootIndex <= h.imageCount
  {
    hide Scan, SoundIndex;
    NothingIsSound(|file|);
    ScanIsSound(file[h.table.offset..h.table.offset + h.table.size], Index(map[], []), |file|);
  }

  lemma NothingIsSound(size: nat)
    ensures SoundIndex(Index(map[], []), size)
  {
  }

  /** The fifty bytes of an entry: four numbers, the part number 1, the reference count and the hash. */
  lemma EntryBytes(e: BlobEntry)
    requires EntryFits(e)
    ensures var b := PutEntry(e);
            && |b| == 50 && Get(b[0..7]) == e.res.size && Get(b[7..8]) == e.res.flags
            && Get(b[8..16]) == e.res.offset && Get(b[16..24]) == e.res.uncompressed
            && b[24..26] == [1, 0] && Get(b[26..30]) == e.refs && b[30..50] == e.hash
  {
    hide Put, Get, Bound;
    HdrBounds();
    var b, r := PutEntry(e), e.res;
    assert b[0..7] == Put(r.size, 7) && b[7..8] == Put(r.flags, 1) && b[8..16] == Put(r.offset, 8);
    assert b[16..24] == Put(r.uncompressed, 8) && b[24..26] == Put(1, 2) && b[26..30] == Put(e.refs, 4);
    GetPut(r.size, 7);
    GetPut(r.flags, 1);
    GetPut(r.offset, 8);
    GetPut(r.uncompressed, 8);
    GetPut(e.refs, 4);
    PartOne();
  }

  lemma PartOne()
    ensures Put(1, 2) == [1, 0]
  {
    assert Put(0, 1) == [0] + Put(0, 0);
  }
}
