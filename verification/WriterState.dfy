/** What a writer keeps true of its file and its tables, from image to image. */
module WriterState {
  import opened Bits
  import opened Canonical
  import opened ResourceFormat
  import opened Dentries
  import opened Chunks
  import opened BlobTable
  import opened WimHeader
  import RandomAccess
  import Capture

  datatype ImageEntry = ImageEntry(boot: bool, res: ResHdr, hash: seq<byte>)

  /** A resource that has been written, and what of. */
  datatype Logged = Logged(res: ResHdr, data: seq<byte>, flags: nat)

  // ---------- extents ----------

  /** The resources lie end to end from start to end. */
  predicate Tiled(log: seq<Logged>, start: nat, end: nat)
  {
    if log == [] then start == end
    else
      var last := log[|log| - 1].res;
      last.offset + last.size == end && Tiled(log[..|log| - 1], start, last.offset)
  }

  lemma TiledAppend(log: seq<Logged>, start: nat, end: nat, l: Logged)
    requires Tiled(log, start, end) && l.res.offset == end
    ensures Tiled(log + [l], start, end + l.res.size)
  {
    assert (log + [l])[..|log|] == log;
  }

  lemma {:induction false} TiledOrder(log: seq<Logged>, start: nat, end: nat)
    requires Tiled(log, start, end)
    ensures start <= end
    ensures forall i {:trigger log[i]} ::
            0 <= i < |log| ==> start <= log[i].res.offset && log[i].res.offset + log[i].res.size <= end
  {
    if log != [] {
      TiledOrder(log[..|log| - 1], start, log[|log| - 1].res.offset);
      forall i | 0 <= i < |log|
        ensures start <= log[i].res.offset && log[i].res.offset + log[i].res.size <= end
      {
        if i < |log| - 1 { assert log[..|log| - 1][i] == log[i]; }
      }
    }
  }

  /** No two resources overlap: an earlier one ends before a later one begins. */
  lemma {:induction false} TiledApart(log: seq<Logged>, start: nat, end: nat, i: nat, j: nat)
    requires Tiled(log, start, end) && i < j < |log|
    ensures log[i].res.offset + log[i].res.size <= log[j].res.offset
  {
    var front := log[..|log| - 1];
    if j < |log| - 1 {
      TiledApart(front, start, log[|log| - 1].res.offset, i, j);
    } else {
      TiledOrder(front, start, log[j].res.offset);
      assert front[i] == log[i];
    }
  }

  // ---------- contents ----------

  /** The file holds what was logged, stored as the writer stores it. */
  ghost predicate HoldsAt(file: seq<byte>, l: Logged, lzx: bool, chunk: nat)
    requires chunk > 0
  {
    && l.flags <= FLAG_METADATA && l.flags != 1 && l.res.offset + l.res.size <= |file|
    && l.res == HeaderFor(Stored(lzx, LzxEncoder(), l.data, chunk, l.flags), l.data, l.res.offset)
    && file[l.res.offset..l.res.offset + l.res.size] == Stored(lzx, LzxEncoder(), l.data, chunk, l.flags).0
  }

  ghost predicate AllHeld(file: seq<byte>, log: seq<Logged>, lzx: bool, chunk: nat)
    requires chunk > 0
  {
    forall i: nat {:trigger HoldsAt(file, log[i], lzx, chunk)} :: i < |log| ==> HoldsAt(file, log[i], lzx, chunk)
  }

  /** What is written after, or over the header, leaves the resources as they were. */
  lemma StillHeld(before: seq<byte>, after: seq<byte>, log: seq<Logged>, lzx: bool, chunk: nat, start: nat, end: nat)
    requires chunk > 0 && AllHeld(before, log, lzx, chunk) && Tiled(log, start, end)
    requires start <= |before| && end <= |before| <= |after| && after[start..|before|] == before[start..]
    ensures AllHeld(after, log, lzx, chunk)
  {
    hide LzxEncoder, Stored;
    TiledOrder(log, start, end);
    forall i: nat | i < |log|
      ensures HoldsAt(after, log[i], lzx, chunk)
    {
      assert HoldsAt(before, log[i], lzx, chunk);
      var a, b := log[i].res.offset, log[i].res.offset + log[i].res.size;
      SameSlice(before, after, start, a, b);
    }
  }

  lemma SameSlice(before: seq<byte>, after: seq<byte>, start: nat, a: nat, b: nat)
    requires start <= a <= b <= |before| <= |after| && after[start..|before|] == before[start..]
    ensures after[a..b] == before[a..b]
  {
    var s, t := after[a..b], before[a..b];
    forall i | 0 <= i < b - a
      ensures s[i] == t[i]
    {
      assert after[start..|before|][a + i - start] == before[start..][a + i - start];
    }
  }

  /** What is held can be read, if the file is not too long for its offsets. */
  lemma HeldIsReadable(file: seq<byte>, l: Logged, lzx: bool, chunk: nat)
    requires chunk > 0 && HoldsAt(file, l, lzx, chunk) && |file| < WORD
    ensures RandomAccess.Holds(file, l.res, lzx, LzxEncoder(), l.data, chunk)
  {
    hide LzxEncoder, Stored;
  }

  /** Whatever has been logged was compressed when that was due. */
  lemma LoggedWhenDue(file: seq<byte>, l: Logged, lzx: bool, chunk: nat)
    requires chunk > 0 && HoldsAt(file, l, lzx, chunk)
    ensures CompressedWhenDue(l.res, l.data, lzx, LzxEncoder(), chunk, l.flags == FLAG_METADATA)
    ensures l.flags == 0 ==> l.res.size <= |l.data|
  {
    hide Body, LzxEncoder;
  }

  // ---------- streams and images ----------

  predicate IsStream(l: Logged)
  {
    l.flags == 0
  }

  /** The streams that have been written, in order. */
  function StreamsOf(log: seq<Logged>): (s: seq<Logged>)
  {
    if log == [] then []
    else StreamsOf(log[..|log| - 1]) + (if IsStream(log[|log| - 1]) then [log[|log| - 1]] else [])
  }

  function MetasOf(log: seq<Logged>): (s: seq<Logged>)
  {
    if log == [] then []
    else MetasOf(log[..|log| - 1]) + (if IsStream(log[|log| - 1]) then [] else [log[|log| - 1]])
  }

  lemma LogOne(log: seq<Logged>, l: Logged)
    ensures StreamsOf(log + [l]) == StreamsOf(log) + (if IsStream(l) then [l] else [])
    ensures MetasOf(log + [l]) == MetasOf(log) + (if IsStream(l) then [] else [l])
  {
    assert (log + [l])[..|log|] == log;
  }

  /** Entry number i is the resource written of data with its hash, and is found by it. */
  ghost predicate EntryIndexed(blobs: seq<BlobEntry>, byHash: map<seq<byte>, nat>, streams: seq<Logged>,
                               hash: Capture.Hasher, i: nat)
    requires i < |blobs| == |streams|
  {
    var b := blobs[i];
    && b.res == streams[i].res && b.hash == hash(streams[i].data) && |b.hash| == 20 && b.hash != NO_HASH
    && b.hash in byHash && byHash[b.hash] == i && b.refs > 0 && !IsMetadata(b.res)
  }

  ghost predicate HashIndexed(blobs: seq<BlobEntry>, byHash: map<seq<byte>, nat>, h: seq<byte>)
  {
    h in byHash ==> byHash[h] < |blobs| && blobs[byHash[h]].hash == h
  }

  /** Streams and hashes go together one to one. */
  ghost predicate Indexed(blobs: seq<BlobEntry>, byHash: map<seq<byte>, nat>, streams: seq<Logged>,
                          hash: Capture.Hasher)
  {
    && |blobs| == |streams|
    && (forall i: nat {:trigger EntryIndexed(blobs, byHash, streams, hash, i)} ::
          i < |blobs| ==> EntryIndexed(blobs, byHash, streams, hash, i))
    && (forall h {:trigger HashIndexed(blobs, byHash, h)} :: HashIndexed(blobs, byHash, h))
  }

  ghost predicate Imaged(images: seq<ImageEntry>, metas: seq<Logged>, hash: Capture.Hasher)
  {
    |images| == |metas| && forall i {:trigger images[i]} :: 0 <= i < |images| ==>
      images[i].res == metas[i].res && images[i].hash == hash(metas[i].data) && |images[i].hash| == 20 &&
        IsMetadata(images[i].res)
  }

  function References(bs: seq<BlobEntry>): (n: nat)
  {
    if bs == [] then 0 else References(bs[..|bs| - 1]) + bs[|bs| - 1].refs
  }

  lemma {:induction false} MoreReferences(bs: seq<BlobEntry>, i: nat, b: BlobEntry)
    requires i < |bs|
    ensures References(bs[i := b]) == References(bs) - bs[i].refs + b.refs && bs[i].refs <= References(bs)
  {
    var front := bs[..|bs| - 1];
    if i < |bs| - 1 {
      MoreReferences(front, i, b);
      assert bs[i := b][..|bs| - 1] == front[i := b];
    } else {
      assert bs[i := b][..|bs| - 1] == front;
    }
  }

  lemma OneMoreEntry(bs: seq<BlobEntry>, b: BlobEntry)
    ensures References(bs + [b]) == References(bs) + b.refs
  {
    assert (bs + [b])[..|bs|] == bs;
  }

  /** At most one image is marked bootable. */
  predicate OneBoot(images: seq<ImageEntry>)
  {
    forall i, j {:trigger images[i], images[j]} :: 0 <= i < j < |images| ==> !(images[i].boot && images[j].boot)
  }

  // ---------- steps ----------

  /** One more resource at the end of the file. */
  lemma ResourceAdded(file: seq<byte>, log: seq<Logged>, lzx: bool, chunk: nat, l: Logged, body: seq<byte>)
    requires chunk > 0 && Tiled(log, HEADER_SIZE, |file|) && AllHeld(file, log, lzx, chunk)
    requires l.flags == 0 || l.flags == FLAG_METADATA
    requires body == Stored(lzx, LzxEncoder(), l.data, chunk, l.flags).0
    requires l.res == HeaderFor(Stored(lzx, LzxEncoder(), l.data, chunk, l.flags), l.data, |file|)
    ensures Tiled(log + [l], HEADER_SIZE, |file + body|) && AllHeld(file + body, log + [l], lzx, chunk)
  {
    hide LzxEncoder, Stored, Tiled;
    TiledOrder(log, HEADER_SIZE, |file|);
    TiledAppend(log, HEADER_SIZE, |file|, l);
    assert (file + body)[HEADER_SIZE..|file|] == file[HEADER_SIZE..];
    StillHeld(file, file + body, log, lzx, chunk, HEADER_SIZE, |file|);
    assert (file + body)[|file|..|file| + |body|] == body;
    forall i: nat | i < |log + [l]|
      ensures HoldsAt(file + body, (log + [l])[i], lzx, chunk)
    {
      if i < |log| { assert HoldsAt(file + body, log[i], lzx, chunk); }
    }
  }

  /** A new stream, indexed by its hash. */
  lemma StreamAdded(blobs: seq<BlobEntry>, byHash: map<seq<byte>, nat>, log: seq<Logged>, hash: Capture.Hasher,
                    l: Logged, b: BlobEntry)
    requires Indexed(blobs, byHash, StreamsOf(log), hash) && l.flags == 0 && !IsMetadata(l.res)
    requires b.res == l.res && b.hash == hash(l.data) && |b.hash| == 20 && b.hash != NO_HASH && b.hash !in byHash &&
             b.refs > 0
    ensures Indexed(blobs + [b], byHash[b.hash := |blobs|], StreamsOf(log + [l]), hash) &&
            MetasOf(log + [l]) == MetasOf(log)
  {
    hide StreamsOf, MetasOf;
    LogOne(log, l);
    var blobs', byHash', streams, streams' := blobs + [b], byHash[b.hash := |blobs|], StreamsOf(log),
      StreamsOf(log + [l]);
    forall i: nat | i < |blobs'|
      ensures EntryIndexed(blobs', byHash', streams', hash, i)
    {
      if i < |blobs| { assert EntryIndexed(blobs, byHash, streams, hash, i); }
    }
    forall h
      ensures HashIndexed(blobs', byHash', h)
    {
      assert HashIndexed(blobs, byHash, h);
    }
  }

  /** A stream seen before, referenced again. */
  lemma ReferenceAdded(blobs: seq<BlobEntry>, byHash: map<seq<byte>, nat>, streams: seq<Logged>, hash: Capture.Hasher,
                       i: nat, refs: nat)
    requires Indexed(blobs, byHash, streams, hash) && i < |blobs|
    ensures Indexed(blobs[i := blobs[i].(refs := blobs[i].refs + refs)], byHash, streams, hash)
  {
    var blobs' := blobs[i := blobs[i].(refs := blobs[i].refs + refs)];
    forall j: nat | j < |blobs'|
      ensures EntryIndexed(blobs', byHash, streams, hash, j)
    {
      assert EntryIndexed(blobs, byHash, streams, hash, j);
    }
    forall h
      ensures HashIndexed(blobs', byHash, h)
    {
      assert HashIndexed(blobs, byHash, h);
    }
  }

  lemma ImageAdded(images: seq<ImageEntry>, log: seq<Logged>, hash: Capture.Hasher, l: Logged, im: ImageEntry)
    requires Imaged(images, MetasOf(log), hash) && l.flags == FLAG_METADATA && IsMetadata(l.res)
    requires im.res == l.res && im.hash == hash(l.data) && |im.hash| == 20
    ensures Imaged(images + [im], MetasOf(log + [l]), hash) && StreamsOf(log + [l]) == StreamsOf(log)
  {
    hide MetasOf;
    LogOne(log, l);
  }

  // ---------- sealing ----------

  /** All the entries of the table: the streams, and each image's metadata with one reference. */
  function Entries(blobs: seq<BlobEntry>, images: seq<ImageEntry>): (es: seq<BlobEntry>)
    ensures |es| == |blobs| + |images|
  {
    if images == [] then blobs
    else Entries(blobs, images[..|images| - 1]) + [BlobEntry(images[|images| - 1].res, images[|images| - 1].hash, 1)]
  }

  lemma {:induction false} EntriesAt(blobs: seq<BlobEntry>, images: seq<ImageEntry>, i: nat)
    requires i < |blobs| + |images|
    ensures Entries(blobs, images)[i]
         == if i < |blobs| then blobs[i] else BlobEntry(images[i - |blobs|].res, images[i - |blobs|].hash, 1)
  {
    if images != [] && i < |blobs| + |images| - 1 {
      EntriesAt(blobs, images[..|images| - 1], i);
    }
  }

  function ResOf(images: seq<ImageEntry>): (rs: seq<ResHdr>)
    ensures |rs| == |images|
  {
    if images == [] then [] else ResOf(images[..|images| - 1]) + [images[|images| - 1].res]
  }

  /** The index agrees with the writer's own tables: images in the order they were added, streams by their hashes. */
  ghost predicate Agrees(x: Index, blobs: seq<BlobEntry>, byHash: map<seq<byte>, nat>, images: seq<ImageEntry>)
  {
    && x.metas == ResOf(images)
    && forall h {:trigger h in x.streams} :: if h in byHash then
      h in x.streams && byHash[h] < |blobs| && x.streams[h] == blobs[byHash[h]].res
                                             else h !in x.streams
  }

  /** The number of the bootable image, counting from 1, or 0. */
  function BootIndex(images: seq<ImageEntry>): (i: nat)
    ensures i <= |images| && (i > 0 ==> images[i - 1].boot)
    ensures i == 0 ==> forall k :: 0 <= k < |images| ==> !images[k].boot
  {
    if images == [] then 0
    else if images[|images| - 1].boot then |images|
    else BootIndex(images[..|images| - 1])
  }

  const NO_RESOURCE: ResHdr := ResHdr(0, 0, 0, 0)

  function HeaderOf(images: seq<ImageEntry>, table: ResHdr): Header
  {
    var b := BootIndex(images);
    Header(table, |images|, b, if b > 0 then images[b - 1].res else NO_RESOURCE)
  }

  lemma {:induction false} MetasLater(log: seq<Logged>, start: nat, end: nat)
    requires Tiled(log, start, end)
    ensures forall i, j {:trigger MetasOf(log)[i], MetasOf(log)[j]} ::
            0 <= i < j < |MetasOf(log)| ==> MetasOf(log)[i].res.offset <= MetasOf(log)[j].res.offset
    ensures forall i {:trigger MetasOf(log)[i]} :: 0 <= i < |MetasOf(log)| ==> MetasOf(log)[i] in log
    ensures forall i {:trigger StreamsOf(log)[i]} :: 0 <= i < |StreamsOf(log)| ==> StreamsOf(log)[i] in log
  {
    if log != [] {
      var front, last := log[..|log| - 1], log[|log| - 1];
      MetasLater(front, start, last.res.offset);
      TiledOrder(front, start, last.res.offset);
      assert log == front + [last];
    }
  }

  /** Everything that is logged fits the fields it is recorded in. */
  ghost predicate FitsFields(log: seq<Logged>, file: seq<byte>)
  {
    |file| < 0x100_0000_0000_0000 && forall l {:trigger l in log} :: l in log ==> |l.data| < WORD
  }

  lemma LoggedFits(file: seq<byte>, log: seq<Logged>, lzx: bool, chunk: nat, l: Logged)
    requires chunk > 0 && AllHeld(file, log, lzx, chunk) && FitsFields(log, file) && l in log
    ensures HdrFits(l.res) && l.res.size < 0x100_0000_0000_0000 && l.res.offset <= |file| &&
            l.res.size <= |file| - l.res.offset
    ensures l.res.flags <= 6 && l.res.flags / 16 % 2 == 0 && l.res.flags / 8 % 2 == 0
  {
    hide LzxEncoder, Body;
    var i :| 0 <= i < |log| && log[i] == l;
    assert HoldsAt(file, log[i], lzx, chunk);
  }

  // ---------- the compressed resources ----------

  lemma CompressedSome(file: seq<byte>, l: Logged, lzx: bool, chunk: nat)
    requires chunk > 0 && HoldsAt(file, l, lzx, chunk) && IsCompressed(l.res)
    ensures l.res.size > 0
  {
    hide Body, LzxEncoder;
    if l.data != [] { BodySome(l.data, chunk); }
  }

  /** The compressed resource at each offset. */
  function KnownOf(log: seq<Logged>): (known: map<nat, ResHdr>)
  {
    if log == [] then map[]
    else
      var known, res := KnownOf(log[..|log| - 1]), log[|log| - 1].res;
      if IsCompressed(res) then known[res.offset := res] else known
  }

  /** No two of them begin at one place, so every one of them is known by its offset. */
  lemma {:induction false} LoggedIsKnown(file: seq<byte>, log: seq<Logged>, start: nat, end: nat, lzx: bool, chunk: nat,
                                         i: nat)
    requires chunk > 0 && Tiled(log, start, end) && AllHeld(file, log, lzx, chunk) && i < |log| &&
             IsCompressed(log[i].res)
    ensures log[i].res.offset in KnownOf(log) && KnownOf(log)[log[i].res.offset] == log[i].res
    decreases |log|
  {
    hide HoldsAt, IsCompressed;
    if i < |log| - 1 {
      var front := log[..|log| - 1];
      forall j: nat | j < |front|
        ensures HoldsAt(file, front[j], lzx, chunk)
      {
        assert HoldsAt(file, log[j], lzx, chunk);
      }
      LoggedIsKnown(file, front, start, log[|log| - 1].res.offset, lzx, chunk, i);
      TiledApart(log, start, end, i, |log| - 1);
      assert HoldsAt(file, log[i], lzx, chunk);
      CompressedSome(file, log[i], lzx, chunk);
    }
  }
}
