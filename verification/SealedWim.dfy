/**
 * A sealed WIM opens: its table is read back as the writer's own tables, and its images are numbered in the order
 * they were added.
 */
module SealedWim {
  import opened Bits
  import opened Canonical
  import opened ResourceFormat
  import opened Dentries
  import opened Chunks
  import opened BlobTable
  import opened SealedTable
  import opened WimHeader
  import opened WriterState
  import Capture

  /** The writer's tables, and a file that holds all they list. */
  ghost predicate Tallied(file: seq<byte>, log: seq<Logged>, end: nat, blobs: seq<BlobEntry>,
                          byHash: map<seq<byte>, nat>, images: seq<ImageEntry>,
                         lzx: bool, chunk: nat, hash: Capture.Hasher)
  {
    && chunk > 0 && Tiled(log, HEADER_SIZE, end) && AllHeld(file, log, lzx, chunk)
    && Indexed(blobs, byHash, StreamsOf(log), hash) && Imaged(images, MetasOf(log), hash)
  }

  /** An entry's numbers fit, and its resource lies in the file. */
  ghost predicate EntryStands(e: BlobEntry, size: nat)
  {
    EntryFits(e) && BlobTable.Readable(e, size)
  }

  lemma StreamStands(file: seq<byte>, log: seq<Logged>, end: nat, blobs: seq<BlobEntry>, byHash: map<seq<byte>, nat>,
                     images: seq<ImageEntry>,
                     lzx: bool, chunk: nat, hash: Capture.Hasher, i: nat)
    requires Tallied(file, log, end, blobs, byHash, images, lzx, chunk, hash) && FitsFields(log, file)
    requires i < |blobs| && References(blobs) < 0x1_0000_0000
    ensures EntryStands(blobs[i], |file|) && !IsMetadata(blobs[i].res)
  {
    hide AllHeld, FitsFields, Imaged, StreamsOf, MetasOf, Tiled, References;
    MetasLater(log, HEADER_SIZE, end);
    assert EntryIndexed(blobs, byHash, StreamsOf(log), hash, i);
    LoggedFits(file, log, lzx, chunk, StreamsOf(log)[i]);
    MoreReferences(blobs, i, blobs[i]);
  }

  lemma ImageStands(file: seq<byte>, log: seq<Logged>, end: nat, blobs: seq<BlobEntry>, byHash: map<seq<byte>, nat>,
                    images: seq<ImageEntry>,
                    lzx: bool, chunk: nat, hash: Capture.Hasher, i: nat)
    requires Tallied(file, log, end, blobs, byHash, images, lzx, chunk, hash) && FitsFields(log, file) && i < |images|
    ensures EntryStands(BlobEntry(images[i].res, images[i].hash, 1), |file|) && IsMetadata(images[i].res)
  {
    hide AllHeld, FitsFields, Indexed, StreamsOf, MetasOf, Tiled;
    MetasLater(log, HEADER_SIZE, end);
    assert MetasOf(log)[i] in log && images[i] == images[i];
    LoggedFits(file, log, lzx, chunk, MetasOf(log)[i]);
  }

  lemma AllStand(file: seq<byte>, log: seq<Logged>, end: nat, blobs: seq<BlobEntry>, byHash: map<seq<byte>, nat>,
                 images: seq<ImageEntry>,
                 lzx: bool, chunk: nat, hash: Capture.Hasher)
    requires Tallied(file, log, end, blobs, byHash, images, lzx, chunk, hash) && FitsFields(log, file) &&
             References(blobs) < 0x1_0000_0000
    ensures forall i: nat {:trigger Entries(blobs, images)[i]} :: i < |blobs| + |images| ==>
              EntryStands(Entries(blobs, images)[i], |file|) &&
                (IsMetadata(Entries(blobs, images)[i].res) <==> i >= |blobs|)
  {
    hide Tallied, FitsFields, References, EntryStands, Entries, IsMetadata;
    forall i: nat | i < |blobs| + |images|
      ensures EntryStands(Entries(blobs, images)[i], |file|) &&
              (IsMetadata(Entries(blobs, images)[i].res) <==> i >= |blobs|)
    {
      EntriesAt(blobs, images, i);
      if i < |blobs| {
        StreamStands(file, log, end, blobs, byHash, images, lzx, chunk, hash, i);
      } else {
        ImageStands(file, log, end, blobs, byHash, images, lzx, chunk, hash, i - |blobs|);
      }
    }
  }

  /** What stands, stands when sorted. */
  lemma SortStands(es: seq<BlobEntry>, size: nat)
    requires forall i: nat {:trigger es[i]} :: i < |es| ==> EntryStands(es[i], size)
    ensures AllHashed(SortEntries(es)) && AllReadable(SortEntries(es), size)
  {
    hide SortEntries, HdrFits, BlobTable.Readable;
    SortKeeps(es);
    var s := SortEntries(es);
    forall i | 0 <= i < |s|
      ensures EntryStands(s[i], size)
    {
      assert s[i] in multiset(s);
      var k :| 0 <= k < |es| && es[k] == s[i];
    }
    forall i | 0 <= i < |s|
      ensures |s[i].hash| == 20 && EntryFits(s[i]) && BlobTable.Readable(s[i], size)
    {
      assert EntryStands(s[i], size);
    }
  }

  // ---------- images ----------

  lemma {:induction false} NoMetas(bs: seq<BlobEntry>)
    requires forall i: nat {:trigger bs[i]} :: i < |bs| ==> !IsMetadata(bs[i].res)
    ensures LiveMetas(bs) == []
    decreases |bs|
  {
    hide IsMetadata;
    if bs != [] {
      forall i: nat | i < |bs[1..]|
        ensures !IsMetadata(bs[1..][i].res)
      {
        assert bs[1..][i] == bs[i + 1];
      }
      NoMetas(bs[1..]);
    }
  }

  /** Before sorting, the live metadata is the images', in order. */
  lemma {:induction false} EntriesMetas(blobs: seq<BlobEntry>, images: seq<ImageEntry>)
    requires forall i: nat {:trigger blobs[i]} :: i < |blobs| ==> !IsMetadata(blobs[i].res)
    requires forall i {:trigger images[i]} :: 0 <= i < |images| ==> IsMetadata(images[i].res)
    ensures LiveMetas(Entries(blobs, images)) == ResOf(images)
  {
    hide IsMetadata;
    if images == [] {
      NoMetas(blobs);
    } else {
      var front, last := images[..|images| - 1], images[|images| - 1];
      var e := BlobEntry(last.res, last.hash, 1);
      EntriesMetas(blobs, front);
      LiveMetasConcat(Entries(blobs, front), [e]);
      assert IsMetadata(e.res);
      assert [e][1..] == [] && LiveMetas([e]) == [e.res] + LiveMetas([e][1..]);
    }
  }

  lemma EntriesInOrder(log: seq<Logged>, end: nat, blobs: seq<BlobEntry>, images: seq<ImageEntry>, hash: Capture.Hasher)
    requires Tiled(log, HEADER_SIZE, end) && Imaged(images, MetasOf(log), hash)
    requires forall i: nat {:trigger blobs[i]} :: i < |blobs| ==> !IsMetadata(blobs[i].res)
    ensures MetasInOrder(Entries(blobs, images))
  {
    hide Entries, IsMetadata, MetasOf, Tiled;
    MetasLater(log, HEADER_SIZE, end);
    var es := Entries(blobs, images);
    forall i, j | 0 <= i < j < |es| && IsMetadata(es[i].res) && IsMetadata(es[j].res)
      ensures es[i].res.offset <= es[j].res.offset
    {
      EntriesAt(blobs, images, i);
      EntriesAt(blobs, images, j);
      assert images[i - |blobs|].res == MetasOf(log)[i - |blobs|].res &&
        images[j - |blobs|].res == MetasOf(log)[j - |blobs|].res;
    }
  }

  // ---------- streams ----------

  lemma EntriesDiffer(blobs: seq<BlobEntry>, byHash: map<seq<byte>, nat>, streams: seq<Logged>, images: seq<ImageEntry>,
                      hash: Capture.Hasher)
    requires Indexed(blobs, byHash, streams, hash)
    requires forall i {:trigger images[i]} :: 0 <= i < |images| ==> IsMetadata(images[i].res)
    ensures HashesDiffer(Entries(blobs, images))
  {
    hide Entries, IsMetadata;
    var es := Entries(blobs, images);
    forall i, j | 0 <= i < j < |es| && !IsMetadata(es[i].res) && !IsMetadata(es[j].res)
      ensures es[i].hash != es[j].hash
    {
      EntriesAt(blobs, images, i);
      EntriesAt(blobs, images, j);
      assert EntryIndexed(blobs, byHash, streams, hash, i) && EntryIndexed(blobs, byHash, streams, hash, j);
    }
  }

  /** A hash the writer knows is found in the sorted table, and no other is. */
  lemma {:induction false} HashFound(blobs: seq<BlobEntry>, byHash: map<seq<byte>, nat>, streams: seq<Logged>,
                                     images: seq<ImageEntry>, hash: Capture.Hasher, h: seq<byte>)
    requires Indexed(blobs, byHash, streams, hash) && h != NO_HASH
    requires forall i {:trigger images[i]} :: 0 <= i < |images| ==> IsMetadata(images[i].res)
    ensures FirstStream(SortEntries(Entries(blobs, images)), h)
         == if h in byHash && byHash[h] < |blobs| then Some(blobs[byHash[h]].res) else None
    ensures h in byHash ==> byHash[h] < |blobs|
  {
    hide Entries, IsMetadata, SortEntries, FirstStream, HashesDiffer;
    var es := Entries(blobs, images);
    assert HashIndexed(blobs, byHash, h);
    if h in byHash {
      EntriesDiffer(blobs, byHash, streams, images, hash);
      EntriesAt(blobs, images, byHash[h]);
      assert EntryIndexed(blobs, byHash, streams, hash, byHash[h]);
      SortedFinds(es, byHash[h]);
    } else {
      forall e | e in es && !IsMetadata(e.res)
        ensures e.hash != h
      {
        var i :| 0 <= i < |es| && es[i] == e;
        EntriesAt(blobs, images, i);
        assert EntryIndexed(blobs, byHash, streams, hash, i);
      }
      SortedFindsNone(es, h);
    }
  }

  /** What the sorted table adds up to agrees with the writer's tables. */
  lemma TableAgrees(log: seq<Logged>, end: nat, blobs: seq<BlobEntry>, byHash: map<seq<byte>, nat>,
                    images: seq<ImageEntry>, hash: Capture.Hasher)
    requires Tiled(log, HEADER_SIZE, end) && Indexed(blobs, byHash, StreamsOf(log), hash) &&
             Imaged(images, MetasOf(log), hash)
    ensures Agrees(AddAll(Index(map[], []), SortEntries(Entries(blobs, images))), blobs, byHash, images)
  {
    hide Entries, IsMetadata, SortEntries, FirstStream, MetasOf, StreamsOf, Tiled, AddAll, LiveMetas;
    var es, x := Entries(blobs, images), AddAll(Index(map[], []), SortEntries(Entries(blobs, images)));
    forall i: nat | i < |blobs|
      ensures !IsMetadata(blobs[i].res)
    {
      assert EntryIndexed(blobs, byHash, StreamsOf(log), hash, i);
    }
    forall i | 0 <= i < |images|
      ensures IsMetadata(images[i].res)
    {
      assert images[i] == images[i];
    }
    EntriesInOrder(log, end, blobs, images, hash);
    SortMetas(es);
    EntriesMetas(blobs, images);
    MetasAreLive(Index(map[], []), SortEntries(es));
    assert [] + ResOf(images) == ResOf(images);
    forall h: seq<byte>
      ensures if h in byHash then h in x.streams && byHash[h] < |blobs| && x.streams[h] == blobs[byHash[h]].res
              else h !in x.streams
    {
      AgreesAt(blobs, byHash, StreamsOf(log), images, hash, h);
    }
  }

  lemma NoEmptyHash(blobs: seq<BlobEntry>, byHash: map<seq<byte>, nat>, streams: seq<Logged>, hash: Capture.Hasher)
    requires Indexed(blobs, byHash, streams, hash)
    ensures NO_HASH !in byHash
  {
    hide IsMetadata, NO_HASH;
    assert HashIndexed(blobs, byHash, NO_HASH);
    forall i: nat | i < |blobs|
      ensures blobs[i].hash != NO_HASH
    {
      assert EntryIndexed(blobs, byHash, streams, hash, i);
    }
  }

  lemma AgreesAt(blobs: seq<BlobEntry>, byHash: map<seq<byte>, nat>, streams: seq<Logged>, images: seq<ImageEntry>,
                 hash: Capture.Hasher, h: seq<byte>)
    requires Indexed(blobs, byHash, streams, hash)
    requires forall i {:trigger images[i]} :: 0 <= i < |images| ==> IsMetadata(images[i].res)
    ensures var x := AddAll(Index(map[], []), SortEntries(Entries(blobs, images)));
            if h in byHash then h in x.streams && byHash[h] < |blobs| && x.streams[h] == blobs[byHash[h]].res
            else h !in x.streams
  {
    hide Entries, IsMetadata, SortEntries, FirstStream, AddAll;
    var s := SortEntries(Entries(blobs, images));
    if h == NO_HASH {
      EmptyIsNoStream(Index(map[], []), s);
      NoEmptyHash(blobs, byHash, streams, hash);
    } else {
      HashFound(blobs, byHash, streams, images, hash, h);
      StreamsAreFirst(Index(map[], []), s, h);
    }
  }

  // ---------- opening ----------

  lemma {:induction false} ResOfAt(images: seq<ImageEntry>, i: nat)
    requires i < |images|
    ensures ResOf(images)[i] == images[i].res
  {
    if i < |images| - 1 { ResOfAt(images[..|images| - 1], i); }
  }

  /** The table reads back as the writer's own tables. */
  lemma SealedReads(file: seq<byte>, log: seq<Logged>, end: nat, blobs: seq<BlobEntry>, byHash: map<seq<byte>, nat>,
                    images: seq<ImageEntry>,
                    lzx: bool, chunk: nat, hash: Capture.Hasher, t: ResHdr)
    requires Tallied(file, log, end, blobs, byHash, images, lzx, chunk, hash) && FitsFields(log, file) &&
             References(blobs) < 0x1_0000_0000
    requires images != [] && t.flags == 0 && t.offset + t.size <= |file| &&
             AllHashed(SortEntries(Entries(blobs, images)))
    requires file[t.offset..t.offset + t.size] == PutTable(SortEntries(Entries(blobs, images)))
    ensures var r := BlobTable.ReadTable(file, HeaderOf(images, t)); r.Some? && Agrees(r.value, blobs, byHash, images)
  {
    hide Entries, SortEntries, EntryStands, IsMetadata, Scan, PutTable, AddAll, References, Agrees, AllReadable,
      FitsFields;
    hide Tiled, AllHeld, Indexed, Imaged;
    var es := Entries(blobs, images);
    AllStand(file, log, end, blobs, byHash, images, lzx, chunk, hash);
    SortStands(es, |file|);
    ScanAddsAll(SortEntries(es), Index(map[], []), |file|);
    TableAgrees(log, end, blobs, byHash, images, hash);
    AgreesMetas(AddAll(Index(map[], []), SortEntries(es)), blobs, byHash, images);
    HeaderNames(images, t);
  }

  lemma AgreesMetas(x: Index, blobs: seq<BlobEntry>, byHash: map<seq<byte>, nat>, images: seq<ImageEntry>)
    requires Agrees(x, blobs, byHash, images)
    ensures |x.metas| == |images|
  {
  }

  lemma HeaderNames(images: seq<ImageEntry>, t: ResHdr)
    ensures HeaderOf(images, t).table == t && HeaderOf(images, t).imageCount == |images| &&
            HeaderOf(images, t).bootIndex <= |images|
  {
  }

  /** The image that boots is the one that was marked, or the only one. */
  lemma {:induction false} BootsMarked(x: Index, blobs: seq<BlobEntry>, byHash: map<seq<byte>, nat>,
                                       images: seq<ImageEntry>, t: ResHdr)
    requires Agrees(x, blobs, byHash, images)
    ensures HeaderOf(images, t).bootIndex <= |x.metas|
    ensures BootImage(x, HeaderOf(images, t)) == if BootIndex(images) > 0 then Some(BootIndex(images))
            else if |images| == 1 then Some(1) else None
  {
    if BootIndex(images) > 0 { ResOfAt(images, BootIndex(images) - 1); }
  }
}
