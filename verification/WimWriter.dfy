/** Writing a WIM: images added one at a time, and the whole sealed at the end. */
module WimWriter {
  import opened Bits
  import opened Canonical
  import opened ResourceFormat
  import opened Names
  import opened Dentries
  import opened Records
  import opened Chunks
  import opened ChunkCompressor
  import opened ResourceWriter
  import opened MetadataEncoder
  import opened BlobTable
  import opened SealedTable
  import opened WimHeader
  import opened WriterState
  import opened SealedWim
  import opened ImageRecords
  import opened TreeRoundTrip
  import opened Rereading
  import opened ReferenceCounts
  import Capture
  import RandomAccess

  // ---------- where it is written ----------

  /** The bytes with b written over those at position at, and past the end where it is longer. */
  function Written(bytes: seq<byte>, at: nat, b: seq<byte>): (r: seq<byte>)
    requires at <= |bytes|
    ensures |r| >= at + |b| && r[..at + |b|] == bytes[..at] + b
  {
    bytes[..at] + b + (if at + |b| <= |bytes| then bytes[at + |b|..] else [])
  }

  /**
   * What is written to, which may hold anything beforehand. Any operation may fail, which is counted, and a failed
   * write may have written some of its bytes.
   */
  class Destination {
    var bytes: seq<byte>
    var at: nat
    ghost var faults: nat

    constructor (bytes: seq<byte>)
      ensures this.bytes == bytes && at == 0 && faults == 0
    {
      this.bytes, at, faults := bytes, 0, 0;
    }

    method SeekStart() returns (ok: bool)
      requires at <= |bytes|
      modifies this`at, this`faults
      ensures at <= |bytes| && (ok ==> at == 0)
      ensures faults >= old(faults) && (ok <==> faults == old(faults))
    {
      ok := *;
      if ok { at := 0; } else { faults := faults + 1; }
    }

    method Write(b: seq<byte>) returns (n: nat, ok: bool)
      requires at <= |bytes|
      modifies this
      ensures n <= |b| && at == old(at) + n && bytes == Written(old(bytes), old(at), b[..n]) && at <= |bytes|
      ensures ok ==> n == |b|
      ensures faults >= old(faults) && (ok <==> faults == old(faults))
    {
      ok := *;
      n := |b|;
      if !ok {
        n :| 0 <= n <= |b|;
        faults := faults + 1;
      }
      bytes, at := Written(bytes, at, b[..n]), at + n;
    }
  }

  lemma WholeWritten(bytes: seq<byte>, at: nat, b: seq<byte>)
    requires at <= |bytes|
    ensures b[..|b|] == b && Written(bytes, at, b[..|b|]) == Written(bytes, at, b)
  {
  }

  datatype Outcome = Refused | Broken | Done

  class Writer {
    const dst: Destination
    const lzx: bool
    const chunkSize: int
    const hasSecurity: bool
    const guid: seq<byte>
    const hash: Capture.Hasher
    const comp: Compressor
    var pos: nat
    var started: bool
    var closed: bool
    var failed: bool
    var blobs: seq<BlobEntry>
    var byHash: map<seq<byte>, nat>
    var images: seq<ImageEntry>
    ghost var log: seq<Logged>
    ghost var records: seq<Recorded>
    ghost var files: nat
    ghost var cancels: nat  // how often the caller has given up

    /** The chunk size, of which zero stands for the default. */
    function Chunk(): int
    {
      if chunkSize == 0 then DEFAULT_CHUNK_SIZE else chunkSize
    }

    /** The file up to here is the place of the header and the resources written so far, end to end. */
    ghost predicate Laid()
      reads this, dst
    {
      && LegalChunk(Chunk()) && HEADER_SIZE <= pos == dst.at <= |dst.bytes|
      && Tiled(log, HEADER_SIZE, pos) && AllHeld(dst.bytes[..pos], log, lzx, Chunk())
    }

    /** The tables describe just what has been written. */
    ghost predicate Tabled()
      reads this
    {
      && Indexed(blobs, byHash, StreamsOf(log), hash) && Imaged(images, MetasOf(log), hash) && OneBoot(images)
      && AllKept(records, byHash, hash) && MetasHold(records, MetasOf(log))
    }

    ghost predicate Settings()
    {
      comp.Shape() && Capture.Hashes(hash) && |guid| == 16
    }

    ghost predicate Untouched()
      reads this
    {
      blobs == [] && byHash == map[] && images == [] && log == [] && records == [] && files == 0
    }

    /** Until it fails or is closed, the file and the tables agree, and every reference is to a file of some image. */
    ghost predicate Valid()
      reads this, dst
    {
      && Settings() && dst.at <= |dst.bytes|
      && (!failed && !closed ==>
            if started then Laid() && Tabled() && References(blobs) == files && CountsUses(blobs, byHash, records, hash)
            else Untouched())
    }

    constructor (dst: Destination, lzx: bool, chunkSize: int, hasSecurity: bool, guid: seq<byte>, hash: Capture.Hasher)
      requires |guid| == 16 && Capture.Hashes(hash) && dst.at <= |dst.bytes|
      ensures Valid() && this.dst == dst && this.lzx == lzx && this.chunkSize == chunkSize &&
              this.hasSecurity == hasSecurity
      ensures !failed && !closed && !started && images == [] && fresh(comp) && fresh(comp.w)
      ensures fresh(comp.head) && fresh(comp.prev) && fresh(comp.buf) && fresh(comp.mainFreq) && fresh(comp.lenFreq) &&
              fresh(comp.alignedFreq)
    {
      hide Capture.Hashes;
      this.dst, this.lzx, this.chunkSize, this.hasSecurity, this.guid, this.hash := dst, lzx, chunkSize, hasSecurity,
        guid, hash;
      comp := new Compressor();
      pos, started, closed, failed := 0, false, false, false;
      blobs, byHash, images := [], map[], [];
      log, records, files, cancels := [], [], 0, 0;
    }

    /** Makes room for the header. */
    method Start() returns (ok: bool)
      requires Valid() && !failed && !closed && LegalChunk(Chunk())
      modifies this`pos, this`started, dst
      ensures dst.at <= |dst.bytes| && dst.faults >= old(dst.faults) && (ok <==> dst.faults == old(dst.faults))
      ensures ok ==>
              started && Laid() && Tabled() && References(blobs) == files && CountsUses(blobs, byHash, records, hash)
      ensures blobs == old(blobs) && byHash == old(byHash) && records == old(records)
    {
      hide StreamsOf, MetasOf, Capture.Hashes, LegalChunk, References, CountsUses;
      if started { return true; }
      ok := dst.SeekStart();
      if !ok { return; }
      var zeros := ZeroBytes(HEADER_SIZE);
      WholeWritten(dst.bytes, dst.at, zeros);
      var n;
      n, ok := dst.Write(zeros);
      if !ok { return; }
      pos := HEADER_SIZE;
      started := true;
      EmptyTables();
    }

    lemma EmptyTables()
      requires Untouched()
      ensures Tabled() && References(blobs) == files && (LegalChunk(Chunk()) ==> Tiled(log, HEADER_SIZE, HEADER_SIZE))
      ensures CountsUses(blobs, byHash, records, hash)
    {
      hide LegalChunk;
    }

    /** Stores data as a resource at the end of the file. */
    method WriteResource(data: seq<byte>, flags: nat) returns (res: ResHdr, ok: bool)
      requires comp.Shape() && Laid() && (flags == 0 || flags == FLAG_METADATA)
      modifies this`pos, this`log, dst, comp, comp.head, comp.prev, comp.buf, comp.mainFreq, comp.lenFreq,
               comp.alignedFreq, comp.w
      ensures comp.Shape() && dst.at <= |dst.bytes|
      ensures dst.faults >= old(dst.faults) && (ok <==> dst.faults == old(dst.faults))
      ensures ok ==>
              Laid() && log == old(log) + [Logged(res, data, flags)] && (IsMetadata(res) <==> flags == FLAG_METADATA)
      ensures ok ==> CompressedWhenDue(res, data, lzx, LzxEncoder(), Chunk(), flags == FLAG_METADATA)
    {
      hide LzxEncoder, ResourceFormat.Stored, CompressedWhenDue, AllHeld, Tiled, PowerOfTwo, Capture.Hashes;
      ghost var file, bytes := dst.bytes[..pos], dst.bytes;
      var body, outFlags := StoreResource(comp, lzx, data, Chunk(), flags);
      StoredFlags(lzx, LzxEncoder(), data, Chunk(), flags);
      var off := pos;
      var n;
      WholeWritten(bytes, off, body);
      n, ok := dst.Write(body);
      pos := pos + n;
      res := ResHdr(|body|, outFlags, off, |data|);
      if ok {
        assert dst.bytes[..pos] == file + body;
        ResourceAdded(file, log, lzx, Chunk(), Logged(res, data, flags), body);
        ElsewhereWhenDue(res, data, lzx, Chunk(), flags);
        log := log + [Logged(res, data, flags)];
      }
    }

    /**
     * Counts the captured stream's references, storing it first unless it is stored already. What is read now must be
     * what was captured.
     */
    method AddStream(b: Capture.Blob, data: Option<seq<byte>>) returns (ok: bool)
      requires comp.Shape() && Capture.Hashes(hash) && Laid() && Tabled() && b.refs > 0
      modifies this`pos, this`log, this`blobs, this`byHash
      modifies dst, comp, comp.head, comp.prev, comp.buf, comp.mainFreq, comp.lenFreq, comp.alignedFreq, comp.w
      ensures comp.Shape() && dst.at <= |dst.bytes|
      ensures dst.faults >= old(dst.faults)
      ensures ok <==> dst.faults == old(dst.faults) && (b.hash in old(byHash) || ReadsAs(data, b.hash, hash))
      ensures ok ==> Laid() && Tabled() && References(blobs) == old(References(blobs)) + b.refs && b.hash in byHash
      ensures forall h {:trigger h in old(byHash)} :: h in old(byHash) ==> h in byHash
      ensures forall h {:trigger h in byHash} :: h in byHash ==> h in old(byHash) || h == b.hash
      ensures ok ==> forall h {:trigger RefsOf(blobs, byHash, h)} ::
                RefsOf(blobs, byHash, h) == RefsOf(old(blobs), old(byHash), h) + (if h == b.hash then b.refs else 0)
    {
      hide RefsOf, LegalChunk, Tiled, AllHeld, Imaged, Indexed, OneBoot, AllKept, MetasHold, StreamsOf, MetasOf,
        References,
        Capture.Hashes, IsMetadata;
      if b.hash in byHash {
        KnownHash(blobs, byHash, StreamsOf(log), hash, b.hash);
        var j := byHash[b.hash];
        ReferenceAdded(blobs, byHash, StreamsOf(log), hash, j, b.refs);
        ghost var more := blobs[j := blobs[j].(refs := blobs[j].refs + b.refs)];
        RefsMore(blobs, byHash, StreamsOf(log), hash, j, b.refs, more);
        MoreReferences(blobs, j, blobs[j].(refs := blobs[j].refs + b.refs));
        blobs := blobs[j := blobs[j].(refs := blobs[j].refs + b.refs)];
        return true;
      }
      if data.None? || hash(data.value) != b.hash { return false; }
      ghost var log0 := log;
      var res;
      res, ok := WriteResource(data.value, 0);
      if !ok { return; }
      var e := BlobEntry(res, b.hash, b.refs);
      HashIs(hash, data.value);
      StreamAdded(blobs, byHash, log0, hash, Logged(res, data.value, 0), e);
      OneMoreEntry(blobs, e);
      RefsNew(blobs, byHash, StreamsOf(log0), hash, e, blobs + [e], byHash[b.hash := |blobs|]);
      KeptStill(records, byHash, byHash[b.hash := |blobs|], hash);
      byHash := byHash[b.hash := |blobs|];
      blobs := blobs + [e];
    }

    /** Stores the captured streams one after another; the caller may give up between any two. */
    method AddStreams(c: Capture.Captured, reread: seq<Name> -> Option<seq<byte>>) returns (ok: bool)
      requires comp.Shape() && Capture.Hashes(hash) && Laid() && Tabled()
      requires forall i {:trigger c.blobs[i]} :: 0 <= i < |c.blobs| ==> c.blobs[i].refs > 0
      requires StreamsDiffer(c.blobs)
      modifies this`pos, this`log, this`blobs, this`byHash, this`cancels
      modifies dst, comp, comp.head, comp.prev, comp.buf, comp.mainFreq, comp.lenFreq, comp.alignedFreq, comp.w
      ensures comp.Shape() && dst.at <= |dst.bytes|
      ensures dst.faults >= old(dst.faults) && cancels >= old(cancels)
      ensures ok <==>
              dst.faults == old(dst.faults) && cancels == old(cancels) &&
              Covered(c.blobs, |c.blobs|, old(byHash), reread, hash)
      ensures ok ==> Laid() && Tabled() && References(blobs) == old(References(blobs)) + Capture.References(c.blobs)
      ensures ok ==> forall i {:trigger c.blobs[i]} :: 0 <= i < |c.blobs| ==> c.blobs[i].hash in byHash
      ensures forall h {:trigger h in old(byHash)} :: h in old(byHash) ==> h in byHash
      ensures ok ==> RefsGrown(old(blobs), old(byHash), blobs, byHash, c.blobs, |c.blobs|)
    {
      hide RefsGrown, RefsOf, Writer.Tabled, Writer.Laid, LegalChunk, References, Capture.References, Capture.Hashes,
        Covered, KnownFrom, StreamsDiffer, ReadsAs;
      NoneCovered(c.blobs, byHash, reread, hash);
      NoReferences(c.blobs);
      RefsGrowNone(blobs, byHash, c.blobs);
      AtInside();
      for i := 0 to |c.blobs|
        invariant comp.Shape() && Laid() && Tabled() && dst.at <= |dst.bytes|
        invariant References(blobs) == old(References(blobs)) + Capture.References(c.blobs[..i])
        invariant forall j {:trigger c.blobs[j]} :: 0 <= j < i ==> c.blobs[j].hash in byHash
        invariant forall h {:trigger h in old(byHash)} :: h in old(byHash) ==> h in byHash
        invariant dst.faults == old(dst.faults) && cancels == old(cancels)
        invariant RefsGrown(old(blobs), old(byHash), blobs, byHash, c.blobs, i)
        invariant KnownFrom(byHash, old(byHash), c.blobs, i) && Covered(c.blobs, i, old(byHash), reread, hash)
      {
        var cancelled: bool := *;
        if cancelled {
          cancels := cancels + 1;
          return false;
        }
        OneMoreCovered(c.blobs, i, byHash, old(byHash), reread, hash);
        ghost var known, entries := byHash, blobs;
        ok := AddStream(c.blobs[i], reread(c.blobs[i].path));
        if !ok { return; }
        OneMoreKnown(known, byHash, old(byHash), c.blobs, i);
        ReferencesNext(c.blobs, i);
        RefsGrowOne(old(blobs), old(byHash), entries, known, blobs, byHash, c.blobs, i);
      }
      ok := true;
    }

    lemma AtInside()
      requires Laid()
      ensures dst.at <= |dst.bytes|
    {
      hide LegalChunk, Tiled, AllHeld;
    }

    method AnyBoot() returns (b: bool)
      ensures b <==> exists i {:trigger images[i]} :: 0 <= i < |images| && images[i].boot
    {
      for i := 0 to |images|
        invariant forall j {:trigger images[j]} :: 0 <= j < i ==> !images[j].boot
      {
        if images[i].boot { return true; }
      }
      b := false;
    }

    /**
     * Captures a tree and adds it as an image. A refusal leaves everything as it was; a failure after that is final.
     */
    method AddImage(vs: seq<Capture.Visit>, boot: bool, reread: seq<Name> -> Option<seq<byte>>) returns (r: Outcome)
      requires Valid() && Capture.Walk(vs) && |vs| < 0x1_0000_0000
      modifies this, dst, comp, comp.head, comp.prev, comp.buf, comp.mainFreq, comp.lenFreq, comp.alignedFreq, comp.w
      ensures Valid() && closed == old(closed) && failed == (old(failed) || r == Broken)
      ensures r == Refused <==>
                || old(failed) || old(closed) || !hasSecurity || !LegalChunk(Chunk()) || !Capture.Acceptable(vs)
                || (boot && exists i {:trigger old(images)[i]} :: 0 <= i < |old(images)| && old(images)[i].boot)
      ensures r == Refused ==> unchanged(this) && unchanged(dst)
      ensures dst.faults >= old(dst.faults) && cancels >= old(cancels)
      ensures r != Refused ==>
                (r == Done <==> dst.faults == old(dst.faults) && cancels == old(cancels) &&
                                Rereadable(vs, old(byHash), reread, hash))
      ensures r != Done ==> images == old(images) && records == old(records) && files == old(files)
      ensures r == Done ==>
              |images| == |old(images)| + 1 && images[..|old(images)|] == old(images) &&
              images[|old(images)|].boot == boot
      ensures r == Done ==>
              |records| == |old(records)| + 1 && records[..|old(records)|] == old(records) &&
              records[|old(records)|].vs == vs
      ensures r == Done ==> files == old(files) + Capture.StoredCount(vs, |vs|)
      ensures forall h {:trigger h in old(byHash)} :: h in old(byHash) ==> h in byHash
    {
      hide LegalChunk, Tiled, AllHeld, Indexed, Imaged, AllKept, MetasHold, OneBoot, References, Capture.Hashes,
        Capture.Walk, Capture.Faithful;
      hide StreamsOf, MetasOf, Capture.StoredCount, Capture.Acceptable, Rereadable, CountsUses;
      if failed || closed || !hasSecurity || !LegalChunk(Chunk()) { return Refused; }
      if boot {
        var any := AnyBoot();
        if any { return Refused; }
      }
      var ok, c;
      ghost var parent;
      ok, c, parent := Capture.CaptureTree(vs, hash);
      if !ok { return Refused; }
      ok := AddCaptured(vs, boot, c, parent, reread);
      if !ok { failed := true; }
      r := if ok then Done else Broken;
    }

    /** Writes a captured tree's streams and then its metadata. */
    method AddCaptured(ghost vs: seq<Capture.Visit>, boot: bool, c: Capture.Captured, ghost parent: seq<nat>,
                       reread: seq<Name> -> Option<seq<byte>>)
      returns (ok: bool)
      requires Valid() && !failed && !closed && LegalChunk(Chunk())
      requires Capture.Walk(vs) && Capture.Faithful(c, parent, vs, hash)
      requires boot ==> forall i {:trigger images[i]} :: 0 <= i < |images| ==> !images[i].boot
      modifies this, dst, comp, comp.head, comp.prev, comp.buf, comp.mainFreq, comp.lenFreq, comp.alignedFreq, comp.w
      ensures Settings() && dst.at <= |dst.bytes| && !failed && !closed
      ensures dst.faults >= old(dst.faults) && cancels >= old(cancels)
      ensures ok <==>
              dst.faults == old(dst.faults) && cancels == old(cancels) && Rereadable(vs, old(byHash), reread, hash)
      ensures !ok ==> images == old(images) && records == old(records) && files == old(files)
      ensures ok ==>
              started && Laid() && Tabled() && References(blobs) == files &&
              files == old(files) + Capture.StoredCount(vs, |vs|) && CountsUses(blobs, byHash, records, hash)
      ensures ok ==>
              |images| == |old(images)| + 1 && images[..|old(images)|] == old(images) &&
              images[|old(images)|].boot == boot
      ensures ok ==>
              |records| == |old(records)| + 1 && records[..|old(records)|] == old(records) &&
              records[|old(records)|].vs == vs
      ensures forall h {:trigger h in old(byHash)} :: h in old(byHash) ==> h in byHash
    {
      hide LegalChunk, Tiled, AllHeld, Indexed, Imaged, AllKept, MetasHold, OneBoot, References, Capture.Hashes,
        Capture.Walk, Capture.Faithful;
      hide StreamsOf, MetasOf, Capture.StoredCount, Capture.References, IsMetadata, ReadsBack, AllStored, Capturable;
      hide Rereadable, Covered, StreamsDiffer, CountsUses, RefsGrown;
      FaithfulParts(c, parent, vs, hash);
      CaptureDiffers(c, parent, vs, hash);
      CoveredIsRereadable(c, parent, vs, hash, byHash, reread);
      ok := Start();
      if !ok { return; }
      ghost var entries, known := blobs, byHash;
      ok := AddStreams(c, reread);
      if !ok { return; }
      StreamsCover(c, parent, vs, hash, byHash);
      var md;
      ok, md := EncodeCaptured(c, vs, parent);
      if !ok { return; }
      ok := AddMetadata(boot, md, Recorded(vs, c, parent, md));
      if ok {
        files := files + Capture.StoredCount(vs, |vs|);
        CountedMore(entries, known, blobs, byHash, old(records), Recorded(vs, c, parent, md), hash);
      }
    }

    /** Stores an image's metadata, and enters the image in the tables. */
    method AddMetadata(boot: bool, md: seq<byte>, ghost rec: Recorded) returns (ok: bool)
      requires comp.Shape() && Capture.Hashes(hash) && Laid() && Tabled() && Kept(rec, byHash, hash) && rec.md == md
      requires boot ==> forall i {:trigger images[i]} :: 0 <= i < |images| ==> !images[i].boot
      modifies this`pos, this`log, this`images, this`records
      modifies dst, comp, comp.head, comp.prev, comp.buf, comp.mainFreq, comp.lenFreq, comp.alignedFreq, comp.w
      ensures comp.Shape() && dst.at <= |dst.bytes|
      ensures dst.faults >= old(dst.faults) && (ok <==> dst.faults == old(dst.faults))
      ensures !ok ==> images == old(images) && records == old(records)
      ensures ok ==> Laid() && Tabled() && records == old(records) + [rec]
      ensures ok ==>
              |images| == |old(images)| + 1 && images[..|old(images)|] == old(images) &&
              images[|old(images)|].boot == boot
    {
      hide LegalChunk, Tiled, AllHeld, Indexed, Imaged, AllKept, Kept, MetasHold, OneBoot, Capture.Hashes, StreamsOf,
        MetasOf, IsMetadata;
      ghost var log0 := log;
      var res;
      res, ok := WriteResource(md, FLAG_METADATA);
      if !ok { return; }
      HashIs(hash, md);
      var im := ImageEntry(boot, res, hash(md));
      ghost var l := Logged(res, md, FLAG_METADATA);
      ImageAdded(images, log0, hash, l, im);
      LogOne(log0, l);
      OneMoreMeta(records, MetasOf(log0), rec, l);
      OneMoreKept(records, byHash, hash, rec);
      OneMoreBoot(images, im);
      images := images + [im];
      records := records + [rec];
    }

    /** Everything fits the fields it is recorded in. */
    ghost predicate Modest()
      reads this, dst
    {
      FitsFields(log, dst.bytes) && files < 0x1_0000_0000 && |images| < 0x1_0000_0000
    }

    /** The file opens as a WIM that agrees with the tables. */
    ghost predicate Sealed()
      reads this, dst
    {
      && Settings() && LegalChunk(Chunk()) && AllHeld(dst.bytes, log, lzx, Chunk()) && Tabled() &&
         References(blobs) == files && CountsUses(blobs, byHash, records, hash)
      && (exists end: nat {:trigger Tiled(log, HEADER_SIZE, end)} :: end <= |dst.bytes| && Tiled(log, HEADER_SIZE, end))
      && (Modest() ==>
            var w := Open(dst.bytes);
            && w.Some? && w.value.chunk == RandomAccess.ReaderChunk(lzx, Chunk())
            && Agrees(w.value.x, blobs, byHash, images) && w.value.h == HeaderOf(images, w.value.h.table))
    }

    /** Writes bytes as they are at the end of the file. */
    method WriteStored(b: seq<byte>) returns (res: ResHdr, ok: bool)
      requires HEADER_SIZE <= pos == dst.at <= |dst.bytes|
      modifies this`pos, dst
      ensures dst.at <= |dst.bytes| && dst.faults >= old(dst.faults) && (ok <==> dst.faults == old(dst.faults))
      ensures ok ==>
              pos == dst.at == old(pos) + |b| && dst.bytes[..pos] == old(dst.bytes[..pos]) + b &&
              res == ResHdr(|b|, 0, old(pos), |b|)
    {
      var off, n := pos, 0;
      WholeWritten(dst.bytes, off, b);
      n, ok := dst.Write(b);
      pos := pos + n;
      res := ResHdr(n, 0, off, n);
    }

    /** Writes the table and the description, and then the header over its place. Nothing is accepted afterwards. */
    method Close(xml: seq<byte>) returns (r: Outcome)
      requires Valid()
      modifies this`pos, this`closed, this`failed, dst
      ensures Valid() && failed == (old(failed) || r == Broken)
      ensures r == Refused <==> old(failed) || old(closed) || images == []
      ensures r == Refused ==> unchanged(this) && unchanged(dst)
      ensures dst.faults >= old(dst.faults) && (r == Broken <==> dst.faults > old(dst.faults))
      ensures r != Refused ==> closed
      ensures r == Done ==> Sealed()
    {
      hide CountsUses, PowerOfTwo, Tiled, AllHeld, Indexed, Imaged, AllKept, MetasHold, References, Capture.Hashes,
        StreamsOf,
        MetasOf;
      hide Entries, SortEntries, PutTable, PutHeader, HeaderOf, FitsFields, Agrees, Open;
      if failed || closed || |images| == 0 { return Refused; }
      closed := true;
      var entries := SortEntries(Entries(blobs, images));
      TableHashed(blobs, byHash, StreamsOf(log), images, MetasOf(log), hash);
      ghost var file := dst.bytes[..pos];
      var bytes := EncodeBlobTable(entries);
      var table, ok := WriteStored(bytes);
      if !ok { failed := true; return Broken; }
      var description;
      description, ok := WriteStored(xml);
      if !ok { failed := true; return Broken; }
      assert dst.bytes[..pos] == file + bytes + xml;
      ok := WriteHeader(table, description, file, bytes, xml);
      if !ok { failed := true; return Broken; }
      r := Done;
    }

    /** The blob table and the description lie after the resources, and the table is what it should be. */
    ghost predicate Appended(file: seq<byte>, bytes: seq<byte>, xml: seq<byte>)
      reads this, dst
    {
      && HEADER_SIZE <= |file| && |file| + |bytes| + |xml| <= |dst.bytes| && dst.at <= |dst.bytes|
      && dst.bytes[..|file| + |bytes| + |xml|] == file + bytes + xml
      && AllHashed(SortEntries(Entries(blobs, images))) && bytes == PutTable(SortEntries(Entries(blobs, images)))
    }

    /** Writes the header over its place, which makes the file a WIM. */
    method WriteHeader(table: ResHdr, description: ResHdr, ghost file: seq<byte>, ghost bytes: seq<byte>,
                       ghost xml: seq<byte>)
      returns (ok: bool)
      requires Settings() && LegalChunk(Chunk()) && Tabled() && References(blobs) == files && images != [] &&
               CountsUses(blobs, byHash, records, hash)
      requires Tiled(log, HEADER_SIZE, |file|) && AllHeld(file, log, lzx, Chunk()) && Appended(file, bytes, xml)
      requires table == ResHdr(|bytes|, 0, |file|, |bytes|) && description == ResHdr(|xml|, 0, |file| + |bytes|, |xml|)
      modifies dst
      ensures dst.at <= |dst.bytes| && (ok ==> Sealed())
      ensures dst.faults >= old(dst.faults) && (ok <==> dst.faults == old(dst.faults))
    {
      hide CountsUses, PowerOfTwo, Tiled, AllHeld, Indexed, Imaged, AllKept, MetasHold, References, Capture.Hashes,
        StreamsOf,
        MetasOf;
      hide Entries, SortEntries, PutTable, PutHeader, HeaderOf, FitsFields, Agrees, Open, Written, AllHashed;
      ok := dst.SeekStart();
      if !ok { return; }
      var header, n := PutHeader(lzx, Chunk(), guid, HeaderOf(images, table), description), 0;
      WholeWritten(dst.bytes, 0, header);
      ghost var before := dst.bytes;
      n, ok := dst.Write(header);
      if !ok { return; }
      HeaderOver(before, header, file, bytes, xml, dst.bytes);
      StillHeld(file, dst.bytes, log, lzx, Chunk(), HEADER_SIZE, |file|);
      if Modest() {
        SealedOpens(dst.bytes, log, |file|, blobs, byHash, images, lzx, Chunk(), guid, hash, table, description);
      }
    }
  }

  /** Over the header's place, only the header changes. */
  lemma HeaderOver(before: seq<byte>, header: seq<byte>, file: seq<byte>, table: seq<byte>, xml: seq<byte>,
                   after: seq<byte>)
    requires |header| == HEADER_SIZE <= |file| && |file| + |table| + |xml| <= |before| &&
             before[..|file| + |table| + |xml|] == file + table + xml
    requires after == Written(before, 0, header)
    ensures |after| == |before| && after[..HEADER_SIZE] == header && after[HEADER_SIZE..|file|] == file[HEADER_SIZE..]
    ensures after[|file|..|file| + |table|] == table
  {
    var whole := before[..|file| + |table| + |xml|];
    assert after == header + before[HEADER_SIZE..];
    forall i | 0 <= i < |file| - HEADER_SIZE
      ensures after[HEADER_SIZE..|file|][i] == file[HEADER_SIZE..][i]
    {
      assert whole[HEADER_SIZE + i] == file[HEADER_SIZE + i];
    }
    forall i | 0 <= i < |table|
      ensures after[|file|..|file| + |table|][i] == table[i]
    {
      assert whole[|file| + i] == table[i];
    }
  }

  lemma TableHashed(blobs: seq<BlobEntry>, byHash: map<seq<byte>, nat>, streams: seq<Logged>, images: seq<ImageEntry>,
                    metas: seq<Logged>, hash: Capture.Hasher)
    requires Indexed(blobs, byHash, streams, hash) && Imaged(images, metas, hash)
    ensures AllHashed(SortEntries(Entries(blobs, images)))
  {
    hide Entries, SortEntries, IsMetadata;
    var es := Entries(blobs, images);
    SortKeeps(es);
    forall i | 0 <= i < |SortEntries(es)|
      ensures |SortEntries(es)[i].hash| == 20
    {
      assert SortEntries(es)[i] in multiset(SortEntries(es));
      var k :| 0 <= k < |es| && es[k] == SortEntries(es)[i];
      EntriesAt(blobs, images, k);
      if k < |blobs| {
        assert EntryIndexed(blobs, byHash, streams, hash, k);
      } else {
        assert images[k - |blobs|] == images[k - |blobs|];
      }
    }
  }

  lemma SealedOpens(file: seq<byte>, log: seq<Logged>, end: nat, blobs: seq<BlobEntry>, byHash: map<seq<byte>, nat>,
                    images: seq<ImageEntry>,
                    lzx: bool, chunk: nat, guid: seq<byte>, hash: Capture.Hasher, t: ResHdr, xml: ResHdr)
    requires Tallied(file, log, end, blobs, byHash, images, lzx, chunk, hash) && FitsFields(log, file) &&
             References(blobs) < 0x1_0000_0000
    requires |images| < 0x1_0000_0000 && images != [] && LegalChunk(chunk) && |guid| == 16
    requires t.flags == 0 && t.offset + t.size <= |file| && t.uncompressed == t.size && xml.flags == 0 &&
             xml.offset + xml.size <= |file| && xml.uncompressed == xml.size
    requires AllHashed(SortEntries(Entries(blobs, images))) &&
             file[t.offset..t.offset + t.size] == PutTable(SortEntries(Entries(blobs, images)))
    requires |file| >= HEADER_SIZE && file[..HEADER_SIZE] == PutHeader(lzx, chunk, guid, HeaderOf(images, t), xml)
    ensures var w := Open(file);
            && w.Some? && w.value.chunk == RandomAccess.ReaderChunk(lzx, chunk)
            && Agrees(w.value.x, blobs, byHash, images) && w.value.h == HeaderOf(images, w.value.h.table)
  {
    hide PowerOfTwo, PutHeader, Entries, SortEntries, PutTable, Agrees, BlobTable.ReadTable, ReadHeader, References,
      IsMetadata;
    var h := HeaderOf(images, t);
    if BootIndex(images) > 0 {
      ImageStands(file, log, end, blobs, byHash, images, lzx, chunk, hash, BootIndex(images) - 1);
    }
    HeaderReadsBack(file, lzx, chunk, guid, h, xml);
    SealedReads(file, log, end, blobs, byHash, images, lzx, chunk, hash, t);
    HeaderNames(images, t);
  }

  lemma OneMoreBoot(images: seq<ImageEntry>, im: ImageEntry)
    requires OneBoot(images) && (im.boot ==> forall i {:trigger images[i]} :: 0 <= i < |images| ==> !images[i].boot)
    ensures OneBoot(images + [im])
  {
  }

  lemma KnownHash(blobs: seq<BlobEntry>, byHash: map<seq<byte>, nat>, streams: seq<Logged>, hash: Capture.Hasher,
                  h: seq<byte>)
    requires Indexed(blobs, byHash, streams, hash) && h in byHash
    ensures byHash[h] < |blobs| && blobs[byHash[h]].hash == h
  {
    assert HashIndexed(blobs, byHash, h);
  }

  lemma HashIs(hash: Capture.Hasher, data: seq<byte>)
    requires Capture.Hashes(hash)
    ensures |hash(data)| == 20 && hash(data) != NO_HASH
  {
  }

  lemma StoredFlags(lzx: bool, enc: Encoder, data: seq<byte>, chunk: nat, flags: nat)
    requires chunk > 0 && (flags == 0 || flags == FLAG_METADATA)
    ensures ResourceFormat.Stored(lzx, enc, data, chunk, flags).1 / 2 % 2 == 1 <==> flags == FLAG_METADATA
  {
    hide Body;
  }

  /** Where a resource lies makes no difference to whether it is compressed. */
  lemma ElsewhereWhenDue(res: ResHdr, data: seq<byte>, lzx: bool, chunk: nat, flags: nat)
    requires chunk > 0 && (flags == 0 || flags == FLAG_METADATA)
    requires CompressedWhenDue(res.(offset := 0), data, lzx, LzxEncoder(), chunk, flags != 0)
    ensures CompressedWhenDue(res, data, lzx, LzxEncoder(), chunk, flags == FLAG_METADATA)
  {
    hide LzxEncoder, Body;
  }
}
