/** Serving reads from a WIM: remembered chunk tables, a one-chunk cache, and a backing that may fail. */
module ResourceReader {
  import opened Bits
  import opened BitStream
  import opened Canonical
  import opened LittleEndian
  import opened ChunkFormat
  import opened ChunkDecoder
  import opened Chunks
  import opened ResourceFormat

  /** Random-access storage. Any read may fail, and a failed one leaves anything in the buffer. */
  class Backing {
    const data: seq<byte>
    ghost var faults: nat

    constructor (data: seq<byte>)
      ensures this.data == data && faults == 0
    {
      this.data := data;
      faults := 0;
    }

    /** Reads n bytes at off into p from index at on. */
    method ReadAt(p: array<byte>, at: nat, n: nat, off: nat) returns (failed: bool)
      requires at + n <= p.Length
      modifies this, p
      ensures p[..at] == old(p[..at]) && p[at + n..] == old(p[at + n..])
      ensures failed ==> faults > old(faults)
      ensures !failed ==> off + n <= |data| && p[at..at + n] == data[off..off + n] && faults == old(faults)
    {
      var fails: bool := *;
      failed := fails || off + n > |data|;
      if failed { faults := faults + 1; }
      for i := 0 to n
        modifies p
        invariant forall j {:trigger p[j]} :: 0 <= j < p.Length && !(at <= j < at + n) ==> p[j] == old(p[j])
        invariant !failed ==> forall j {:trigger p[j]} :: at <= j < at + i ==> p[j] == data[off + j - at]
      {
        var b: byte :| true;
        p[at + i] := if failed then b else data[off + i];
      }
    }
  }

  /** How a read ended, besides the ways it ends by the format: the backing failed. */
  datatype Outcome = Done(status: Status) | Failed

  /** What is remembered of a resource's chunk table. */
  datatype Remembered = Good(offs: seq<nat>) | Bad | Faulted

  function FromFile(t: Option<seq<nat>>): Remembered
  {
    match t
    case None => Bad
    case Some(offs) => Good(offs)
  }

  /** One decoded chunk. A cache serves one resource for its whole life. */
  class ChunkCache {
    var idx: int
    const data: array<byte>
    const raw: array<byte>

    constructor (chunk: nat)
      ensures fresh(data) && fresh(raw) && data != raw && data.Length == chunk && raw.Length == chunk && idx == -1
    {
      data := new byte[chunk](_ => 0);
      raw := new byte[chunk](_ => 0);
      idx := -1;
    }

    ghost predicate Shape(chunk: nat)
    {
      data != raw && data.Length == chunk && raw.Length == chunk
    }

    /** Whatever chunk the cache claims to hold, its buffer starts with that chunk decoded. */
    ghost predicate Holds(file: seq<byte>, offs: seq<nat>, size: nat, chunk: nat)
      reads this, data
    {
      && Shape(chunk) && -1 <= idx
      && (idx >= 0 ==> idx + 1 < |offs| && HoldsChunk(file, offs, chunk, DecodedSize(size, chunk, idx, |offs| - 1)))
    }

    ghost predicate HoldsChunk(file: seq<byte>, offs: seq<nat>, chunk: nat, usize: int)
      requires Shape(chunk) && idx >= 0
      reads this, data
    {
      0 < usize <= chunk && LoadAt(file, offs, LzxDecoder(), idx, usize) == Some(data[..usize])
    }
  }

  /** Decodes src into the first size bytes of buf; on failure anything may be left there. */
  method DecodeInto(buf: array<byte>, size: nat, src: seq<byte>) returns (ok: bool)
    requires size <= buf.Length
    modifies buf
    ensures Decompressed(src, size) == if ok then Some(buf[..size]) else None
  {
    hide Decompressed;
    var dst := new byte[size](_ => 0);
    ok := Decompress(dst, src);
    ghost var out := dst[..];
    for i := 0 to size
      modifies buf
      invariant buf[..i] == dst[..i]
    {
      buf[i] := dst[i];
    }
    assert buf[..size] == out;
  }

  /** Nothing that was remembered is forgotten or replaced. */
  ghost predicate Retained(was: map<nat, Remembered>, now: map<nat, Remembered>)
  {
    forall o {:trigger o in now} {:trigger o in was} :: o in was ==> o in now && now[o] == was[o]
  }

  class Reader {
    const r: Backing
    const chunkSize: nat
    var tables: map<nat, Remembered>
    ghost const known: map<nat, ResHdr>  // the compressed resource at each offset

    /** What is remembered of a table is what is in the file, or that reading it failed. */
    ghost predicate Valid()
      reads this
    {
      forall o {:trigger o in tables} :: o in tables ==> o in known && Remembers(tables[o], known[o])
    }

    ghost predicate Knows(res: ResHdr)
    {
      Inside(r.data, res) && (IsCompressed(res) ==> res.offset in known && known[res.offset] == res)
    }

    ghost predicate Remembers(t: Remembered, res: ResHdr)
    {
      t == Faulted || (Readable(res) && t == FromFile(ReadTable(r.data, res, chunkSize)))
    }

    ghost predicate Readable(res: ResHdr)
    {
      Inside(r.data, res) && Plausible(res, chunkSize) && IsCompressed(res)
    }

    constructor (r: Backing, chunkSize: nat, ghost known: map<nat, ResHdr>)
      ensures Valid() && this.r == r && this.chunkSize == chunkSize && this.known == known && tables == map[]
    {
      this.r, this.chunkSize, this.known, tables := r, chunkSize, known, map[];
    }

    /** Reads the table at the head of a compressed resource, and checks it. */
    method ReadChunkTable(res: ResHdr) returns (t: Remembered)
      requires Readable(res)
      modifies r
      ensures Remembers(t, res) && r.faults >= old(r.faults) && (t == Faulted <==> r.faults > old(r.faults))
    {
      hide Offsets, AllSpan, Get, Put;
      var n := CountChunks(res.uncompressed, chunkSize);
      if n == 0 { return Good([res.offset, res.offset + res.size]); }
      var entry := if res.uncompressed > 0xffff_ffff then 8 else 4;
      var len := (n - 1) * entry;
      TimesIs(n - 1, entry);
      if len > res.size { return Bad; }
      var tbl := new byte[len](_ => 0);
      var failed := r.ReadAt(tbl, 0, len, res.offset);
      if failed { return Faulted; }
      var base := res.offset + len;
      assert tbl[..] == r.data[res.offset..base];
      EntryBound(entry);
      var offs := DecodeOffsets(tbl[..], entry, base, n);
      offs := offs + [res.offset + res.size];
      var sane := CheckOffsets(offs, base, res.offset + res.size, chunkSize);
      if !sane { return Bad; }
      return Good(offs);
    }

    /** The chunk boundaries, read on first use and remembered, whatever came of it. */
    method ChunksOf(res: ResHdr) returns (t: Remembered)
      requires Valid() && Readable(res) && Knows(res)
      modifies this`tables, r
      ensures Valid() && Remembers(t, res) && res.offset in tables && tables[res.offset] == t &&
              Retained(old(tables), tables)
      ensures r.faults >= old(r.faults) && (t == Faulted <==> r.faults > old(r.faults) || old(FaultRemembered(res)))
    {
      hide Remembers;
      if res.offset in tables {
        return tables[res.offset];
      }
      t := ReadChunkTable(res);
      tables := tables[res.offset := t];
    }

    /** Reading this resource's table has failed once, which is remembered for good. */
    ghost predicate FaultRemembered(res: ResHdr)
      reads this
    {
      res.offset in tables && tables[res.offset] == Faulted
    }

    /** A read that goes by the resource's table: it wants some byte of a compressed resource of a plausible size. */
    predicate NeedsTable(res: ResHdr, off: int, len: nat)
    {
      IsCompressed(res) && Plausible(res, chunkSize) && 0 <= off < res.uncompressed && len > 0
    }

    /** The cache holds a chunk of this resource, or none. */
    ghost predicate CacheOf(cache: ChunkCache, res: ResHdr)
      requires Readable(res)
      reads cache, cache.data
    {
      && cache.Shape(chunkSize)
      && match ReadTable(r.data, res, chunkSize)
         case None => cache.idx == -1
         case Some(offs) => cache.Holds(r.data, offs, res.uncompressed, chunkSize)
    }

    /**
     * Chunk k, decoded, from the cache or from the file. Only decoded chunks are kept; a raw one shares the read
     * buffer.
     */
    method LoadCached(offs: seq<nat>, size: nat, k: nat, usize: nat, cache: ChunkCache)
      returns (failed: bool, ok: bool, data: seq<byte>)
      requires k + 1 < |offs| && offs[k] <= offs[k + 1] <= |r.data| && offs[k + 1] - offs[k] <= chunkSize
      requires usize == DecodedSize(size, chunkSize, k, |offs| - 1) && 0 < usize <= chunkSize
      requires cache.Holds(r.data, offs, size, chunkSize)
      modifies r, cache`idx, cache.data, cache.raw
      ensures cache.Holds(r.data, offs, size, chunkSize) && r.faults >= old(r.faults)
      ensures failed <==> r.faults > old(r.faults)
      ensures !failed ==> LoadAt(r.data, offs, LzxDecoder(), k, usize) == if ok then Some(data) else None
    {
      hide Decompressed;
      if cache.idx == k { return false, true, cache.data[..usize]; }
      var csize := offs[k + 1] - offs[k];
      failed := r.ReadAt(cache.raw, 0, csize, offs[k]);
      if failed { return true, false, []; }
      ghost var stored := r.data[offs[k]..offs[k + 1]];
      assert cache.raw[0..csize] == cache.raw[..csize] == stored;
      if csize == usize { return false, true, cache.raw[..csize]; }
      ok := DecodeInto(cache.data, usize, cache.raw[..csize]);
      if !ok {
        cache.idx := -1;
        return false, false, [];
      }
      cache.idx := k;
      data := cache.data[..usize];
    }

    /** Copies the part of a decoded chunk that is wanted to p, from index at on. */
    method CopyWanted(p: array<byte>, at: nat, want: nat, data: seq<byte>, base: nat, off: nat) returns (n: nat)
      requires at + want <= p.Length
      modifies p
      ensures n == |Wanted(data, base, off, want)| && p[..at] == old(p[..at]) &&
              p[at..at + n] == Wanted(data, base, off, want)
      ensures p[at + n..] == old(p[at + n..])
    {
      var from := if off > base then off - base else 0;
      if from >= |data| { return 0; }
      n := if |data| - from < want then |data| - from else want;
      for i := 0 to n
        invariant forall j {:trigger p[j]} :: 0 <= j < p.Length && !(at <= j < at + n) ==> p[j] == old(p[j])
        invariant forall j {:trigger p[j]} :: at <= j < at + i ==> p[j] == data[from + j - at]
      {
        p[at + i] := data[from + i];
      }
      ghost var wanted := data[from..from + n];
      forall i | 0 <= i < n
        ensures p[at..at + n][i] == wanted[i]
      {
        assert p[at + i] == data[from + (at + i) - at];
      }
      assert p[at..at + n] == wanted;
    }

    /** Serves a range of a chunked resource, decoding each chunk it touches that the cache does not hold. */
    method ReadChunkedAt(res: ResHdr, p: array<byte>, off: nat, want: nat, cache: ChunkCache)
      returns (n: nat, end: Outcome)
      requires Valid() && Readable(res) && Knows(res) && CacheOf(cache, res)
      requires 0 < want <= p.Length && off + want <= res.uncompressed && p != cache.data && p != cache.raw
      modifies this`tables, r, cache`idx, cache.data, cache.raw, p
      ensures Valid() && CacheOf(cache, res) && n <= want
      ensures Answers(Fetch(r.data, res, chunkSize, LzxDecoder(), off, want), p[..n], end)
      ensures r.faults >= old(r.faults) && (end == Failed <==> r.faults > old(r.faults) || old(FaultRemembered(res)))
      ensures (end == Failed && old(FaultRemembered(res)) ==> n == 0) && Retained(old(tables), tables)
    {
      hide ReadTable, Serve, ChunkCache.Holds;
      var t := ChunksOf(res);
      if t == Bad { return 0, Done(Corrupt); }
      if t == Faulted { return 0, Failed; }
      n, end := ServeChunks(res, t.offs, p, off / chunkSize, off, want, cache);
    }

    /** Serves what is wanted of chunk k into p, after the n bytes there already. */
    method ServeOne(res: ResHdr, offs: seq<nat>, p: array<byte>, k: nat, n: nat, off: nat, want: nat, cache: ChunkCache)
      returns (m: nat, end: Outcome)
      requires Readable(res) && ReadTable(r.data, res, chunkSize) == Some(offs) &&
               cache.Holds(r.data, offs, res.uncompressed, chunkSize)
      requires k + 1 < |offs| && n < want <= p.Length && res.uncompressed > 0 && p != cache.data && p != cache.raw
      modifies r, cache`idx, cache.data, cache.raw, p
      ensures cache.Holds(r.data, offs, res.uncompressed, chunkSize) && p[..n] == old(p[..n]) && n + m <= want
      ensures r.faults >= old(r.faults) && (end == Failed <==> r.faults > old(r.faults))
      ensures var s := Serve(r.data, offs, res.uncompressed, chunkSize, LzxDecoder(), k, off, want - n);
              match end
              case Failed => m == 0
              case Done(Corrupt) => m == 0 && s == Served([], false)
              case Done(Ok) =>
                var rest := Serve(r.data, offs, res.uncompressed, chunkSize, LzxDecoder(), k + 1, off, want - n - m);
                s == Served(p[n..n + m] + rest.bytes, rest.ok)
              case Done(_) => false
    {
      hide ReadTable, ChunkCache.Holds, LoadAt, Wanted, LzxDecoder;
      SpansInFile(r.data, res, chunkSize, offs, k);
      var csize := offs[k + 1] - offs[k];
      var usize: int := chunkSize;
      if k == |offs| - 2 { usize := res.uncompressed - BaseOf(k, chunkSize); }
      if usize <= 0 || usize > chunkSize || csize > chunkSize { return 0, Done(Corrupt); }
      var failed, ok, data := LoadCached(offs, res.uncompressed, k, usize, cache);
      if failed { return 0, Failed; }
      if !ok { return 0, Done(Corrupt); }
      m := CopyWanted(p, n, want - n, data, BaseOf(k, chunkSize), off);
      end := Done(Ok);
    }

    method ServeChunks(res: ResHdr, offs: seq<nat>, p: array<byte>, first: nat, off: nat, want: nat, cache: ChunkCache)
      returns (n: nat, end: Outcome)
      requires Readable(res) && ReadTable(r.data, res, chunkSize) == Some(offs) &&
               cache.Holds(r.data, offs, res.uncompressed, chunkSize)
      requires 0 < want <= p.Length && off + want <= res.uncompressed && p != cache.data && p != cache.raw
      modifies r, cache`idx, cache.data, cache.raw, p
      ensures cache.Holds(r.data, offs, res.uncompressed, chunkSize) && n <= want && r.faults >= old(r.faults)
      ensures Answers(Serve(r.data, offs, res.uncompressed, chunkSize, LzxDecoder(), first, off, want), p[..n], end)
      ensures end == Failed <==> r.faults > old(r.faults)
    {
      hide ReadTable, ChunkCache.Holds, LzxDecoder, Serve, Plausible;
      ghost var size, dec := res.uncompressed, LzxDecoder();
      ghost var all := Serve(r.data, offs, size, chunkSize, dec, first, off, want);
      var nchunks := |offs| - 1;
      var k := first;
      n := 0;
      while k < nchunks && n < want
        invariant n <= want && cache.Holds(r.data, offs, size, chunkSize) && r.faults == old(r.faults)
        invariant Onward(all, p[..n], Serve(r.data, offs, size, chunkSize, dec, k, off, want - n))
        decreases nchunks - k
      {
        ghost var done := p[..n];
        var m;
        m, end := ServeOne(res, offs, p, k, n, off, want, cache);
        if end != Done(Ok) {
          assert p[..n] == done == done + [];
          return;
        }
        assert p[..n + m] == done + p[n..n + m];
        ConcatAssoc(done, p[n..n + m], Serve(r.data, offs, size, chunkSize, dec, k + 1, off, want - n - m).bytes);
        n := n + m;
        k := k + 1;
      }
      ServeEnds(r.data, offs, size, chunkSize, dec, k, off, want - n);
      end := Done(if n < want then Corrupt else Ok);
    }

    /** Serves a resource held verbatim. */
    method ReadStoredAt(res: ResHdr, p: array<byte>, off: nat, want: nat) returns (n: nat, end: Outcome)
      requires Inside(r.data, res) && !IsCompressed(res) && Plausible(res, chunkSize)
      requires 0 < want <= p.Length && off + want <= res.uncompressed
      modifies r, p
      ensures n <= want && Answers(Fetch(r.data, res, chunkSize, LzxDecoder(), off, want), p[..n], end)
      ensures r.faults >= old(r.faults) && (end == Failed <==> r.faults > old(r.faults))
    {
      var failed := r.ReadAt(p, 0, want, res.offset + off);
      if failed { return 0, Failed; }
      assert p[0..want] == p[..want];
      return want, Done(Ok);
    }

    /** Fills p from the resource, from offset off on, decoding only the chunks that touches. */
    method ReadResourceAt(res: ResHdr, p: array<byte>, off: int, cache: ChunkCache) returns (n: nat, end: Outcome)
      requires Valid() && Knows(res) && (Readable(res) ==> CacheOf(cache, res)) && p != cache.data && p != cache.raw
      modifies this`tables, r, cache`idx, cache.data, cache.raw, p
      ensures Valid() && (Readable(res) ==> CacheOf(cache, res)) && n <= p.Length
      ensures Reports(ReadResource(r.data, res, chunkSize, LzxDecoder(), off, p.Length), p[..n], end)
      ensures r.faults >= old(r.faults) && Retained(old(tables), tables)
      ensures end == Failed <==>
              r.faults > old(r.faults) || (old(FaultRemembered(res)) && NeedsTable(res, off, p.Length))
      ensures end == Failed && old(FaultRemembered(res)) && IsCompressed(res) ==> n == 0
    {
      hide Fetch, ChunkCache.Holds;
      if off < 0 { return 0, Done(BadOffset); }
      if !Plausible(res, chunkSize) { return 0, Done(Corrupt); }
      if off >= res.uncompressed { return 0, Done(Eof); }
      var want, short := p.Length, false;
      if off + p.Length > res.uncompressed { want, short := res.uncompressed - off, true; }
      if want == 0 { return 0, Done(Ok); }
      if IsCompressed(res) {
        n, end := ReadChunkedAt(res, p, off, want, cache);
      } else {
        n, end := ReadStoredAt(res, p, off, want);
      }
      if end == Done(Ok) && short { end := Done(Eof); }
    }

    /** A read that keeps nothing: it has a cache of its own, which starts out empty. */
    method ReadResourceOnce(res: ResHdr, p: array<byte>, off: int) returns (n: nat, end: Outcome)
      requires Valid() && Knows(res)
      modifies this`tables, r, p
      ensures Valid() && n <= p.Length
      ensures Reports(ReadResource(r.data, res, chunkSize, LzxDecoder(), off, p.Length), p[..n], end)
      ensures r.faults >= old(r.faults) && Retained(old(tables), tables)
      ensures end == Failed <==>
              r.faults > old(r.faults) || (old(FaultRemembered(res)) && NeedsTable(res, off, p.Length))
      ensures end == Failed && old(FaultRemembered(res)) && IsCompressed(res) ==> n == 0
    {
      hide ReadResource, ReadTable;
      var cache := new ChunkCache(chunkSize);
      n, end := ReadResourceAt(res, p, off, cache);
    }
  }

  /** What a read reports: just what the format says, or a part of that when the backing failed. */
  ghost predicate Reports(r: Read, got: seq<byte>, end: Outcome)
  {
    match end
    case Failed => got <= r.bytes
    case Done(status) => r == Read(got, status)
  }

  lemma ServeEnds(file: seq<byte>, offs: seq<nat>, size: nat, chunk: nat, dec: Chunks.Decoder, k: nat, off: nat,
                  want: nat)
    requires k + 1 >= |offs| || want == 0
    ensures Serve(file, offs, size, chunk, dec, k, off, want) == Served([], want == 0)
  {
  }

  /** A read that has got this far comes to what the rest of it comes to. */
  ghost predicate Onward(all: Served, done: seq<byte>, rest: Served)
  {
    all == Served(done + rest.bytes, rest.ok)
  }

  /** What came of a read: all of it, or a part with the reason it stopped. */
  ghost predicate Answers(s: Served, got: seq<byte>, end: Outcome)
  {
    match end
    case Failed => got <= s.bytes
    case Done(Ok) => s.ok && got == s.bytes
    case Done(Corrupt) => !s.ok && got == s.bytes
    case Done(_) => false
  }

  /** Where chunk k begins. */
  function BaseOf(k: nat, chunk: nat): (b: nat)
    ensures b == Times(k, chunk)
  {
    TimesIs(k, chunk);
    k * chunk
  }

  lemma SpansInFile(file: seq<byte>, res: ResHdr, chunk: nat, offs: seq<nat>, k: nat)
    requires Inside(file, res) && Plausible(res, chunk) && IsCompressed(res) &&
             ReadTable(file, res, chunk) == Some(offs)
    requires k + 1 < |offs| && res.uncompressed > 0
    ensures offs[k] <= offs[k + 1] <= |file| && offs[k + 1] - offs[k] <= chunk
  {
    var base := res.offset + Times(ChunkCount(res.uncompressed, chunk) - 1, EntrySize(res.uncompressed));
    assert Spans(offs, k, base, res.offset + res.size, chunk);
  }

  method CountChunks(n: nat, chunk: nat) returns (c: nat)
    requires chunk > 0
    ensures c == ChunkCount(n, chunk)
  {
    c := (n + chunk - 1) / chunk;
    if n > 0 { CeilingIs(n, chunk, c); }
  }

  lemma EntryBound(entry: nat)
    requires entry == 4 || entry == 8
    ensures Bound(entry) <= WORD
  {
    Bounds();
  }

  method DecodeOffsets(tbl: seq<byte>, entry: nat, base: nat, n: nat) returns (offs: seq<nat>)
    requires n > 0 && |tbl| == Times(n - 1, entry) && base < WORD && Bound(entry) <= WORD
    ensures offs == Offsets(tbl, entry, base, n)
  {
    offs := [base];
    for i := 1 to n
      invariant i > 1 ==> Times(i - 1, entry) <= |tbl|
      invariant offs == Offsets(tbl, entry, base, i)
    {
      TimesMonotone(i - 1, i, entry);
      TimesMonotone(i, n - 1, entry);
      TimesIs(i - 1, entry);
      TimesIs(i, entry);
      var v := Get(tbl[(i - 1) * entry..i * entry]);
      offs := offs + [Add64(base, v)];
    }
  }

  method CheckOffsets(offs: seq<nat>, base: nat, end: nat, chunk: nat) returns (sane: bool)
    requires offs != []
    ensures sane == AllSpan(offs, base, end, chunk)
  {
    for i := 0 to |offs| - 1
      invariant forall k: nat {:trigger Spans(offs, k, base, end, chunk)} :: k < i ==> Spans(offs, k, base, end, chunk)
    {
      if offs[i] < base || offs[i] > offs[i + 1] || offs[i + 1] > end || offs[i + 1] - offs[i] > chunk {
        assert !Spans(offs, i, base, end, chunk);
        return false;
      }
      assert Spans(offs, i, base, end, chunk);
    }
    sane := true;
  }
}
