/** Any byte range read from a stored resource is that range of the bytes it was stored from. */
module RandomAccess {
  import opened Bits
  import opened Canonical
  import opened LittleEndian
  import opened Chunks
  import opened ResourceFormat

  /** The file holds the resource the writer stored for data. */
  ghost predicate Holds(file: seq<byte>, res: ResHdr, lzx: bool, enc: Encoder, data: seq<byte>, chunk: nat)
    requires chunk > 0
  {
    exists flags: nat ::
      && flags <= FLAG_METADATA && flags != 1
      && Inside(file, res) && res == HeaderFor(Stored(lzx, enc, data, chunk, flags), data, res.offset)
      && file[res.offset..res.offset + res.size] == Stored(lzx, enc, data, chunk, flags).0
  }

  // ---------- compressed resources, whoever wrote them ----------

  /** The k-th entry of the table at offset says, in w bytes, how far start lies beyond base. */
  ghost predicate EntrySays(file: seq<byte>, offset: nat, w: nat, k: nat, base: nat, start: nat)
  {
    0 < k && Times(k - 1, w) <= Times(k, w) && offset + Times(k, w) <= |file| &&
    base + Get(file[offset + Times(k - 1, w)..offset + Times(k, w)]) == start
  }

  /** Chunk k lies between its start and the next one's, raw if it has its own size, and coded if not. */
  ghost predicate ChunkThere(file: seq<byte>, dec: Decoder, data: seq<byte>, chunk: nat, starts: seq<nat>, k: nat)
    requires k + 1 < |starts|
  {
    && starts[k] <= starts[k + 1] <= |file| && starts[k + 1] - starts[k] <= chunk && Times(k, chunk) <= |data|
    && var stored, piece := file[starts[k]..starts[k + 1]], Piece(data, chunk, k);
       if |stored| == |piece| then stored == piece else dec(stored, |piece|) == Some(piece)
  }

  /**
   * The file holds data as a compressed resource: a table of where each chunk but the first starts, counted from the
   * table's end, in entries of 4 bytes, or 8 when the data's size takes more than 32 bits; then the chunks, end to end.
   */
  ghost predicate LaidOut(file: seq<byte>, res: ResHdr, dec: Decoder, data: seq<byte>, chunk: nat, starts: seq<nat>)
    requires chunk > 0
  {
    var n, w := ChunkCount(|data|, chunk), if |data| > 0xffff_ffff then 8 else 4;
    && data != [] && Inside(file, res) && IsCompressed(res) && res.uncompressed == |data| && |starts| == n + 1
    && Times(n - 1, w) <= res.size && starts[0] == res.offset + Times(n - 1, w) && starts[n] == res.offset + res.size
    && (forall k: nat {:trigger EntrySays(file, res.offset, w, k, starts[0], starts[k])} ::
          0 < k < n ==> EntrySays(file, res.offset, w, k, starts[0], starts[k]))
    && forall k: nat {:trigger ChunkThere(file, dec, data, chunk, starts, k)} ::
         k < n ==> ChunkThere(file, dec, data, chunk, starts, k)
  }

  lemma {:induction false} StartsAscend(file: seq<byte>, res: ResHdr, dec: Decoder, data: seq<byte>, chunk: nat,
                                        starts: seq<nat>, j: nat, k: nat)
    requires chunk > 0 && LaidOut(file, res, dec, data, chunk, starts) && j <= k < |starts|
    ensures starts[j] <= starts[k]
    decreases k - j
  {
    hide EntrySays, Inside, Piece, ChunkCount, Times;
    if j < k {
      StartsAscend(file, res, dec, data, chunk, starts, j, k - 1);
      assert ChunkThere(file, dec, data, chunk, starts, k - 1);
    }
  }

  /** The starts the table is read as are those it was made of. */
  lemma {:induction false} OffsetsExpected(file: seq<byte>, res: ResHdr, dec: Decoder, data: seq<byte>, chunk: nat,
                                           starts: seq<nat>, m: nat)
    requires chunk > 0 && LaidOut(file, res, dec, data, chunk, starts) && m <= ChunkCount(|data|, chunk)
    ensures var w := EntrySize(|data|);
            && (m > 1 ==> Times(m - 1, w) <= starts[0] - res.offset) && starts[0] <= |file|
            && Offsets(file[res.offset..starts[0]], w, starts[0], m) == starts[..m]
    decreases m
  {
    hide ChunkCount, ChunkThere, Piece, Get, EntrySays, Times;
    var w, n := EntrySize(|data|), ChunkCount(|data|, chunk);
    StartsAscend(file, res, dec, data, chunk, starts, 0, n);
    if m == 1 {
      assert starts[..1] == [starts[0]];
    } else if m > 1 {
      OffsetsExpected(file, res, dec, data, chunk, starts, m - 1);
      TimesMonotone(m - 1, n - 1, w);
      StartsAscend(file, res, dec, data, chunk, starts, m - 1, n);
      assert EntrySays(file, res.offset, w, m - 1, starts[0], starts[m - 1]);
      OneMoreOffset(file, res.offset, starts[0], w, m, starts[m - 1]);
      assert starts[..m] == starts[..m - 1] + [starts[m - 1]];
    }
  }

  lemma OneMoreOffset(file: seq<byte>, offset: nat, base: nat, w: nat, m: nat, start: nat)
    requires m > 1 && offset + Times(m - 1, w) <= base <= |file| && start < WORD
    requires EntrySays(file, offset, w, m - 1, base, start)
    ensures Times(m - 2, w) <= Times(m - 1, w)
    ensures Offsets(file[offset..base], w, base, m) == Offsets(file[offset..base], w, base, m - 1) + [start]
  {
    hide Get;
    SliceOfSlice(file, offset, base - offset, Times(m - 2, w), Times(m - 1, w));
    assert file[offset..offset + (base - offset)] == file[offset..base];
  }

  lemma StartsSpan(file: seq<byte>, res: ResHdr, dec: Decoder, data: seq<byte>, chunk: nat, starts: seq<nat>)
    requires chunk > 0 && LaidOut(file, res, dec, data, chunk, starts)
    ensures AllSpan(starts, starts[0], res.offset + res.size, chunk)
  {
    hide EntrySays, Piece, ChunkCount, Times;
    var end := res.offset + res.size;
    forall k: nat {:trigger Spans(starts, k, starts[0], end, chunk)} | k + 1 < |starts|
      ensures Spans(starts, k, starts[0], end, chunk)
    {
      assert ChunkThere(file, dec, data, chunk, starts, k);
      StartsAscend(file, res, dec, data, chunk, starts, 0, k);
      StartsAscend(file, res, dec, data, chunk, starts, k + 1, |starts| - 1);
    }
  }

  /** The reader accepts the table of every such resource, and finds every chunk with it. */
  lemma TableAccepted(file: seq<byte>, res: ResHdr, dec: Decoder, data: seq<byte>, chunk: nat, starts: seq<nat>)
    requires chunk > 0 && LaidOut(file, res, dec, data, chunk, starts) && |data| <= MAX_RESOURCE_SIZE
    ensures Plausible(res, chunk) && ReadTable(file, res, chunk) == Some(starts)
  {
    hide Offsets, AllSpan, ChunkThere, EntrySays, ChunkCount, Piece;
    var n, w := ChunkCount(|data|, chunk), EntrySize(|data|);
    ChunkCountBounds(|data|, chunk);
    BodyPlausible(res.size, |data|, chunk, n, w);
    OffsetsExpected(file, res, dec, data, chunk, starts, n);
    StartsSpan(file, res, dec, data, chunk, starts);
    assert starts == starts[..n] + [res.offset + res.size];
  }

  // ---------- the chunks ----------

  /** Every chunk is stored in no more than its own size. */
  lemma StoredFit(enc: Encoder, dec: Decoder, data: seq<byte>, chunk: nat, n: nat)
    requires Codec(enc, dec) && (n > 0 ==> Times(n - 1, chunk) <= |data|)
    ensures forall k :: 0 <= k < n ==> |StoreChunks(enc, data, chunk, n)[k]| <= chunk
    ensures Start(StoreChunks(enc, data, chunk, n), n) <= |data|
  {
    var ss := StoreChunks(enc, data, chunk, n);
    if n > 0 {
      TimesMonotone(if n > 1 then n - 2 else 0, n - 1, chunk);
      StoredFitUpTo(enc, dec, data, chunk, n, n);
    }
    forall k | 0 <= k < n
      ensures |ss[k]| <= chunk
    {
      StoreChunksAt(enc, data, chunk, n, k);
      LoadsStored(enc, dec, Piece(data, chunk, k));
    }
  }

  lemma {:induction false} StoredFitUpTo(enc: Encoder, dec: Decoder, data: seq<byte>, chunk: nat, n: nat, k: nat)
    requires Codec(enc, dec) && 0 < n && k <= n && Times(n - 1, chunk) <= |data|
    ensures Start(StoreChunks(enc, data, chunk, n), k) <= (if k == 0 then 0 else ChunkEnd(|data|, chunk, k - 1))
  {
    hide StoreChunks, StoreChunk, LoadChunk, Codec;
    if k > 0 {
      StoredFitUpTo(enc, dec, data, chunk, n, k - 1);
      StoreChunksAt(enc, data, chunk, n, k - 1);
      LoadsStored(enc, dec, Piece(data, chunk, k - 1));
    }
  }

  /** Chunk k, loaded and decoded, is chunk k of the data. */
  lemma LoadsChunk(file: seq<byte>, dec: Decoder, data: seq<byte>, chunk: nat, starts: seq<nat>, k: nat)
    requires k + 1 < |starts| && ChunkThere(file, dec, data, chunk, starts, k)
    ensures Times(k, chunk) <= |data|
    ensures LoadAt(file, starts, dec, k, |Piece(data, chunk, k)|) == Some(Piece(data, chunk, k))
  {
  }

  lemma SliceOfSlice(file: seq<byte>, base: nat, len: nat, a: nat, b: nat)
    requires a <= b <= len && base + len <= |file|
    ensures file[base..base + len][a..b] == file[base + a..base + b]
  {
    var s, t := file[base..base + len][a..b], file[base + a..base + b];
    forall i | 0 <= i < b - a
      ensures s[i] == t[i]
    {
      assert file[base..base + len][a + i] == file[base + (a + i)];
    }
  }

  // ---------- serving a range ----------

  /** Where a read that started at off has got to by chunk k. */
  function From(off: nat, base: nat): nat
  {
    if off > base then off else base
  }

  lemma PieceLength(data: seq<byte>, chunk: nat, n: nat, k: nat)
    requires chunk > 0 && data != [] && n == ChunkCount(|data|, chunk) && k < n
    ensures Times(k, chunk) < |data| && |Piece(data, chunk, k)| == DecodedSize(|data|, chunk, k, n) &&
            0 < |Piece(data, chunk, k)| <= chunk
    ensures ChunkEnd(|data|, chunk, k) == if k + 1 == n then |data| else Times(k + 1, chunk)
  {
    ChunkCountBounds(|data|, chunk);
    TimesMonotone(k, n - 1, chunk);
    if k + 1 < n { TimesMonotone(k + 1, n - 1, chunk); }
  }

  lemma WantedIs(data: seq<byte>, base: nat, end: nat, off: nat, want: nat)
    requires base <= end <= |data| && off < end && From(off, base) + want <= |data|
    ensures var part := Wanted(data[base..end], base, off, want);
            && part == data[From(off, base)..From(off, base) + |part|]
            && |part| == (if end - From(off, base) < want then end - From(off, base) else want)
  {
    var from, m := From(off, base) - base, if end - From(off, base) < want then end - From(off, base) else want;
    SliceOfSlice(data, base, end - base, from, from + m);
    assert data[base..base + (end - base)] == data[base..end];
  }

  lemma ServeNext(file: seq<byte>, offs: seq<nat>, size: nat, chunk: nat, dec: Decoder, k: nat, off: nat, want: nat,
                  d: seq<byte>)
    requires k + 1 < |offs| && want > 0 && 0 < DecodedSize(size, chunk, k, |offs| - 1) <= chunk
    requires LoadAt(file, offs, dec, k, DecodedSize(size, chunk, k, |offs| - 1)) == Some(d)
    ensures var part := Wanted(d, Times(k, chunk), off, want);
            var rest := Serve(file, offs, size, chunk, dec, k + 1, off, want - |part|);
            Serve(file, offs, size, chunk, dec, k, off, want) == Served(part + rest.bytes, rest.ok)
  {
    hide LoadAt, Wanted, DecodedSize;
  }

  lemma ServeNothing(file: seq<byte>, offs: seq<nat>, size: nat, chunk: nat, dec: Decoder, k: nat, off: nat)
    ensures Serve(file, offs, size, chunk, dec, k, off, 0) == Served([], true)
  {
  }

  lemma SlicesJoin(data: seq<byte>, p: nat, m: nat, want: nat)
    requires m <= want && p + want <= |data|
    ensures data[p..p + m] + data[p + m..p + want] == data[p..p + want] && data[p..p] == []
  {
  }

  /** How much of a read chunk k serves. */
  function Share(end: nat, p: nat, want: nat): nat
    requires p <= end
  {
    if end - p < want then end - p else want
  }

  /** What chunk k does not serve, the next one goes on with. */
  lemma Resumes(data: seq<byte>, chunk: nat, n: nat, k: nat, off: nat, want: nat)
    requires chunk > 0 && data != [] && n == ChunkCount(|data|, chunk) && k < n && off < |data| &&
             off < Times(k + 1, chunk)
    requires From(off, Times(k, chunk)) + want <= |data|
    ensures Times(k, chunk) <= From(off, Times(k, chunk)) < ChunkEnd(|data|, chunk, k)
    ensures var p := From(off, Times(k, chunk));
            var m := Share(ChunkEnd(|data|, chunk, k), p, want);
            && (k + 1 < n ==> off < Times(k + 2, chunk))
            && (m < want ==> k + 1 < n && From(off, Times(k + 1, chunk)) == p + m)
  {
    hide Times, ChunkCount, ChunkEnd, Piece, DecodedSize;
    PieceLength(data, chunk, n, k);
    TimesShift(k, chunk);
    TimesShift(k + 1, chunk);
  }

  /** From chunk k on, a read is served the bytes from where it has got to. */
  lemma {:induction false} Serves(file: seq<byte>, res: ResHdr, dec: Decoder, data: seq<byte>, chunk: nat,
                                  starts: seq<nat>, k: nat, off: nat, want: nat)
    requires chunk > 0 && LaidOut(file, res, dec, data, chunk, starts) && k < |starts|
    requires off < |data| && (k + 1 < |starts| ==> off < Times(k + 1, chunk)) && (k + 1 == |starts| ==> want == 0)
    requires From(off, Times(k, chunk)) + want <= |data| || want == 0
    ensures var p := From(off, Times(k, chunk));
            Serve(file, starts, |data|, chunk, dec, k, off, want) ==
            Served(if want > 0 then data[p..p + want] else [], true)
    decreases |starts| - k
  {
    hide LoadAt, Wanted, ChunkCount, ChunkEnd, Serve, DecodedSize, Times, From, ChunkThere, EntrySays, Piece;
    ServeNothing(file, starts, |data|, chunk, dec, k, off);
    if k + 1 < |starts| && want > 0 {
      var n, end := |starts| - 1, ChunkEnd(|data|, chunk, k);
      PieceLength(data, chunk, n, k);
      Resumes(data, chunk, n, k, off, want);
      assert ChunkThere(file, dec, data, chunk, starts, k);
      LoadsChunk(file, dec, data, chunk, starts, k);
      PieceIs(data, chunk, k);
      WantedIs(data, Times(k, chunk), end, off, want);
      var part := Wanted(Piece(data, chunk, k), Times(k, chunk), off, want);
      ServeNext(file, starts, |data|, chunk, dec, k, off, want, Piece(data, chunk, k));
      Serves(file, res, dec, data, chunk, starts, k + 1, off, want - |part|);
      SlicesJoin(data, From(off, Times(k, chunk)), |part|, want);
    }
  }

  lemma PieceIs(data: seq<byte>, chunk: nat, k: nat)
    requires Times(k, chunk) <= |data|
    ensures Times(k, chunk) <= ChunkEnd(|data|, chunk, k)
    ensures Piece(data, chunk, k) == data[Times(k, chunk)..ChunkEnd(|data|, chunk, k)]
  {
  }

  // ---------- the theorem ----------

  /** The parts of a compressed resource in the file. */
  lemma BodyParts(file: seq<byte>, offset: nat, table: seq<byte>, flat: seq<byte>)
    requires offset + |table + flat| <= |file| && file[offset..offset + |table + flat|] == table + flat
    ensures file[offset..offset + |table|] == table
    ensures file[offset + |table|..offset + |table| + |flat|] == flat
  {
    SliceOfSlice(file, offset, |table + flat|, 0, |table|);
    SliceOfSlice(file, offset, |table + flat|, |table|, |table| + |flat|);
    assert (table + flat)[..|table|] == table && (table + flat)[|table|..] == flat;
  }

  /** A table of at least four bytes per chunk after the first says the size is plausible. */
  lemma BodyPlausible(size: nat, uncompressed: nat, chunk: nat, n: nat, entry: nat)
    requires chunk > 0 && n > 0 && uncompressed <= Times(n, chunk) && entry >= 4 && Times(n - 1, entry) <= size
    ensures uncompressed <= Times(size / 4 + 1, chunk)
  {
    TimesIs(n - 1, entry);
    EntriesFit(n - 1, entry, size);
    TimesMonotone(n, size / 4 + 1, chunk);
  }

  lemma EntriesFit(k: nat, entry: nat, size: nat)
    requires entry >= 4 && Times(k, entry) <= size
    ensures k <= size / 4
  {
    TimesAtLeast(k, entry);
  }

  lemma {:induction false} TimesAtLeast(k: nat, entry: nat)
    requires entry >= 4
    ensures Times(k, entry) >= 4 * k
  {
    if k > 0 { TimesAtLeast(k - 1, entry); }
  }

  lemma SizeFitsEntry(size: nat)
    requires size <= MAX_RESOURCE_SIZE
    ensures size < Bound(EntrySize(size))
  {
    Bounds();
  }

  /** What the reader takes the chunk size to be: a WIM with no codec declares none. */
  function ReaderChunk(lzx: bool, chunk: nat): nat
  {
    if lzx then chunk else 0
  }

  /**
   * What a read of len bytes at off should give: as many of them as there are, and end of file exactly when some are
   * not.
   */
  function Range(data: seq<byte>, off: int, len: nat): Read
  {
    if off < 0 then Read([], BadOffset)
    else if |data| > MAX_RESOURCE_SIZE then Read([], Corrupt)
    else if off >= |data| then Read([], Eof)
    else if off + len > |data| then Read(data[off..], Eof)
    else Read(data[off..off + len], Ok)
  }

  lemma FetchesCompressed(file: seq<byte>, res: ResHdr, dec: Decoder, data: seq<byte>, chunk: nat, starts: seq<nat>,
                          off: nat, want: nat)
    requires chunk > 0 && LaidOut(file, res, dec, data, chunk, starts) && |data| <= MAX_RESOURCE_SIZE
    requires off + want <= |data| && want > 0
    ensures Plausible(res, chunk) && Fetch(file, res, chunk, dec, off, want) == Served(data[off..off + want], true)
  {
    hide Serve, ReadTable, ChunkThere, EntrySays, ChunkCount;
    var n := ChunkCount(|data|, chunk);
    ChunkCountBounds(|data|, chunk);
    TableAccepted(file, res, dec, data, chunk, starts);
    FirstTimes(off, chunk);
    if n <= off / chunk { TimesMonotone(n, off / chunk, chunk); }
    Serves(file, res, dec, data, chunk, starts, off / chunk, off, want);
  }

  /** A range read from a compressed resource is that range of the data, whoever wrote the resource. */
  lemma AnyResourceReads(file: seq<byte>, res: ResHdr, dec: Decoder, data: seq<byte>, chunk: nat, starts: seq<nat>,
                         off: int, len: nat)
    requires chunk > 0 && LaidOut(file, res, dec, data, chunk, starts)
    ensures ReadResource(file, res, chunk, dec, off, len) == Range(data, off, len)
  {
    hide Fetch, ChunkThere, EntrySays, ChunkCount;
    if 0 <= off && |data| <= MAX_RESOURCE_SIZE {
      TableAccepted(file, res, dec, data, chunk, starts);
      var want := if off + len > |data| then |data| - off else len;
      if off < |data| && want > 0 { FetchesCompressed(file, res, dec, data, chunk, starts, off, want); }
    }
  }

  // ---------- what this writer stores ----------

  /** Where chunk k of what is stored starts. */
  lemma {:induction false} StartsAt(ss: seq<seq<byte>>, base: nat, n: nat, k: nat)
    requires k < n <= |ss| + 1
    ensures Starts(ss, base, n)[k] == base + Start(ss, k)
  {
    if k < n - 1 { StartsAt(ss, base, n - 1, k); }
  }

  /** Where the first n chunks start when the first starts at base. */
  function Starts(ss: seq<seq<byte>>, base: nat, n: nat): (offs: seq<nat>)
    requires n <= |ss| + 1
    ensures |offs| == n
  {
    if n == 0 then [] else Starts(ss, base, n - 1) + [base + Start(ss, n - 1)]
  }

  lemma OwnEntry(file: seq<byte>, offset: nat, ss: seq<seq<byte>>, w: nat, n: nat, base: nat, k: nat)
    requires 0 < k < n <= |ss| && Start(ss, |ss|) < Bound(w)
    requires offset + |Table(ss, w, n)| <= |file| && file[offset..offset + |Table(ss, w, n)|] == Table(ss, w, n)
    ensures EntrySays(file, offset, w, k, base, base + Start(ss, k))
  {
    hide Put, Get, Bound, Table, Start;
    TimesMonotone(k - 1, k, w);
    TableAt(ss, w, n, k);
    SliceOfSlice(file, offset, |Table(ss, w, n)|, Times(k - 1, w), Times(k, w));
    StartMonotone(ss, k, |ss|);
    GetPut(Start(ss, k), w);
  }

  lemma OwnChunk(file: seq<byte>, enc: Encoder, dec: Decoder, data: seq<byte>, chunk: nat, n: nat, base: nat, k: nat)
    requires Codec(enc, dec) && k < n && Times(n - 1, chunk) <= |data|
    requires var ss := StoreChunks(enc, data, chunk, n);
             base + Start(ss, n) <= |file| && file[base..base + Start(ss, n)] == Flat(ss, n)
    ensures ChunkThere(file, dec, data, chunk, Starts(StoreChunks(enc, data, chunk, n), base, n + 1), k)
  {
    hide Codec, StoreChunks, Flat, StoreChunk, LoadChunk, Starts, Times, Start;
    var ss := StoreChunks(enc, data, chunk, n);
    StoreChunksAt(enc, data, chunk, n, k);
    StoredFit(enc, dec, data, chunk, n);
    StartsAt(ss, base, n + 1, k);
    StartsAt(ss, base, n + 1, k + 1);
    FlatAt(ss, n, k);
    StartMonotone(ss, k, k + 1);
    SliceOfSlice(file, base, Start(ss, n), Start(ss, k), Start(ss, k + 1));
    LoadsStored(enc, dec, Piece(data, chunk, k));
    LoadIs(dec, ss[k], |Piece(data, chunk, k)|);
    assert Start(ss, k + 1) == Start(ss, k) + |ss[k]| by { StartStep(ss, k); }
  }

  lemma StartStep(ss: seq<seq<byte>>, k: nat)
    requires k < |ss|
    ensures Start(ss, k + 1) == Start(ss, k) + |ss[k]|
  {
  }

  lemma LoadIs(dec: Decoder, stored: seq<byte>, size: nat)
    ensures LoadChunk(dec, stored, size) == if |stored| == size then Some(stored) else dec(stored, size)
  {
  }

  /** What this writer stores compressed is laid out so. */
  lemma OwnLayout(file: seq<byte>, res: ResHdr, enc: Encoder, dec: Decoder, data: seq<byte>, chunk: nat)
    returns (starts: seq<nat>)
    requires Codec(enc, dec) && chunk > 0 && data != [] && |data| <= MAX_RESOURCE_SIZE
    requires Inside(file, res) && IsCompressed(res) && res.uncompressed == |data|
    requires res.size == |Body(enc, data, chunk)| && file[res.offset..res.offset + res.size] == Body(enc, data, chunk)
    ensures LaidOut(file, res, dec, data, chunk, starts)
  {
    hide Codec, StoreChunks, Starts, Flat, Table, Bound, ChunkThere, EntrySays, Start, Times, ChunkCount;
    var n, w := ChunkCount(|data|, chunk), EntrySize(|data|);
    ChunkCountBounds(|data|, chunk);
    var ss := StoreChunks(enc, data, chunk, n);
    var base := res.offset + Times(n - 1, w);
    BodyParts(file, res.offset, Table(ss, w, n), Flat(ss, n));
    StoredFit(enc, dec, data, chunk, n);
    SizeFitsEntry(|data|);
    starts := Starts(ss, base, n + 1);
    StartsEnds(ss, base);
    forall k: nat | 0 < k < n
      ensures EntrySays(file, res.offset, w, k, starts[0], starts[k])
    {
      StartsAt(ss, base, n + 1, k);
      OwnEntry(file, res.offset, ss, w, n, base, k);
    }
    forall k: nat | k < n
      ensures ChunkThere(file, dec, data, chunk, starts, k)
    {
      OwnChunk(file, enc, dec, data, chunk, n, base, k);
    }
  }

  lemma StartsEnds(ss: seq<seq<byte>>, base: nat)
    ensures Starts(ss, base, |ss| + 1)[0] == base && Starts(ss, base, |ss| + 1)[|ss|] == base + Start(ss, |ss|)
  {
    StartsAt(ss, base, |ss| + 1, 0);
  }

  /**
   * A read returns the bytes of the range it names, and nothing exactly of a resource that is over the reader's
   * limit.
   */
  lemma ReadsRange(file: seq<byte>, res: ResHdr, lzx: bool, enc: Encoder, dec: Decoder, data: seq<byte>, chunk: nat,
                   off: int, len: nat)
    requires Codec(enc, dec) && chunk > 0 && Holds(file, res, lzx, enc, data, chunk)
    ensures Inside(file, res) &&
            ReadResource(file, res, ReaderChunk(lzx, chunk), dec, off, len) == Range(data, off, len)
  {
    if 0 <= off && |data| <= MAX_RESOURCE_SIZE { ReadsSome(file, res, lzx, enc, dec, data, chunk, off, len); }
  }

  lemma ReadsSome(file: seq<byte>, res: ResHdr, lzx: bool, enc: Encoder, dec: Decoder, data: seq<byte>, chunk: nat,
                  off: nat, len: nat)
    requires Codec(enc, dec) && chunk > 0 && |data| <= MAX_RESOURCE_SIZE && Holds(file, res, lzx, enc, data, chunk)
    ensures Inside(file, res) &&
            ReadResource(file, res, ReaderChunk(lzx, chunk), dec, off, len) == Range(data, off, len)
  {
    hide Codec, Body, Fetch, LaidOut;
    var flags: nat :| && flags <= FLAG_METADATA && flags != 1
                 && res == HeaderFor(Stored(lzx, enc, data, chunk, flags), data, res.offset)
                 && file[res.offset..res.offset + res.size] == Stored(lzx, enc, data, chunk, flags).0;
    var want := if off + len > |data| then |data| - off else len;
    if off < |data| && want > 0 {
      if IsCompressed(res) {
        var starts := OwnLayout(file, res, enc, dec, data, chunk);
        FetchesCompressed(file, res, dec, data, chunk, starts, off, want);
      } else {
        FetchesRaw(file, res, dec, data, ReaderChunk(lzx, chunk), off, want);
      }
    }
    if IsCompressed(res) { PlausibleCompressed(file, res, enc, dec, data, chunk); }
  }

  /** The same, with the codec the writer uses. */
  lemma ReadsRangeLzx(file: seq<byte>, res: ResHdr, lzx: bool, data: seq<byte>, chunk: nat, off: int, len: nat)
    requires chunk > 0 && Holds(file, res, lzx, LzxEncoder(), data, chunk)
    ensures Inside(file, res) &&
            ReadResource(file, res, ReaderChunk(lzx, chunk), LzxDecoder(), off, len) == Range(data, off, len)
  {
    hide Codec, ReadResource, Holds, LzxEncoder, LzxDecoder;
    LzxIsCodec();
    ReadsRange(file, res, lzx, LzxEncoder(), LzxDecoder(), data, chunk, off, len);
  }

  lemma PlausibleCompressed(file: seq<byte>, res: ResHdr, enc: Encoder, dec: Decoder, data: seq<byte>, chunk: nat)
    requires Codec(enc, dec) && chunk > 0 && data != [] && |data| <= MAX_RESOURCE_SIZE
    requires Inside(file, res) && IsCompressed(res) && res.uncompressed == |data|
    requires res.size == |Body(enc, data, chunk)| && file[res.offset..res.offset + res.size] == Body(enc, data, chunk)
    ensures Plausible(res, chunk)
  {
    var starts := OwnLayout(file, res, enc, dec, data, chunk);
    TableAccepted(file, res, dec, data, chunk, starts);
  }

  lemma FetchesRaw(file: seq<byte>, res: ResHdr, dec: Decoder, data: seq<byte>, chunk: nat, off: nat, want: nat)
    requires Inside(file, res) && !IsCompressed(res) && res.size == res.uncompressed == |data| <= MAX_RESOURCE_SIZE
    requires file[res.offset..res.offset + res.size] == data && off + want <= |data| && want > 0
    ensures Fetch(file, res, chunk, dec, off, want) == Served(data[off..off + want], true)
  {
    SliceOfSlice(file, res.offset, |data|, off, off + want);
  }

  // ---------- what is refused ----------

  /** The declared size is over the limit, or cannot come of the bytes stored: each chunk but one has an entry. */
  predicate Implausible(res: ResHdr, chunk: nat)
  {
    || res.uncompressed > 0x10_0000_0000
    || (res.flags / 4 % 2 == 0 && res.uncompressed != res.size)
    || (res.flags / 4 % 2 == 1 && (chunk == 0 || res.uncompressed > (res.size / 4 + 1) * chunk))
  }

  /** No byte of such a resource is read, whatever the file holds. */
  lemma ImplausibleIsRefused(file: seq<byte>, res: ResHdr, chunk: nat, dec: Decoder, off: nat, len: nat)
    requires Inside(file, res)
    ensures Implausible(res, chunk) ==> ReadResource(file, res, chunk, dec, off, len) == Read([], Corrupt)
    ensures ReadResource(file, res, chunk, dec, off, len).status == Eof ==> !Implausible(res, chunk)
  {
    hide Fetch, Times;
    TimesIs(res.size / 4 + 1, chunk);
  }
}
