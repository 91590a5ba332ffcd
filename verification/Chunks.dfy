/** A resource cut into chunks, each stored compressed where that is smaller and raw where it is not. */
module Chunks {
  import opened Arithmetic
  import opened Bits
  import opened BitStream
  import opened Canonical
  import opened ChunkEncode
  import opened ChunkFormat
  import opened ChunkRoundTrip
  import opened LittleEndian

  /** What a chunk is compressed to, if that is worth it. */
  type Encoder = seq<byte> -> Option<seq<byte>>

  /** What bytes decode to as a chunk of a given size. */
  type Decoder = (seq<byte>, nat) -> Option<seq<byte>>

  /** A codec: what it compresses comes out smaller, and is restored. */
  ghost predicate Codec(enc: Encoder, dec: Decoder)
  {
    forall s: seq<byte> {:trigger enc(s)} :: enc(s).Some? ==> |enc(s).value| < |s| && dec(enc(s).value, |s|) == Some(s)
  }

  ghost function LzxEncoder(): Encoder
  {
    s => Compressed(s)
  }

  function LzxDecoder(): Decoder
  {
    (b, n) => Decompressed(b, n)
  }

  lemma LzxIsCodec()
    ensures Codec(LzxEncoder(), LzxDecoder())
  {
    hide Compressed, Decompressed;
    var enc, dec := LzxEncoder(), LzxDecoder();
    forall s: seq<byte> | enc(s).Some?
      ensures |enc(s).value| < |s| && dec(enc(s).value, |s|) == Some(s)
    {
      CompressedIsRestored(s);
    }
  }

  // ---------- cutting ----------

  /** k chunks' worth of bytes. */
  function Times(k: nat, chunk: nat): (n: nat)
  {
    if k == 0 then 0 else Times(k - 1, chunk) + chunk
  }

  lemma {:induction false} TimesIs(k: nat, chunk: nat)
    ensures Times(k, chunk) == k * chunk
  {
    if k > 0 { TimesIs(k - 1, chunk); }
  }

  lemma {:induction false} TimesMonotone(j: nat, k: nat, chunk: nat)
    requires j <= k
    ensures Times(j, chunk) <= Times(k, chunk)
    decreases k - j
  {
    if j < k { TimesMonotone(j, k - 1, chunk); }
  }

  /** How many chunks n bytes take. */
  function ChunkCount(n: nat, chunk: nat): (c: nat)
    requires chunk > 0
    ensures c == 0 <==> n == 0
  {
    if n == 0 then 0 else if n <= chunk then 1 else 1 + ChunkCount(n - chunk, chunk)
  }

  lemma {:induction false} ChunkCountBounds(n: nat, chunk: nat)
    requires chunk > 0 && n > 0
    ensures Times(ChunkCount(n, chunk) - 1, chunk) < n <= Times(ChunkCount(n, chunk), chunk)
  {
    if n > chunk {
      ChunkCountBounds(n - chunk, chunk);
      TimesShift(ChunkCount(n - chunk, chunk) - 1, chunk);
      TimesShift(ChunkCount(n - chunk, chunk), chunk);
    } else {
      assert Times(1, chunk) == Times(0, chunk) + chunk;
    }
  }

  lemma TimesShift(k: nat, chunk: nat)
    ensures Times(k + 1, chunk) == Times(k, chunk) + chunk
  {
  }

  /** Only one count of chunks is neither too few nor too many. */
  lemma ChunkCountUnique(n: nat, chunk: nat, c: nat)
    requires chunk > 0 && n > 0 && c > 0 && Times(c - 1, chunk) < n <= Times(c, chunk)
    ensures c == ChunkCount(n, chunk)
  {
    var d := ChunkCount(n, chunk);
    ChunkCountBounds(n, chunk);
    if c < d { TimesMonotone(c, d - 1, chunk); }
    if d < c { TimesMonotone(d, c - 1, chunk); }
  }

  /** Rounding the division up counts the chunks. */
  lemma CeilingIs(n: nat, chunk: nat, c: nat)
    requires chunk > 0 && n > 0 && c == (n + chunk - 1) / chunk
    ensures c == ChunkCount(n, chunk)
  {
    FirstTimes(n - 1, chunk);
    DivShift(n - 1, chunk);
    ChunkCountUnique(n, chunk, c);
  }

  lemma FirstTimes(off: nat, chunk: nat)
    requires chunk > 0
    ensures Times(off / chunk, chunk) <= off < Times(off / chunk + 1, chunk)
  {
    TimesIs(off / chunk, chunk);
  }

  /** Where chunk k of n bytes ends. */
  function ChunkEnd(n: nat, chunk: nat, k: nat): (e: nat)
    ensures e <= n
  {
    if Times(k + 1, chunk) <= n then Times(k + 1, chunk) else n
  }

  /** Chunk k of the data. */
  function Piece(data: seq<byte>, chunk: nat, k: nat): (p: seq<byte>)
    requires Times(k, chunk) <= |data|
  {
    data[Times(k, chunk)..ChunkEnd(|data|, chunk, k)]
  }

  // ---------- storing ----------

  function StoreChunk(enc: Encoder, piece: seq<byte>): (s: seq<byte>)
  {
    match enc(piece)
    case None => piece
    case Some(e) => e
  }

  /** A chunk stored at exactly its own size is raw. */
  function LoadChunk(dec: Decoder, stored: seq<byte>, size: nat): Option<seq<byte>>
  {
    if |stored| == size then Some(stored) else dec(stored, size)
  }

  /** Stored chunks are told apart by their sizes alone. */
  lemma LoadsStored(enc: Encoder, dec: Decoder, piece: seq<byte>)
    requires Codec(enc, dec)
    ensures |StoreChunk(enc, piece)| <= |piece| && LoadChunk(dec, StoreChunk(enc, piece), |piece|) == Some(piece)
    ensures |StoreChunk(enc, piece)| == |piece| <==> enc(piece) == None
  {
    assert enc(piece).Some? ==> |enc(piece).value| < |piece|;
  }

  /** The first n chunks as they are stored. */
  function StoreChunks(enc: Encoder, data: seq<byte>, chunk: nat, n: nat): (ss: seq<seq<byte>>)
    requires n > 0 ==> Times(n - 1, chunk) <= |data|
    ensures |ss| == n
  {
    if n == 0 then []
    else
      TimesMonotone(if n > 1 then n - 2 else 0, n - 1, chunk);
      StoreChunks(enc, data, chunk, n - 1) + [StoreChunk(enc, Piece(data, chunk, n - 1))]
  }

  lemma {:induction false} StoreChunksAt(enc: Encoder, data: seq<byte>, chunk: nat, n: nat, k: nat)
    requires k < n && Times(n - 1, chunk) <= |data|
    ensures Times(k, chunk) <= |data| && StoreChunks(enc, data, chunk, n)[k] == StoreChunk(enc, Piece(data, chunk, k))
  {
    TimesMonotone(k, n - 1, chunk);
    if k < n - 1 {
      TimesMonotone(n - 2, n - 1, chunk);
      StoreChunksAt(enc, data, chunk, n - 1, k);
    }
  }

  // ---------- laying out ----------

  /** Where stored chunk k begins among its fellows. */
  function Start(ss: seq<seq<byte>>, k: nat): (p: nat)
    requires k <= |ss|
  {
    if k == 0 then 0 else Start(ss, k - 1) + |ss[k - 1]|
  }

  /** The first k stored chunks end to end. */
  function Flat(ss: seq<seq<byte>>, k: nat): (b: seq<byte>)
    requires k <= |ss|
    ensures |b| == Start(ss, k)
  {
    if k == 0 then [] else Flat(ss, k - 1) + ss[k - 1]
  }

  lemma {:induction false} StartMonotone(ss: seq<seq<byte>>, j: nat, k: nat)
    requires j <= k <= |ss|
    ensures Start(ss, j) <= Start(ss, k)
    decreases k - j
  {
    if j < k { StartMonotone(ss, j, k - 1); }
  }

  lemma {:induction false} FlatAt(ss: seq<seq<byte>>, n: nat, k: nat)
    requires k < n <= |ss|
    ensures Start(ss, k + 1) <= Start(ss, n) && Flat(ss, n)[Start(ss, k)..Start(ss, k + 1)] == ss[k]
    decreases n
  {
    StartMonotone(ss, k + 1, n);
    if k < n - 1 { FlatAt(ss, n - 1, k); }
  }

  /** The table entries of chunks 1 to n - 1: where each begins, counting from the table's end. */
  function Table(ss: seq<seq<byte>>, entry: nat, n: nat): (t: seq<byte>)
    requires n <= |ss|
    ensures |t| == if n == 0 then 0 else Times(n - 1, entry)
  {
    if n <= 1 then [] else Table(ss, entry, n - 1) + Put(Start(ss, n - 1), entry)
  }

  lemma {:induction false} TableAt(ss: seq<seq<byte>>, entry: nat, n: nat, k: nat)
    requires 0 < k < n <= |ss|
    ensures Times(k, entry) <= |Table(ss, entry, n)|
    ensures Table(ss, entry, n)[Times(k - 1, entry)..Times(k, entry)] == Put(Start(ss, k), entry)
    decreases n
  {
    TimesMonotone(k, n - 1, entry);
    if k < n - 1 {
      TimesMonotone(k, n - 2, entry);
      TableAt(ss, entry, n - 1, k);
    }
  }

  /** Table entries are wider for a resource whose size does not fit in 32 bits. */
  function EntrySize(size: nat): (e: nat)
    ensures e == 4 || e == 8
  {
    if size > 0xffff_ffff then 8 else 4
  }

  /** A compressed resource: the table, then the chunks. */
  function Body(enc: Encoder, data: seq<byte>, chunk: nat): (b: seq<byte>)
    requires chunk > 0 && data != []
  {
    ChunkCountBounds(|data|, chunk);
    var n := ChunkCount(|data|, chunk);
    var ss := StoreChunks(enc, data, chunk, n);
    Table(ss, EntrySize(|data|), n) + Flat(ss, n)
  }

  lemma StoredChunkSome(piece: seq<byte>)
    requires piece != []
    ensures StoreChunk(LzxEncoder(), piece) != []
  {
    hide Encoded;
    if LzxEncoder()(piece).Some? { EncodedSome(piece); }
  }

  /** A compressed resource takes up room. */
  lemma BodySome(data: seq<byte>, chunk: nat)
    requires chunk > 0 && data != []
    ensures Body(LzxEncoder(), data, chunk) != []
  {
    hide StoreChunk, Table, LzxEncoder;
    ChunkCountBounds(|data|, chunk);
    var n := ChunkCount(|data|, chunk);
    StoreChunksAt(LzxEncoder(), data, chunk, n, n - 1);
    StoredChunkSome(Piece(data, chunk, n - 1));
  }
}
