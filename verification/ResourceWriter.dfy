/**
 * Storing a resource: its chunks coded one by one, the table of where each begins, and the choice to compress at all.
 */
module ResourceWriter {
  import opened Bits
  import opened BitStream
  import opened Canonical
  import opened LittleEndian
  import opened Slots
  import opened ChunkEncode
  import opened ChunkCompressor
  import opened Chunks
  import opened ResourceFormat

  /** Chunk i as it will be stored. */
  method EncodeChunk(c: Compressor, scratch: array<byte>, data: seq<byte>, chunk: nat, i: nat) returns (e: seq<byte>)
    requires c.Shape() && scratch.Length == chunk && scratch != c.buf && chunk > 0
    requires Times(i, chunk) <= |data|
    modifies c, c.head, c.prev, c.buf, c.mainFreq, c.lenFreq, c.alignedFreq, c.w, scratch
    ensures c.Shape() && e == StoreChunk(LzxEncoder(), Piece(data, chunk, i))
  {
    hide Compressed;
    TimesIs(i, chunk);
    TimesIs(i + 1, chunk);
    var end := (i + 1) * chunk;
    if end > |data| { end := |data|; }
    var src := data[i * chunk..end];
    assert src == Piece(data, chunk, i) && |src| <= chunk;
    CompressedShrinks(src);
    var n, ok := c.Compress(scratch, src);
    e := if ok then scratch[..n] else src;
  }

  lemma CompressedShrinks(src: seq<byte>)
    ensures Compressed(src).Some? ==> |Compressed(src).value| < |src|
  {
  }

  /** All the chunks, each at its own index. */
  method EncodeChunks(c: Compressor, data: seq<byte>, chunk: nat, n: nat) returns (encoded: seq<seq<byte>>)
    requires c.Shape() && chunk > 0 && n > 0 && Times(n - 1, chunk) <= |data|
    modifies c, c.head, c.prev, c.buf, c.mainFreq, c.lenFreq, c.alignedFreq, c.w
    ensures c.Shape() && encoded == StoreChunks(LzxEncoder(), data, chunk, n)
  {
    hide LzxEncoder, StoreChunk, Piece;
    var scratch := new byte[chunk](_ => 0);
    encoded := [];
    for i := 0 to n
      invariant c.Shape() && (i > 0 ==> Times(i - 1, chunk) <= |data|)
      invariant encoded == StoreChunks(LzxEncoder(), data, chunk, i)
    {
      TimesMonotone(i, n - 1, chunk);
      var e := EncodeChunk(c, scratch, data, chunk, i);
      encoded := encoded + [e];
    }
  }

  /** The table, filled in as the chunks are laid end to end. */
  method LayOut(encoded: seq<seq<byte>>, entry: nat) returns (table: seq<byte>, chunks: seq<byte>)
    ensures table == Table(encoded, entry, |encoded|) && chunks == Flat(encoded, |encoded|)
  {
    table, chunks := [], [];
    for i := 0 to |encoded|
      invariant table == Table(encoded, entry, i) && chunks == Flat(encoded, i)
    {
      if i > 0 { table := table + Put(|chunks|, entry); }
      chunks := chunks + encoded[i];
    }
  }

  /** The encoding is returned whether or not it is smaller. */
  method CompressResource(c: Compressor, data: seq<byte>, chunk: nat) returns (body: seq<byte>, smaller: bool)
    requires c.Shape() && chunk > 0 && data != []
    modifies c, c.head, c.prev, c.buf, c.mainFreq, c.lenFreq, c.alignedFreq, c.w
    ensures c.Shape() && body == Body(LzxEncoder(), data, chunk) && smaller == (|body| < |data|)
  {
    hide LzxEncoder, StoreChunks, Table, Flat;
    var n := (|data| + chunk - 1) / chunk;
    CeilingIs(|data|, chunk, n);
    ChunkCountBounds(|data|, chunk);
    var entry := 4;
    if |data| > 0xffff_ffff { entry := 8; }
    var encoded := EncodeChunks(c, data, chunk, n);
    var table, chunks := LayOut(encoded, entry);
    body := table + chunks;
    smaller := |body| < |data|;
  }

  /** What is stored for data: metadata is compressed whether or not that pays. */
  method StoreResource(c: Compressor, lzx: bool, data: seq<byte>, chunk: nat, flags: nat)
    returns (body: seq<byte>, outFlags: nat)
    requires c.Shape() && chunk > 0
    modifies c, c.head, c.prev, c.buf, c.mainFreq, c.lenFreq, c.alignedFreq, c.w
    ensures c.Shape() && (body, outFlags) == Stored(lzx, LzxEncoder(), data, chunk, flags)
    ensures flags == 0 || flags == FLAG_METADATA ==>
              CompressedWhenDue(ResHdr(|body|, outFlags, 0, |data|), data, lzx, LzxEncoder(), chunk, flags != 0)
  {
    hide LzxEncoder, Body;
    body, outFlags := data, flags;
    if lzx && |data| > 0 {
      var enc, smaller := CompressResource(c, data, chunk);
      if smaller || flags / 2 % 2 == 1 {
        body, outFlags := enc, flags + FLAG_COMPRESSED;
      }
    }
  }
}
