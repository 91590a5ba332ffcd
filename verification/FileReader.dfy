/** An open file: reads of any sizes, one after another, make up its content. */
module FileReader {
  import opened Bits
  import opened Chunks
  import opened ResourceFormat
  import RandomAccess
  import opened ResourceReader

  class File {
    const rd: Reader
    const hasData: bool
    const res: ResHdr
    const cache: ChunkCache
    var off: nat
    ghost const lzx: bool
    ghost const chunk: nat
    ghost const content: seq<byte>

    /** The resource is what the writer stored for the content; a file with no resource is empty. */
    ghost predicate Backed()
    {
      if hasData then
        && chunk > 0 && rd.chunkSize == RandomAccess.ReaderChunk(lzx, chunk) && rd.Knows(res)
        && RandomAccess.Holds(rd.r.data, res, lzx, LzxEncoder(), content, chunk)
      else content == []
    }

    ghost predicate Valid()
      reads this, rd, cache, cache.data
    {
      Backed() && rd.Valid() && off <= |content| && (hasData && rd.Readable(res) ==> rd.CacheOf(cache, res))
    }

    constructor (rd: Reader, hasData: bool, res: ResHdr, ghost lzx: bool, ghost chunk: nat, ghost content: seq<byte>)
      requires rd.Valid()
      requires if hasData then
                 && chunk > 0 && rd.chunkSize == RandomAccess.ReaderChunk(lzx, chunk) && rd.Knows(res)
                 && RandomAccess.Holds(rd.r.data, res, lzx, LzxEncoder(), content, chunk)
               else content == []
      ensures Valid() && this.rd == rd && this.hasData == hasData && this.res == res && off == 0 &&
              this.content == content
      ensures fresh(cache) && fresh(cache.data) && fresh(cache.raw)
    {
      hide RandomAccess.Holds, Reader.Readable, Reader.Knows, Reader.Valid, LzxEncoder, ReadTable;
      this.rd, this.hasData, this.res, this.lzx, this.chunk, this.content := rd, hasData, res, lzx, chunk, content;
      cache := new ChunkCache(rd.chunkSize);
      off := 0;
    }

    /** Reads at an offset of its own, leaving the file's position alone. */
    method ReadAt(p: array<byte>, at: int) returns (n: nat, end: Outcome)
      requires Valid() && p != cache.data && p != cache.raw
      modifies rd`tables, rd.r, cache`idx, cache.data, cache.raw, p
      ensures Valid() && n <= p.Length
      ensures hasData ==> Reports(RandomAccess.Range(content, at, p.Length), p[..n], end)
      ensures !hasData ==> n == 0 && end == Done(if p.Length == 0 then Ok else Eof)
      ensures end == Failed <==>
              rd.r.faults > old(rd.r.faults) ||
              (hasData && old(rd.FaultRemembered(res)) && rd.NeedsTable(res, at, p.Length))
    {
      hide RandomAccess.Holds, ReadResource, Reader.CacheOf, Reader.Readable, Reader.Knows, Reader.Valid, LzxEncoder,
        LzxDecoder;
      if !hasData {
        return 0, if p.Length == 0 then Done(Ok) else Done(Eof);
      }
      RandomAccess.ReadsRangeLzx(rd.r.data, res, lzx, content, chunk, at, p.Length);
      n, end := rd.ReadResourceAt(res, p, at, cache);
    }

    /** Reads on from where the last read stopped. */
    method Read(p: array<byte>) returns (n: nat, end: Outcome)
      requires Valid() && p != cache.data && p != cache.raw
      modifies this`off, rd`tables, rd.r, cache`idx, cache.data, cache.raw, p
      ensures Valid() && n <= p.Length && off == old(off) + n
      ensures content[..off] == content[..old(off)] + p[..n]
      ensures end == Failed <==>
              rd.r.faults > old(rd.r.faults) ||
              (hasData && old(rd.FaultRemembered(res)) && rd.NeedsTable(res, old(off), p.Length))
      ensures match end
              case Failed => true
              case Done(Ok) => n == p.Length
              case Done(Eof) => off == |content|
              case Done(Corrupt) => n == 0 && |content| > MAX_RESOURCE_SIZE
              case Done(BadOffset) => false
    {
      hide RandomAccess.Holds, Reader.CacheOf, Reader.Valid, Reader.Knows, Reader.Readable;
      n, end := ReadAt(p, off);
      off := off + n;
    }
  }
}
