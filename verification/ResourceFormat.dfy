/** Resources as they lie in a WIM: what the writer stores, and what a read of any byte range returns. */
module ResourceFormat {
  import opened Bits
  import opened Canonical
  import opened LittleEndian
  import opened Chunks

  const FLAG_METADATA: nat := 2
  const FLAG_COMPRESSED: nat := 4

  /** No resource is longer than this once uncompressed. */
  const MAX_RESOURCE_SIZE: nat := 64 * 0x4000_0000

  /** Offsets and sizes in a WIM are 64-bit. */
  const WORD: nat := 0x1_0000_0000_0000_0000

  datatype ResHdr = ResHdr(size: nat, flags: nat, offset: nat, uncompressed: nat)

  predicate IsCompressed(res: ResHdr)
  {
    res.flags / 4 % 2 == 1
  }

  predicate IsMetadata(res: ResHdr)
  {
    res.flags / 2 % 2 == 1
  }

  /** The resource lies within the file, as the reader has checked of every resource it uses. */
  predicate Inside(file: seq<byte>, res: ResHdr)
  {
    res.offset + res.size <= |file| < WORD
  }

  // ---------- writing ----------

  /**
   * What the writer stores: compressed when the WIM has a codec and either that is smaller or it is an image's
   * metadata.
   */
  function Stored(lzx: bool, enc: Encoder, data: seq<byte>, chunk: nat, flags: nat): (r: (seq<byte>, nat))
    requires chunk > 0
  {
    if lzx && data != [] && (|Body(enc, data, chunk)| < |data| || flags / 2 % 2 == 1) then
      (Body(enc, data, chunk), flags + FLAG_COMPRESSED)
    else (data, flags)
  }

  /** The header of what is stored at pos. */
  function HeaderFor(stored: (seq<byte>, nat), data: seq<byte>, pos: nat): ResHdr
  {
    ResHdr(|stored.0|, stored.1, pos, |data|)
  }

  /**
   * A writer with a codec compresses an image's metadata always and a stream just when that makes it smaller,
     so that no
   * stream takes up more than its own length.
   */
  ghost predicate CompressedWhenDue(res: ResHdr, data: seq<byte>, lzx: bool, enc: Encoder, chunk: nat, metadata: bool)
    requires chunk > 0
  {
    && (IsMetadata(res) <==> metadata) && res.uncompressed == |data|
    && if !lzx || data == [] then !IsCompressed(res) && res.size == |data|
       else
         var coded := |Body(enc, data, chunk)|;
         && (IsCompressed(res) <==> metadata || coded < |data|)
         && (metadata ==> res.size == coded)
         && (!metadata ==> res.size == (if coded < |data| then coded else |data|))
  }

  // ---------- checking ----------

  /** The declared size could come from the bytes that are stored. */
  predicate Plausible(res: ResHdr, chunk: nat)
  {
    && res.uncompressed <= MAX_RESOURCE_SIZE
    && if IsCompressed(res) then chunk > 0 && res.uncompressed <= Times(res.size / 4 + 1, chunk)
       else res.size == res.uncompressed
  }

  function Add64(a: nat, b: nat): (c: nat)
  {
    if a + b < WORD then a + b else a + b - WORD
  }

  /** Where the first n chunks start, going by the table. */
  function Offsets(tbl: seq<byte>, entry: nat, base: nat, n: nat): (offs: seq<nat>)
    requires n > 1 ==> Times(n - 1, entry) <= |tbl|
    ensures |offs| == n
  {
    if n == 0 then [] else if n == 1 then [base]
    else
      TimesMonotone(n - 2, n - 1, entry);
      Offsets(tbl, entry, base, n - 1) + [Add64(base, Get(tbl[Times(n - 2, entry)..Times(n - 1, entry)]))]
  }

  /** Chunk k lies inside the resource, in order, and holds no more than a chunk's worth. */
  predicate Spans(offs: seq<nat>, k: nat, base: nat, end: nat, chunk: nat)
    requires k + 1 < |offs|
  {
    base <= offs[k] <= offs[k + 1] <= end && offs[k + 1] - offs[k] <= chunk
  }

  predicate AllSpan(offs: seq<nat>, base: nat, end: nat, chunk: nat)
  {
    forall k: nat {:trigger Spans(offs, k, base, end, chunk)} :: k + 1 < |offs| ==> Spans(offs, k, base, end, chunk)
  }

  /** The chunk boundaries of a compressed resource: entry k starts chunk k, and the last entry is the end. */
  function ReadTable(file: seq<byte>, res: ResHdr, chunk: nat): (r: Option<seq<nat>>)
    requires Inside(file, res) && Plausible(res, chunk) && IsCompressed(res)
    ensures r.Some? && res.uncompressed > 0 ==> |r.value| == ChunkCount(res.uncompressed, chunk) + 1
  {
    var n := ChunkCount(res.uncompressed, chunk);
    if n == 0 then Some([res.offset, res.offset + res.size])
    else
      var entry := EntrySize(res.uncompressed);
      var len := Times(n - 1, entry);
      if len > res.size then None
      else
        var base := res.offset + len;
        var offs := Offsets(file[res.offset..base], entry, base, n) + [res.offset + res.size];
        if AllSpan(offs, base, res.offset + res.size, chunk) then Some(offs) else None
  }

  // ---------- reading ----------

  /** How many bytes chunk k of n decodes to. */
  function DecodedSize(size: nat, chunk: nat, k: nat, n: nat): int
    requires n > 0
  {
    if k == n - 1 then size - Times(n - 1, chunk) else chunk
  }

  /** Chunk k, decoded. */
  function LoadAt(file: seq<byte>, offs: seq<nat>, dec: Decoder, k: nat, size: nat): Option<seq<byte>>
  {
    if k + 1 < |offs| && offs[k] <= offs[k + 1] <= |file| then LoadChunk(dec, file[offs[k]..offs[k + 1]], size)
    else None
  }

  /** What has been read, and whether that is all that was wanted. */
  datatype Served = Served(bytes: seq<byte>, ok: bool)

  /** The part of a decoded chunk that a read wants: it starts at off, or where the chunk does. */
  function Wanted(d: seq<byte>, base: nat, off: nat, want: nat): (b: seq<byte>)
    ensures |b| <= want
  {
    var from := if off > base then off - base else 0;
    if from >= |d| then [] else if |d| - from < want then d[from..] else d[from..from + want]
  }

  /** Reads want bytes, those from offset off on, out of the chunks from number k on. */
  function Serve(file: seq<byte>, offs: seq<nat>, size: nat, chunk: nat, dec: Decoder, k: nat, off: nat,
                 want: nat): (r: Served)
    ensures |r.bytes| <= want && (r.ok ==> |r.bytes| == want)
    decreases |offs| - k
  {
    if k + 1 >= |offs| || want == 0 then Served([], want == 0)
    else
      var usize := DecodedSize(size, chunk, k, |offs| - 1);
      if usize <= 0 || usize > chunk then Served([], false)
      else
        match LoadAt(file, offs, dec, k, usize)
        case None => Served([], false)
        case Some(d) =>
          var part := Wanted(d, Times(k, chunk), off, want);
          var rest := Serve(file, offs, size, chunk, dec, k + 1, off, want - |part|);
          Served(part + rest.bytes, rest.ok)
  }

  datatype Status = Ok | Eof | Corrupt | BadOffset

  datatype Read = Read(bytes: seq<byte>, status: Status)

  /** The chunk that offset off is in. */
  function ChunkOf(off: nat, chunk: nat): (k: nat)
    requires chunk > 0
  {
    off / chunk
  }

  /** The bytes of a non-empty range within the resource. */
  function Fetch(file: seq<byte>, res: ResHdr, chunk: nat, dec: Decoder, off: nat, want: nat): (r: Served)
    requires Inside(file, res) && Plausible(res, chunk) && off + want <= res.uncompressed && want > 0
  {
    if !IsCompressed(res) then Served(file[res.offset + off..res.offset + off + want], true)
    else
      match ReadTable(file, res, chunk)
      case None => Served([], false)
      case Some(offs) => Serve(file, offs, res.uncompressed, chunk, dec, ChunkOf(off, chunk), off, want)
  }

  /** A read of len bytes at offset off, with nothing kept from read to read. */
  function ReadResource(file: seq<byte>, res: ResHdr, chunk: nat, dec: Decoder, off: int, len: nat): (r: Read)
    requires Inside(file, res)
  {
    if off < 0 then Read([], BadOffset)
    else if !Plausible(res, chunk) then Read([], Corrupt)
    else if off >= res.uncompressed then Read([], Eof)
    else
      var short := off + len > res.uncompressed;
      var want := if short then res.uncompressed - off else len;
      if want == 0 then Read([], Ok)
      else
        var s := Fetch(file, res, chunk, dec, off, want);
        Read(s.bytes, if !s.ok then Corrupt else if short then Eof else Ok)
  }
}
