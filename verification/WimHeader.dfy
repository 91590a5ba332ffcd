/** The 208 bytes a WIM begins with, as they are written and as they are read. */
module WimHeader {
  import opened Bits
  import opened Canonical
  import opened LittleEndian
  import opened ResourceFormat
  import opened Dentries
  import opened Records
  import opened BlobTable
  import RandomAccess

  const HEADER_SIZE: nat := 208
  const VERSION: nat := 0x10D00
  const DEFAULT_CHUNK_SIZE: nat := 32768
  const LARGEST_CHUNK: nat := 32768

  /** The file signature. */
  const MAGIC: seq<byte> := [77, 83, 87, 73, 77, 0, 0, 0]

  const FLAGS_PLAIN: nat := 0x80
  const FLAGS_LZX: nat := 0x4_0082

  predicate PowerOfTwo(n: nat)
  {
    n == 1 || (n > 1 && n % 2 == 0 && PowerOfTwo(n / 2))
  }

  /** A chunk size the codec can code against. */
  predicate LegalChunk(n: int)
  {
    0 < n <= LARGEST_CHUNK && PowerOfTwo(n)
  }

  function PutHeader(lzx: bool, chunk: nat, guid: seq<byte>, h: Header, xml: ResHdr): (b: seq<byte>)
    requires |guid| == 16
    ensures |b| == HEADER_SIZE
  {
    Front(lzx, chunk, guid, h.imageCount) + (PutResHdr(h.table) + PutResHdr(xml) + PutResHdr(h.bootMeta)) +
      (Put(h.bootIndex, 4) + ZeroBytes(84))
  }

  /** All that comes before the resource headers. */
  function Front(lzx: bool, chunk: nat, guid: seq<byte>, imageCount: nat): (b: seq<byte>)
    requires |guid| == 16
    ensures |b| == 48
  {
    MAGIC + Put(HEADER_SIZE, 4) + Put(VERSION, 4) + Put(if lzx then FLAGS_LZX else FLAGS_PLAIN, 4)
    + Put(if lzx then chunk else 0, 4) + guid + Put(1, 2) + Put(1, 2) + Put(imageCount, 4)
  }

  /** What a reader takes from the header: the chunk size, zero for a WIM that is not compressed, and the rest. */
  datatype Opened = Opened(chunk: nat, h: Header, xml: ResHdr)

  /** The chunk size, if it is one this reader can decode. */
  function ChunkSizeOf(flags: nat, chunk: nat): (r: Option<nat>)
    ensures r.Some? && flags / 2 % 2 == 1 ==> LegalChunk(r.value)
  {
    if flags / 2 % 2 == 0 then Some(0)
    else if flags / 0x2_0000 % 2 == 1 || flags / 0x8_0000 % 2 == 1 || flags / 0x4_0000 % 2 == 0 then None
    else
      var n := if chunk == 0 then DEFAULT_CHUNK_SIZE else chunk;
      if LegalChunk(n) then Some(n) else None
  }

  function ReadHeader(file: seq<byte>): (r: Option<Opened>)
  {
    if |file| < HEADER_SIZE || file[0..8] != MAGIC then None
    else if Get(file[8..12]) != HEADER_SIZE || Get(file[12..16]) != VERSION then None
    else if Get(file[40..42]) != 1 || Get(file[42..44]) != 1 then None
    else
      match ChunkSizeOf(Get(file[16..20]), Get(file[20..24]))
      case None => None
      case Some(chunk) =>
        Some(Opened(chunk, Header(GetResHdr(file[48..72]), Get(file[44..48]), Get(file[120..124]),
                                  GetResHdr(file[96..120])),
                    GetResHdr(file[72..96])))
  }

  /** A header whose every number fits its field. */
  predicate HeaderFits(h: Header, xml: ResHdr)
  {
    && SizeFits(h.table) && SizeFits(xml) && SizeFits(h.bootMeta) && h.imageCount < 0x1_0000_0000 &&
       h.bootIndex < 0x1_0000_0000
  }

  predicate SizeFits(r: ResHdr)
  {
    HdrFits(r) && r.size < 0x100_0000_0000_0000
  }

  lemma FrontReads(lzx: bool, chunk: nat, guid: seq<byte>, imageCount: nat, f: seq<byte>)
    requires |guid| == 16 && imageCount < 0x1_0000_0000 && chunk <= LARGEST_CHUNK &&
             f == Front(lzx, chunk, guid, imageCount)
    ensures f[0..8] == MAGIC && Get(f[8..12]) == HEADER_SIZE && Get(f[12..16]) == VERSION
    ensures Get(f[16..20]) == (if lzx then FLAGS_LZX else FLAGS_PLAIN) && Get(f[20..24]) == (if lzx then chunk else 0)
    ensures Get(f[40..42]) == 1 && Get(f[42..44]) == 1 && Get(f[44..48]) == imageCount
  {
    hide Put, Get, Bound;
    Bounds();
    GetPut(HEADER_SIZE, 4);
    GetPut(VERSION, 4);
    GetPut(if lzx then FLAGS_LZX else FLAGS_PLAIN, 4);
    GetPut(if lzx then chunk else 0, 4);
    GetPut(1, 2);
    GetPut(imageCount, 4);
    assert f[8..12] == Put(HEADER_SIZE, 4) && f[12..16] == Put(VERSION, 4);
    assert f[16..20] == Put(if lzx then FLAGS_LZX else FLAGS_PLAIN, 4) && f[20..24] == Put(if lzx then chunk else 0, 4);
    assert f[40..42] == Put(1, 2) && f[42..44] == Put(1, 2);
    assert f[44..] == Put(imageCount, 4) && f[44..48] == f[44..];
  }

  /** Where the parts of a header lie in a file that starts with it. */
  lemma HeaderParts(file: seq<byte>, front: seq<byte>, t: seq<byte>, x: seq<byte>, m: seq<byte>, tail: seq<byte>)
    requires |front| == 48 && |t| == |x| == |m| == 24 && |tail| == 88
    requires |file| >= HEADER_SIZE && file[..HEADER_SIZE] == front + (t + x + m) + tail
    ensures file[48..72] == t && file[72..96] == x && file[96..120] == m && file[120..124] == tail[..4]
    ensures forall i: nat, j: nat {:trigger file[i..j]} :: i <= j <= 48 ==> file[i..j] == front[i..j]
  {
    var b := file[..HEADER_SIZE];
    forall i: nat, j: nat | i <= j <= HEADER_SIZE
      ensures file[i..j] == b[i..j]
    {
      RandomAccess.SliceOfSlice(file, 0, HEADER_SIZE, i, j);
      assert file[0..0 + HEADER_SIZE] == b && file[0 + i..0 + j] == file[i..j];
    }
    assert b[48..72] == t && b[72..96] == x && b[96..120] == m && b[120..124] == tail[..4];
    forall i: nat, j: nat | i <= j <= 48
      ensures file[i..j] == front[i..j]
    {
      assert b[i..j] == front[i..j];
    }
  }

  lemma ResHdrReads(r: ResHdr)
    requires SizeFits(r)
    ensures GetResHdr(PutResHdr(r)) == r
  {
    hide GetResHdr, PutResHdr;
    ResHdrRoundTrip(r);
  }

  /** A header read back says what it was written to say. */
  lemma HeaderReadsBack(file: seq<byte>, lzx: bool, chunk: nat, guid: seq<byte>, h: Header, xml: ResHdr)
    requires |guid| == 16 && LegalChunk(chunk) && HeaderFits(h, xml)
    requires |file| >= HEADER_SIZE && file[..HEADER_SIZE] == PutHeader(lzx, chunk, guid, h, xml)
    ensures ReadHeader(file) == Some(Opened(RandomAccess.ReaderChunk(lzx, chunk), h, xml))
  {
    hide Put, Get, Bound, GetResHdr, PutResHdr, SizeFits, Front, PowerOfTwo, ZeroBytes;
    var front, tail := Front(lzx, chunk, guid, h.imageCount), Put(h.bootIndex, 4) + ZeroBytes(84);
    HeaderParts(file, front, PutResHdr(h.table), PutResHdr(xml), PutResHdr(h.bootMeta), tail);
    FrontReads(lzx, chunk, guid, h.imageCount, front);
    ResHdrReads(h.table);
    ResHdrReads(xml);
    ResHdrReads(h.bootMeta);
    assert tail[..4] == Put(h.bootIndex, 4);
    Bounds();
    GetPut(h.bootIndex, 4);
    assert ChunkSizeOf(if lzx then FLAGS_LZX else FLAGS_PLAIN, if lzx then chunk else 0) ==
      Some(RandomAccess.ReaderChunk(lzx, chunk));
  }

  // ---------- opening ----------

  /** An open WIM: what its header says, and its index. */
  datatype Wim = Wim(chunk: nat, h: Header, x: Index)

  /** Opens a WIM: its header first, then its table of resources. */
  function Open(file: seq<byte>): (r: Option<Wim>)
  {
    match ReadHeader(file)
    case None => None
    case Some(o) =>
      match BlobTable.ReadTable(file, o.h)
      case None => None
      case Some(x) => Some(Wim(o.chunk, o.h, x))
  }

  /** Image i, counting from 1, is the i-th live metadata resource of the table. */
  function ImageMeta(w: Wim, i: nat): (r: Option<ResHdr>)
  {
    if 1 <= i <= |w.x.metas| then Some(w.x.metas[i - 1]) else None
  }

  // ---------- which files open, in bytes ----------

  lemma FourBytes(b: seq<byte>)
    requires |b| == 4
    ensures Get(b) == b[0] as int + 256 * b[1] as int + 65536 * b[2] as int + 16777216 * b[3] as int
  {
    hide Bound;
    assert Get(b[1..][1..][1..]) == b[3] by { OneByte(b[3]); assert b[1..][1..][1..] == [b[3]]; }
    assert b[1..][1..][0] == b[2] && b[1..][0] == b[1];
    assert Get(b) == b[0] + 256 * Get(b[1..]) && Get(b[1..]) == b[1] + 256 * Get(b[1..][1..]);
    assert Get(b[1..][1..]) == b[2] + 256 * Get(b[1..][1..][1..]);
  }

  lemma TwoBytesAre(b: seq<byte>)
    requires |b| == 2
    ensures Get(b) == b[0] as int + 256 * b[1] as int
  {
    hide Bound;
    assert b[1..] == [b[1]];
    OneByte(b[1]);
  }

  ghost predicate IsPow2(n: nat)
  {
    exists k: nat {:trigger Bits.Pow2(k)} :: n == Bits.Pow2(k)
  }

  lemma {:induction false} PowerIsPow2(n: nat)
    ensures PowerOfTwo(n) <==> IsPow2(n)
  {
    if n == 0 {
    } else if n == 1 {
      assert Bits.Pow2(0) == 1;
    } else {
      PowerIsPow2(n / 2);
      if PowerOfTwo(n) {
        var k: nat :| n / 2 == Bits.Pow2(k);
        assert n == Bits.Pow2(k + 1);
      }
      forall k: nat | n == Bits.Pow2(k)
        ensures PowerOfTwo(n)
      {
        assert k > 0 && n / 2 == Bits.Pow2(k - 1);
      }
    }
  }

  /** A power of two that is no more than 32768. */
  ghost predicate SmallPower(n: nat)
  {
    n <= 32768 && IsPow2(n)
  }

  /** The compression flags are those of LZX alone, and the chunk size is the default or a power of two within it. */
  ghost predicate CodecBytes(flags: seq<byte>, chunk: seq<byte>)
    requires |flags| == |chunk| == 4
  {
    flags[0] / 2 % 2 == 1 ==>
      && flags[2] / 2 % 2 == 0 && flags[2] / 8 % 2 == 0 && flags[2] / 4 % 2 == 1
      && (chunk == [0, 0, 0, 0] || SmallPower(Get(chunk)))
  }

  /** Bit 1 of a number of four bytes is in the first, and bits 17 to 19 are in the third. */
  lemma FlagBits(n: nat, a: nat, b: nat, c: nat, d: nat)
    requires a < 256 && b < 256 && c < 256 && n == a + 256 * b + 65536 * c + 16777216 * d
    ensures n / 2 % 2 == a / 2 % 2 && n / 0x2_0000 % 2 == c / 2 % 2
    ensures n / 0x4_0000 % 2 == c / 4 % 2 && n / 0x8_0000 % 2 == c / 8 % 2
  {
    assert n / 2 == a / 2 + 2 * (64 * b + 16384 * c + 4194304 * d);
    EvenTimes(a / 2, 64 * b + 16384 * c + 4194304 * d);
    assert n / 0x2_0000 == c / 2 + 2 * (64 * d);
    EvenTimes(c / 2, 64 * d);
    assert n / 0x4_0000 == c / 4 + 2 * (32 * d);
    EvenTimes(c / 4, 32 * d);
    assert n / 0x8_0000 == c / 8 + 2 * (16 * d);
    EvenTimes(c / 8, 16 * d);
  }

  lemma CodecAccepted(flags: seq<byte>, chunk: seq<byte>)
    requires |flags| == |chunk| == 4
    ensures ChunkSizeOf(Get(flags), Get(chunk)).Some? <==> CodecBytes(flags, chunk)
  {
    hide PowerOfTwo, Get, Bits.Pow2, ChunkSizeOf, SmallPower;
    FourBytes(flags);
    FlagBits(Get(flags), flags[0], flags[1], flags[2], flags[3]);
    ChunkAccepted(chunk, Get(flags));
  }

  lemma EvenTimes(a: nat, b: nat)
    ensures (a + 2 * b) % 2 == a % 2
  {
  }

  lemma ChunkAccepted(chunk: seq<byte>, flags: nat)
    requires |chunk| == 4
    ensures ChunkSizeOf(flags, Get(chunk)).Some? <==>
              (flags / 2 % 2 == 1 ==>
                 && flags / 0x2_0000 % 2 == 0 && flags / 0x8_0000 % 2 == 0 && flags / 0x4_0000 % 2 == 1
                 && (chunk == [0, 0, 0, 0] || SmallPower(Get(chunk))))
  {
    hide PowerOfTwo, Get, IsPow2;
    FourBytes(chunk);
    PowerIsPow2(Get(chunk));
    PowerIsPow2(DEFAULT_CHUNK_SIZE);
    DefaultIsPower();
  }

  lemma DefaultIsPower()
    ensures PowerOfTwo(DEFAULT_CHUNK_SIZE)
  {
    assert PowerOfTwo(1) && PowerOfTwo(2) && PowerOfTwo(4) && PowerOfTwo(8) && PowerOfTwo(16) && PowerOfTwo(32);
    assert PowerOfTwo(64) && PowerOfTwo(128) && PowerOfTwo(256) && PowerOfTwo(512) && PowerOfTwo(1024);
    assert PowerOfTwo(2048) && PowerOfTwo(4096) && PowerOfTwo(8192) && PowerOfTwo(16384);
  }

  /**
   * A header is accepted just when it has the signature, its own size, the version, one part of one, and this codec.
   */
  lemma HeaderAccepted(file: seq<byte>)
    ensures ReadHeader(file).Some? <==>
              && |file| >= 208 && file[0..8] == [77, 83, 87, 73, 77, 0, 0, 0]
              && file[8..12] == [208, 0, 0, 0] && file[12..16] == [0, 13, 1, 0]
              && file[40..42] == [1, 0] && file[42..44] == [1, 0] && CodecBytes(file[16..20], file[20..24])
  {
    hide Get, CodecBytes, ChunkSizeOf, GetResHdr;
    if |file| >= 208 {
      FourBytes(file[8..12]);
      FourBytes(file[12..16]);
      TwoBytesAre(file[40..42]);
      TwoBytesAre(file[42..44]);
      CodecAccepted(file[16..20], file[20..24]);
    }
  }
}
