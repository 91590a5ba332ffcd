/** A compressed chunk as a sequence of blocks: what the decoder makes of arbitrary bytes. */
module ChunkFormat {
  import opened Bits
  import opened BitStream
  import opened Canonical
  import opened E8
  import opened Readers
  import opened Slots
  import opened Tokens
  import opened TokenCodec
  import opened TreeCodec
  import opened HuffmanCode

  const VERBATIM: nat := 1
  const ALIGNED: nat := 2
  const UNCOMPRESSED: nat := 3

  /** Where the decoder is between blocks: words run from byte base on, and at bits of them are used up. */
  datatype Position = Position(base: nat, at: nat, unaligned: bool)

  /** The state kept from block to block. */
  datatype Between = Between(pos: Position, main: seq<nat>, length: seq<nat>, recent: Recent)

  /** A block's kind and size, where its body starts, and the recent offsets it starts with. */
  datatype Header = Header(kind: nat, size: nat, base: nat, at: nat, recent: Recent)

  function DecodersOf(s: Source, trees: Trees): Decoders
  {
    Decoders(SymbolsOf(trees.main, s), SymbolsOf(trees.length, s), SymbolsOf(trees.aligned, s), FieldsOf(s))
  }

  // ---------- headers ----------

  /** After an uncompressed block of odd length one byte is skipped, if there is one. */
  function Realigned(data: seq<byte>, pos: Position): (base: nat)
  {
    if pos.unaligned && pos.base < |data| then pos.base + 1 else pos.base
  }

  /** The block's size and the position after it. */
  function ReadSize(field: FieldReader, at: nat): (r: Option<Decoded<nat>>)
    ensures r.Some? ==> r.value.value <= WINDOW_SIZE
  {
    if field(at, 1) != 0 then Some(Decoded(WINDOW_SIZE, at + 1))
    else if field(at + 1, 16) > WINDOW_SIZE then None
    else Some(Decoded(field(at + 1, 16), at + 17))
  }

  /** The recent offset number i of an uncompressed block that stores them at p: the low half of a 32-bit number. */
  function StoredOffset(data: seq<byte>, p: nat, i: nat): nat
  {
    WordAt(data, p + 4 * i)
  }

  /** The byte after the word that bit position at is in, or after the next word when it is between two. */
  function NextWordPos(s: Source, at: nat): (p: nat)
  {
    WordPos(s, at / 16 + 1)
  }

  function ReadHeader(data: seq<byte>, field: FieldReader, base: nat, at: nat, recent: Recent): (r: Option<Header>)
    ensures r.Some? ==> r.value.size <= WINDOW_SIZE
    ensures r.Some? && r.value.kind == UNCOMPRESSED ==> r.value.base <= |data|
    ensures r.Some? && r.value.kind != UNCOMPRESSED ==> r.value.base == base
  {
    var kind := field(at, 3);
    match ReadSize(field, at + 3)
    case None => None
    case Some(size) =>
      if kind == VERBATIM || kind == ALIGNED then
        Some(Header(kind, size.value, base, size.next, recent))
      else if kind == UNCOMPRESSED then
        var p := NextWordPos(Source(data, base), size.next);
        if p + 12 > |data| then None
        else
          Some(Header(kind, size.value, p + 12, 0,
                      Recent(StoredOffset(data, p, 0), StoredOffset(data, p, 1), StoredOffset(data, p, 2))))
      else None
  }

  // ---------- trees ----------

  /** The aligned tree, which only an aligned block has. */
  function ReadAligned(field: FieldReader, at: nat, aligned: bool): Option<Decoded<seq<nat>>>
  {
    if !aligned then Some(Decoded([], at))
    else
      var lens := Fields(field, at, ALIGNED_COUNT, 3);
      if Usable(lens) then Some(Decoded(lens, at + 24)) else None
  }

  /** The main tree, in its two halves. */
  function ReadMain(s: Source, at: nat, lens: seq<nat>): (r: Option<Decoded<seq<nat>>>)
    requires |lens| == MAIN_CODE_COUNT
    ensures r.Some? ==> |r.value.value| == MAIN_CODE_COUNT
  {
    match ReadLengths(s, at, lens[..MAIN_CODE_SPLIT])
    case None => None
    case Some(a) =>
      match ReadLengths(s, a.next, lens[MAIN_CODE_SPLIT..])
      case None => None
      case Some(b) => if Usable(a.value + b.value) then Some(Decoded(a.value + b.value, b.next)) else None
  }

  function ReadLengthTree(s: Source, at: nat, lens: seq<nat>): (r: Option<Decoded<seq<nat>>>)
    ensures r.Some? ==> |r.value.value| == |lens|
  {
    match ReadLengths(s, at, lens)
    case None => None
    case Some(a) => if Usable(a.value) then Some(a) else None
  }

  function ReadTrees(s: Source, at: nat, aligned: bool, main: seq<nat>, length: seq<nat>): (r: Option<Decoded<Trees>>)
    requires |main| == MAIN_CODE_COUNT
    ensures r.Some? ==> |r.value.value.main| == MAIN_CODE_COUNT && |r.value.value.length| == |length|
  {
    match ReadAligned(FieldsOf(s), at, aligned)
    case None => None
    case Some(a) =>
      match ReadMain(s, a.next, main)
      case None => None
      case Some(m) =>
        match ReadLengthTree(s, m.next, length)
        case None => None
        case Some(l) => Some(Decoded(Trees(m.value, l.value, a.value), l.next))
  }

  // ---------- blocks ----------

  /** The output so far and the state it leaves. */
  datatype Stage = Stage(out: seq<byte>, st: Between)

  predicate Shaped(st: Between)
  {
    |st.main| == MAIN_CODE_COUNT && |st.length| == LEN_CODE_COUNT
  }

  function ReadStored(data: seq<byte>, h: Header, g: Stage): (r: Option<Stage>)
    requires h.base <= |data|
  {
    if h.base + h.size > |data| then None
    else
      Some(Stage(g.out + data[h.base..h.base + h.size],
                 Between(Position(h.base + h.size, 0, h.size % 2 == 1), g.st.main, g.st.length, h.recent)))
  }

  function ReadCoded(s: Source, h: Header, g: Stage): (r: Option<Stage>)
    requires Shaped(g.st) && s.base == h.base
    ensures r.Some? ==> Shaped(r.value.st)
  {
    match ReadTrees(s, h.at, h.kind == ALIGNED, g.st.main, g.st.length)
    case None => None
    case Some(trees) =>
      match Produce(DecodersOf(s, trees.value), h.kind == ALIGNED, Progress(Output(g.out, h.recent), trees.next),
                    |g.out| + h.size)
      case None => None
      case Some(p) =>
        Some(Stage(p.o.bytes, Between(Position(h.base, p.at, false), trees.value.main, trees.value.length, p.o.recent)))
  }

  function ReadBlock(data: seq<byte>, g: Stage, total: nat): (r: Option<Stage>)
    requires Shaped(g.st)
    ensures r.Some? ==> Shaped(r.value.st) && |g.out| <= |r.value.out| <= total
  {
    var base := Realigned(data, g.st.pos);
    var at := if g.st.pos.unaligned then 0 else g.st.pos.at;
    match ReadHeader(data, FieldsOf(Source(data, base)), base, at, g.st.recent)
    case None => None
    case Some(h) =>
      if |g.out| + h.size > total then None
      else if h.kind == UNCOMPRESSED then ReadStored(data, h, g)
      else ReadCoded(Source(data, base), h, g)
  }

  /** Reads blocks until there is enough output. A block that produces nothing is corrupt. */
  function ReadBlocks(data: seq<byte>, g: Stage, total: nat): (r: Option<seq<byte>>)
    requires Shaped(g.st)
    ensures r.Some? && |g.out| <= total ==> |r.value| == total
    decreases total - |g.out|
  {
    if |g.out| >= total then Some(g.out)
    else
      match ReadBlock(data, g, total)
      case None => None
      case Some(g') => if |g'.out| == |g.out| then None else ReadBlocks(data, g', total)
  }

  function Initial(): (g: Stage)
    ensures Shaped(g.st)
  {
    Stage([], Between(Position(0, 0, false), NoLengths(MAIN_CODE_COUNT), NoLengths(LEN_CODE_COUNT), START))
  }

  /** What a chunk of total bytes is decoded to from data; nothing when data is corrupt. */
  function Decompressed(data: seq<byte>, total: nat): (r: Option<seq<byte>>)
    ensures r.Some? ==> |r.value| == total
  {
    if total == 0 then Some([])
    else if total > WINDOW_SIZE then None
    else
      match ReadBlocks(data, Initial(), total)
      case None => None
      case Some(out) => Some(Translate(out, 0, false))
  }
}
