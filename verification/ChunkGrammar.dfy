/** Chunks as any LZX writer may write them: what every sequence of blocks means, whoever chose trees and matches. */
module ChunkGrammar {
  import opened Bits
  import opened BitStream
  import opened Canonical
  import opened E8
  import opened HuffmanCode
  import opened Readers
  import opened Slots
  import opened Tokens
  import opened TokenCodec
  import opened TreeCodec
  import opened ChunkFormat

  /** How a tree is spelled: the pre-tree, and the pieces its lengths are split into. */
  datatype Spelling = Spelling(pre: seq<nat>, pieces: seq<Piece>)

  /** A block; a brief one says the window's size in a single bit. */
  datatype Block =
    | Coded(aligned: bool, brief: bool, size: nat, trees: Trees, low: Spelling, high: Spelling, len: Spelling,
            tokens: seq<Token>)
    | Raw(brief: bool, bytes: seq<byte>, recent: Recent)

  function Size(b: Block): nat
  {
    if b.Raw? then |b.bytes| else b.size
  }

  // ---------- how a block is written ----------

  /** The first bits of a block: its kind in 3 bits, then its size. */
  function KindBits(kind: nat, size: nat, brief: bool): seq<bool>
  {
    BitsOf(kind, 3) + if brief then BitsOf(1, 1) else BitsOf(0, 1) + BitsOf(size, 16)
  }

  /** The pieces spell the new lengths over the prior ones, through a pre-tree that has all their symbols. */
  ghost predicate Spells(x: Spelling, prior: seq<nat>, lens: seq<nat>)
  {
    && |x.pre| == PRETREE_COUNT && Usable(x.pre) && Bounded(x.pre, PRETREE_LEN_LIMIT)
    && |lens| == |prior| && Bounded(prior, 16) && AllExpressible(x.pieces) && Says(x.pieces, lens, 0)
    && ItemsCodable(x.pre, AllItemsOver(x.pieces, prior, 0))
  }

  ghost function SpellingBits(x: Spelling, prior: seq<nat>, lens: seq<nat>): seq<bool>
    requires Spells(x, prior, lens)
  {
    TreeBitsOver(x.pre, x.pieces, prior)
  }

  /** The trees of a block are complete or empty, and spelled over those of the block before. */
  ghost predicate TreesSpelled(b: Block, main: seq<nat>, length: seq<nat>)
    requires b.Coded?
  {
    && |b.trees.main| == MAIN_CODE_COUNT == |main| && |b.trees.length| == LEN_CODE_COUNT
    && Usable(b.trees.main) && Usable(b.trees.length)
    && (if b.aligned then |b.trees.aligned| == ALIGNED_COUNT && Usable(b.trees.aligned) && Bounded(b.trees.aligned, 7)
        else b.trees.aligned == [])
    && Spells(b.low, main[..MAIN_CODE_SPLIT], b.trees.main[..MAIN_CODE_SPLIT])
    && Spells(b.high, main[MAIN_CODE_SPLIT..], b.trees.main[MAIN_CODE_SPLIT..])
    && Spells(b.len, length, b.trees.length)
  }

  ghost function AlignedTreeBits(b: Block): seq<bool>
    requires b.Coded?
  {
    if b.aligned then FieldBits(b.trees.aligned, 3) else []
  }

  /** The aligned tree if there is one, the main tree in its two halves, the length tree. */
  ghost function SpelledBits(b: Block, main: seq<nat>, length: seq<nat>): seq<bool>
    requires b.Coded? && TreesSpelled(b, main, length)
  {
    AlignedTreeBits(b)
    + (SpellingBits(b.low, main[..MAIN_CODE_SPLIT], b.trees.main[..MAIN_CODE_SPLIT])
       + (SpellingBits(b.high, main[MAIN_CODE_SPLIT..], b.trees.main[MAIN_CODE_SPLIT..])
          + SpellingBits(b.len, length, b.trees.length)))
  }

  ghost function CodedBits(b: Block, main: seq<nat>, length: seq<nat>): seq<bool>
    requires b.Coded? && TreesSpelled(b, main, length) && AllCodable(b.tokens, b.trees, b.aligned)
  {
    KindBits(if b.aligned then 2 else 1, b.size, b.brief)
    + (SpelledBits(b, main, length) + TokensBits(b.tokens, b.trees, b.aligned))
  }

  // ---------- where a block lies and what it leads to ----------

  /** Words are counted from here: a byte is skipped after an uncompressed block of odd length. */
  function BaseOf(g: Stage): nat
  {
    if g.st.pos.unaligned then g.st.pos.base + 1 else g.st.pos.base
  }

  function StartOf(g: Stage): nat
  {
    if g.st.pos.unaligned then 0 else g.st.pos.at
  }

  /** The data has a coded block here, and its tokens produce as many bytes as it says. */
  ghost predicate HasCoded(data: seq<byte>, g: Stage, b: Block)
    requires b.Coded?
  {
    && TreesSpelled(b, g.st.main, g.st.length) && AllCodable(b.tokens, b.trees, b.aligned)
    && Expanded(b.tokens, Output(g.out, g.st.recent), |g.out| + b.size).Some?
    && Holds(Source(data, BaseOf(g)), StartOf(g), CodedBits(b, g.st.main, g.st.length))
  }

  /** The byte an uncompressed block goes on at when its head of n bits ends: the rest of that word is void. */
  function AfterHead(g: Stage, n: nat): nat
  {
    BaseOf(g) + 2 * ((StartOf(g) + n) / 16 + 1)
  }

  function RawStart(g: Stage, b: Block): nat
    requires b.Raw?
  {
    AfterHead(g, |KindBits(3, |b.bytes|, b.brief)|)
  }

  /** The data has an uncompressed block here: three offsets, four bytes apart and low byte first, then the bytes. */
  ghost predicate HasRaw(data: seq<byte>, g: Stage, b: Block)
    requires b.Raw?
  {
    && Holds(Source(data, BaseOf(g)), StartOf(g), KindBits(3, |b.bytes|, b.brief))
    && var p := RawStart(g, b);
    && p + 12 + |b.bytes| <= |data|
    && (forall i {:trigger Nth(b.recent, i)} :: 0 <= i < 3 ==>
          data[p + 4 * i] as int + 256 * data[p + 4 * i + 1] as int == Nth(b.recent, i))
    && data[p + 12..p + 12 + |b.bytes|] == b.bytes
  }

  /** The data has block b at the stage g, which has room for it towards total bytes. */
  ghost predicate Has(data: seq<byte>, g: Stage, b: Block, total: nat)
  {
    && 0 < Size(b) <= WINDOW_SIZE && |g.out| + Size(b) <= total && (b.brief ==> Size(b) == WINDOW_SIZE)
    && (g.st.pos.unaligned ==> g.st.pos.base < |data|)
    && if b.Raw? then HasRaw(data, g, b) else HasCoded(data, g, b)
  }

  /** An uncompressed block keeps the trees and brings its offsets; after an odd number of bytes one is skipped. */
  function AfterRaw(g: Stage, b: Block): (r: Stage)
    requires b.Raw?
  {
    var end := RawStart(g, b) + 12 + |b.bytes|;
    Stage(g.out + b.bytes, Between(Position(end, 0, |b.bytes| % 2 == 1), g.st.main, g.st.length, b.recent))
  }

  /** A coded block leaves its trees and the recent offsets of its last token. */
  ghost function AfterCoded(data: seq<byte>, g: Stage, b: Block): (r: Stage)
    requires b.Coded? && HasCoded(data, g, b)
    ensures |r.out| == |g.out| + b.size
  {
    var o := Expanded(b.tokens, Output(g.out, g.st.recent), |g.out| + b.size).value;
    var at := StartOf(g) + |CodedBits(b, g.st.main, g.st.length)|;
    Stage(o.bytes, Between(Position(BaseOf(g), at, false), b.trees.main, b.trees.length, o.recent))
  }

  /** The stage a block leads to. */
  ghost function After(data: seq<byte>, g: Stage, b: Block, total: nat): (r: Stage)
    requires Has(data, g, b, total)
  {
    if b.Raw? then AfterRaw(g, b) else AfterCoded(data, g, b)
  }

  /** From g on the data has these blocks one after another, and together they produce out. */
  ghost predicate HasAll(data: seq<byte>, g: Stage, bs: seq<Block>, out: seq<byte>)
    decreases |bs|
  {
    if bs == [] then g.out == out
    else Has(data, g, bs[0], |out|) && HasAll(data, After(data, g, bs[0], |out|), bs[1..], out)
  }

  // ---------- the decoder reads it ----------

  lemma {:induction false} SmallNumbers(n: nat)
    requires n == 16
    ensures Pow2(1) == 2 && Pow2(3) == 8 && WINDOW_SIZE < Pow2(n)
  {
    PowersTo13(1);
    PowersTo13(3);
    PowersTo13(13);
    assert Pow2(n) == 2 * Pow2(n - 1) == 4 * Pow2(n - 2) == 8 * Pow2(n - 3);
  }

  /** The head of a block says its kind and size. */
  lemma KindRead(field: FieldReader, s: Source, at: nat, kind: nat, size: nat, brief: bool)
    requires FindsFields(field, s) && kind < 8 && size <= WINDOW_SIZE && (brief ==> size == WINDOW_SIZE)
    requires Holds(s, at, KindBits(kind, size, brief))
    ensures field(at, 3) == kind
    ensures ReadSize(field, at + 3) == Some(Decoded(size, at + |KindBits(kind, size, brief)|))
  {
    hide BitsOf, Holds, Pow2;
    SmallNumbers(16);
    HoldsConcat(s, at, BitsOf(kind, 3), if brief then BitsOf(1, 1) else BitsOf(0, 1) + BitsOf(size, 16));
    if !brief { HoldsConcat(s, at + 3, BitsOf(0, 1), BitsOf(size, 16)); }
  }

  lemma AlignedRead(field: FieldReader, s: Source, at: nat, b: Block)
    requires b.Coded? && FindsFields(field, s) && Holds(s, at, AlignedTreeBits(b))
    requires if b.aligned then
               |b.trees.aligned| == ALIGNED_COUNT && Usable(b.trees.aligned) && Bounded(b.trees.aligned, 7)
             else b.trees.aligned == []
    ensures ReadAligned(field, at, b.aligned) == Some(Decoded(b.trees.aligned, at + |AlignedTreeBits(b)|))
  {
    if b.aligned {
      SmallNumbers(16);
      FieldsRead(field, s, at, b.trees.aligned, 3);
      FieldBitsLength(b.trees.aligned, 3);
    }
  }

  /** A spelled tree is read over the one it was spelled over. */
  lemma SpellingRead(s: Source, at: nat, x: Spelling, prior: seq<nat>, lens: seq<nat>)
    requires Spells(x, prior, lens) && Holds(s, at, SpellingBits(x, prior, lens))
    ensures ReadLengths(s, at, prior) == Some(Decoded(lens, at + |SpellingBits(x, prior, lens)|))
  {
    TreeUpdates(s, at, x.pre, x.pieces, prior, lens);
  }

  lemma MainRead(s: Source, at: nat, b: Block, main: seq<nat>, length: seq<nat>, mid: nat, end: nat)
    requires b.Coded? && TreesSpelled(b, main, length)
    requires ReadLengths(s, at, main[..MAIN_CODE_SPLIT]) == Some(Decoded(b.trees.main[..MAIN_CODE_SPLIT], mid))
    requires ReadLengths(s, mid, main[MAIN_CODE_SPLIT..]) == Some(Decoded(b.trees.main[MAIN_CODE_SPLIT..], end))
    ensures ReadMain(s, at, main) == Some(Decoded(b.trees.main, end))
  {
    hide ReadLengths, Usable, Spells;
    assert b.trees.main[..MAIN_CODE_SPLIT] + b.trees.main[MAIN_CODE_SPLIT..] == b.trees.main;
  }

  /** The trees are read, to the last bit. */
  lemma TreesRead(s: Source, at: nat, b: Block, main: seq<nat>, length: seq<nat>)
    requires b.Coded? && TreesSpelled(b, main, length) && Holds(s, at, SpelledBits(b, main, length))
    ensures ReadTrees(s, at, b.aligned, main, length)
         == Some(Decoded(b.trees, at + |SpelledBits(b, main, length)|))
  {
    hide SpellingBits, AlignedTreeBits, ReadMain, ReadLengths, ReadAligned, Holds, Usable, FindsFields, FieldsOf,
      Spells;
    var lo, hi := main[..MAIN_CODE_SPLIT], main[MAIN_CODE_SPLIT..];
    var lo', hi' := b.trees.main[..MAIN_CODE_SPLIT], b.trees.main[MAIN_CODE_SPLIT..];
    var x, y, z := AlignedTreeBits(b), SpellingBits(b.low, lo, lo'), SpellingBits(b.high, hi, hi');
    var w := SpellingBits(b.len, length, b.trees.length);
    HoldsConcat(s, at, x, y + (z + w));
    HoldsConcat(s, at + |x|, y, z + w);
    HoldsConcat(s, at + |x| + |y|, z, w);
    FieldsFound(s);
    AlignedRead(FieldsOf(s), s, at, b);
    SpellingRead(s, at + |x|, b.low, lo, lo');
    SpellingRead(s, at + |x| + |y|, b.high, hi, hi');
    MainRead(s, at + |x|, b, main, length, at + |x| + |y|, at + |x| + |y| + |z|);
    SpellingRead(s, at + |x| + |y| + |z|, b.len, length, b.trees.length);
  }

  lemma TreesFind(s: Source, trees: Trees, aligned: bool)
    requires Usable(trees.main) && Usable(trees.length) && (aligned ==> Usable(trees.aligned))
    ensures Finds(DecodersOf(s, trees), trees, aligned, s)
  {
    FieldsFound(s);
    SymbolsFound(trees.main, s);
    SymbolsFound(trees.length, s);
    if aligned { SymbolsFound(trees.aligned, s); }
  }

  /** The body of a coded block: its trees, then its tokens. */
  lemma BodyRead(s: Source, h: Header, g: Stage, b: Block)
    requires b.Coded? && h.kind == (if b.aligned then ALIGNED else VERBATIM) && h.base == s.base
    requires Shaped(g.st) && h.size == b.size && h.recent == g.st.recent
    requires TreesSpelled(b, g.st.main, g.st.length) && AllCodable(b.tokens, b.trees, b.aligned)
    requires Expanded(b.tokens, Output(g.out, g.st.recent), |g.out| + b.size).Some?
    requires Holds(s, h.at, SpelledBits(b, g.st.main, g.st.length) + TokensBits(b.tokens, b.trees, b.aligned))
    ensures var o := Expanded(b.tokens, Output(g.out, g.st.recent), |g.out| + b.size).value;
            var bits := SpelledBits(b, g.st.main, g.st.length) + TokensBits(b.tokens, b.trees, b.aligned);
            ReadCoded(s, h, g) ==
            Some(Stage(o.bytes,
                       Between(Position(h.base, h.at + |bits|, false), b.trees.main, b.trees.length, o.recent)))
  {
    hide SpelledBits, ReadTrees, TokensBits, Expanded, AllCodable, Holds, Usable, Finds, DecodersOf, Produce, Spells;
    var bits := SpelledBits(b, g.st.main, g.st.length);
    HoldsConcat(s, h.at, bits, TokensBits(b.tokens, b.trees, b.aligned));
    TreesRead(s, h.at, b, g.st.main, g.st.length);
    TreesFind(s, b.trees, b.aligned);
    TokensRead(DecodersOf(s, b.trees), b.trees, b.aligned, s, Progress(Output(g.out, g.st.recent), h.at + |bits|),
               b.tokens, |g.out| + b.size);
  }

  lemma CodedRead(data: seq<byte>, g: Stage, b: Block, total: nat)
    requires Shaped(g.st) && b.Coded? && Has(data, g, b, total)
    ensures ReadBlock(data, g, total) == Some(After(data, g, b, total))
  {
    hide SpelledBits, TokensBits, KindBits, Expanded, AllCodable, Holds, FindsFields, FieldsOf, TreesSpelled, ReadCoded,
      ReadSize;
    var s, at, kind := Source(data, BaseOf(g)), StartOf(g), if b.aligned then ALIGNED else VERBATIM;
    var head, body := KindBits(kind, b.size, b.brief),
      SpelledBits(b, g.st.main, g.st.length) + TokensBits(b.tokens, b.trees, b.aligned);
    HoldsConcat(s, at, head, body);
    FieldsFound(s);
    KindRead(FieldsOf(s), s, at, kind, b.size, b.brief);
    BodyRead(s, Header(kind, b.size, s.base, at + |head|, g.st.recent), g, b);
  }

  lemma WordThere(s: Source, j: nat)
    requires s.base + 2 * j <= |s.data|
    ensures WordPos(s, j) == s.base + 2 * j
  {
  }

  /** The three offsets of an uncompressed block. */
  lemma OffsetsRead(data: seq<byte>, g: Stage, b: Block)
    requires b.Raw? && HasRaw(data, g, b)
    ensures var p := RawStart(g, b);
            Recent(StoredOffset(data, p, 0), StoredOffset(data, p, 1), StoredOffset(data, p, 2)) == b.recent
  {
    hide Holds, KindBits;
    assert Nth(b.recent, 0) == b.recent.r0 && Nth(b.recent, 1) == b.recent.r1 && Nth(b.recent, 2) == b.recent.r2;
  }

  lemma RawRead(data: seq<byte>, g: Stage, b: Block, total: nat)
    requires Shaped(g.st) && b.Raw? && Has(data, g, b, total)
    ensures ReadBlock(data, g, total) == Some(After(data, g, b, total))
  {
    hide KindBits, Holds, FindsFields, FieldsOf, ReadSize, StoredOffset, WordPos;
    var s, at := Source(data, BaseOf(g)), StartOf(g);
    var head := KindBits(UNCOMPRESSED, |b.bytes|, b.brief);
    FieldsFound(s);
    KindRead(FieldsOf(s), s, at, UNCOMPRESSED, |b.bytes|, b.brief);
    WordThere(s, (at + |head|) / 16 + 1);
    OffsetsRead(data, g, b);
  }

  /** Blocks of every kind, one after another, are read for what they produce. */
  lemma {:induction false} BlocksRead(data: seq<byte>, g: Stage, bs: seq<Block>, out: seq<byte>)
    requires Shaped(g.st) && HasAll(data, g, bs, out)
    ensures ReadBlocks(data, g, |out|) == Some(out)
    decreases |bs|
  {
    hide Has, After, ReadBlock;
    if bs != [] {
      var b := bs[0];
      BlockGrows(data, g, b, |out|);
      if b.Raw? { RawRead(data, g, b, |out|); } else { CodedRead(data, g, b, |out|); }
      BlocksRead(data, After(data, g, b, |out|), bs[1..], out);
    }
  }

  lemma BlockGrows(data: seq<byte>, g: Stage, b: Block, total: nat)
    requires Has(data, g, b, total)
    ensures |g.out| < |After(data, g, b, total).out| <= total
  {
    hide CodedBits, Expanded, KindBits, TreesSpelled, Holds;
  }

  /** Before the first block: no output, no trees, and 1 for each recent offset. */
  function Outset(): (g: Stage)
    ensures Shaped(g.st)
  {
    Stage([], Between(Position(0, 0, false), NoLengths(MAIN_CODE_COUNT), NoLengths(LEN_CODE_COUNT), Recent(1, 1, 1)))
  }

  /** Whoever wrote the chunk, Decompress gives what its blocks produce, with the calls' operands put back. */
  lemma AnyChunkIsDecoded(data: seq<byte>, bs: seq<Block>, out: seq<byte>)
    requires 0 < |out| <= WINDOW_SIZE
    requires HasAll(data, Outset(), bs, out)
    ensures Decompressed(data, |out|) == Some(Translate(out, 0, false))
  {
    hide HasAll, ReadBlocks, Translate;
    BlocksRead(data, Outset(), bs, out);
  }
}
