/** What the encoder makes of a chunk, the decoder turns back into the chunk. */
module ChunkRoundTrip {
  import opened Bits
  import opened BitStream
  import opened Canonical
  import opened E8
  import opened HuffmanCode
  import opened Readers
  import opened Slots
  import opened Tokens
  import opened TokenCodec
  import opened TreeCodec
  import opened MatchFinder
  import opened ChunkFormat
  import opened ChunkEncode
  import opened ChunkGrammar

  /** How this writer spells a tree over lengths that were all zero. */
  ghost function OwnSpelling(lens: seq<nat>): Spelling
    requires Bounded(lens, 16) && |lens| <= 512
  {
    Spelling(Pretree(lens), PiecesFrom(lens, 0))
  }

  lemma OwnSpells(lens: seq<nat>, prior: seq<nat>)
    requires Bounded(lens, 16) && |lens| <= 512 && prior == NoLengths(|lens|)
    ensures Spells(OwnSpelling(lens), prior, lens) && SpellingBits(OwnSpelling(lens), prior, lens) == TreeBits(lens)
  {
    hide Pretree, ItemsBits, FieldBits, Says, PiecesFrom, AllItems, AllItemsOver, ItemsCodable, AllExpressible, Usable,
      Complete;
    PretreeIsFit(lens);
    PiecesSay(lens, 0);
    SaysExpressible(PiecesFrom(lens, 0), lens, 0);
    OverZeros(PiecesFrom(lens, 0), |lens|, 0);
  }

  /** The one block this writer makes of a chunk. */
  ghost function OwnBlock(ts: seq<Token>, size: nat): Block
    requires Countable(ts) && AllInAlphabet(ts)
  {
    TreesWritable(ts);
    var trees := BlockTrees(ts);
    Coded(UsesAligned(ts), size == WINDOW_SIZE, size, trees, OwnSpelling(trees.main[..MAIN_CODE_SPLIT]),
          OwnSpelling(trees.main[MAIN_CODE_SPLIT..]), OwnSpelling(trees.length), ts)
  }

  lemma NoLengthsParts(n: nat, k: nat)
    requires k <= n
    ensures NoLengths(n)[..k] == NoLengths(k) && NoLengths(n)[k..] == NoLengths(n - k)
  {
  }

  /** Its trees are spelled over all-zero ones, in the bits this writer writes. */
  lemma OwnTrees(ts: seq<Token>, size: nat)
    requires Countable(ts) && AllInAlphabet(ts)
    ensures var b, main, length := OwnBlock(ts, size), NoLengths(MAIN_CODE_COUNT), NoLengths(LEN_CODE_COUNT);
            TreesSpelled(b, main, length) && SpelledBits(b, main, length) == TreesBits(b.trees, b.aligned)
  {
    hide Spells, SpellingBits, TreeBits, OwnSpelling, MainLengths, LengthLengths, AlignedLengths, UsesAligned, Covers,
      Usable, FieldBits, MainFrequency, LengthFrequency, AlignedFrequency;
    TreesWritable(ts);
    var trees := BlockTrees(ts);
    NoLengthsParts(MAIN_CODE_COUNT, MAIN_CODE_SPLIT);
    OwnSpells(trees.main[..MAIN_CODE_SPLIT], NoLengths(MAIN_CODE_COUNT)[..MAIN_CODE_SPLIT]);
    OwnSpells(trees.main[MAIN_CODE_SPLIT..], NoLengths(MAIN_CODE_COUNT)[MAIN_CODE_SPLIT..]);
    OwnSpells(trees.length, NoLengths(LEN_CODE_COUNT));
  }

  /** The bytes this writer emits are a chunk of one block that produces the data. */
  lemma OwnBlockIsThere(e: seq<byte>, ts: seq<Token>, data: seq<byte>)
    requires 0 < |data| <= WINDOW_SIZE && Expands(ts, Output([], START), data) && Countable(ts) && AllInAlphabet(ts)
    requires Holds(Source(e, 0), 0, BlockBits(ts, |data|))
    ensures HasAll(e, Outset(), [OwnBlock(ts, |data|)], data)
  {
    hide Holds, InAlphabet, Writable, Covers, TreesBits, SpelledBits, TokensBits, Expands, AllCodable, UsesAligned,
      TreesSpelled, BlockTrees, OwnSpelling, BitsOf, Expanded;
    var b := OwnBlock(ts, |data|);
    OwnTrees(ts, |data|);
    TokensCodable(ts);
    ExpandsToData(ts, Output([], START), data);
    assert CodedBits(b, NoLengths(MAIN_CODE_COUNT), NoLengths(LEN_CODE_COUNT)) == BlockBits(ts, |data|);
    assert HasCoded(e, Outset(), b);
    assert Has(e, Outset(), b, |data|);
    assert [b][1..] == [];
  }

  /** What any chunk is encoded as, whether or not that is smaller, is decoded to the chunk. */
  lemma EncodedIsRestored(src: seq<byte>)
    requires 0 < |src| <= WINDOW_SIZE
    ensures Decompressed(Encoded(src), |src|) == Some(src)
  {
    var data, e := Translate(src, 0, true), Encoded(src);
    var ts := TokensOf(data);
    TokensExpand(data);
    ExpandsInAlphabet(ts, Output([], START), data);
    PackedIsFlushed(BlockBits(ts, |src|));
    OwnBlockIsThere(e, ts, data);
    AnyChunkIsDecoded(e, [OwnBlock(ts, |data|)], data);
    TranslateInverse(src, 0, true);
  }

  /** What Compress emits is smaller than the chunk, and Decompress restores the chunk. */
  lemma CompressedIsRestored(src: seq<byte>)
    ensures Compressed(src).Some? ==>
            |Compressed(src).value| < |src| && Decompressed(Compressed(src).value, |src|) == Some(src)
  {
    hide Encoded, Decompressed;
    if 0 < |src| <= WINDOW_SIZE { EncodedIsRestored(src); }
  }
}
