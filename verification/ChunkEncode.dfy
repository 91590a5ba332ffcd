/** The one block the encoder makes of a chunk: symbol counts, trees, header and tokens. */
module ChunkEncode {
  import opened Bits
  import opened BitStream
  import opened Canonical
  import opened AssignLengths
  import opened E8
  import opened HuffmanCode
  import opened HuffmanDepths
  import opened Slots
  import opened Tokens
  import opened TokenCodec
  import opened TreeCodec
  import opened MatchFinder

  const ALIGNED_LEN_LIMIT: nat := 7

  // ---------- how often each symbol is written ----------

  /** The symbol of one tree that a token needs, if it needs one. */
  type Needs = Token -> Option<nat>

  function MainSymbol(t: Token): Option<nat>
  {
    Some(t.sym)
  }

  function LengthSymbol(t: Token): Option<nat>
  {
    if t.lenSym >= 0 then Some(t.lenSym) else None
  }

  /** The low three offset bits, for the slots an aligned block codes them in. */
  function AlignedSymbol(t: Token): Option<nat>
  {
    if t.slot >= 3 && Footer(t.slot) >= 3 then Some(t.extra % 8) else None
  }

  /** How often the first n tokens need each of size symbols. */
  function Frequency(needs: Needs, ts: seq<Token>, n: nat, size: nat): (freq: seq<nat>)
    requires n <= |ts|
    ensures |freq| == size && forall s :: 0 <= s < size ==> freq[s] <= n
  {
    if n == 0 then NoLengths(size)
    else
      var freq := Frequency(needs, ts, n - 1, size);
      match needs(ts[n - 1])
      case None => freq
      case Some(s) => if s < size then freq[s := freq[s] + 1] else freq
  }

  lemma {:induction false} FrequencyCounts(needs: Needs, ts: seq<Token>, n: nat, size: nat, i: nat, s: nat)
    requires i < n <= |ts| && needs(ts[i]) == Some(s) && s < size
    ensures Frequency(needs, ts, n, size)[s] > 0
  {
    if i < n - 1 { FrequencyCounts(needs, ts, n - 1, size, i, s); }
  }

  ghost function MainFrequency(ts: seq<Token>): seq<nat>
  {
    Frequency(MainSymbol, ts, |ts|, MAIN_CODE_COUNT)
  }

  ghost function LengthFrequency(ts: seq<Token>): seq<nat>
  {
    Frequency(LengthSymbol, ts, |ts|, LEN_CODE_COUNT)
  }

  ghost function AlignedFrequency(ts: seq<Token>): seq<nat>
  {
    Frequency(AlignedSymbol, ts, |ts|, ALIGNED_COUNT)
  }

  // ---------- trees ----------

  /** A list of tokens short enough for its counts to be 32-bit. */
  predicate Countable(ts: seq<Token>)
  {
    |ts| < 0x1_0000_0000
  }

  ghost function MainLengths(ts: seq<Token>): (lens: seq<nat>)
    requires Countable(ts)
    ensures |lens| == MAIN_CODE_COUNT
  {
    Assigned(MainFrequency(ts), MAX_TREE_PATH)
  }

  ghost function LengthLengths(ts: seq<Token>): (lens: seq<nat>)
    requires Countable(ts)
    ensures |lens| == LEN_CODE_COUNT
  {
    Assigned(LengthFrequency(ts), MAX_TREE_PATH)
  }

  ghost function AlignedLengths(ts: seq<Token>): (lens: seq<nat>)
    requires Countable(ts)
    ensures |lens| == ALIGNED_COUNT
  {
    Assigned(AlignedFrequency(ts), ALIGNED_LEN_LIMIT)
  }

  /** What the aligned symbols cost raw, three bits each. */
  function RawCost(freq: seq<nat>, n: nat): (c: nat)
    requires n <= |freq|
  {
    if n == 0 then 0 else RawCost(freq, n - 1) + 3 * freq[n - 1]
  }

  /** Coding the aligned symbols, with their tree's twenty-four bits, is cheaper than writing them raw. */
  predicate AlignedPays(freq: seq<nat>, lens: seq<nat>)
    requires |freq| == |lens|
  {
    24 + Cost(freq, lens, |freq|) < RawCost(freq, |freq|)
  }

  ghost predicate UsesAligned(ts: seq<Token>)
    requires Countable(ts)
  {
    AlignedPays(AlignedFrequency(ts), AlignedLengths(ts))
  }

  ghost function BlockTrees(ts: seq<Token>): Trees
    requires Countable(ts)
  {
    Trees(MainLengths(ts), LengthLengths(ts), if UsesAligned(ts) then AlignedLengths(ts) else [])
  }

  /** A tree the encoder writes: it can be read back, and its lengths fit. */
  predicate Writable(lens: seq<nat>, limit: nat)
  {
    Usable(lens) && Bounded(lens, limit)
  }

  predicate Covers(freq: seq<nat>, lens: seq<nat>)
  {
    |freq| == |lens| && forall s :: 0 <= s < |freq| && freq[s] > 0 ==> lens[s] > 0
  }

  lemma LimitReach(limit: nat, n: nat)
    requires limit == 16 || limit == 7
    requires limit == 16 ==> n <= 512
    requires limit == 7 ==> n <= 128
    ensures n <= Pow2(limit)
  {
    PowersTo13(7);
    PowersTo13(9);
    Pow2Monotone(9, 16);
  }

  lemma AssignedWritable(freq: seq<nat>, limit: nat)
    requires Alphabet(freq) && (limit == 16 || limit == 7) && (limit == 7 ==> |freq| <= 128)
    ensures Writable(Assigned(freq, limit), limit) && Covers(freq, Assigned(freq, limit))
  {
    LimitReach(limit, |freq|);
    AssignedIsUsable(freq, limit);
  }

  lemma TreesWritable(ts: seq<Token>)
    requires Countable(ts)
    ensures Writable(MainLengths(ts), 16) && Covers(MainFrequency(ts), MainLengths(ts))
    ensures Writable(LengthLengths(ts), 16) && Covers(LengthFrequency(ts), LengthLengths(ts))
    ensures Writable(AlignedLengths(ts), 7) && Covers(AlignedFrequency(ts), AlignedLengths(ts))
  {
    AssignedWritable(MainFrequency(ts), 16);
    AssignedWritable(LengthFrequency(ts), 16);
    AssignedWritable(AlignedFrequency(ts), 7);
  }

  // ---------- every token can be written ----------

  predicate AllInAlphabet(ts: seq<Token>)
  {
    forall i {:trigger ts[i]} :: 0 <= i < |ts| ==> InAlphabet(ts[i])
  }

  lemma {:induction false} ExpandsInAlphabet(ts: seq<Token>, o: Output, data: seq<byte>)
    requires Expands(ts, o, data)
    ensures AllInAlphabet(ts) && |ts| + |o.bytes| <= |data|
    decreases |ts|
  {
    if ts != [] {
      var rest := ts[1..];
      ExpandsInAlphabet(rest, Apply(ts[0], o, |data|), data);
      forall i | 0 <= i < |ts|
        ensures InAlphabet(ts[i])
      {
        if i > 0 { assert ts[i] == rest[i - 1]; }
      }
    }
  }

  lemma TokensCodable(ts: seq<Token>)
    requires Countable(ts) && AllInAlphabet(ts)
    ensures AllCodable(ts, BlockTrees(ts), UsesAligned(ts))
  {
    TreesWritable(ts);
    forall i | 0 <= i < |ts|
      ensures Codable(ts[i], BlockTrees(ts), UsesAligned(ts))
    {
      TokenCodable(ts, i);
    }
  }

  lemma TokenCodable(ts: seq<Token>, i: nat)
    requires Countable(ts) && i < |ts| && InAlphabet(ts[i])
    ensures Codable(ts[i], BlockTrees(ts), UsesAligned(ts))
  {
    var t := ts[i];
    TreesWritable(ts);
    FrequencyCounts(MainSymbol, ts, |ts|, MAIN_CODE_COUNT, i, t.sym);
    if t.lenSym >= 0 { FrequencyCounts(LengthSymbol, ts, |ts|, LEN_CODE_COUNT, i, t.lenSym); }
    if t.slot >= 0 && Footer(t.slot) >= 3 { FrequencyCounts(AlignedSymbol, ts, |ts|, ALIGNED_COUNT, i, t.extra % 8); }
  }

  // ---------- the bits of a block ----------

  function SizeBits(size: nat): seq<bool>
  {
    if size == WINDOW_SIZE then BitsOf(1, 1) else BitsOf(0, 1) + BitsOf(size, 16)
  }

  function HeaderBits(aligned: bool, size: nat): seq<bool>
  {
    BitsOf(if aligned then 2 else 1, 3) + SizeBits(size)
  }

  ghost function AlignedBits(lens: seq<nat>, aligned: bool): seq<bool>
  {
    if aligned then FieldBits(lens, 3) else []
  }

  /** The trees, the main one in two halves. */
  ghost function TreesBits(trees: Trees, aligned: bool): seq<bool>
    requires |trees.main| == MAIN_CODE_COUNT && |trees.length| == LEN_CODE_COUNT
    requires Bounded(trees.main, 16) && Bounded(trees.length, 16)
  {
    AlignedBits(trees.aligned, aligned)
    + (TreeBits(trees.main[..MAIN_CODE_SPLIT]) + (TreeBits(trees.main[MAIN_CODE_SPLIT..]) + TreeBits(trees.length)))
  }

  ghost function BlockBits(ts: seq<Token>, size: nat): seq<bool>
    requires Countable(ts) && AllInAlphabet(ts)
  {
    TreesWritable(ts);
    TokensCodable(ts);
    var aligned := UsesAligned(ts);
    HeaderBits(aligned, size) + (TreesBits(BlockTrees(ts), aligned) + TokensBits(ts, BlockTrees(ts), aligned))
  }

  /** The bytes the encoder makes of a chunk. */
  ghost function Encoded(src: seq<byte>): seq<byte>
    requires |src| <= WINDOW_SIZE
  {
    var data := Translate(src, 0, true);
    TokensExpand(data);
    ExpandsInAlphabet(TokensOf(data), Output([], START), data);
    Packed(BlockBits(TokensOf(data), |src|))
  }

  /** What a chunk is compressed to: nothing when that would not be smaller. */
  ghost function Compressed(src: seq<byte>): Option<seq<byte>>
  {
    if |src| == 0 || |src| > WINDOW_SIZE || |Encoded(src)| >= |src| then None else Some(Encoded(src))
  }

  /** Something is always emitted. */
  lemma EncodedSome(src: seq<byte>)
    requires |src| <= WINDOW_SIZE
    ensures Encoded(src) != []
  {
    hide Packed, TokensOf, TreesBits, TokensBits, UsesAligned, BlockTrees, BitsOf, SizeBits, Translate;
    var data := Translate(src, 0, true);
    TokensExpand(data);
    ExpandsInAlphabet(TokensOf(data), Output([], START), data);
    PackedSome(BlockBits(TokensOf(data), |src|));
  }
}
