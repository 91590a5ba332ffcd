/** The encoder's choice between a verbatim and an aligned block is the choice of the shorter. */
module BlockChoice {
  import opened Bits
  import opened BitStream
  import opened Canonical
  import opened HuffmanCode
  import opened HuffmanDepths
  import opened Slots
  import opened Tokens
  import opened TokenCodec
  import opened TreeCodec
  import opened ChunkEncode

  /** The trees of a block of either kind. */
  ghost function TreesFor(ts: seq<Token>, aligned: bool): Trees
    requires Countable(ts)
  {
    Trees(MainLengths(ts), LengthLengths(ts), if aligned then AlignedLengths(ts) else [])
  }

  lemma CodableEither(ts: seq<Token>, aligned: bool)
    requires Countable(ts) && AllInAlphabet(ts)
    ensures AllCodable(ts, TreesFor(ts, aligned), aligned)
  {
    TreesWritable(ts);
    forall i | 0 <= i < |ts|
      ensures Codable(ts[i], TreesFor(ts, aligned), aligned)
    {
      var t := ts[i];
      FrequencyCounts(MainSymbol, ts, |ts|, MAIN_CODE_COUNT, i, t.sym);
      if t.lenSym >= 0 { FrequencyCounts(LengthSymbol, ts, |ts|, LEN_CODE_COUNT, i, t.lenSym); }
      if t.slot >= 0 && Footer(t.slot) >= 3 { FrequencyCounts(AlignedSymbol, ts, |ts|, ALIGNED_COUNT, i, t.extra % 8); }
    }
  }

  /** The block of either kind. */
  ghost function BlockOf(ts: seq<Token>, size: nat, aligned: bool): seq<bool>
    requires Countable(ts) && AllInAlphabet(ts)
  {
    TreesWritable(ts);
    CodableEither(ts, aligned);
    HeaderBits(aligned, size) +
      (TreesBits(TreesFor(ts, aligned), aligned) + TokensBits(ts, TreesFor(ts, aligned), aligned))
  }

  // ---------- one token ----------

  function AlignedCost(t: Token, lens: seq<nat>): nat
  {
    match AlignedSymbol(t)
    case None => 0
    case Some(s) => if s < |lens| then lens[s] else 0
  }

  function AlignedRaw(t: Token): nat
  {
    if AlignedSymbol(t).Some? then 3 else 0
  }

  /** A token costs the same in both kinds of block but for its low three offset bits. */
  lemma TokenSaves(t: Token, main: seq<nat>, length: seq<nat>, lens: seq<nat>)
    requires Codable(t, Trees(main, length, lens), true) && Codable(t, Trees(main, length, []), false) && InAlphabet(t)
    ensures |TokenBits(t, Trees(main, length, lens), true)| + AlignedRaw(t) ==
            |TokenBits(t, Trees(main, length, []), false)| + AlignedCost(t, lens)
  {
    hide Canonical.CodeBits, Base, PositionSlot, BitsOf;
    assert t.slot >= 3 || t.slot < 0 || Footer(t.slot) == 0;
  }

  // ---------- all of them ----------

  lemma {:induction false} TokensAppend(ts: seq<Token>, t: Token, trees: Trees, aligned: bool)
    requires AllCodable(ts, trees, aligned) && Codable(t, trees, aligned)
    ensures AllCodable(ts + [t], trees, aligned)
    ensures |TokensBits(ts + [t], trees, aligned)| == |TokensBits(ts, trees, aligned)| + |TokenBits(t, trees, aligned)|
    decreases |ts|
  {
    hide Codable, TokenBits;
    if ts == [] {
      assert ([] + [t])[1..] == [];
    } else {
      TokensAppend(ts[1..], t, trees, aligned);
      assert (ts + [t])[1..] == ts[1..] + [t];
    }
  }

  lemma {:induction false} OneMoreCost(freq: seq<nat>, lens: seq<nat>, n: nat, s: nat)
    requires |freq| == |lens| && n <= |freq| && s < |freq|
    ensures Cost(freq[s := freq[s] + 1], lens, n) == Cost(freq, lens, n) + (if s < n then lens[s] else 0)
    ensures RawCost(freq[s := freq[s] + 1], n) == RawCost(freq, n) + (if s < n then 3 else 0)
  {
    if n > 0 {
      OneMoreCost(freq, lens, n - 1, s);
      if s == n - 1 { OneMoreTimes(freq[s], lens[s]); }
    }
  }

  lemma OneMoreTimes(f: nat, l: nat)
    ensures (f + 1) * l == f * l + l
  {
  }

  lemma {:induction false} NoCost(lens: seq<nat>, n: nat, size: nat)
    requires n <= |lens| == size
    ensures Cost(NoLengths(size), lens, n) == 0 && RawCost(NoLengths(size), n) == 0
  {
    if n > 0 {
      NoCost(lens, n - 1, size);
      assert 0 * lens[n - 1] == 0;
    }
  }

  /** The first n tokens' aligned symbols cost what the frequencies say. */
  lemma {:induction false} TokensSave(ts: seq<Token>, main: seq<nat>, length: seq<nat>, lens: seq<nat>, n: nat,
                                      size: nat)
    requires n <= |ts| && AllInAlphabet(ts) && |lens| == size == ALIGNED_COUNT
    requires AllCodable(ts, Trees(main, length, lens), true) && AllCodable(ts, Trees(main, length, []), false)
    ensures AllCodable(ts[..n], Trees(main, length, lens), true) && AllCodable(ts[..n], Trees(main, length, []), false)
    ensures var freq := Frequency(AlignedSymbol, ts, n, size);
            |TokensBits(ts[..n], Trees(main, length, lens), true)| + RawCost(freq, size) ==
            |TokensBits(ts[..n], Trees(main, length, []), false)| + Cost(freq, lens, size)
  {
    hide Codable, TokenBits, TokensBits, Footer, Cost, RawCost;
    if n == 0 {
      NoCost(lens, size, size);
      NoTokens(Trees(main, length, lens), true);
      NoTokens(Trees(main, length, []), false);
      assert ts[..0] == [];
    } else {
      TokensSave(ts, main, length, lens, n - 1, size);
      var t, freq := ts[n - 1], Frequency(AlignedSymbol, ts, n - 1, size);
      assert ts[..n] == ts[..n - 1] + [t];
      TokensAppend(ts[..n - 1], t, Trees(main, length, lens), true);
      TokensAppend(ts[..n - 1], t, Trees(main, length, []), false);
      TokenSaves(t, main, length, lens);
      if AlignedSymbol(t).Some? { OneMoreCost(freq, lens, size, AlignedSymbol(t).value); }
    }
  }

  lemma NoTokens(trees: Trees, aligned: bool)
    ensures AllCodable([], trees, aligned) && TokensBits([], trees, aligned) == []
  {
  }

  lemma {:induction false} FieldsLength(vs: seq<nat>, w: nat)
    ensures |FieldBits(vs, w)| == |vs| * w
    decreases |vs|
  {
    if vs != [] {
      FieldsLength(vs[1..], w);
      OneMoreTimes(|vs| - 1, w);
    }
  }

  /** What the encoder writes is the shorter of the two blocks, and the verbatim one when they are as long. */
  lemma ShorterBlock(ts: seq<Token>, size: nat)
    requires Countable(ts) && AllInAlphabet(ts)
    ensures BlockBits(ts, size) == BlockOf(ts, size, UsesAligned(ts))
    ensures UsesAligned(ts) <==> |BlockOf(ts, size, true)| < |BlockOf(ts, size, false)|
  {
    hide Codable, TokensBits, Footer, Cost, RawCost, Frequency, TreeBits, MainLengths, LengthLengths, AlignedLengths,
      Writable, Covers, AllInAlphabet, SizeBits;
    TreesWritable(ts);
    CodableEither(ts, true);
    CodableEither(ts, false);
    TokensSave(ts, MainLengths(ts), LengthLengths(ts), AlignedLengths(ts), |ts|, ALIGNED_COUNT);
    assert ts[..|ts|] == ts;
    FieldsLength(AlignedLengths(ts), 3);
    TreesLengths(ts);
  }

  lemma TreesLengths(ts: seq<Token>)
    requires Countable(ts) && Bounded(MainLengths(ts), 16) && Bounded(LengthLengths(ts), 16)
    ensures |TreesBits(TreesFor(ts, true), true)| ==
            |TreesBits(TreesFor(ts, false), false)| + |FieldBits(AlignedLengths(ts), 3)|
  {
    hide TreeBits, MainLengths, LengthLengths, AlignedLengths, FieldBits;
  }
}
