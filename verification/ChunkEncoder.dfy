/** The chunk encoder. */
module ChunkEncoder {
  import opened Bits
  import opened BitStream
  import opened Canonical
  import opened AssignLengths
  import opened E8
  import opened EncodeTable
  import opened HuffmanCode
  import opened HuffmanDepths
  import opened Slots
  import opened Tokens
  import opened TokenCodec
  import opened TreeCodec
  import opened TreeWriter
  import opened MatchFinder
  import opened ChunkEncode

  // ---------- counting ----------

  method Clear(freq: array<nat>)
    modifies freq
    ensures freq[..] == NoLengths(freq.Length)
  {
    for i := 0 to freq.Length
      invariant forall j :: 0 <= j < i ==> freq[j] == 0
    {
      freq[i] := 0;
    }
  }

  /** Counts the symbols the tokens need of one tree. */
  method Tally(freq: array<nat>, needs: Needs, ts: seq<Token>)
    modifies freq
    ensures freq[..] == Frequency(needs, ts, |ts|, freq.Length)
  {
    Clear(freq);
    for i := 0 to |ts|
      invariant freq[..] == Frequency(needs, ts, i, freq.Length)
    {
      var s := needs(ts[i]);
      if s.Some? && s.value < freq.Length {
        freq[s.value] := freq[s.value] + 1;
      }
    }
  }

  /** Whether coding the low three offset bits is possible and costs less than writing them raw. */
  method Pays(freq: seq<nat>, lens: seq<nat>) returns (pays: bool)
    requires |freq| == |lens|
    ensures pays == (Covers(freq, lens) && AlignedPays(freq, lens))
  {
    var raw, coded := 0, 24;
    for i := 0 to |freq|
      invariant raw == RawCost(freq, i) && coded == 24 + Cost(freq, lens, i)
      invariant forall s :: 0 <= s < i && freq[s] > 0 ==> lens[s] > 0
    {
      if freq[i] == 0 { continue; }
      if lens[i] == 0 { return false; }
      raw := raw + freq[i] * 3;
      coded := coded + freq[i] * lens[i];
    }
    pays := coded < raw;
  }

  // ---------- writing ----------

  method WriteHeader(w: BitWriter, size: nat, aligned: bool)
    requires w.Valid()
    modifies w
    ensures w.Valid() && w.Bits() == old(w.Bits()) + HeaderBits(aligned, size)
  {
    hide BitWriter.Valid, BitWriter.Bits, BitsOf;
    ghost var start, kind := w.Bits(), BitsOf(if aligned then 2 else 1, 3);
    ConcatAssoc(start, kind, SizeBits(size));
    w.Write(if aligned then 2 else 1, 3);
    if size == WINDOW_SIZE {
      w.Write(1, 1);
    } else {
      ConcatAssoc(start + kind, BitsOf(0, 1), BitsOf(size, 16));
      w.Write(0, 1);
      w.Write(size, 16);
    }
  }

  method WriteTrees(w: BitWriter, mainLens: seq<nat>, lenLens: seq<nat>, alignedLens: seq<nat>, aligned: bool,
                    ghost trees: Trees)
    requires w.Valid() && |mainLens| == MAIN_CODE_COUNT && |lenLens| == LEN_CODE_COUNT
    requires Bounded(mainLens, 16) && Bounded(lenLens, 16)
    requires trees.main == mainLens && trees.length == lenLens && (aligned ==> trees.aligned == alignedLens)
    modifies w
    ensures w.Valid() && w.Bits() == old(w.Bits()) + TreesBits(trees, aligned)
  {
    hide BitWriter.Valid, BitWriter.Bits, TreeBits, FieldBits;
    var a, b := mainLens[..MAIN_CODE_SPLIT], mainLens[MAIN_CODE_SPLIT..];
    ghost var start, x, y, z, v := w.Bits(), AlignedBits(trees.aligned, aligned), TreeBits(a), TreeBits(b),
      TreeBits(lenLens);
    ConcatAssoc(start, x, y + (z + v));
    ConcatAssoc(start + x, y, z + v);
    ConcatAssoc(start + x + y, z, v);
    if aligned {
      WriteFields(w, alignedLens, 3);
    } else {
      assert start + [] == start;
    }
    WriteTree(w, a);
    WriteTree(w, b);
    WriteTree(w, lenLens);
  }

  /** A code table of the encoder's: every length with its canonical code. */
  ghost predicate Table(lens: seq<nat>, codes: seq<nat>)
  {
    Bounded(lens, 16) && codes == Codes(lens, |lens|)
  }

  method WriteCode(w: BitWriter, lens: seq<nat>, codes: seq<nat>, s: nat)
    requires w.Valid() && Table(lens, codes) && s < |lens| && lens[s] > 0
    modifies w
    ensures w.Valid() && w.Bits() == old(w.Bits()) + CodeBits(lens, s)
  {
    hide BitWriter.Valid, BitWriter.Bits, Code;
    CodesAt(lens, |lens|, s);
    w.Write(codes[s], lens[s]);
  }

  method WriteExtra(w: BitWriter, t: Token, alignedLens: seq<nat>, alignedCodes: seq<nat>, aligned: bool,
                    ghost trees: Trees)
    requires w.Valid() && 0 <= t.slot < SLOT_COUNT && Codable(t, trees, aligned)
    requires aligned ==> Table(alignedLens, alignedCodes) && trees.aligned == alignedLens
    modifies w
    ensures w.Valid() && w.Bits() == old(w.Bits()) + ExtraBits(t, trees, aligned)
  {
    hide BitWriter.Valid, BitWriter.Bits, Table, Footer;
    ghost var start := w.Bits();
    var bits := LookUpFooter(t.slot);
    if bits == 0 {
      assert ExtraBits(t, trees, aligned) == [];
      assert start + [] == start;
      return;
    }
    if aligned && bits >= 3 {
      ConcatAssoc(start, BitsOf(t.extra / 8, bits - 3), CodeBits(alignedLens, t.extra % 8));
      w.Write(t.extra / 8, bits - 3);
      WriteCode(w, alignedLens, alignedCodes, t.extra % 8);
    } else {
      w.Write(t.extra, bits);
    }
  }

  /** The tables the tokens of a block are written with. */
  datatype Tables = Tables(mainLens: seq<nat>, mainCodes: seq<nat>, lenLens: seq<nat>, lenCodes: seq<nat>,
                           alignedLens: seq<nat>, alignedCodes: seq<nat>)

  ghost predicate Codes4(tables: Tables, trees: Trees, aligned: bool)
  {
    && Table(tables.mainLens, tables.mainCodes) && Table(tables.lenLens, tables.lenCodes)
    && tables.mainLens == trees.main && tables.lenLens == trees.length
    && (aligned ==> Table(tables.alignedLens, tables.alignedCodes) && tables.alignedLens == trees.aligned)
  }

  method WriteToken(w: BitWriter, t: Token, tables: Tables, aligned: bool, ghost trees: Trees)
    requires w.Valid() && t.slot < SLOT_COUNT && Codable(t, trees, aligned) && Codes4(tables, trees, aligned)
    modifies w
    ensures w.Valid() && w.Bits() == old(w.Bits()) + TokenBits(t, trees, aligned)
  {
    hide BitWriter.Valid, BitWriter.Bits, Table, CodeBits, ExtraBits;
    ghost var start, code := w.Bits(), CodeBits(trees.main, t.sym);
    WriteCode(w, tables.mainLens, tables.mainCodes, t.sym);
    if t.slot < 0 {
      assert code + [] == code;
      return;
    }
    ghost var len, extra := LengthBits(t, trees, aligned), ExtraBits(t, trees, aligned);
    ConcatAssoc(start, code, len + extra);
    ConcatAssoc(start + code, len, extra);
    if t.lenSym >= 0 {
      WriteCode(w, tables.lenLens, tables.lenCodes, t.lenSym);
    } else {
      assert (start + code) + [] == start + code;
    }
    WriteExtra(w, t, tables.alignedLens, tables.alignedCodes, aligned, trees);
  }

  method WriteTokens(w: BitWriter, ts: seq<Token>, tables: Tables, aligned: bool, ghost trees: Trees)
    requires w.Valid() && AllCodable(ts, trees, aligned) && AllInAlphabet(ts) && Codes4(tables, trees, aligned)
    modifies w
    ensures w.Valid() && w.Bits() == old(w.Bits()) + TokensBits(ts, trees, aligned)
  {
    hide BitWriter.Valid, BitWriter.Bits, Codable, Codes4, TokenBits;
    assert ts[0..] == ts;
    for i := 0 to |ts|
      invariant w.Valid() &&
                w.Bits() + TokensBits(ts[i..], trees, aligned) == old(w.Bits()) + TokensBits(ts, trees, aligned)
    {
      assert ts[i..][1..] == ts[i + 1..];
      ConcatAssoc(w.Bits(), TokenBits(ts[i], trees, aligned), TokensBits(ts[i + 1..], trees, aligned));
      WriteToken(w, ts[i], tables, aligned, trees);
    }
    assert w.Bits() + [] == w.Bits();
  }

  /** Writes the block header, the trees and the tokens. */
  method EmitBlock(w: BitWriter, ts: seq<Token>, size: nat, mainLens: seq<nat>, lenLens: seq<nat>,
                   alignedLens: seq<nat>, aligned: bool)
    requires w.Valid() && Countable(ts) && AllInAlphabet(ts)
    requires mainLens == MainLengths(ts) && lenLens == LengthLengths(ts) && alignedLens == AlignedLengths(ts) &&
             aligned == UsesAligned(ts)
    modifies w
    ensures w.Valid() && w.Bits() == old(w.Bits()) + BlockBits(ts, size)
  {
    hide BitWriter.Valid, BitWriter.Bits, MainLengths, LengthLengths, AlignedLengths, UsesAligned, HeaderBits,
      TreesBits, TokensBits, Covers, AllCodable, AllInAlphabet;
    ghost var start, trees := w.Bits(), BlockTrees(ts);
    TreesWritable(ts);
    TokensCodable(ts);
    ghost var head, body := HeaderBits(aligned, size), TreesBits(trees, aligned);
    ConcatAssoc(start, head, body + TokensBits(ts, trees, aligned));
    ConcatAssoc(start + head, body, TokensBits(ts, trees, aligned));
    WriteHeader(w, size, aligned);
    WriteTrees(w, mainLens, lenLens, alignedLens, aligned, trees);
    var mainCodes := CanonicalCodes(mainLens);
    var lenCodes := CanonicalCodes(lenLens);
    var alignedCodes := CanonicalCodes(alignedLens);
    WriteTokens(w, ts, Tables(mainLens, mainCodes, lenLens, lenCodes, alignedLens, alignedCodes), aligned, trees);
  }
}
