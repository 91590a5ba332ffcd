/** The compressor, whose scratch is reused from chunk to chunk. */
module ChunkCompressor {
  import opened Bits
  import opened BitStream
  import opened Canonical
  import opened AssignLengths
  import opened E8
  import opened Slots
  import opened Tokens
  import opened MatchFinder
  import opened ChunkEncode
  import opened ChunkEncoder

  class Compressor {
    const head: array<nat>
    const prev: array<nat>
    const buf: array<byte>
    var tokens: seq<Token>
    const mainFreq: array<nat>
    const lenFreq: array<nat>
    const alignedFreq: array<nat>
    const w: BitWriter

    /** Nothing is asked of what earlier chunks left in the scratch. */
    ghost predicate Shape()
    {
      && head.Length == HASH_SIZE && prev.Length == WINDOW_SIZE && buf.Length == WINDOW_SIZE
      && mainFreq.Length == MAIN_CODE_COUNT && lenFreq.Length == LEN_CODE_COUNT && alignedFreq.Length == ALIGNED_COUNT
      && head != prev && mainFreq != lenFreq && mainFreq != alignedFreq && lenFreq != alignedFreq
    }

    constructor ()
      ensures Shape() && fresh(head) && fresh(prev) && fresh(buf)
      ensures fresh(mainFreq) && fresh(lenFreq) && fresh(alignedFreq) && fresh(w)
    {
      head := new nat[HASH_SIZE](_ => 0);
      prev := new nat[WINDOW_SIZE](_ => 0);
      buf := new byte[WINDOW_SIZE](_ => 0);
      tokens := [];
      mainFreq := new nat[MAIN_CODE_COUNT](_ => 0);
      lenFreq := new nat[LEN_CODE_COUNT](_ => 0);
      alignedFreq := new nat[ALIGNED_COUNT](_ => 0);
      w := new BitWriter();
    }

    method CountFrequencies()
      requires Shape()
      modifies mainFreq, lenFreq, alignedFreq
      ensures mainFreq[..] == MainFrequency(tokens) && lenFreq[..] == LengthFrequency(tokens)
      ensures alignedFreq[..] == AlignedFrequency(tokens)
    {
      Tally(mainFreq, MainSymbol, tokens);
      Tally(lenFreq, LengthSymbol, tokens);
      Tally(alignedFreq, AlignedSymbol, tokens);
    }

    /** Copies the chunk into the private buffer, translated; src itself is never modified. */
    method TranslateCopy(src: seq<byte>)
      requires Shape() && |src| <= WINDOW_SIZE
      modifies buf
      ensures buf[..|src|] == Translate(src, 0, true)
    {
      for i := 0 to |src|
        invariant buf[..i] == src[..i]
      {
        buf[i] := src[i];
      }
      assert src[..|src|] == src;
      TranslateBuffer(buf, |src|, true);
    }

    /** Turns the chunk into the bits of its one block. */
    method Encode(src: seq<byte>)
      requires Shape() && |src| <= WINDOW_SIZE
      modifies this, head, prev, buf, mainFreq, lenFreq, alignedFreq, w
      ensures Shape() && w.out == Encoded(src)
    {
      hide Translate, TokensOf, Frequency, Assigned, AlignedPays, BlockBits, Expands, BitWriter.Valid, BitWriter.Bits;
      ghost var data := Translate(src, 0, true);
      TokensExpand(data);
      ExpandsInAlphabet(TokensOf(data), Output([], START), data);
      TranslateCopy(src);
      tokens := FindMatches(buf, |src|, head, prev);
      CountFrequencies();
      TreesWritable(tokens);
      var mainLens := Assign(mainFreq[..], MAX_TREE_PATH);
      var lenLens := Assign(lenFreq[..], MAX_TREE_PATH);
      var alignedLens := Assign(alignedFreq[..], ALIGNED_LEN_LIMIT);
      var useAligned := Pays(alignedFreq[..], alignedLens);
      w.Reset();
      EmitBlock(w, tokens, |src|, mainLens, lenLens, alignedLens, useAligned);
      assert [] + BlockBits(tokens, |src|) == BlockBits(tokens, |src|);
      w.Flush();
    }

    /** What it writes depends on src alone, whatever the scratch holds. When it says no, dst is untouched. */
    method Compress(dst: array<byte>, src: seq<byte>) returns (n: nat, ok: bool)
      requires Shape() && dst != buf
      modifies this, head, prev, buf, mainFreq, lenFreq, alignedFreq, w, dst
      ensures Shape() && (!ok ==> n == 0 && dst[..] == old(dst[..]))
      ensures ok <==> Compressed(src).Some? && |Compressed(src).value| <= dst.Length
      ensures ok <==> 0 < |src| <= WINDOW_SIZE && |Encoded(src)| < |src| && |Encoded(src)| <= dst.Length
      ensures ok ==> n == |Compressed(src).value| && dst[..n] == Compressed(src).value && dst[n..] == old(dst[n..])
    {
      hide Encoded;
      if |src| == 0 || |src| > WINDOW_SIZE { return 0, false; }
      Encode(src);
      if |w.out| >= |src| || |w.out| > dst.Length { return 0, false; }
      n := |w.out|;
      for i := 0 to n
        modifies dst
        invariant dst[..i] == w.out[..i] && dst[n..] == old(dst[n..])
      {
        dst[i] := w.out[i];
      }
      ok := true;
    }
  }
}
