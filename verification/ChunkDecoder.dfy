/** The chunk decoder. */
module ChunkDecoder {
  import opened Bits
  import opened BitStream
  import opened Canonical
  import opened DecodeTable
  import opened E8
  import opened HuffmanCode
  import opened Readers
  import opened Slots
  import opened Tokens
  import opened TokenCodec
  import opened TokenReader
  import opened TreeCodec
  import opened TreeReader
  import opened ChunkFormat

  /** The state one chunk is decoded with. */
  class Decoder {
    const b: BitReader
    const mainLens: array<nat>
    const lenLens: array<nat>
    const main: Huffman
    const length: Huffman
    const aligned: Huffman
    var recent: Recent

    /** The parts are of the right sizes, and no two of them share memory. */
    ghost predicate Shape()
      reads this, main, length, aligned
    {
      && mainLens.Length == MAIN_CODE_COUNT && lenLens.Length == LEN_CODE_COUNT && mainLens != lenLens
      && main.Shape() && length.Shape() && aligned.Shape()
      && main != length && main != aligned && length != aligned
      && Apart(main) && Apart(length) && Apart(aligned)
      && Disjoint(main, length) && Disjoint(main, aligned) && Disjoint(length, aligned)
    }

    ghost predicate Apart(h: Huffman)
    {
      h.count != mainLens && h.count != lenLens && h.symbol != mainLens && h.symbol != lenLens
    }

    ghost predicate Disjoint(g: Huffman, h: Huffman)
    {
      g.count != h.count && g.count != h.symbol && g.symbol != h.count && g.symbol != h.symbol
    }

    /** Between blocks: where the reader is, and what later blocks build on. */
    ghost function State(): Between
      reads this, b, mainLens, lenLens
    {
      Between(Position(b.base, b.at, b.unaligned), mainLens[..], lenLens[..], recent)
    }

    ghost predicate Ready()
      reads this, b, main, length, aligned
    {
      Shape() && b.Valid() && !b.err && (b.unaligned ==> b.AtWord())
    }

    constructor (src: seq<byte>)
      ensures Ready() && State() == Initial().st && b.data == src
      ensures fresh(b) && fresh(mainLens) && fresh(lenLens) && fresh(main) && fresh(length) && fresh(aligned)
      ensures fresh(main.count) && fresh(main.symbol) && fresh(length.count) && fresh(length.symbol)
      ensures fresh(aligned.count) && fresh(aligned.symbol)
    {
      b := new BitReader(src);
      mainLens := new nat[MAIN_CODE_COUNT](_ => 0);
      lenLens := new nat[LEN_CODE_COUNT](_ => 0);
      main := new Huffman();
      length := new Huffman();
      aligned := new Huffman();
      recent := START;
      new;
      assert mainLens[..] == NoLengths(MAIN_CODE_COUNT);
      assert lenLens[..] == NoLengths(LEN_CODE_COUNT);
    }

    method ReadAlignedTree() returns (ok: bool)
      requires Shape() && b.Valid() && !b.err
      modifies b`pos, b`acc, b`nbits, b`at, b`fed, aligned, aligned.count, aligned.symbol
      ensures Shape() && b.Valid() && !b.err
      ensures match ReadAligned(FieldsOf(b.Src()), old(b.at), true)
              case None => !ok
              case Some(d) => ok && b.at == d.next && aligned.Valid() && aligned.lens == d.value
    {
      hide BitReader.Valid, Huffman.Valid, AreFields, Usable, Fields;
      ghost var s := b.Src();
      FieldsAreFields(s);
      var lens := ReadFields(b, ALIGNED_COUNT, 3, FieldsOf(s));
      ok := aligned.Build(lens);
    }

    /** Reads the main tree's two halves over the lengths of the block before, and builds its table. */
    method ReadMainTree() returns (ok: bool)
      requires Shape() && b.Valid() && !b.err
      modifies b`pos, b`acc, b`nbits, b`at, b`fed, b`err, mainLens, main, main.count, main.symbol
      ensures Shape() && b.Valid() && (ok ==> !b.err)
      ensures match ReadMain(b.Src(), old(b.at), old(mainLens[..]))
              case None => !ok
              case Some(d) => ok && b.at == d.next && main.Valid() && main.lens == mainLens[..] == d.value
    {
      hide BitReader.Valid, Huffman.Valid, ReadLengths, Usable;
      ghost var lens := mainLens[..];
      ghost var r0 := ReadLengths(b.Src(), b.at, lens[..MAIN_CODE_SPLIT]);
      assert mainLens[0..MAIN_CODE_SPLIT] == lens[..MAIN_CODE_SPLIT];
      ok := ReadTree(b, mainLens, 0, MAIN_CODE_SPLIT);
      if !ok { return; }
      assert mainLens[MAIN_CODE_SPLIT..MAIN_CODE_COUNT] == lens[MAIN_CODE_SPLIT..];
      ghost var a := mainLens[..MAIN_CODE_SPLIT];
      assert a == r0.value.value;
      ghost var r := ReadLengths(b.Src(), b.at, lens[MAIN_CODE_SPLIT..]);
      ok := ReadTree(b, mainLens, MAIN_CODE_SPLIT, MAIN_CODE_COUNT);
      if !ok { return; }
      assert mainLens[..] == a + r.value.value;
      ok := main.Build(mainLens[..]);
    }

    method ReadLengthsTree() returns (ok: bool)
      requires Shape() && b.Valid() && !b.err
      modifies b`pos, b`acc, b`nbits, b`at, b`fed, b`err, lenLens, length, length.count, length.symbol
      ensures Shape() && b.Valid() && (ok ==> !b.err)
      ensures match ReadLengthTree(b.Src(), old(b.at), old(lenLens[..]))
              case None => !ok
              case Some(d) => ok && b.at == d.next && length.Valid() && length.lens == lenLens[..] == d.value
    {
      hide BitReader.Valid, Huffman.Valid, ReadLengths, Usable;
      ghost var lens := lenLens[..];
      ghost var r := ReadLengths(b.Src(), b.at, lens);
      assert lenLens[0..LEN_CODE_COUNT] == lens;
      ok := ReadTree(b, lenLens, 0, LEN_CODE_COUNT);
      if !ok { return; }
      assert lenLens[..] == r.value.value;
      ok := length.Build(lenLens[..]);
    }

    /** Reads a block's trees and builds their tables. */
    method ReadAllTrees(readAligned: bool) returns (ok: bool)
      requires Shape() && b.Valid() && !b.err
      modifies b`pos, b`acc, b`nbits, b`at, b`fed, b`err, mainLens, lenLens
      modifies main, main.count, main.symbol, length, length.count, length.symbol, aligned, aligned.count,
               aligned.symbol
      ensures Shape() && b.Valid() && (ok ==> !b.err)
      ensures match ReadTrees(b.Src(), old(b.at), readAligned, old(mainLens[..]), old(lenLens[..]))
              case None => !ok
              case Some(d) => ok && b.at == d.next && Built(d.value, readAligned)
    {
      hide BitReader.Valid, Huffman.Valid, Fields, Usable, ReadMain, ReadLengthTree;
      if readAligned {
        ok := ReadAlignedTree();
        if !ok { return; }
      }
      ok := ReadMainTree();
      if !ok { return; }
      ok := ReadLengthsTree();
    }

    /** The tables decode the trees, and the lengths are kept for the next block. */
    ghost predicate Built(trees: Trees, readAligned: bool)
      reads this, mainLens, lenLens, main, main.count, main.symbol, length, length.count, length.symbol
      reads aligned, aligned.count, aligned.symbol
    {
      && main.Valid() && length.Valid() && (readAligned ==> aligned.Valid() && aligned.lens == trees.aligned)
      && main.lens == mainLens[..] == trees.main && length.lens == lenLens[..] == trees.length
    }

    method ReadBlockSize(ghost field: FieldReader) returns (ok: bool, size: nat)
      requires Shape() && b.Valid() && AreFields(field, b.Src())
      modifies b`pos, b`acc, b`nbits, b`at, b`fed
      ensures Shape() && b.Valid() && size <= WINDOW_SIZE
      ensures ReadSize(field, old(b.at)) == if ok then Some(Decoded(size, b.at)) else None
    {
      hide BitReader.Valid, AreFields;
      var full := ReadField(b, 1, field);
      if full != 0 { return true, WINDOW_SIZE; }
      size := ReadField(b, 16, field);
      if size > WINDOW_SIZE { return false, 0; }
      ok := true;
    }

    /** The three offsets an uncompressed block carries, and the step over them. */
    method ReadStoredOffsets() returns (ok: bool)
      requires Shape() && b.Valid()
      modifies b`pos, b`acc, b`nbits, b`base, b`at, b`fed, `recent
      ensures Shape() && b.Valid()
      ensures var p := NextWordPos(old(b.Src()), old(b.at));
              ok == (p + 12 <= |b.data|) &&
              (ok ==> b.AtWord() && b.pos == b.base == p + 12 &&
                      recent ==
                        Recent(StoredOffset(b.data, p, 0), StoredOffset(b.data, p, 1), StoredOffset(b.data, p, 2)))
    {
      b.SkipToWord();
      if b.pos + 12 > |b.data| { return false; }
      ghost var p := b.pos;
      recent := Recent(WordAt(b.data, b.pos), WordAt(b.data, b.pos + 4), WordAt(b.data, b.pos + 8));
      b.Skip(12);
      ok := true;
    }

    method ReadBlockHeader() returns (ok: bool, kind: nat, size: nat)
      requires Ready()
      modifies b`pos, b`acc, b`nbits, b`base, b`at, b`fed, b`unaligned, `recent
      ensures Shape() && b.Valid() && !b.err && !b.unaligned
      ensures var base := Realigned(b.data, old(State()).pos);
              match ReadHeader(b.data, FieldsOf(Source(b.data, base)), base, old(b.at), old(recent))
              case None => !ok
              case Some(h) => ok && kind == h.kind && size == h.size && b.base == h.base && b.at == h.at &&
                              recent == h.recent
                              && (kind == UNCOMPRESSED ==> b.AtWord() && b.pos == b.base)
    {
      hide BitReader.Valid, AreFields, ReadSize, StoredOffset, NextWordPos;
      b.SkipPadding();
      ghost var field := FieldsOf(b.Src());
      FieldsAreFields(b.Src());
      kind := ReadField(b, 3, field);
      ok, size := ReadBlockSize(field);
      if !ok { return; }
      if kind == VERBATIM || kind == ALIGNED { return; }
      if kind != UNCOMPRESSED { return false, kind, size; }
      ok := ReadStoredOffsets();
    }

    /** The body of a verbatim or aligned block, decoded into window[start..start + h.size]. */
    method ReadCodedBody(window: array<byte>, start: nat, size: nat, useAligned: bool, ghost h: Header, ghost g: Stage)
      returns (ok: bool)
      requires Shape() && b.Valid() && !b.err && !b.unaligned && start + size <= window.Length
      requires h.size == size && useAligned == (h.kind == ALIGNED) && h.base == b.base && h.at == b.at &&
               h.recent == recent
      requires g.out == window[..start] && g.st.main == mainLens[..] && g.st.length == lenLens[..]
      modifies b`pos, b`acc, b`nbits, b`at, b`fed, b`err, `recent, mainLens, lenLens, window
      modifies main, main.count, main.symbol, length, length.count, length.symbol, aligned, aligned.count,
               aligned.symbol
      ensures Shape() && b.Valid() && (ok ==> !b.err)
      ensures ReadCoded(b.Src(), h, g) == if ok then Some(Stage(window[..start + size], State())) else None
    {
      hide BitReader.Valid, Huffman.Valid, ReadTrees, Produce;
      ok := ReadAllTrees(useAligned);
      if !ok { return; }
      ghost var trees := ReadTrees(b.Src(), h.at, useAligned, g.st.main, g.st.length).value.value;
      ghost var rd := DecodersOf(b.Src(), trees);
      DecodersDecode(b.Src(), trees, useAligned);
      ok, recent := ReadCompressed(b, main, length, aligned, window, start, start + size, useAligned, recent, rd);
    }

    method CopyStored(window: array<byte>, start: nat, size: nat)
      requires b.AtWord() && b.pos == b.base && start + size <= window.Length && b.pos + size <= |b.data|
      modifies b`pos, b`base, window
      ensures b.AtWord() && b.pos == b.base == old(b.base) + size
      ensures window[..start + size] == old(window[..start]) + b.data[old(b.base)..old(b.base) + size]
    {
      ghost var before := window[..start];
      for i := 0 to size
        modifies window
        invariant window[..start] == before && window[start..start + i] == b.data[b.pos..b.pos + i]
      {
        window[start + i] := b.data[b.pos + i];
      }
      assert window[..start + size] == window[..start] + window[start..start + size];
      b.Skip(size);
    }

    /** Decodes one block into window at start. */
    method ReadOneBlock(window: array<byte>, start: nat) returns (ok: bool, produced: nat)
      requires Ready() && start <= window.Length
      modifies b, `recent, mainLens, lenLens, window
      modifies main, main.count, main.symbol, length, length.count, length.symbol, aligned, aligned.count,
               aligned.symbol
      ensures b.data == old(b.data) && Shape()
      ensures ok ==> Ready() && start + produced <= window.Length
      ensures ReadBlock(b.data, Stage(old(window[..start]), old(State())), window.Length)
           == if ok then Some(Stage(window[..start + produced], State())) else None
    {
      hide Buffered, Huffman.Valid, ReadCoded, ReadHeader;
      ghost var base := Realigned(b.data, State().pos);
      ghost var g := Stage(window[..start], State());
      var kind;
      ok, kind, produced := ReadBlockHeader();
      if !ok { return; }
      if start + produced > window.Length { return false, 0; }
      ghost var h := ReadHeader(b.data, FieldsOf(Source(b.data, base)), base, old(b.at), old(recent)).value;
      if kind == UNCOMPRESSED {
        if produced % 2 == 1 { b.unaligned := true; }
        if b.pos + produced > |b.data| { return false, 0; }
        CopyStored(window, start, produced);
        return;
      }
      ok := ReadCodedBody(window, start, produced, kind == ALIGNED, h, g);
    }
  }

  lemma DecodersDecode(s: Source, trees: Trees, useAligned: bool)
    ensures Decode(DecodersOf(s, trees), s, trees.main, trees.length, trees.aligned, useAligned)
  {
    FieldsAreFields(s);
    SymbolsAreSymbols(trees.main, s);
    SymbolsAreSymbols(trees.length, s);
    SymbolsAreSymbols(trees.aligned, s);
  }

  /** Decodes one chunk from src into dst, whose length is the chunk's. */
  method Decompress(dst: array<byte>, src: seq<byte>) returns (ok: bool)
    modifies dst
    ensures match Decompressed(src, dst.Length)
            case None => !ok
            case Some(out) => ok && dst[..] == out
  {
    if dst.Length == 0 { return true; }
    if dst.Length > WINDOW_SIZE { return false; }
    ok := ReadAllBlocks(dst, src);
    if !ok { return; }
    ghost var out := dst[..];
    assert dst[..dst.Length] == out && dst[dst.Length..] == [];
    TranslateBuffer(dst, dst.Length, false);
    assert dst[..] == Translate(out, 0, false) + [];
  }

  method ReadAllBlocks(dst: array<byte>, src: seq<byte>) returns (ok: bool)
    modifies dst
    ensures match ReadBlocks(src, Initial(), dst.Length)
            case None => !ok
            case Some(out) => ok && dst[..] == out
  {
    hide Decoder.Shape, BitReader.Valid, ReadBlock;
    var d := new Decoder(src);
    var n: nat := 0;
    while n < dst.Length
      invariant n <= dst.Length && d.Ready() && d.b.data == src
      invariant ReadBlocks(src, Stage(dst[..n], d.State()), dst.Length) == ReadBlocks(src, Initial(), dst.Length)
    {
      var produced;
      ok, produced := d.ReadOneBlock(dst, n);
      if !ok { return; }
      if produced <= 0 { return false; }
      n := n + produced;
    }
    ok := true;
  }
}
