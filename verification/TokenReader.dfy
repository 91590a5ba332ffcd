/** Decoding a block's tokens into the window, in place. */
module TokenReader {
  import opened Bits
  import opened BitStream
  import opened Canonical
  import opened DecodeTable
  import opened Readers
  import opened Slots
  import opened Tokens
  import opened TokenCodec

  /** The tables and the bit reader do what the decoders say. */
  ghost predicate Decode(rd: Decoders, s: Source, main: seq<nat>, length: seq<nat>, aligned: seq<nat>, useAligned: bool)
  {
    && AreSymbols(rd.main, main, s) && AreSymbols(rd.length, length, s) && AreFields(rd.field, s)
    && (useAligned ==> AreSymbols(rd.aligned, aligned, s))
  }

  method ReadOffsetBits(b: BitReader, aligned: Huffman, slot: nat, useAligned: bool, ghost rd: Decoders)
    returns (ok: bool, extra: nat)
    requires b.Valid() && !b.err && slot < SLOT_COUNT && AreFields(rd.field, b.Src())
    requires useAligned ==> aligned.Valid() && AreSymbols(rd.aligned, aligned.lens, b.Src())
    modifies b`pos, b`acc, b`nbits, b`at, b`fed, b`err
    ensures b.Valid() && (ok ==> !b.err)
    ensures ReadExtra(rd, old(b.at), slot, useAligned) == if ok then Some(Decoded(extra, b.at)) else None
  {
    hide BitReader.Valid, Huffman.Valid, AreSymbols, AreFields, Footer;
    var bits := LookUpFooter(slot);
    if bits == 0 { return true, 0; }
    if useAligned && bits >= 3 {
      var verbatim := ReadField(b, bits - 3, rd.field);
      var low := ReadSym(b, aligned, rd.aligned);
      if b.err { return false, 0; }
      return true, 8 * verbatim + low;
    }
    extra := ReadField(b, bits, rd.field);
    ok := true;
  }

  method ReadMatchLength(b: BitReader, length: Huffman, sym: nat, ghost rd: Decoders) returns (ok: bool, extra: nat)
    requires b.Valid() && !b.err && sym >= MAIN_CODE_SPLIT && length.Valid() &&
             AreSymbols(rd.length, length.lens, b.Src())
    modifies b`pos, b`acc, b`nbits, b`at, b`fed, b`err
    ensures b.Valid() && (ok ==> !b.err)
    ensures ReadLength(rd, old(b.at), sym) == if ok then Some(Decoded(extra, b.at)) else None
  {
    if (sym - MAIN_CODE_SPLIT) % 8 == 7 {
      extra := ReadSym(b, length, rd.length);
      ok := !b.err;
    } else {
      ok, extra := true, 0;
    }
  }

  /** Reads the rest of a match: its length, its offset, and the recent offsets afterwards. */
  method ReadMatch(b: BitReader, length: Huffman, aligned: Huffman, sym: nat, useAligned: bool, recent: Recent,
                   ghost rd: Decoders)
    returns (ok: bool, c: Copy)
    requires b.Valid() && !b.err && sym >= MAIN_CODE_SPLIT && AreFields(rd.field, b.Src())
    requires length.Valid() && AreSymbols(rd.length, length.lens, b.Src())
    requires useAligned ==> aligned.Valid() && AreSymbols(rd.aligned, aligned.lens, b.Src())
    modifies b`pos, b`acc, b`nbits, b`at, b`fed, b`err
    ensures b.Valid() && (ok ==> !b.err)
    ensures ReadCopy(rd, old(b.at), sym, recent, useAligned) == if ok then Some(Decoded(c, b.at)) else None
  {
    c := Copy(0, 0, recent);
    var lenSym, extra;
    ok, lenSym := ReadMatchLength(b, length, sym, rd);
    if !ok { return; }
    var slot := (sym - MAIN_CODE_SPLIT) / 8;
    if slot < 3 {
      c := ReuseOffset(sym, lenSym, slot, recent);
      return;
    }
    if slot >= SLOT_COUNT { return false, c; }
    ok, extra := ReadOffsetBits(b, aligned, slot, useAligned, rd);
    if !ok { return; }
    c := NewOffset(sym, lenSym, slot, extra, recent);
  }

  method MatchLength(sym: nat, lenSym: nat) returns (n: nat)
    requires sym >= MAIN_CODE_SPLIT
    ensures n == (if ShortLength(sym) == 7 then 7 + lenSym else ShortLength(sym)) + MIN_MATCH
  {
    n := (sym - MAIN_CODE_SPLIT) % 8;
    if n == 7 { n := n + lenSym; }
    n := n + MIN_MATCH;
  }

  method ReuseOffset(sym: nat, lenSym: nat, slot: nat, recent: Recent) returns (c: Copy)
    requires sym >= MAIN_CODE_SPLIT && slot == SlotIn(sym) < 3
    ensures c == CopyOf(sym, lenSym, 0, recent)
  {
    var n := MatchLength(sym, lenSym);
    c := Copy(n, Nth(recent, slot), Promote(recent, slot));
  }

  method NewOffset(sym: nat, lenSym: nat, slot: nat, extra: nat, recent: Recent) returns (c: Copy)
    requires sym >= MAIN_CODE_SPLIT && 3 <= slot == SlotIn(sym) < SLOT_COUNT
    ensures c == CopyOf(sym, lenSym, extra, recent)
  {
    var n := MatchLength(sym, lenSym);
    var base := LookUpBase(slot);
    BaseMonotone(3, slot);
    EndsOfSlots();
    var offset := base + extra - MIN_MATCH;
    c := Copy(n, offset, Push(recent, offset));
  }

  lemma CopyOneMore(out: seq<byte>, offset: nat, length: nat)
    requires 0 < offset <= |out| && length > 0
    ensures CopyBytes(out, offset, length) == CopyBytes(out + [out[|out| - offset]], offset, length - 1)
  {
  }

  lemma CopyNoMore(out: seq<byte>, offset: nat)
    requires 0 < offset <= |out|
    ensures CopyBytes(out, offset, 0) == out
  {
  }

  /** Copies within the window, a byte at a time. */
  method CopyWithin(window: array<byte>, i: nat, offset: nat, length: nat)
    requires 0 < offset <= i && i + length <= window.Length
    modifies window
    ensures window[..i + length] == CopyBytes(old(window[..i]), offset, length)
    ensures window[i + length..] == old(window[i + length..])
  {
    hide CopyBytes;
    ghost var before := window[..i];
    for j := 0 to length
      invariant forall m {:trigger window[m]} :: i + j <= m < window.Length ==> window[m] == old(window[m])
      invariant CopyBytes(window[..i + j], offset, length - j) == CopyBytes(before, offset, length)
    {
      window[i + j] := window[i + j - offset];
      assert window[..i + j + 1] == window[..i + j] + [window[i + j - offset]];
      CopyOneMore(window[..i + j], offset, length - j);
    }
    CopyNoMore(window[..i + length], offset);
  }

  /** Reads one token and produces what it stands for. */
  method ReadToken(b: BitReader, main: Huffman, length: Huffman, aligned: Huffman, window: array<byte>, i: nat,
                   end: nat,
                   useAligned: bool, recent: Recent, ghost rd: Decoders)
    returns (ok: bool, next: nat, after: Recent)
    requires b.Valid() && !b.err && i < end <= window.Length && main.Valid() && length.Valid()
    requires useAligned ==> aligned.Valid()
    requires Decode(rd, b.Src(), main.lens, length.lens, aligned.lens, useAligned)
    modifies b`pos, b`acc, b`nbits, b`at, b`fed, b`err, window
    ensures b.Valid() && (ok ==> !b.err && i < next <= end && window[next..] == old(window[next..]))
    ensures ProduceOne(rd, useAligned, Progress(Output(old(window[..i]), recent), old(b.at)), end)
         == if ok then Some(Progress(Output(window[..next], after), b.at)) else None
  {
    hide BitReader.Valid, Huffman.Valid, AreSymbols, AreFields, CopyOf;
    next, after := i, recent;
    var sym := ReadSym(b, main, rd.main);
    if b.err { return false, i, recent; }
    if sym < MAIN_CODE_SPLIT {
      window[i] := sym;
      assert window[..i + 1] == old(window[..i]) + [sym];
      return true, i + 1, recent;
    }
    var c;
    ok, c := ReadMatch(b, length, aligned, sym, useAligned, recent, rd);
    if !ok { return; }
    if c.offset == 0 || c.offset > i || c.length > end - i { return false, i, recent; }
    CopyWithin(window, i, c.offset, c.length);
    next, after := i + c.length, c.recent;
  }

  /** Decodes a block into window[start..end]. */
  method ReadCompressed(b: BitReader, main: Huffman, length: Huffman, aligned: Huffman, window: array<byte>, start: nat,
                        end: nat,
                        useAligned: bool, recent: Recent, ghost rd: Decoders)
    returns (ok: bool, after: Recent)
    requires b.Valid() && !b.err && start <= end <= window.Length && main.Valid() && length.Valid()
    requires useAligned ==> aligned.Valid()
    requires Decode(rd, b.Src(), main.lens, length.lens, aligned.lens, useAligned)
    modifies b`pos, b`acc, b`nbits, b`at, b`fed, b`err, window
    ensures b.Valid() && (ok ==> !b.err && window[end..] == old(window[end..]))
    ensures Produce(rd, useAligned, Progress(Output(old(window[..start]), recent), old(b.at)), end)
         == if ok then Some(Progress(Output(window[..end], after), b.at)) else None
  {
    hide BitReader.Valid, Huffman.Valid, ProduceOne, Decode;
    var i := start;
    after := recent;
    ghost var p := Progress(Output(window[..start], recent), b.at);
    while i < end
      invariant b.Valid() && !b.err && start <= i <= end && window[end..] == old(window[end..])
      invariant Produce(rd, useAligned, Progress(Output(window[..i], after), b.at), end) ==
                Produce(rd, useAligned, p, end)
    {
      ok, i, after := ReadToken(b, main, length, aligned, window, i, end, useAligned, after, rd);
      if !ok { return; }
    }
    ok := true;
  }
}
