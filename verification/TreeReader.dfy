/** Reading a tree's code lengths into a part of a table, in place. */
module TreeReader {
  import opened Bits
  import opened BitStream
  import opened Canonical
  import opened Readers
  import opened DecodeTable
  import opened TreeCodec

  /** What reading lengths over lens[lo..hi] has left behind, when the lengths read are those of r. */
  ghost predicate ReadInto(r: Option<Decoded<seq<nat>>>, before: seq<nat>, lo: nat, hi: nat, after: seq<nat>, at: nat,
                           ok: bool)
    requires lo <= hi <= |before|
  {
    match r
    case None => !ok
    case Some(d) => ok && after == before[..lo] + d.value + before[hi..] && at == d.next
  }

  /** Reads count numbers of w bits each. */
  method ReadFields(b: BitReader, count: nat, w: nat, ghost field: FieldReader) returns (vs: seq<nat>)
    requires b.Valid() && w <= 16 && AreFields(field, b.Src())
    modifies b`pos, b`acc, b`nbits, b`at, b`fed
    ensures b.Valid() && vs == Fields(field, old(b.at), count, w)
    ensures (w == 3 ==> b.at == old(b.at) + 3 * count) && (w == 4 ==> b.at == old(b.at) + 4 * count)
  {
    hide BitReader.Valid, AreFields;
    ghost var at := b.at;
    vs := [];
    for i := 0 to count
      invariant b.Valid() && vs + Fields(field, b.at, count - i, w) == Fields(field, at, count, w)
      invariant (w == 3 ==> b.at == at + 3 * i) && (w == 4 ==> b.at == at + 4 * i)
    {
      ghost var rest := Fields(field, b.at + w, count - i - 1, w);
      var v := ReadField(b, w, field);
      ConcatAssoc(vs, [v], rest);
      vs := vs + [v];
    }
  }

  /** lens[i..i + run] become v. */
  method SetLengths(lens: array<nat>, lo: nat, i: nat, hi: nat, run: nat, v: nat)
    requires lo <= i && i + run <= hi <= lens.Length
    modifies lens
    ensures lens[lo..hi] == SetRun(old(lens[lo..hi]), i - lo, run, v)
    ensures lens[..lo] == old(lens[..lo]) && lens[hi..] == old(lens[hi..])
  {
    ghost var before, part: seq<nat>, after := lens[..lo], lens[lo..hi], lens[hi..];
    assert lens[..] == before + part + after;
    for j := 0 to run
      invariant |part| == hi - lo && lens[..] == before + part + after
      invariant SetRun(part, i - lo + j, run - j, v) == SetRun(old(lens[lo..hi]), i - lo, run, v)
    {
      lens[i + j] := v;
      ghost var k := i - lo + j;
      assert (before + part + after)[i + j := v] == before + part[k := v] + after;
      part := part[k := v];
    }
    Middle(lens[..], old(lens[..]), lo, hi, part);
  }

  lemma Middle(all: seq<nat>, before: seq<nat>, lo: nat, hi: nat, part: seq<nat>)
    requires lo <= hi <= |before| && |part| == hi - lo && all == before[..lo] + part + before[hi..]
    ensures |all| == |before| && all[lo..hi] == part && all[..lo] == before[..lo] && all[hi..] == before[hi..]
  {
  }

  /** Having found a symbol at position before, the reader either has to stop or goes on from position at. */
  ghost predicate Continues(lens: seq<nat>, was: seq<nat>, lo: nat, i: nat, hi: nat, sym: SymbolReader,
                            field: FieldReader,
                            before: nat, at: nat, ok: bool, next: nat)
    requires lo <= i < hi <= |was|
  {
    if ok then
      && |lens| == |was| && i < next <= hi && lens[..lo] == was[..lo] && lens[hi..] == was[hi..]
      && LengthsFrom(sym, field, before, was[lo..hi], i - lo) == LengthsFrom(sym, field, at, lens[lo..hi], next - lo)
    else
      LengthsFrom(sym, field, before, was[lo..hi], i - lo) == None
  }

  /** How long a run of zero lengths is. */
  function ZeroRun(c: nat, field: FieldReader, at: nat): (r: Decoded<nat>)
  {
    if c == ZERO_SHORT then Decoded(field(at, 4) + 4, at + 4) else Decoded(field(at, 5) + 20, at + 5)
  }

  method ReadZeroRunLength(b: BitReader, c: nat, ghost field: FieldReader) returns (run: nat)
    requires b.Valid() && AreFields(field, b.Src())
    modifies b`pos, b`acc, b`nbits, b`at, b`fed
    ensures b.Valid() && ZeroRun(c, field, old(b.at)) == Decoded(run, b.at) && run > 0
  {
    if c == ZERO_SHORT {
      run := ReadField(b, 4, field);
      run := run + 4;
    } else {
      run := ReadField(b, 5, field);
      run := run + 20;
    }
  }

  lemma ZeroRunStep(sym: SymbolReader, field: FieldReader, before: nat, part: seq<nat>, i: nat, c: nat, at: nat,
                    r: Decoded<nat>)
    requires i < |part| && (c == ZERO_SHORT || c == ZERO_LONG) && sym(before) == Some(Decoded(c, at))
    requires r == ZeroRun(c, field, at)
    ensures LengthsFrom(sym, field, before, part, i)
         == if i + r.value > |part| then None
            else LengthsFrom(sym, field, r.next, SetRun(part, i, r.value, 0), i + r.value)
  {
  }

  /** A run of zero lengths, of the kind c says. */
  method ReadZeroRun(b: BitReader, lens: array<nat>, lo: nat, i: nat, hi: nat, c: nat,
                     ghost sym: SymbolReader, ghost field: FieldReader, ghost before: nat)
    returns (ok: bool, next: nat)
    requires b.Valid() && lo <= i < hi <= lens.Length && (c == ZERO_SHORT || c == ZERO_LONG)
    requires sym(before) == Some(Decoded(c, b.at)) && AreFields(field, b.Src())
    modifies b`pos, b`acc, b`nbits, b`at, b`fed, lens
    ensures b.Valid() && (ok ==> i < next <= hi)
    ensures Continues(lens[..], old(lens[..]), lo, i, hi, sym, field, before, b.at, ok, next)
  {
    hide BitReader.Valid, AreFields, LengthsFrom, SetRun, ZeroRun;
    ghost var at := b.at;
    var run := ReadZeroRunLength(b, c, field);
    ZeroRunStep(sym, field, before, lens[lo..hi], i - lo, c, at, Decoded(run, b.at));
    if i + run > hi { return false, i; }
    SetLengths(lens, lo, i, hi, run, 0);
    return true, i + run;
  }

  lemma SameRunStep(sym: SymbolReader, field: FieldReader, before: nat, part: seq<nat>, i: nat, at: nat, c: nat,
                    next: nat)
    requires i < |part| && sym(before) == Some(Decoded(SAME, at)) && sym(at + 1) == Some(Decoded(c, next)) && c <= 16
    requires i + field(at, 1) + 4 <= |part|
    ensures LengthsFrom(sym, field, before, part, i)
         == LengthsFrom(sym, field, next, SetRun(part, i, field(at, 1) + 4, Undelta(part[i], c)), i + field(at, 1) + 4)
  {
  }

  lemma SameRunStops(sym: SymbolReader, field: FieldReader, before: nat, part: seq<nat>, i: nat, at: nat)
    requires i < |part| && sym(before) == Some(Decoded(SAME, at))
    requires i + field(at, 1) + 4 > |part| || sym(at + 1) == None || sym(at + 1).value.value > 16
    ensures LengthsFrom(sym, field, before, part, i) == None
  {
  }

  method SetSameRun(lens: array<nat>, lo: nat, i: nat, hi: nat, run: nat, c: nat,
                    ghost sym: SymbolReader, ghost field: FieldReader, ghost before: nat, ghost at: nat,
                      ghost next: nat)
    requires lo <= i && i + run <= hi <= lens.Length && run == field(at, 1) + 4 && c <= 16
    requires sym(before) == Some(Decoded(SAME, at)) && sym(at + 1) == Some(Decoded(c, next))
    modifies lens
    ensures Continues(lens[..], old(lens[..]), lo, i, hi, sym, field, before, next, true, i + run)
  {
    SameRunStep(sym, field, before, lens[lo..hi], i - lo, at, c, next);
    Mod17Is(lens[i] + 17 - c);
    SetLengths(lens, lo, i, hi, run, (lens[i] + 17 - c) % 17);
  }

  /** A run of equal lengths. */
  method ReadSameRun(b: BitReader, pt: Huffman, lens: array<nat>, lo: nat, i: nat, hi: nat,
                     ghost sym: SymbolReader, ghost field: FieldReader, ghost before: nat)
    returns (ok: bool, next: nat)
    requires b.Valid() && pt.Valid() && !b.err && lo <= i < hi <= lens.Length && lens != pt.count && lens != pt.symbol
    requires AreSymbols(sym, pt.lens, b.Src()) && AreFields(field, b.Src()) && sym(before) == Some(Decoded(SAME, b.at))
    modifies b`pos, b`acc, b`nbits, b`at, b`fed, b`err, lens
    ensures b.Valid() && (ok ==> !b.err)
    ensures Continues(lens[..], old(lens[..]), lo, i, hi, sym, field, before, b.at, ok, next)
  {
    hide BitReader.Valid, Huffman.Valid, AreSymbols, AreFields;
    ghost var part: seq<nat>, at := lens[lo..hi], b.at;
    var run := ReadField(b, 1, field);
    run := run + 4;
    if i + run > hi {
      SameRunStops(sym, field, before, part, i - lo, at);
      return false, i;
    }
    var c := ReadSym(b, pt, sym);
    if b.err || c > 16 {
      SameRunStops(sym, field, before, part, i - lo, at);
      return false, i;
    }
    SetSameRun(lens, lo, i, hi, run, c, sym, field, before, at, b.at);
    return true, i + run;
  }

  /** A single length. */
  method ReadDelta(lens: array<nat>, lo: nat, i: nat, hi: nat, c: nat, ghost sym: SymbolReader,
                   ghost field: FieldReader,
                   ghost before: nat, ghost at: nat)
    requires lo <= i < hi <= lens.Length && c <= 16 && sym(before) == Some(Decoded(c, at))
    modifies lens
    ensures Continues(lens[..], old(lens[..]), lo, i, hi, sym, field, before, at, true, i + 1)
  {
    ghost var part := lens[lo..hi];
    Mod17Is(lens[i] + 17 - c);
    lens[i] := (lens[i] + 17 - c) % 17;
    assert lens[..] == old(lens[..lo]) + part[i - lo := Undelta(part[i - lo], c)] + old(lens[hi..]);
    Middle(lens[..], old(lens[..]), lo, hi, part[i - lo := Undelta(part[i - lo], c)]);
  }

  /** Reads one symbol of the pre-tree and does what it says. */
  method ReadItem(b: BitReader, pt: Huffman, lens: array<nat>, lo: nat, i: nat, hi: nat,
                  ghost sym: SymbolReader, ghost field: FieldReader)
    returns (ok: bool, next: nat)
    requires b.Valid() && pt.Valid() && !b.err && lo <= i < hi <= lens.Length && lens != pt.count && lens != pt.symbol
    requires AreSymbols(sym, pt.lens, b.Src()) && AreFields(field, b.Src())
    modifies b`pos, b`acc, b`nbits, b`at, b`fed, b`err, lens
    ensures b.Valid() && (ok ==> !b.err)
    ensures Continues(lens[..], old(lens[..]), lo, i, hi, sym, field, old(b.at), b.at, ok, next)
  {
    hide BitReader.Valid, Huffman.Valid, AreSymbols, AreFields;
    ghost var before := b.at;
    var c := ReadSym(b, pt, sym);
    if b.err { return false, i; }
    if c <= 16 {
      ReadDelta(lens, lo, i, hi, c, sym, field, before, b.at);
      return true, i + 1;
    } else if c == ZERO_SHORT || c == ZERO_LONG {
      ok, next := ReadZeroRun(b, lens, lo, i, hi, c, sym, field, before);
    } else if c == SAME {
      ok, next := ReadSameRun(b, pt, lens, lo, i, hi, sym, field, before);
    } else {
      return false, i;
    }
  }

  /** Reads a tree into lens[lo..hi], each length against the one there before. */
  method ReadTree(b: BitReader, lens: array<nat>, lo: nat, hi: nat) returns (ok: bool)
    requires b.Valid() && !b.err && lo <= hi <= lens.Length
    modifies b`pos, b`acc, b`nbits, b`at, b`fed, b`err, lens
    ensures b.Valid() && (ok ==> !b.err)
    ensures ReadInto(ReadLengths(b.Src(), old(b.at), old(lens[lo..hi])), old(lens[..]), lo, hi, lens[..], b.at, ok)
  {
    ghost var s := b.Src();
    FieldsAreFields(s);
    var pretreeLens := ReadFields(b, PRETREE_COUNT, 4, FieldsOf(s));
    var pt := new Huffman();
    var built := pt.Build(pretreeLens);
    if !built { return false; }
    SymbolsAreSymbols(pretreeLens, s);
    ok := ReadItems(b, pt, lens, lo, hi, SymbolsOf(pretreeLens, s), FieldsOf(s));
  }

  /** Reads items until the lengths are full. */
  method ReadItems(b: BitReader, pt: Huffman, lens: array<nat>, lo: nat, hi: nat, ghost sym: SymbolReader,
                   ghost field: FieldReader)
    returns (ok: bool)
    requires b.Valid() && pt.Valid() && !b.err && lo <= hi <= lens.Length && lens != pt.count && lens != pt.symbol
    requires AreSymbols(sym, pt.lens, b.Src()) && AreFields(field, b.Src())
    modifies b`pos, b`acc, b`nbits, b`at, b`fed, b`err, lens
    ensures b.Valid() && (ok ==> !b.err)
    ensures ReadInto(LengthsFrom(sym, field, old(b.at), old(lens[lo..hi]), 0),
                     old(lens[..]), lo, hi, lens[..], b.at, ok)
  {
    hide BitReader.Valid, Huffman.Valid, AreSymbols, AreFields;
    ghost var start := LengthsFrom(sym, field, b.at, lens[lo..hi], 0);
    var i := lo;
    while i < hi
      invariant b.Valid() && !b.err && lo <= i <= hi
      invariant lens[..lo] == old(lens[..lo]) && lens[hi..] == old(lens[hi..])
      invariant LengthsFrom(sym, field, b.at, lens[lo..hi], i - lo) == start
    {
      ok, i := ReadItem(b, pt, lens, lo, i, hi, sym, field);
      if !ok { return; }
    }
    ok := true;
    assert lens[..] == lens[..lo] + lens[lo..hi] + lens[hi..];
  }
}
