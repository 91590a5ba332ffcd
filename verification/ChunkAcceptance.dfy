/** The decoder accepts nothing else: of whatever it accepts, the blocks can be told that were written. */
module ChunkAcceptance {
  import opened Bits
  import opened BitStream
  import opened Canonical
  import opened E8
  import opened HuffmanCode
  import opened Readers
  import opened Slots
  import opened Tokens
  import opened TokenCodec
  import opened TreeCodec
  import opened ChunkFormat
  import opened ChunkGrammar

  // ---------- symbols and numbers ----------

  /** A number read is there in the bits it is written in. */
  lemma FieldThere(s: Source, at: nat, n: nat)
    ensures FieldsOf(s)(at, n) < Pow2(n) && Holds(s, at, BitsOf(FieldsOf(s)(at, n), n))
  {
    BitsOfValue(Window(s, at, n));
  }

  lemma HoldsNothing(s: Source, at: nat)
    ensures Holds(s, at, [])
  {
  }

  /** A symbol read has a code, and that code is there. */
  lemma SymbolThere(lens: seq<nat>, s: Source, at: nat)
    requires SymbolsOf(lens, s)(at).Some?
    ensures var r := SymbolsOf(lens, s)(at).value;
            r.value < |lens| && lens[r.value] > 0 && Holds(s, at, CodeBits(lens, r.value)) &&
            r.next == at + lens[r.value]
  {
    SymbolFromThere(lens, MaxLength(lens), s, at, 1);
  }

  lemma {:induction false} SymbolFromThere(lens: seq<nat>, maxBits: nat, s: Source, at: nat, l: nat)
    requires l > 0 && SymbolFrom(lens, maxBits, s, at, l).Some?
    ensures var r := SymbolFrom(lens, maxBits, s, at, l).value;
            Holds(s, at, CodeBits(lens, r.value)) && r.next == at + lens[r.value]
    decreases maxBits + 1 - l
  {
    hide Value, First, Window, Count;
    var code := Value(Window(s, at, l));
    if First(lens, l) <= code < First(lens, l) + Count(lens, |lens|, l) {
      BitsOfValue(Window(s, at, l));
    } else {
      SymbolFromThere(lens, maxBits, s, at, l + 1);
    }
  }

  // ---------- trees ----------

  lemma {:induction false} SetRunAt(lens: seq<nat>, i: nat, run: nat, v: nat, j: nat)
    requires i + run <= |lens| && j < |lens|
    ensures SetRun(lens, i, run, v)[j] == if i <= j < i + run then v else lens[j]
    decreases run
  {
    if run > 0 { SetRunAt(lens[i := v], i + 1, run - 1, v, j); }
  }

  /** The items are there from position at, and end at next. */
  ghost predicate ItemsThere(s: Source, pre: seq<nat>, at: nat, items: seq<Item>, next: nat)
  {
    ItemsCodable(pre, items) && Holds(s, at, ItemsBits(pre, items)) && next == at + |ItemsBits(pre, items)|
  }

  lemma OneItemThere(s: Source, pre: seq<nat>, at: nat, it: Item)
    requires SymbolsOf(pre, s)(at).Some? && SymbolsOf(pre, s)(at).value.value == it.sym
    requires it.extraVal == FieldsOf(s)(SymbolsOf(pre, s)(at).value.next, it.extraBits)
    ensures ItemsThere(s, pre, at, [it], SymbolsOf(pre, s)(at).value.next + it.extraBits)
  {
    hide Holds, CodeBits, BitsOf, SymbolsOf, FieldsOf, Pow2;
    SymbolThere(pre, s, at);
    FieldThere(s, SymbolsOf(pre, s)(at).value.next, it.extraBits);
    HoldsConcat(s, at, CodeBits(pre, it.sym), BitsOf(it.extraVal, it.extraBits));
    assert ItemsBits(pre, [it][1..]) == [];
    assert ItemsBits(pre, [it]) == ItemBits(pre, it);
  }

  lemma {:induction false} ItemsThereConcat(s: Source, pre: seq<nat>, at: nat, a: seq<Item>, mid: nat, b: seq<Item>,
                                            next: nat)
    requires ItemsThere(s, pre, at, a, mid) && ItemsThere(s, pre, mid, b, next)
    ensures ItemsThere(s, pre, at, a + b, next)
    decreases |a|
  {
    hide Holds, ItemBits;
    if a == [] {
      assert a + b == b;
    } else {
      var x := ItemBits(pre, a[0]);
      assert ItemsCodable(pre, a[1..]);
      HoldsConcat(s, at, x, ItemsBits(pre, a[1..]));
      ItemsThereConcat(s, pre, at + |x|, a[1..], mid, b, next);
      assert (a + b)[1..] == a[1..] + b;
      HoldsConcat(s, at, x, ItemsBits(pre, a[1..] + b));
    }
  }

  /** One step of the decoder reads the items of one piece and sets the lengths it says. */
  ghost predicate PieceThere(s: Source, pre: seq<nat>, at: nat, lens: seq<nat>, i: nat, p: Piece, next: nat)
    requires i < |lens| && Bounded(lens, 16)
  {
    && Expressible(p) && 0 < Width(p) && i + Width(p) <= |lens|
    && ItemsThere(s, pre, at, ItemsOver(p, lens[i]), next)
    && LengthsFrom(SymbolsOf(pre, s), FieldsOf(s), at, lens, i)
    == LengthsFrom(SymbolsOf(pre, s), FieldsOf(s), next, SetRun(lens, i, Width(p), Level(p)), i + Width(p))
  }

  lemma ZerosThere(s: Source, pre: seq<nat>, at: nat, lens: seq<nat>, i: nat) returns (p: Piece, next: nat)
    requires i < |lens| && Bounded(lens, 16) && LengthsFrom(SymbolsOf(pre, s), FieldsOf(s), at, lens, i).Some?
    requires SymbolsOf(pre, s)(at).Some? && ZERO_SHORT <= SymbolsOf(pre, s)(at).value.value <= ZERO_LONG
    ensures PieceThere(s, pre, at, lens, i, p, next)
  {
    hide Pow2, SymbolsOf, FieldsOf, SetRun, ItemsThere;
    var c, at1 := SymbolsOf(pre, s)(at).value.value, SymbolsOf(pre, s)(at).value.next;
    var n, least := if c == ZERO_SHORT then 4 else 5, if c == ZERO_SHORT then 4 else 20;
    p, next := ZeroItemsThere(s, pre, at, c, n, least);
  }

  lemma ZeroItemsThere(s: Source, pre: seq<nat>, at: nat, c: nat, n: nat, least: nat) returns (p: Piece, next: nat)
    requires (c == ZERO_SHORT && n == 4 && least == 4) || (c == ZERO_LONG && n == 5 && least == 20)
    requires SymbolsOf(pre, s)(at).Some? && SymbolsOf(pre, s)(at).value.value == c
    ensures next == SymbolsOf(pre, s)(at).value.next + n
    ensures p == Zeros(FieldsOf(s)(SymbolsOf(pre, s)(at).value.next, n) + least)
    ensures Expressible(p) && ItemsThere(s, pre, at, PieceItems(p), next)
  {
    hide Pow2, SymbolsOf, FieldsOf, ItemsThere;
    var at1 := SymbolsOf(pre, s)(at).value.next;
    SmallPowers();
    FieldThere(s, at1, n);
    p, next := Zeros(FieldsOf(s)(at1, n) + least), at1 + n;
    OneItemThere(s, pre, at, Item(c, n, FieldsOf(s)(at1, n)));
    assert PieceItems(p) == [Item(c, n, FieldsOf(s)(at1, n))];
  }

  lemma SingleThere(s: Source, pre: seq<nat>, at: nat, lens: seq<nat>, i: nat) returns (p: Piece, next: nat)
    requires i < |lens| && Bounded(lens, 16) && LengthsFrom(SymbolsOf(pre, s), FieldsOf(s), at, lens, i).Some?
    requires SymbolsOf(pre, s)(at).Some? && SymbolsOf(pre, s)(at).value.value <= 16
    ensures PieceThere(s, pre, at, lens, i, p, next)
  {
    hide SymbolsOf, ItemsThere, Mod17;
    var c := SymbolsOf(pre, s)(at).value.value;
    var v := Undelta(lens[i], c);
    UndeltaDelta(lens[i], v);
    p, next := Single(v), SymbolsOf(pre, s)(at).value.next;
    OneItemThere(s, pre, at, Item(c, 0, 0));
    assert SetRun(lens, i, 1, v) == SetRun(lens[i := v], i + 1, 0, v) == lens[i := v];
  }

  lemma SameThere(s: Source, pre: seq<nat>, at: nat, lens: seq<nat>, i: nat) returns (p: Piece, next: nat)
    requires i < |lens| && Bounded(lens, 16) && LengthsFrom(SymbolsOf(pre, s), FieldsOf(s), at, lens, i).Some?
    requires SymbolsOf(pre, s)(at).Some? && SymbolsOf(pre, s)(at).value.value == SAME
    ensures PieceThere(s, pre, at, lens, i, p, next)
  {
    hide Pow2, SymbolsOf, SetRun, ItemsThere, Mod17, FieldsOf;
    var at1 := SymbolsOf(pre, s)(at).value.next;
    var run := FieldsOf(s)(at1, 1) + 4;
    SmallPowers();
    FieldThere(s, at1, 1);
    var c := SymbolsOf(pre, s)(at1 + 1).value.value;
    var v := Undelta(lens[i], c);
    p, next := Same(v, run), SymbolsOf(pre, s)(at1 + 1).value.next;
    SameItemsThere(s, pre, at, lens[i], run, c, v);
  }

  lemma SameItemsThere(s: Source, pre: seq<nat>, at: nat, prev: nat, run: nat, c: nat, v: nat)
    requires prev <= 16 && c <= 16 && v == Undelta(prev, c) && 4 <= run <= 5
    requires SymbolsOf(pre, s)(at).Some? && SymbolsOf(pre, s)(at).value.value == SAME
    requires run == FieldsOf(s)(SymbolsOf(pre, s)(at).value.next, 1) + 4
    requires var r := SymbolsOf(pre, s)(SymbolsOf(pre, s)(at).value.next + 1); r.Some? && r.value.value == c
    ensures ItemsThere(s, pre, at, ItemsOver(Same(v, run), prev),
                       SymbolsOf(pre, s)(SymbolsOf(pre, s)(at).value.next + 1).value.next)
  {
    hide SymbolsOf, ItemsThere, Mod17, FieldsOf;
    var a, b := Item(SAME, 1, run - 4), Item(c, 0, 0);
    var mid := SymbolsOf(pre, s)(at).value.next + 1;
    UndeltaDelta(prev, v);
    OneItemThere(s, pre, at, a);
    NoField(s, SymbolsOf(pre, s)(mid).value.next);
    OneItemThere(s, pre, mid, b);
    ItemsThereConcat(s, pre, at, [a], mid, [b], SymbolsOf(pre, s)(mid).value.next);
    assert ItemsOver(Same(v, run), prev) == [a] + [b];
  }

  lemma NoField(s: Source, at: nat)
    ensures FieldsOf(s)(at, 0) == 0
  {
  }

  lemma PieceFound(s: Source, pre: seq<nat>, at: nat, lens: seq<nat>, i: nat) returns (p: Piece, next: nat)
    requires |pre| == PRETREE_COUNT && i < |lens| && Bounded(lens, 16)
    requires LengthsFrom(SymbolsOf(pre, s), FieldsOf(s), at, lens, i).Some?
    ensures PieceThere(s, pre, at, lens, i, p, next)
  {
    hide PieceThere;
    var c := SymbolsOf(pre, s)(at).value.value;
    if c <= 16 {
      p, next := SingleThere(s, pre, at, lens, i);
    } else if c == SAME {
      p, next := SameThere(s, pre, at, lens, i);
    } else {
      p, next := ZerosThere(s, pre, at, lens, i);
    }
  }

  /** Pieces are told over the prior lengths only from where they begin. */
  lemma {:induction false} OverSame(ps: seq<Piece>, a: seq<nat>, b: seq<nat>, i: nat)
    requires AllExpressible(ps) && Bounded(a, 16) && Bounded(b, 16) && |a| == |b|
    requires forall j :: i <= j < |a| ==> a[j] == b[j]
    ensures AllItemsOver(ps, a, i) == AllItemsOver(ps, b, i)
    decreases |ps|
  {
    if ps != [] { OverSame(ps[1..], a, b, i + Width(ps[0])); }
  }

  /** Lengths from i on that the decoder reads to the end: what they become, and the pieces that say so. */
  ghost predicate PiecesThere(s: Source, pre: seq<nat>, at: nat, prior: seq<nat>, i: nat, ps: seq<Piece>,
                              r: Decoded<seq<nat>>)
    requires Bounded(prior, 16)
  {
    && AllExpressible(ps) && Says(ps, r.value, i) && |r.value| == |prior| && i <= |prior|
    && (forall j :: 0 <= j < i ==> r.value[j] == prior[j])
    && ItemsThere(s, pre, at, AllItemsOver(ps, prior, i), r.next)
  }

  lemma {:induction false} PiecesFound(s: Source, pre: seq<nat>, at: nat, prior: seq<nat>, i: nat)
    returns (ps: seq<Piece>)
    requires |pre| == PRETREE_COUNT && i <= |prior| && Bounded(prior, 16)
    requires LengthsFrom(SymbolsOf(pre, s), FieldsOf(s), at, prior, i).Some?
    ensures PiecesThere(s, pre, at, prior, i, ps, LengthsFrom(SymbolsOf(pre, s), FieldsOf(s), at, prior, i).value)
    decreases |prior| - i
  {
    hide Pow2, Holds, ItemBits, SymbolsOf, FieldsOf, PiecesThere, SetRun, ItemsThere;
    if i == |prior| {
      ps := [];
      NothingThere(s, pre, at, prior);
    } else {
      var p, next := PieceFound(s, pre, at, prior, i);
      var more := SetRun(prior, i, Width(p), Level(p));
      ghost var r := LengthsFrom(SymbolsOf(pre, s), FieldsOf(s), at, prior, i).value;
      RunBounded(prior, i, Width(p), Level(p));
      var rest := PiecesFound(s, pre, next, more, i + Width(p));
      ps := [p] + rest;
      PiecesJoin(s, pre, at, prior, i, p, next, more, rest, r);
    }
  }

  lemma NothingThere(s: Source, pre: seq<nat>, at: nat, prior: seq<nat>)
    requires Bounded(prior, 16)
    ensures PiecesThere(s, pre, at, prior, |prior|, [], Decoded(prior, at))
  {
  }

  lemma RunBounded(prior: seq<nat>, i: nat, run: nat, v: nat)
    requires i + run <= |prior| && Bounded(prior, 16) && v <= 16
    ensures Bounded(SetRun(prior, i, run, v), 16)
  {
    forall j | 0 <= j < |prior|
      ensures SetRun(prior, i, run, v)[j] <= 16
    {
      SetRunAt(prior, i, run, v, j);
    }
  }

  lemma PiecesJoin(s: Source, pre: seq<nat>, at: nat, prior: seq<nat>, i: nat, p: Piece, next: nat, more: seq<nat>,
                   rest: seq<Piece>, r: Decoded<seq<nat>>)
    requires i < |prior| && Bounded(prior, 16) && Bounded(more, 16) && PieceThere(s, pre, at, prior, i, p, next)
    requires more == SetRun(prior, i, Width(p), Level(p))
    requires PiecesThere(s, pre, next, more, i + Width(p), rest, r)
    ensures PiecesThere(s, pre, at, prior, i, [p] + rest, r)
  {
    hide ItemsThere, ItemsOver, SetRun, LengthsFrom, Width, Level;
    forall j | 0 <= j < |prior|
      ensures more[j] == if i <= j < i + Width(p) then Level(p) else prior[j]
    {
      SetRunAt(prior, i, Width(p), Level(p), j);
    }
    assert Flat(r.value, i, Width(p), Level(p));
    OneMorePiece(p, rest, r.value, i);
    OverSame(rest, prior, more, i + Width(p));
    assert ([p] + rest)[1..] == rest;
    ItemsThereConcat(s, pre, at, ItemsOver(p, prior[i]), next, AllItemsOver(rest, prior, i + Width(p)), r.next);
  }

  lemma {:induction false} FieldsThere(s: Source, at: nat, count: nat, w: nat)
    ensures var vs := Fields(FieldsOf(s), at, count, w);
            Holds(s, at, FieldBits(vs, w)) && forall i :: 0 <= i < |vs| ==> vs[i] < Pow2(w)
    decreases count
  {
    hide Holds, BitsOf, FieldsOf, Pow2;
    if count == 0 {
      HoldsNothing(s, at);
    } else {
      FieldThere(s, at, w);
      FieldsThere(s, at + w, count - 1, w);
      var vs := Fields(FieldsOf(s), at + w, count - 1, w);
      var v := FieldsOf(s)(at, w);
      assert ([v] + vs)[1..] == vs;
      HoldsConcat(s, at, BitsOf(v, w), FieldBits(vs, w));
    }
  }

  /** A tree that is read is spelled there. */
  lemma SpellingFound(s: Source, at: nat, prior: seq<nat>) returns (x: Spelling)
    requires Bounded(prior, 16) && ReadLengths(s, at, prior).Some?
    ensures var r := ReadLengths(s, at, prior).value;
            Spells(x, prior, r.value) && Holds(s, at, SpellingBits(x, prior, r.value)) &&
            r.next == at + |SpellingBits(x, prior, r.value)|
  {
    hide LengthsFrom, Holds, ItemsBits, FieldBits, Fields, Says, AllItemsOver, ItemsCodable, AllExpressible, Usable,
      FieldsOf, SymbolsOf;
    var pre := Fields(FieldsOf(s), at, PRETREE_COUNT, 4);
    FieldsThere(s, at, PRETREE_COUNT, 4);
    FieldBitsLength(pre, 4);
    SmallPowers();
    var ps := PiecesFound(s, pre, at + 80, prior, 0);
    x := Spelling(pre, ps);
    HoldsConcat(s, at, FieldBits(pre, 4), ItemsBits(pre, AllItemsOver(ps, prior, 0)));
  }

  // ---------- tokens ----------

  /** A token is there from position at, in bits that end at next. */
  ghost predicate TokenThere(s: Source, trees: Trees, aligned: bool, at: nat, t: Token, next: nat)
  {
    Codable(t, trees, aligned) && Holds(s, at, TokenBits(t, trees, aligned)) &&
    next == at + |TokenBits(t, trees, aligned)|
  }

  ghost predicate FullTrees(trees: Trees, aligned: bool)
  {
    |trees.main| == MAIN_CODE_COUNT && |trees.length| == LEN_CODE_COUNT &&
    (aligned ==> |trees.aligned| == ALIGNED_COUNT)
  }

  /** Offset bits that are read fit their slot, and are there. */
  lemma ExtraFound(s: Source, trees: Trees, aligned: bool, at: nat, slot: nat)
    requires FullTrees(trees, aligned) && ReadExtra(DecodersOf(s, trees), at, slot, aligned).Some?
    ensures var e, n := ReadExtra(DecodersOf(s, trees), at, slot, aligned).value, Footer(slot);
            e.value < Pow2(n) &&
            if aligned && n >= 3 then
              && trees.aligned[e.value % 8] > 0
              && Holds(s, at, BitsOf(e.value / 8, n - 3) + CodeBits(trees.aligned, e.value % 8))
              && e.next == at + (n - 3) + trees.aligned[e.value % 8]
            else Holds(s, at, BitsOf(e.value, n)) && e.next == at + n
  {
    hide Footer, BitsOf, CodeBits, Holds, SymbolsOf, FieldsOf;
    var n := Footer(slot);
    if n == 0 {
      HoldsNothing(s, at);
      assert BitsOf(0, n) == [];
    } else if aligned && n >= 3 {
      FieldThere(s, at, n - 3);
      SymbolThere(trees.aligned, s, at + (n - 3));
      var low := SymbolsOf(trees.aligned, s)(at + (n - 3)).value.value;
      assert Pow2(n) == 2 * Pow2(n - 1) == 4 * Pow2(n - 2) == 8 * Pow2(n - 3);
      var e := 8 * FieldsOf(s)(at, n - 3) + low;
      assert e / 8 == FieldsOf(s)(at, n - 3) && e % 8 == low;
      HoldsConcat(s, at, BitsOf(e / 8, n - 3), CodeBits(trees.aligned, e % 8));
    } else {
      FieldThere(s, at, n);
    }
  }

  /** The token a match is read from. */
  function TokenRead(sym: nat, len: nat, extra: nat): Token
    requires sym >= MAIN_CODE_SPLIT
  {
    Token(sym, if ShortLength(sym) == 7 then len else -1, SlotIn(sym), extra)
  }

  lemma LengthFound(s: Source, trees: Trees, aligned: bool, at: nat, sym: nat, extra: nat)
    requires sym >= MAIN_CODE_SPLIT && ReadLength(DecodersOf(s, trees), at, sym).Some?
    ensures var len := ReadLength(DecodersOf(s, trees), at, sym).value;
            var t := TokenRead(sym, len.value, extra);
            && (t.lenSym >= 0 ==> t.lenSym < |trees.length| && trees.length[t.lenSym] > 0)
            && var bits := if t.lenSym >= 0 then CodeBits(trees.length, t.lenSym) else [];
               Holds(s, at, bits) && len.next == at + |bits|
  {
    hide Holds, SymbolsOf, CodeBits;
    if ShortLength(sym) == 7 { SymbolThere(trees.length, s, at); } else { HoldsNothing(s, at); }
  }

  lemma NoExtraThere(s: Source, at: nat, slot: nat)
    requires slot < 3
    ensures Footer(slot) == 0 && Pow2(Footer(slot)) == 1 && Holds(s, at, BitsOf(0, Footer(slot)))
  {
  }

  lemma PartsThere(s: Source, trees: Trees, aligned: bool, at0: nat, t: Token, at1: nat, at2: nat, next: nat)
    requires Codable(t, trees, aligned) && t.slot >= 0
    requires Holds(s, at0, CodeBits(trees.main, t.sym)) && at1 == at0 + trees.main[t.sym]
    requires Holds(s, at1, LengthBits(t, trees, aligned)) && at2 == at1 + |LengthBits(t, trees, aligned)|
    requires Holds(s, at2, ExtraBits(t, trees, aligned)) && next == at2 + |ExtraBits(t, trees, aligned)|
    ensures TokenThere(s, trees, aligned, at0, t, next)
  {
    hide Holds, LengthBits, ExtraBits, CodeBits;
    HoldsConcat(s, at1, LengthBits(t, trees, aligned), ExtraBits(t, trees, aligned));
    HoldsConcat(s, at0, CodeBits(trees.main, t.sym), LengthBits(t, trees, aligned) + ExtraBits(t, trees, aligned));
  }

  /** A copy that is read comes from a match token that is there. */
  lemma MatchFound(s: Source, trees: Trees, aligned: bool, at0: nat, at: nat, sym: nat, recent: Recent)
    returns (t: Token)
    requires FullTrees(trees, aligned) && SymbolsOf(trees.main, s)(at0) == Some(Decoded(sym, at))
    requires sym >= MAIN_CODE_SPLIT && ReadCopy(DecodersOf(s, trees), at, sym, recent, aligned).Some?
    ensures InAlphabet(t) && !IsLiteral(t) && t.sym == sym
    ensures var c := ReadCopy(DecodersOf(s, trees), at, sym, recent, aligned).value;
            CopyOfToken(t, recent) == c.value && TokenThere(s, trees, aligned, at0, t, c.next)
  {
    hide Holds, SymbolsOf, CodeBits, Footer, BitsOf, Pow2, ReadExtra, CopyOf, FieldsOf;
    SymbolThere(trees.main, s, at0);
    var rd := DecodersOf(s, trees);
    var len := ReadLength(rd, at, sym).value;
    var slot := SlotIn(sym);
    if slot < 3 {
      t := TokenRead(sym, len.value, 0);
      LengthFound(s, trees, aligned, at, sym, 0);
      NoExtraThere(s, len.next, slot);
      PartsThere(s, trees, aligned, at0, t, at, len.next, len.next);
    } else {
      var e := ReadExtra(rd, len.next, slot, aligned).value;
      t := TokenRead(sym, len.value, e.value);
      LengthFound(s, trees, aligned, at, sym, e.value);
      ExtraFound(s, trees, aligned, len.next, slot);
      PartsThere(s, trees, aligned, at0, t, at, len.next, e.next);
    }
  }

  lemma LiteralFound(s: Source, trees: Trees, aligned: bool, at: nat, sym: nat, next: nat)
    requires sym < MAIN_CODE_SPLIT && SymbolsOf(trees.main, s)(at) == Some(Decoded(sym, next))
    ensures TokenThere(s, trees, aligned, at, LiteralToken(sym), next)
  {
    hide Holds, SymbolsOf, CodeBits;
    SymbolThere(trees.main, s, at);
    assert CodeBits(trees.main, sym) + [] == CodeBits(trees.main, sym);
  }

  /** What one step of the decoder produces comes from a token that is there. */
  lemma TokenFound(s: Source, trees: Trees, aligned: bool, p: Progress, end: nat) returns (t: Token)
    requires FullTrees(trees, aligned) && |p.o.bytes| < end && ProduceOne(DecodersOf(s, trees), aligned, p, end).Some?
    ensures var q := ProduceOne(DecodersOf(s, trees), aligned, p, end).value;
            Applies(t, p.o, end) && q.o == Apply(t, p.o, end) && TokenThere(s, trees, aligned, p.at, t, q.at)
  {
    hide SymbolsOf, FieldsOf, ReadCopy, CopyBytes, TokenThere, CopyOf;
    var r := SymbolsOf(trees.main, s)(p.at).value;
    if r.value < MAIN_CODE_SPLIT {
      t := LiteralToken(r.value);
      LiteralFound(s, trees, aligned, p.at, r.value, r.next);
    } else {
      t := MatchFound(s, trees, aligned, p.at, r.next, r.value, p.o.recent);
    }
  }

  /** What the decoder produces for a block comes from tokens that are there. */
  lemma {:induction false} TokensFound(s: Source, trees: Trees, aligned: bool, p: Progress, end: nat)
    returns (ts: seq<Token>)
    requires FullTrees(trees, aligned) && |p.o.bytes| <= end && Produce(DecodersOf(s, trees), aligned, p, end).Some?
    ensures var q := Produce(DecodersOf(s, trees), aligned, p, end).value;
            && Expanded(ts, p.o, end) == Some(q.o) && AllCodable(ts, trees, aligned)
            && Holds(s, p.at, TokensBits(ts, trees, aligned)) && q.at == p.at + |TokensBits(ts, trees, aligned)|
    decreases end - |p.o.bytes|
  {
    hide DecodersOf, ProduceOne, Applies, Apply, Codable, TokenBits, Holds;
    if |p.o.bytes| == end {
      ts := [];
      HoldsNothing(s, p.at);
    } else {
      var t := TokenFound(s, trees, aligned, p, end);
      var q := ProduceOne(DecodersOf(s, trees), aligned, p, end).value;
      var rest := TokensFound(s, trees, aligned, q, end);
      ts := [t] + rest;
      assert ts[1..] == rest;
      HoldsConcat(s, p.at, TokenBits(t, trees, aligned), TokensBits(rest, trees, aligned));
    }
  }

  // ---------- blocks ----------

  lemma KindFound(s: Source, at: nat) returns (brief: bool)
    requires ReadSize(FieldsOf(s), at + 3).Some?
    ensures var kind, size := FieldsOf(s)(at, 3), ReadSize(FieldsOf(s), at + 3).value;
            && (brief ==> size.value == WINDOW_SIZE) && Holds(s, at, KindBits(kind, size.value, brief))
            && size.next == at + |KindBits(kind, size.value, brief)|
  {
    hide Holds, BitsOf, FieldsOf;
    brief := FieldsOf(s)(at + 3, 1) != 0;
    var kind, size := FieldsOf(s)(at, 3), ReadSize(FieldsOf(s), at + 3).value.value;
    FieldThere(s, at, 3);
    FieldThere(s, at + 3, 1);
    assert Pow2(1) == 2;
    if !brief {
      FieldThere(s, at + 4, 16);
      HoldsConcat(s, at + 3, BitsOf(0, 1), BitsOf(size, 16));
    }
    HoldsConcat(s, at, BitsOf(kind, 3), if brief then BitsOf(1, 1) else BitsOf(0, 1) + BitsOf(size, 16));
  }

  lemma UsableIsBounded(lens: seq<nat>)
    requires Usable(lens)
    ensures Bounded(lens, 16)
  {
  }

  lemma AlignedFound(s: Source, at: nat, aligned: bool)
    requires ReadAligned(FieldsOf(s), at, aligned).Some?
    ensures var r := ReadAligned(FieldsOf(s), at, aligned).value;
            var bits := if aligned then FieldBits(r.value, 3) else [];
            && (if aligned then |r.value| == ALIGNED_COUNT && Usable(r.value) && Bounded(r.value, 7)
                else r.value == [])
            && Holds(s, at, bits) && r.next == at + |bits|
  {
    hide Holds, FieldsOf, Usable, FieldBits;
    if aligned {
      var lens := Fields(FieldsOf(s), at, ALIGNED_COUNT, 3);
      FieldsThere(s, at, ALIGNED_COUNT, 3);
      FieldBitsLength(lens, 3);
      assert Pow2(3) == 8 by { PowersTo13(3); }
    } else {
      HoldsNothing(s, at);
    }
  }

  ghost predicate TreesThere(s: Source, at: nat, b: Block, main: seq<nat>, length: seq<nat>, r: Decoded<Trees>)
    requires b.Coded?
  {
    && b.trees == r.value && TreesSpelled(b, main, length) && Holds(s, at, SpelledBits(b, main, length))
    && r.next == at + |SpelledBits(b, main, length)|
  }

  /** Trees that are read are spelled there. */
  lemma TreesFound(s: Source, at: nat, aligned: bool, main: seq<nat>, length: seq<nat>, brief: bool, size: nat,
                   ts: seq<Token>)
    returns (b: Block)
    requires |main| == MAIN_CODE_COUNT && |length| == LEN_CODE_COUNT && Bounded(main, 16) && Bounded(length, 16)
    requires ReadTrees(s, at, aligned, main, length).Some?
    ensures b.Coded? && b.aligned == aligned && b.brief == brief && b.size == size && b.tokens == ts
    ensures TreesThere(s, at, b, main, length, ReadTrees(s, at, aligned, main, length).value)
  {
    hide Holds, FieldsOf, Usable, ReadLengths, ReadAligned, SpellingBits, Spells, FieldBits;
    var r := ReadTrees(s, at, aligned, main, length).value;
    var a := ReadAligned(FieldsOf(s), at, aligned).value;
    var lo, hi := main[..MAIN_CODE_SPLIT], main[MAIN_CODE_SPLIT..];
    var m1 := ReadLengths(s, a.next, lo).value;
    var m2 := ReadLengths(s, m1.next, hi).value;
    AlignedFound(s, at, aligned);
    var low := SpellingFound(s, a.next, lo);
    var high := SpellingFound(s, m1.next, hi);
    var len := SpellingFound(s, m2.next, length);
    b := Coded(aligned, brief, size, r.value, low, high, len, ts);
    assert r.value.main[..MAIN_CODE_SPLIT] == m1.value && r.value.main[MAIN_CODE_SPLIT..] == m2.value;
    var x, y, z := AlignedTreeBits(b), SpellingBits(low, lo, m1.value), SpellingBits(high, hi, m2.value);
    var w := SpellingBits(len, length, r.value.length);
    HoldsConcat(s, at + |x| + |y|, z, w);
    HoldsConcat(s, at + |x|, y, z + w);
    HoldsConcat(s, at, x, y + (z + w));
  }

  /** What the stages of a decoder keep: full trees, and a position within the data. */
  ghost predicate Kept(data: seq<byte>, g: Stage)
  {
    Shaped(g.st) && Bounded(g.st.main, 16) && Bounded(g.st.length, 16) && g.st.pos.base <= |data|
  }

  lemma CodedFound(s: Source, h: Header, g: Stage, brief: bool) returns (b: Block)
    requires Kept(s.data, g) && s.base == h.base && ReadCoded(s, h, g).Some? && h.recent == g.st.recent
    ensures b.Coded? && b.aligned == (h.kind == ALIGNED) && b.brief == brief && b.size == h.size
    ensures TreesSpelled(b, g.st.main, g.st.length) && AllCodable(b.tokens, b.trees, b.aligned)
    ensures Expanded(b.tokens, Output(g.out, g.st.recent), |g.out| + b.size).Some?
    ensures var o := Expanded(b.tokens, Output(g.out, g.st.recent), |g.out| + b.size).value;
            var bits := SpelledBits(b, g.st.main, g.st.length) + TokensBits(b.tokens, b.trees, b.aligned);
            && Holds(s, h.at, bits)
            && ReadCoded(s, h, g).value ==
               Stage(o.bytes, Between(Position(h.base, h.at + |bits|, false), b.trees.main, b.trees.length, o.recent))
  {
    hide SpelledBits, ReadTrees, TokensBits, Expanded, AllCodable, Holds, DecodersOf, Produce, TreesSpelled;
    var trees := ReadTrees(s, h.at, h.kind == ALIGNED, g.st.main, g.st.length).value;
    TreesAreFull(s, h.at, h.kind == ALIGNED, g.st.main, g.st.length);
    var ts := TokensFound(s, trees.value, h.kind == ALIGNED, Progress(Output(g.out, h.recent), trees.next),
                          |g.out| + h.size);
    b := TreesFound(s, h.at, h.kind == ALIGNED, g.st.main, g.st.length, brief, h.size, ts);
    HoldsConcat(s, h.at, SpelledBits(b, g.st.main, g.st.length), TokensBits(ts, b.trees, b.aligned));
  }

  lemma TreesAreFull(s: Source, at: nat, aligned: bool, main: seq<nat>, length: seq<nat>)
    requires |main| == MAIN_CODE_COUNT && |length| == LEN_CODE_COUNT && ReadTrees(s, at, aligned, main, length).Some?
    ensures FullTrees(ReadTrees(s, at, aligned, main, length).value.value, aligned)
  {
    hide ReadLengths, Usable;
  }

  /** Past the end of the data there is no block. */
  lemma NoBlockAtEnd(data: seq<byte>, base: nat)
    requires base == |data|
    ensures FieldsOf(Source(data, base))(0, 3) == 0
  {
    WindowPastEnd(Source(data, base), 0, 3);
    ZerosValue(3);
  }

  lemma HeadFound(data: seq<byte>, g: Stage, total: nat)
    requires Kept(data, g) && ReadBlock(data, g, total).Some?
    ensures g.st.pos.unaligned ==> g.st.pos.base < |data|
    ensures Realigned(data, g.st.pos) == BaseOf(g) <= |data|
    ensures ReadHeader(data, FieldsOf(Source(data, BaseOf(g))), BaseOf(g), StartOf(g), g.st.recent).Some?
  {
    hide FieldsOf, ReadSize, ReadCoded, ReadStored;
    if g.st.pos.unaligned && g.st.pos.base == |data| { NoBlockAtEnd(data, g.st.pos.base); }
  }

  /** A coded block that is accepted is there. */
  lemma CodedBlockFound(data: seq<byte>, g: Stage, total: nat, h: Header) returns (b: Block)
    requires Kept(data, g) && ReadBlock(data, g, total).Some? && |ReadBlock(data, g, total).value.out| > |g.out|
    requires ReadHeader(data, FieldsOf(Source(data, BaseOf(g))), BaseOf(g), StartOf(g), g.st.recent) == Some(h)
    requires h.kind != UNCOMPRESSED
    ensures b.Coded? && Has(data, g, b, total) && ReadBlock(data, g, total).value == After(data, g, b, total)
  {
    hide FieldsOf, ReadSize, Holds, KindBits, SpelledBits, TokensBits, TreesSpelled, AllCodable, Expanded, ReadCoded;
    HeadFound(data, g, total);
    var s, at := Source(data, BaseOf(g)), StartOf(g);
    var brief := KindFound(s, at);
    b := CodedFound(s, h, g, brief);
    HoldsConcat(s, at, KindBits(h.kind, h.size, brief),
                SpelledBits(b, g.st.main, g.st.length) + TokensBits(b.tokens, b.trees, b.aligned));
  }

  /** An uncompressed block that is accepted is there. */
  lemma RawBlockFound(data: seq<byte>, g: Stage, total: nat, h: Header) returns (b: Block)
    requires Kept(data, g) && ReadBlock(data, g, total).Some? && |ReadBlock(data, g, total).value.out| > |g.out|
    requires ReadHeader(data, FieldsOf(Source(data, BaseOf(g))), BaseOf(g), StartOf(g), g.st.recent) == Some(h)
    requires h.kind == UNCOMPRESSED
    ensures b.Raw? && Has(data, g, b, total) && ReadBlock(data, g, total).value == After(data, g, b, total)
  {
    hide FieldsOf, ReadSize, Holds, KindBits, StoredOffset, NextWordPos;
    HeadFound(data, g, total);
    var s, at := Source(data, BaseOf(g)), StartOf(g);
    var brief := KindFound(s, at);
    var n := |KindBits(3, h.size, brief)|;
    WordFound(s, at + n);
    OffsetsFound(data, RawStart(g, Raw(brief, data[h.base..h.base + h.size], h.recent)), h.recent);
    b := Raw(brief, data[h.base..h.base + h.size], h.recent);
  }

  lemma WordFound(s: Source, at: nat)
    requires NextWordPos(s, at) + 12 <= |s.data|
    ensures NextWordPos(s, at) == s.base + 2 * (at / 16 + 1)
  {
  }

  lemma OffsetsFound(data: seq<byte>, p: nat, recent: Recent)
    requires p + 12 <= |data|
    requires recent == Recent(StoredOffset(data, p, 0), StoredOffset(data, p, 1), StoredOffset(data, p, 2))
    ensures forall i {:trigger Nth(recent, i)} :: 0 <= i < 3 ==>
              data[p + 4 * i] as int + 256 * data[p + 4 * i + 1] as int == Nth(recent, i)
  {
  }

  lemma BlockFound(data: seq<byte>, g: Stage, total: nat) returns (b: Block)
    requires Kept(data, g) && ReadBlock(data, g, total).Some? && |ReadBlock(data, g, total).value.out| > |g.out|
    ensures Has(data, g, b, total) && ReadBlock(data, g, total).value == After(data, g, b, total)
    ensures Kept(data, After(data, g, b, total))
  {
    hide FieldsOf, ReadHeader, ReadBlock, HasCoded, HasRaw;
    HeadFound(data, g, total);
    var h := ReadHeader(data, FieldsOf(Source(data, BaseOf(g))), BaseOf(g), StartOf(g), g.st.recent).value;
    if h.kind == UNCOMPRESSED {
      b := RawBlockFound(data, g, total, h);
    } else {
      b := CodedBlockFound(data, g, total, h);
    }
    KeptAfter(data, g, b, total);
  }

  lemma KeptAfter(data: seq<byte>, g: Stage, b: Block, total: nat)
    requires Kept(data, g) && Has(data, g, b, total)
    ensures Kept(data, After(data, g, b, total))
  {
    hide Holds, KindBits, Spells, AllCodable, Expanded, CodedBits;
    if b.Coded? {
      UsableIsBounded(b.trees.main);
      UsableIsBounded(b.trees.length);
    }
  }

  /** Whatever the decoder makes of the data from a stage on, blocks are there that produce it. */
  lemma {:induction false} BlocksFound(data: seq<byte>, g: Stage, total: nat) returns (bs: seq<Block>)
    requires Kept(data, g) && |g.out| <= total && ReadBlocks(data, g, total).Some?
    ensures HasAll(data, g, bs, ReadBlocks(data, g, total).value)
    decreases total - |g.out|
  {
    hide ReadBlock, Has, After, Bounded;
    if |g.out| == total {
      bs := [];
    } else {
      var b := BlockFound(data, g, total);
      var rest := BlocksFound(data, After(data, g, b, total), total);
      bs := [b] + rest;
      assert bs[1..] == rest;
    }
  }

  /** Data that is accepted is a chunk that some writer may have written, and is decoded to what its blocks produce. */
  lemma AcceptedIsWritten(data: seq<byte>, total: nat) returns (bs: seq<Block>, out: seq<byte>)
    requires 0 < total && Decompressed(data, total).Some?
    ensures |out| == total <= WINDOW_SIZE && HasAll(data, Outset(), bs, out)
    ensures Decompressed(data, total) == Some(Translate(out, 0, false))
  {
    hide HasAll, ReadBlocks, Translate;
    out := ReadBlocks(data, Outset(), total).value;
    bs := BlocksFound(data, Outset(), total);
  }

  /** Two readings of the same data as blocks produce the same bytes. */
  lemma OneMeaning(data: seq<byte>, bs: seq<Block>, out: seq<byte>, bs': seq<Block>, out': seq<byte>)
    requires HasAll(data, Outset(), bs, out) && HasAll(data, Outset(), bs', out') && |out| == |out'|
    ensures out == out'
  {
    hide HasAll, ReadBlocks;
    BlocksRead(data, Outset(), bs, out);
    BlocksRead(data, Outset(), bs', out');
  }
}
