/** How a code's lengths travel: as deltas and runs, coded through a pre-tree whose own lengths come first. */
module TreeCodec {
  import opened Bits
  import opened BitStream
  import opened Canonical
  import opened Readers
  import opened AssignLengths
  import opened HuffmanCode

  const PRETREE_COUNT: nat := 20
  const PRETREE_LEN_LIMIT: nat := 15
  const ZERO_SHORT: nat := 17
  const ZERO_LONG: nat := 18
  const SAME: nat := 19

  /** One pre-tree symbol with the raw bits that follow it. */
  datatype Item = Item(sym: nat, extraBits: nat, extraVal: nat)

  // ---------- what the writer says ----------

  /** x % 17. */
  function Mod17(x: nat): (r: nat)
    ensures r < 17
  {
    if x < 17 then x else Mod17(x - 17)
  }

  lemma {:induction false} Mod17Is(x: nat)
    ensures Mod17(x) == x % 17
  {
    if x >= 17 { Mod17Is(x - 17); }
  }

  function Delta(l: nat): nat
    requires l <= 16
  {
    Mod17(17 - l)
  }

  /** How far the run of equal lengths from i reaches, k of it being known. */
  function Run(lens: seq<nat>, i: nat, k: nat): (r: nat)
    requires 0 < k && i + k <= |lens| && forall j :: i <= j < i + k ==> lens[j] == lens[i]
    ensures k <= r && i + r <= |lens| && forall j :: i <= j < i + r ==> lens[j] == lens[i]
    decreases |lens| - k
  {
    if i + k < |lens| && lens[i + k] == lens[i] then Run(lens, i, k + 1) else k
  }

  /** What one or two items together say about the next lengths. */
  datatype Piece = Zeros(n: nat) | Same(v: nat, n: nat) | Single(v: nat)

  function Width(p: Piece): nat
  {
    match p
    case Zeros(n) => n
    case Same(_, n) => n
    case Single(_) => 1
  }

  function Level(p: Piece): nat
  {
    match p
    case Zeros(_) => 0
    case Same(v, _) => v
    case Single(v) => v
  }

  /** The pieces the pre-tree symbols can express. */
  predicate Expressible(p: Piece)
  {
    match p
    case Zeros(n) => 4 <= n <= 51
    case Same(v, n) => v <= 16 && 4 <= n <= 5
    case Single(v) => v <= 16
  }

  function PieceItems(p: Piece): seq<Item>
    requires Expressible(p)
  {
    match p
    case Zeros(n) => if n >= 20 then [Item(ZERO_LONG, 5, n - 20)] else [Item(ZERO_SHORT, 4, n - 4)]
    case Same(v, n) => [Item(SAME, 1, n - 4), Item(Delta(v), 0, 0)]
    case Single(v) => [Item(Delta(v), 0, 0)]
  }

  /** A run of r zeros, the longest runs first. */
  function ZeroPieces(r: nat): seq<Piece>
  {
    if r >= 20 then (var n := if r > 51 then 51 else r; [Zeros(n)] + ZeroPieces(r - n))
    else if r >= 4 then (var n := if r > 19 then 19 else r; [Zeros(n)] + ZeroPieces(r - n))
    else if r > 0 then [Single(0)] + ZeroPieces(r - 1)
    else []
  }

  function SamePieces(v: nat, r: nat): seq<Piece>
  {
    if r >= 4 then (var n := if r >= 5 then 5 else 4; [Same(v, n)] + SamePieces(v, r - n))
    else if r > 0 then [Single(v)] + SamePieces(v, r - 1)
    else []
  }

  function RunPieces(v: nat, r: nat): seq<Piece>
  {
    if v == 0 then ZeroPieces(r) else SamePieces(v, r)
  }

  function PiecesFrom(lens: seq<nat>, i: nat): (ps: seq<Piece>)
    requires i <= |lens|
    decreases |lens| - i
  {
    if i == |lens| then []
    else
      var r := Run(lens, i, 1);
      RunPieces(lens[i], r) + PiecesFrom(lens, i + r)
  }

  predicate AllExpressible(ps: seq<Piece>)
  {
    forall i :: 0 <= i < |ps| ==> Expressible(ps[i])
  }

  function AllItems(ps: seq<Piece>): seq<Item>
    requires AllExpressible(ps)
  {
    if ps == [] then [] else PieceItems(ps[0]) + AllItems(ps[1..])
  }

  /** The pieces say, in order, the lengths from position i on. */
  ghost predicate Says(ps: seq<Piece>, lens: seq<nat>, i: nat)
    decreases |ps|
  {
    if ps == [] then i == |lens|
    else
      && Expressible(ps[0]) && 0 < Width(ps[0])
      && Flat(lens, i, Width(ps[0]), Level(ps[0]))
      && Says(ps[1..], lens, i + Width(ps[0]))
  }

  predicate Flat(lens: seq<nat>, i: nat, r: nat, v: nat)
  {
    i + r <= |lens| && forall j :: i <= j < i + r ==> lens[j] == v
  }

  lemma OneMorePiece(p: Piece, ps: seq<Piece>, lens: seq<nat>, i: nat)
    requires Expressible(p) && Flat(lens, i, Width(p), Level(p)) && Says(ps, lens, i + Width(p))
    ensures Says([p] + ps, lens, i)
  {
    assert ([p] + ps)[1..] == ps;
  }

  lemma FlatSplit(lens: seq<nat>, i: nat, m: nat, n: nat, v: nat)
    requires Flat(lens, i, m + n, v)
    ensures Flat(lens, i, m, v) && Flat(lens, i + m, n, v)
  {
  }

  lemma {:induction false} ZeroPiecesSay(r: nat, ps: seq<Piece>, lens: seq<nat>, i: nat)
    requires Flat(lens, i, r, 0) && Says(ps, lens, i + r)
    ensures Says(ZeroPieces(r) + ps, lens, i)
    decreases r
  {
    if r == 0 {
      assert ZeroPieces(r) + ps == ps;
    } else {
      var p := ZeroPieces(r)[0];
      FlatSplit(lens, i, Width(p), r - Width(p), 0);
      ZeroPiecesSay(r - Width(p), ps, lens, i + Width(p));
      OneMorePiece(p, ZeroPieces(r - Width(p)) + ps, lens, i);
      ConcatAssoc([p], ZeroPieces(r - Width(p)), ps);
    }
  }

  lemma {:induction false} SamePiecesSay(v: nat, r: nat, ps: seq<Piece>, lens: seq<nat>, i: nat)
    requires v <= 16 && Flat(lens, i, r, v) && Says(ps, lens, i + r)
    ensures Says(SamePieces(v, r) + ps, lens, i)
    decreases r
  {
    if r == 0 {
      assert SamePieces(v, r) + ps == ps;
    } else {
      var p := SamePieces(v, r)[0];
      FlatSplit(lens, i, Width(p), r - Width(p), v);
      SamePiecesSay(v, r - Width(p), ps, lens, i + Width(p));
      OneMorePiece(p, SamePieces(v, r - Width(p)) + ps, lens, i);
      ConcatAssoc([p], SamePieces(v, r - Width(p)), ps);
    }
  }

  lemma RunPiecesSay(v: nat, r: nat, ps: seq<Piece>, lens: seq<nat>, i: nat)
    requires v <= 16 && Flat(lens, i, r, v) && Says(ps, lens, i + r)
    ensures Says(RunPieces(v, r) + ps, lens, i)
  {
    if v == 0 { ZeroPiecesSay(r, ps, lens, i); } else { SamePiecesSay(v, r, ps, lens, i); }
  }

  /** The greedy splits together say exactly the lengths. */
  lemma {:induction false} PiecesSay(lens: seq<nat>, i: nat)
    requires i <= |lens| && Bounded(lens, 16)
    ensures Says(PiecesFrom(lens, i), lens, i)
    decreases |lens| - i
  {
    if i < |lens| {
      var r := Run(lens, i, 1);
      PiecesSay(lens, i + r);
      RunPiecesSay(lens[i], r, PiecesFrom(lens, i + r), lens, i);
    }
  }

  lemma {:induction false} SaysExpressible(ps: seq<Piece>, lens: seq<nat>, i: nat)
    requires Says(ps, lens, i)
    ensures AllExpressible(ps)
    decreases |ps|
  {
    if ps != [] {
      SaysExpressible(ps[1..], lens, i + Width(ps[0]));
    }
  }

  /** How often each pre-tree symbol is written. */
  function Tally(items: seq<Item>, n: nat): (freq: seq<nat>)
    requires n <= |items|
    ensures |freq| == PRETREE_COUNT
    ensures forall s :: 0 <= s < PRETREE_COUNT ==> freq[s] <= n
  {
    if n == 0 then seq(PRETREE_COUNT, _ => 0)
    else
      var freq := Tally(items, n - 1);
      var s := items[n - 1].sym;
      if s < PRETREE_COUNT then freq[s := freq[s] + 1] else freq
  }

  function FieldBits(vs: seq<nat>, w: nat): seq<bool>
  {
    if vs == [] then [] else BitsOf(vs[0], w) + FieldBits(vs[1..], w)
  }

  /** Every item's symbol has a code. */
  predicate ItemsCodable(pre: seq<nat>, items: seq<Item>)
  {
    forall i :: 0 <= i < |items| ==> items[i].sym < |pre| && pre[items[i].sym] > 0
  }

  function ItemBits(pre: seq<nat>, it: Item): seq<bool>
    requires it.sym < |pre| && pre[it.sym] > 0
  {
    CodeBits(pre, it.sym) + BitsOf(it.extraVal, it.extraBits)
  }

  function ItemsBits(pre: seq<nat>, items: seq<Item>): seq<bool>
    requires ItemsCodable(pre, items)
  {
    if items == [] then [] else ItemBits(pre, items[0]) + ItemsBits(pre, items[1..])
  }

  // ---------- what the reader makes of it ----------

  /** Positions i to i + run all become v. */
  function SetRun(lens: seq<nat>, i: nat, run: nat, v: nat): (r: seq<nat>)
    requires i + run <= |lens|
    ensures |r| == |lens|
    decreases run
  {
    if run == 0 then lens else SetRun(lens[i := v], i + 1, run - 1, v)
  }

  function Undelta(prev: nat, c: nat): (l: nat)
    requires c <= 16
    ensures l <= 16
  {
    Mod17(prev + 17 - c)
  }

  /** Reads the lengths from position i on, each against what it was before. */
  function LengthsFrom(sym: SymbolReader, field: FieldReader, at: nat, lens: seq<nat>,
                       i: nat): (r: Option<Decoded<seq<nat>>>)
    ensures r.Some? ==> |r.value.value| == |lens|
    decreases |lens| - i
  {
    if i >= |lens| then Some(Decoded(lens, at))
    else
      match sym(at)
      case None => None
      case Some(Decoded(c, at1)) =>
        if c <= 16 then
          LengthsFrom(sym, field, at1, lens[i := Undelta(lens[i], c)], i + 1)
        else if c == ZERO_SHORT || c == ZERO_LONG then
          var n := if c == ZERO_SHORT then 4 else 5;
          var run := field(at1, n) + (if c == ZERO_SHORT then 4 else 20);
          if i + run > |lens| then None
          else LengthsFrom(sym, field, at1 + n, SetRun(lens, i, run, 0), i + run)
        else if c == SAME then
          var run := field(at1, 1) + 4;
          if i + run > |lens| then None
          else
            match sym(at1 + 1)
            case None => None
            case Some(Decoded(c2, at2)) =>
              if c2 > 16 then None
              else LengthsFrom(sym, field, at2, SetRun(lens, i, run, Undelta(lens[i], c2)), i + run)
        else None
  }

  function Fields(field: FieldReader, at: nat, count: nat, w: nat): (vs: seq<nat>)
    ensures |vs| == count
    decreases count, at
  {
    if count == 0 then [] else [field(at, w)] + Fields(field, at + w, count - 1, w)
  }

  /** Reads a tree: the pre-tree's twenty 4-bit lengths, then, through it, the lengths themselves. */
  function ReadLengths(s: Source, at: nat, lens: seq<nat>): (r: Option<Decoded<seq<nat>>>)
    ensures r.Some? ==> |r.value.value| == |lens|
  {
    var pre := Fields(FieldsOf(s), at, PRETREE_COUNT, 4);
    if Usable(pre) then LengthsFrom(SymbolsOf(pre, s), FieldsOf(s), at + 80, lens, 0) else None
  }

  // ---------- the reader undoes the writer ----------

  /** The lengths while they are read over the old ones: those up to i are in place. */
  function Partial(prior: seq<nat>, lens: seq<nat>, i: nat): (r: seq<nat>)
    requires i <= |lens| == |prior|
    ensures |r| == |lens|
  {
    if i == 0 then prior else Partial(prior, lens, i - 1)[i - 1 := lens[i - 1]]
  }

  lemma {:induction false} PartialAt(prior: seq<nat>, lens: seq<nat>, i: nat, j: nat)
    requires i <= |lens| == |prior| && j < |lens|
    ensures Partial(prior, lens, i)[j] == if j < i then lens[j] else prior[j]
  {
    if i > 0 { PartialAt(prior, lens, i - 1, j); }
  }

  lemma {:induction false} PartialRun(prior: seq<nat>, lens: seq<nat>, i: nat, r: nat, v: nat)
    requires Flat(lens, i, r, v) && |lens| == |prior|
    ensures SetRun(Partial(prior, lens, i), i, r, v) == Partial(prior, lens, i + r)
    decreases r
  {
    if r > 0 { PartialRun(prior, lens, i + 1, r - 1, v); }
  }

  lemma PartialAll(prior: seq<nat>, lens: seq<nat>)
    requires |lens| == |prior|
    ensures Partial(prior, lens, |lens|) == lens
  {
    forall j | 0 <= j < |lens|
      ensures Partial(prior, lens, |lens|)[j] == lens[j]
    {
      PartialAt(prior, lens, |lens|, j);
    }
  }

  /** The symbol that says length l where the length was prev: any writer's delta. */
  function DeltaOver(prev: nat, l: nat): (c: nat)
    requires prev <= 16 && l <= 16
    ensures c <= 16
  {
    Mod17(prev + 17 - l)
  }

  /** Length and symbol add up to what the length was, modulo 17, so one symbol says each length and one only. */
  lemma UndeltaDelta(prev: nat, l: nat)
    requires prev <= 16 && l <= 16
    ensures Undelta(prev, DeltaOver(prev, l)) == l && (l + DeltaOver(prev, l)) % 17 == prev
    ensures forall c: nat {:trigger Undelta(prev, c)} :: c <= 16 && Undelta(prev, c) == l ==> c == DeltaOver(prev, l)
    ensures DeltaOver(0, l) == Delta(l)
  {
    hide Mod17;
    Mod17Is(prev + 17 - l);
    forall c: nat | c <= 16
      ensures (Undelta(prev, c) + c) % 17 == prev
    {
      Mod17Is(prev + 17 - c);
    }
    assert Undelta(prev, DeltaOver(prev, l)) == l;
  }

  /** The items of a piece where the first length it covers was prev. */
  function ItemsOver(p: Piece, prev: nat): seq<Item>
    requires Expressible(p) && prev <= 16
  {
    match p
    case Zeros(_) => PieceItems(p)
    case Same(v, n) => [Item(SAME, 1, n - 4), Item(DeltaOver(prev, v), 0, 0)]
    case Single(v) => [Item(DeltaOver(prev, v), 0, 0)]
  }

  /** The items of pieces that begin at position i of lengths old. */
  function AllItemsOver(ps: seq<Piece>, prior: seq<nat>, i: nat): seq<Item>
    requires AllExpressible(ps) && Bounded(prior, 16)
  {
    if ps == [] then []
    else
      ItemsOver(ps[0], if i < |prior| then prior[i] else 0) + AllItemsOver(ps[1..], prior, i + Width(ps[0]))
  }

  /** Over lengths that were all zero they are the items this writer writes. */
  lemma {:induction false} OverZeros(ps: seq<Piece>, n: nat, i: nat)
    requires AllExpressible(ps)
    ensures AllItemsOver(ps, NoLengths(n), i) == AllItems(ps)
    decreases |ps|
  {
    if ps != [] {
      hide Mod17;
      OverZeros(ps[1..], n, i + Width(ps[0]));
      UndeltaDelta(0, Level(ps[0]));
      assert ItemsOver(ps[0], 0) == PieceItems(ps[0]);
    }
  }

  /** The readers find the items, one after another, from position at. */
  ghost predicate Yields(sym: SymbolReader, field: FieldReader, at: nat, items: seq<Item>)
    decreases |items|
  {
    items == [] ||
    var it := items[0];
    && sym(at).Some? && sym(at).value.value == it.sym
    && field(sym(at).value.next, it.extraBits) == it.extraVal
    && Yields(sym, field, sym(at).value.next + it.extraBits, items[1..])
  }

  /** Where they leave off. */
  ghost function EndOf(sym: SymbolReader, at: nat, items: seq<Item>): nat
    decreases |items|
  {
    if items == [] || sym(at).None? then at
    else EndOf(sym, sym(at).value.next + items[0].extraBits, items[1..])
  }

  lemma {:induction false} YieldsConcat(sym: SymbolReader, field: FieldReader, at: nat, a: seq<Item>, b: seq<Item>)
    requires Yields(sym, field, at, a + b)
    ensures Yields(sym, field, at, a) && Yields(sym, field, EndOf(sym, at, a), b)
    ensures EndOf(sym, at, a + b) == EndOf(sym, EndOf(sym, at, a), b)
    decreases |a|
  {
    if a == [] {
      assert a + b == b;
    } else {
      assert (a + b)[1..] == a[1..] + b;
      YieldsConcat(sym, field, sym(at).value.next + a[0].extraBits, a[1..], b);
    }
  }

  lemma YieldsOne(sym: SymbolReader, field: FieldReader, at: nat, it: Item)
    requires Yields(sym, field, at, [it])
    ensures sym(at).Some? && sym(at).value.value == it.sym && field(sym(at).value.next, it.extraBits) == it.extraVal
    ensures EndOf(sym, at, [it]) == sym(at).value.next + it.extraBits
  {
  }

  lemma ReadZeros(sym: SymbolReader, field: FieldReader, at: nat, lens: seq<nat>, i: nat, n: nat)
    requires Expressible(Zeros(n)) && i + n <= |lens| && Yields(sym, field, at, PieceItems(Zeros(n)))
    ensures LengthsFrom(sym, field, at, lens, i)
         == LengthsFrom(sym, field, EndOf(sym, at, PieceItems(Zeros(n))), SetRun(lens, i, n, 0), i + n)
  {
    YieldsOne(sym, field, at, PieceItems(Zeros(n))[0]);
  }

  lemma ReadSame(sym: SymbolReader, field: FieldReader, at: nat, lens: seq<nat>, i: nat, v: nat, n: nat)
    requires Expressible(Same(v, n)) && i + n <= |lens| && lens[i] <= 16 &&
             Yields(sym, field, at, ItemsOver(Same(v, n), lens[i]))
    ensures LengthsFrom(sym, field, at, lens, i)
         == LengthsFrom(sym, field, EndOf(sym, at, ItemsOver(Same(v, n), lens[i])), SetRun(lens, i, n, v), i + n)
  {
    hide Mod17;
    var items := ItemsOver(Same(v, n), lens[i]);
    var a, b := items[0], items[1];
    assert items == [a] + [b];
    YieldsConcat(sym, field, at, [a], [b]);
    YieldsOne(sym, field, at, a);
    YieldsOne(sym, field, EndOf(sym, at, [a]), b);
    UndeltaDelta(lens[i], v);
  }

  lemma ReadSingle(sym: SymbolReader, field: FieldReader, at: nat, lens: seq<nat>, i: nat, v: nat)
    requires Expressible(Single(v)) && i < |lens| && lens[i] <= 16 &&
             Yields(sym, field, at, ItemsOver(Single(v), lens[i]))
    ensures LengthsFrom(sym, field, at, lens, i)
         == LengthsFrom(sym, field, EndOf(sym, at, ItemsOver(Single(v), lens[i])), lens[i := v], i + 1)
  {
    hide Mod17;
    YieldsOne(sym, field, at, ItemsOver(Single(v), lens[i])[0]);
    UndeltaDelta(lens[i], v);
  }

  /** One piece read sets the lengths it says. */
  lemma ReadPiece(sym: SymbolReader, field: FieldReader, at: nat, prior: seq<nat>, lens: seq<nat>, i: nat, p: Piece)
    requires Expressible(p) && Flat(lens, i, Width(p), Level(p)) && i < |lens| == |prior| && prior[i] <= 16
    requires Yields(sym, field, at, ItemsOver(p, prior[i]))
    ensures LengthsFrom(sym, field, at, Partial(prior, lens, i), i)
         == LengthsFrom(sym, field, EndOf(sym, at, ItemsOver(p, prior[i])), Partial(prior, lens, i + Width(p)),
                        i + Width(p))
  {
    hide Partial, PieceItems, Mod17;
    var before := Partial(prior, lens, i);
    PartialAt(prior, lens, i, i);
    PartialRun(prior, lens, i, Width(p), Level(p));
    match p
    case Zeros(n) => ReadZeros(sym, field, at, before, i, n);
    case Same(v, n) => ReadSame(sym, field, at, before, i, v, n);
    case Single(v) => ReadSingle(sym, field, at, before, i, v);
  }

  /** All the pieces together set every length. */
  lemma {:induction false} ReadPieces(sym: SymbolReader, field: FieldReader, at: nat, prior: seq<nat>, lens: seq<nat>,
                                      i: nat, ps: seq<Piece>)
    requires Says(ps, lens, i) && AllExpressible(ps) && i <= |lens| == |prior| && Bounded(prior, 16)
    requires Yields(sym, field, at, AllItemsOver(ps, prior, i))
    ensures LengthsFrom(sym, field, at, Partial(prior, lens, i), i)
         == Some(Decoded(lens, EndOf(sym, at, AllItemsOver(ps, prior, i))))
    decreases |ps|
  {
    hide PieceItems, ItemsOver, Partial, Expressible;
    if ps == [] {
      PartialAll(prior, lens);
    } else {
      var a, b := ItemsOver(ps[0], prior[i]), AllItemsOver(ps[1..], prior, i + Width(ps[0]));
      YieldsConcat(sym, field, at, a, b);
      ReadPiece(sym, field, at, prior, lens, i, ps[0]);
      ReadPieces(sym, field, EndOf(sym, at, a), prior, lens, i + Width(ps[0]), ps[1..]);
    }
  }

  // ---------- down to the bits ----------

  /** A pre-tree item carries its raw value in the bits it says. */
  predicate FitsBits(items: seq<Item>)
  {
    forall i :: 0 <= i < |items| ==> items[i].extraVal < Pow2(items[i].extraBits)
  }

  /** Items written with a code are found by its readers, and nothing is left over. */
  lemma {:induction false} WrittenYields(sym: SymbolReader, field: FieldReader, pre: seq<nat>, s: Source, at: nat,
                                         items: seq<Item>)
    requires FindsCodes(sym, pre, s) && FindsFields(field, s) && ItemsCodable(pre, items) && FitsBits(items)
    requires Holds(s, at, ItemsBits(pre, items))
    ensures Yields(sym, field, at, items)
    ensures EndOf(sym, at, items) == at + |ItemsBits(pre, items)|
    decreases |items|
  {
    hide Code, BitsOf, Window, Pow2;
    if items != [] {
      var it, rest := items[0], items[1..];
      assert ItemsCodable(pre, rest) && FitsBits(rest);
      HoldsConcat(s, at, ItemBits(pre, it), ItemsBits(pre, rest));
      HoldsConcat(s, at, CodeBits(pre, it.sym), BitsOf(it.extraVal, it.extraBits));
      WrittenYields(sym, field, pre, s, at + pre[it.sym] + it.extraBits, rest);
    }
  }

  lemma {:induction false} FieldsRead(field: FieldReader, s: Source, at: nat, vs: seq<nat>, w: nat)
    requires FindsFields(field, s) && Holds(s, at, FieldBits(vs, w)) && forall i :: 0 <= i < |vs| ==> vs[i] < Pow2(w)
    ensures Fields(field, at, |vs|, w) == vs
    decreases |vs|
  {
    if vs != [] {
      HoldsConcat(s, at, BitsOf(vs[0], w), FieldBits(vs[1..], w));
      FieldsRead(field, s, at + w, vs[1..], w);
    }
  }

  lemma {:induction false} FieldBitsLength(vs: seq<nat>, w: nat)
    ensures w == 3 ==> |FieldBits(vs, w)| == 3 * |vs|
    ensures w == 4 ==> |FieldBits(vs, w)| == 4 * |vs|
  {
    if vs != [] { FieldBitsLength(vs[1..], w); }
  }

  // ---------- the whole tree ----------

  function TreeItems(lens: seq<nat>): seq<Item>
    requires Bounded(lens, 16)
  {
    PiecesSay(lens, 0);
    SaysExpressible(PiecesFrom(lens, 0), lens, 0);
    AllItems(PiecesFrom(lens, 0))
  }

  /** The lengths of the pre-tree a tree is written through. */
  ghost function Pretree(lens: seq<nat>): (pre: seq<nat>)
    requires Bounded(lens, 16) && |lens| <= 512
    ensures |pre| == PRETREE_COUNT
  {
    TreeItemsCount(lens);
    Assigned(Tally(TreeItems(lens), |TreeItems(lens)|), PRETREE_LEN_LIMIT)
  }

  /** The bits a tree is written in. */
  ghost function TreeBits(lens: seq<nat>): seq<bool>
    requires Bounded(lens, 16) && |lens| <= 512
  {
    PretreeIsFit(lens);
    FieldBits(Pretree(lens), 4) + ItemsBits(Pretree(lens), TreeItems(lens))
  }

  lemma PieceItemsFit(p: Piece)
    requires Expressible(p)
    ensures 0 < |PieceItems(p)| <= Width(p) && FitsBits(PieceItems(p))
    ensures forall i :: 0 <= i < |PieceItems(p)| ==> PieceItems(p)[i].sym < PRETREE_COUNT
  {
    SmallPowers();
  }

  lemma SmallPowers()
    ensures Pow2(0) == 1 && Pow2(1) == 2 && Pow2(4) == 16 && Pow2(5) == 32
  {
    assert Pow2(2) == 4 && Pow2(3) == 8;
  }

  lemma {:induction false} AllItemsFit(ps: seq<Piece>, lens: seq<nat>, i: nat)
    requires Says(ps, lens, i) && AllExpressible(ps) && i <= |lens|
    ensures |AllItems(ps)| <= |lens| - i && FitsBits(AllItems(ps))
    ensures i < |lens| ==> AllItems(ps) != []
    ensures forall k :: 0 <= k < |AllItems(ps)| ==> AllItems(ps)[k].sym < PRETREE_COUNT
    decreases |ps|
  {
    if ps != [] {
      PieceItemsFit(ps[0]);
      AllItemsFit(ps[1..], lens, i + Width(ps[0]));
    }
  }

  lemma {:induction false} TallyCounts(items: seq<Item>, n: nat, i: nat)
    requires i < n <= |items| && items[i].sym < PRETREE_COUNT
    ensures Tally(items, n)[items[i].sym] > 0
  {
    if i < n - 1 { TallyCounts(items, n - 1, i); }
  }

  lemma TreeItemsCount(lens: seq<nat>)
    requires Bounded(lens, 16) && |lens| <= 512
    ensures |TreeItems(lens)| <= 512 && FitsBits(TreeItems(lens)) && (lens != [] ==> TreeItems(lens) != [])
    ensures forall k :: 0 <= k < |TreeItems(lens)| ==> TreeItems(lens)[k].sym < PRETREE_COUNT
    ensures Alphabet(Tally(TreeItems(lens), |TreeItems(lens)|))
  {
    PiecesSay(lens, 0);
    SaysExpressible(PiecesFrom(lens, 0), lens, 0);
    AllItemsFit(PiecesFrom(lens, 0), lens, 0);
  }

  /** The pre-tree can be read, its lengths fit their fields, and every item has a code in it. */
  lemma PretreeIsFit(lens: seq<nat>)
    requires Bounded(lens, 16) && |lens| <= 512
    ensures Usable(Pretree(lens)) && Bounded(Pretree(lens), PRETREE_LEN_LIMIT)
    ensures ItemsCodable(Pretree(lens), TreeItems(lens))
    ensures lens != [] ==> Complete(Pretree(lens), MAX_TREE_PATH)
  {
    var items := TreeItems(lens);
    var freq := Tally(items, |items|);
    TreeItemsCount(lens);
    Pow2Monotone(5, PRETREE_LEN_LIMIT);
    SmallPowers();
    AssignedIsUsable(freq, PRETREE_LEN_LIMIT);
    forall i | 0 <= i < |items|
      ensures freq[items[i].sym] > 0
    {
      TallyCounts(items, |items|, i);
    }
    if lens != [] {
      assert freq[items[0].sym] > 0;
    }
  }

  /** The bits of a tree as any writer may write it: a pre-tree of its own, and pieces of its own choice. */
  ghost function TreeBitsOver(pre: seq<nat>, ps: seq<Piece>, prior: seq<nat>): seq<bool>
    requires AllExpressible(ps) && Bounded(prior, 16) && ItemsCodable(pre, AllItemsOver(ps, prior, 0))
  {
    FieldBits(pre, 4) + ItemsBits(pre, AllItemsOver(ps, prior, 0))
  }

  lemma {:induction false} OverFits(ps: seq<Piece>, prior: seq<nat>, i: nat)
    requires AllExpressible(ps) && Bounded(prior, 16)
    ensures FitsBits(AllItemsOver(ps, prior, i))
    decreases |ps|
  {
    if ps != [] {
      SmallPowers();
      PieceItemsFit(ps[0]);
      OverFits(ps[1..], prior, i + Width(ps[0]));
    }
  }

  /** Whoever wrote it, a tree read over the lengths it was written against gives its lengths, to the last bit. */
  lemma TreeUpdates(s: Source, at: nat, pre: seq<nat>, ps: seq<Piece>, prior: seq<nat>, lens: seq<nat>)
    requires |pre| == PRETREE_COUNT && Usable(pre) && Bounded(pre, PRETREE_LEN_LIMIT)
    requires |lens| == |prior| && Bounded(prior, 16) && Says(ps, lens, 0) && AllExpressible(ps)
    requires ItemsCodable(pre, AllItemsOver(ps, prior, 0)) && Holds(s, at, TreeBitsOver(pre, ps, prior))
    ensures ReadLengths(s, at, prior) == Some(Decoded(lens, at + |TreeBitsOver(pre, ps, prior)|))
  {
    hide ItemsBits, FieldBits, LengthsFrom, Fields, Says, AllItemsOver, Yields, EndOf, Holds, FindsCodes, FindsFields,
      FieldsOf, SymbolsOf, ItemsCodable, FitsBits, AllExpressible, Usable;
    var items := AllItemsOver(ps, prior, 0);
    var sym, field := SymbolsOf(pre, s), FieldsOf(s);
    HoldsConcat(s, at, FieldBits(pre, 4), ItemsBits(pre, items));
    FieldsFound(s);
    SmallPowers();
    FieldsRead(field, s, at, pre, 4);
    FieldBitsLength(pre, 4);
    SymbolsFound(pre, s);
    OverFits(ps, prior, 0);
    WrittenYields(sym, field, pre, s, at + 80, items);
    ReadPieces(sym, field, at + 80, prior, lens, 0, ps);
  }

  /** Reading what was written, over lengths that were all zero, restores the lengths and stops at the last bit. */
  lemma TreeReadsBack(lens: seq<nat>, s: Source, at: nat)
    requires Bounded(lens, 16) && 0 < |lens| <= 512 && Holds(s, at, TreeBits(lens))
    ensures ReadLengths(s, at, NoLengths(|lens|)) == Some(Decoded(lens, at + |TreeBits(lens)|))
  {
    hide Pretree, ItemsBits, FieldBits, Says, PiecesFrom, AllItems, AllItemsOver, Holds, ItemsCodable, AllExpressible,
      Usable, ReadLengths, Complete;
    PretreeIsFit(lens);
    PiecesSay(lens, 0);
    SaysExpressible(PiecesFrom(lens, 0), lens, 0);
    OverZeros(PiecesFrom(lens, 0), |lens|, 0);
    TreeUpdates(s, at, Pretree(lens), PiecesFrom(lens, 0), NoLengths(|lens|), lens);
  }

  // ---------- the pieces this writer chooses ----------

  /** No piece that could stand here would say more lengths. */
  ghost predicate WidestAt(p: Piece, lens: seq<nat>, i: nat)
  {
    forall q: Piece {:trigger Expressible(q)} ::
      Expressible(q) && Flat(lens, i, Width(q), Level(q)) ==> Width(q) <= Width(p)
  }

  /** At every place the piece is as wide as one can be there. */
  ghost predicate AllWidest(ps: seq<Piece>, lens: seq<nat>, i: nat)
    decreases |ps|
  {
    ps == [] || (WidestAt(ps[0], lens, i) && AllWidest(ps[1..], lens, i + Width(ps[0])))
  }

  /** The lengths from i on are v, r times and no more. */
  predicate RunIs(lens: seq<nat>, i: nat, r: nat, v: nat)
  {
    Flat(lens, i, r, v) && (i + r < |lens| ==> lens[i + r] != v)
  }

  lemma InRun(q: Piece, lens: seq<nat>, i: nat, r: nat, v: nat)
    requires r > 0 && RunIs(lens, i, r, v) && Expressible(q) && Flat(lens, i, Width(q), Level(q))
    ensures Level(q) == v && Width(q) <= r
  {
    assert lens[i] == v;
  }

  lemma FirstIsWidest(lens: seq<nat>, i: nat, r: nat, v: nat)
    requires r > 0 && v <= 16 && RunIs(lens, i, r, v)
    ensures RunPieces(v, r) != [] && WidestAt(RunPieces(v, r)[0], lens, i)
  {
    forall q: Piece | Expressible(q) && Flat(lens, i, Width(q), Level(q))
      ensures Width(q) <= Width(RunPieces(v, r)[0])
    {
      InRun(q, lens, i, r, v);
    }
  }

  lemma {:induction false} RunIsWidest(v: nat, r: nat, rest: seq<Piece>, lens: seq<nat>, i: nat)
    requires v <= 16 && RunIs(lens, i, r, v) && AllWidest(rest, lens, i + r)
    ensures AllWidest(RunPieces(v, r) + rest, lens, i)
    decreases r
  {
    hide WidestAt;
    if r == 0 {
      assert RunPieces(v, r) + rest == rest;
    } else {
      var ps := RunPieces(v, r);
      var p := ps[0];
      FirstIsWidest(lens, i, r, v);
      FlatSplit(lens, i, Width(p), r - Width(p), v);
      RunIsWidest(v, r - Width(p), rest, lens, i + Width(p));
      assert ps == [p] + RunPieces(v, r - Width(p));
      assert (ps + rest)[1..] == RunPieces(v, r - Width(p)) + rest;
    }
  }

  lemma {:induction false} RunEnds(lens: seq<nat>, i: nat, k: nat)
    requires 0 < k && i + k <= |lens| && forall j :: i <= j < i + k ==> lens[j] == lens[i]
    ensures RunIs(lens, i, Run(lens, i, k), lens[i])
    decreases |lens| - k
  {
    if i + k < |lens| && lens[i + k] == lens[i] { RunEnds(lens, i, k + 1); }
  }

  /** The writer takes, from the front, the widest piece the pre-tree can express. */
  lemma {:induction false} PiecesAreWidest(lens: seq<nat>, i: nat)
    requires i <= |lens| && Bounded(lens, 16)
    ensures AllWidest(PiecesFrom(lens, i), lens, i)
    decreases |lens| - i
  {
    if i < |lens| {
      var r := Run(lens, i, 1);
      RunEnds(lens, i, 1);
      PiecesAreWidest(lens, i + r);
      RunIsWidest(lens[i], r, PiecesFrom(lens, i + r), lens, i);
    }
  }
}
