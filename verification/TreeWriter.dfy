/** Writing a tree's code lengths: collect the items, code them through a pre-tree of their own, write both. */
module TreeWriter {
  import opened Bits
  import opened BitStream
  import opened Canonical
  import opened AssignLengths
  import opened EncodeTable
  import opened TreeCodec

  lemma {:induction false} AllItemsConcat(a: seq<Piece>, b: seq<Piece>)
    requires AllExpressible(a) && AllExpressible(b)
    ensures AllExpressible(a + b) && AllItems(a + b) == AllItems(a) + AllItems(b)
    decreases |a|
  {
    if a == [] {
      assert a + b == b;
    } else {
      AllItemsConcat(a[1..], b);
      assert (a + b)[1..] == a[1..] + b;
    }
  }

  lemma {:induction false} ZeroPiecesExpressible(r: nat)
    ensures AllExpressible(ZeroPieces(r))
  {
    if r > 0 {
      ZeroPiecesExpressible(r - Width(ZeroPieces(r)[0]));
    }
  }

  lemma {:induction false} SamePiecesExpressible(v: nat, r: nat)
    requires v <= 16
    ensures AllExpressible(SamePieces(v, r))
    decreases r
  {
    if r > 0 {
      SamePiecesExpressible(v, r - Width(SamePieces(v, r)[0]));
    }
  }

  /** The items of a run of r zeros. */
  ghost function ZeroItems(r: nat): seq<Item>
  {
    ZeroPiecesExpressible(r);
    AllItems(ZeroPieces(r))
  }

  ghost function SameItems(v: nat, r: nat): seq<Item>
    requires v <= 16
  {
    SamePiecesExpressible(v, r);
    AllItems(SamePieces(v, r))
  }

  /** The items of the lengths from i on. */
  ghost function ItemsFrom(lens: seq<nat>, i: nat): seq<Item>
    requires i <= |lens| && Bounded(lens, 16)
  {
    PiecesSay(lens, i);
    SaysExpressible(PiecesFrom(lens, i), lens, i);
    AllItems(PiecesFrom(lens, i))
  }

  lemma NextZeroItems(r: nat, n: nat)
    requires 0 < r && n == Width(ZeroPieces(r)[0])
    ensures n <= r
    ensures Expressible(ZeroPieces(r)[0]) && ZeroItems(r) == PieceItems(ZeroPieces(r)[0]) + ZeroItems(r - n)
  {
    ZeroPiecesExpressible(r);
    assert ZeroPieces(r)[1..] == ZeroPieces(r - n);
  }

  lemma NextSameItems(v: nat, r: nat, n: nat)
    requires v <= 16 && 0 < r && n == Width(SamePieces(v, r)[0])
    ensures n <= r
    ensures Expressible(SamePieces(v, r)[0]) && SameItems(v, r) == PieceItems(SamePieces(v, r)[0]) + SameItems(v, r - n)
  {
    SamePiecesExpressible(v, r);
    assert SamePieces(v, r)[1..] == SamePieces(v, r - n);
  }

  lemma NextRunItems(lens: seq<nat>, i: nat, r: nat)
    requires i < |lens| && Bounded(lens, 16) && r == Run(lens, i, 1)
    ensures ItemsFrom(lens, i) ==
            (if lens[i] == 0 then ZeroItems(r) else SameItems(lens[i], r)) + ItemsFrom(lens, i + r)
  {
    PiecesSay(lens, i + r);
    SaysExpressible(PiecesFrom(lens, i + r), lens, i + r);
    ZeroPiecesExpressible(r);
    SamePiecesExpressible(lens[i], r);
    AllItemsConcat(RunPieces(lens[i], r), PiecesFrom(lens, i + r));
  }

  lemma {:induction false} TallyPrefix(a: seq<Item>, b: seq<Item>, n: nat)
    requires n <= |a|
    ensures Tally(a + b, n) == Tally(a, n)
  {
    if n > 0 { TallyPrefix(a, b, n - 1); }
  }

  /** Adds one item, and counts its symbol. */
  method Add(items: seq<Item>, freq: array<nat>, it: Item) returns (r: seq<Item>)
    requires freq.Length == PRETREE_COUNT && freq[..] == Tally(items, |items|) && it.sym < PRETREE_COUNT
    modifies freq
    ensures r == items + [it] && freq[..] == Tally(r, |r|)
  {
    TallyPrefix(items, [it], |items|);
    r := items + [it];
    freq[it.sym] := freq[it.sym] + 1;
  }

  method AddZeros(items: seq<Item>, freq: array<nat>, count: nat) returns (r: seq<Item>)
    requires freq.Length == PRETREE_COUNT && freq[..] == Tally(items, |items|)
    modifies freq
    ensures r == items + ZeroItems(count) && freq[..] == Tally(r, |r|)
  {
    hide ZeroItems, Tally;
    r := items;
    var run: nat := count;
    while run >= 20
      invariant r + ZeroItems(run) == items + ZeroItems(count) && freq[..] == Tally(r, |r|)
    {
      var n: int := run;
      if n > 51 { n := 51; }
      NextZeroItems(run, n);
      ConcatAssoc(r, [Item(ZERO_LONG, 5, n - 20)], ZeroItems(run - n));
      r := Add(r, freq, Item(ZERO_LONG, 5, n - 20));
      run := run - n;
    }
    while run >= 4
      invariant run < 20 && r + ZeroItems(run) == items + ZeroItems(count) && freq[..] == Tally(r, |r|)
    {
      var n: int := run;
      if n > 19 { n := 19; }
      NextZeroItems(run, n);
      ConcatAssoc(r, [Item(ZERO_SHORT, 4, n - 4)], ZeroItems(run - n));
      r := Add(r, freq, Item(ZERO_SHORT, 4, n - 4));
      run := run - n;
    }
    while run > 0
      invariant run < 4 && r + ZeroItems(run) == items + ZeroItems(count) && freq[..] == Tally(r, |r|)
    {
      NextZeroItems(run, 1);
      ConcatAssoc(r, [Item(Delta(0), 0, 0)], ZeroItems(run - 1));
      r := Add(r, freq, Item(Delta(0), 0, 0));
      run := run - 1;
    }
    NoZeroItems(r);
  }

  lemma NoZeroItems(r: seq<Item>)
    ensures r + ZeroItems(0) == r
  {
  }

  method AddSame(items: seq<Item>, freq: array<nat>, v: nat, count: nat) returns (r: seq<Item>)
    requires freq.Length == PRETREE_COUNT && freq[..] == Tally(items, |items|) && v <= 16
    modifies freq
    ensures r == items + SameItems(v, count) && freq[..] == Tally(r, |r|)
  {
    Mod17Is(17 - v);
    r := items;
    var run: nat := count;
    while run >= 4
      invariant r + SameItems(v, run) == items + SameItems(v, count) && freq[..] == Tally(r, |r|)
    {
      var n := 4;
      if run >= 5 { n := 5; }
      NextSameItems(v, run, n);
      var a, b := Item(SAME, 1, n - 4), Item((17 - v) % 17, 0, 0);
      TwoMore(r, a, b, SameItems(v, run - n));
      r := Add(r, freq, a);
      r := Add(r, freq, b);
      run := run - n;
    }
    while run > 0
      invariant run < 4 && r + SameItems(v, run) == items + SameItems(v, count) && freq[..] == Tally(r, |r|)
    {
      NextSameItems(v, run, 1);
      var b := Item((17 - v) % 17, 0, 0);
      ConcatAssoc(r, [b], SameItems(v, run - 1));
      r := Add(r, freq, b);
      run := run - 1;
    }
    assert r + SameItems(v, 0) == r;
  }

  lemma TwoMore(r: seq<Item>, a: Item, b: Item, rest: seq<Item>)
    ensures r + ([a, b] + rest) == (r + [a] + [b]) + rest
  {
  }

  method RunLength(lens: seq<nat>, i: nat) returns (run: nat)
    requires i < |lens|
    ensures run == Run(lens, i, 1)
  {
    run := 1;
    while i + run < |lens| && lens[i + run] == lens[i]
      invariant 0 < run && i + run <= |lens| && forall j :: i <= j < i + run ==> lens[j] == lens[i]
      invariant Run(lens, i, run) == Run(lens, i, 1)
    {
      run := run + 1;
    }
  }

  /** Adds the items of the run at i. */
  method AddRun(items: seq<Item>, freq: array<nat>, lens: seq<nat>, i: nat) returns (r: seq<Item>, next: nat)
    requires i < |lens| && Bounded(lens, 16) && freq.Length == PRETREE_COUNT && freq[..] == Tally(items, |items|)
    modifies freq
    ensures i < next <= |lens| && r + ItemsFrom(lens, next) == items + ItemsFrom(lens, i) && freq[..] == Tally(r, |r|)
  {
    hide ZeroItems, SameItems, ItemsFrom, Tally;
    var run := RunLength(lens, i);
    NextRunItems(lens, i, run);
    if lens[i] == 0 {
      ConcatAssoc(items, ZeroItems(run), ItemsFrom(lens, i + run));
      r := AddZeros(items, freq, run);
    } else {
      ConcatAssoc(items, SameItems(lens[i], run), ItemsFrom(lens, i + run));
      r := AddSame(items, freq, lens[i], run);
    }
    next := i + run;
  }

  method NoTally() returns (freq: array<nat>)
    ensures fresh(freq) && freq.Length == PRETREE_COUNT && freq[..] == Tally([], 0)
  {
    freq := new nat[PRETREE_COUNT](_ => 0);
  }

  lemma ItemsEnds(lens: seq<nat>)
    requires Bounded(lens, 16)
    ensures ItemsFrom(lens, 0) == TreeItems(lens) && ItemsFrom(lens, |lens|) == []
  {
  }

  method CollectItems(lens: seq<nat>) returns (items: seq<Item>, freq: array<nat>)
    requires Bounded(lens, 16)
    ensures items == TreeItems(lens)
    ensures fresh(freq) && freq.Length == PRETREE_COUNT && freq[..] == Tally(items, |items|)
  {
    freq := NoTally();
    items := [];
    ItemsEnds(lens);
    var i := 0;
    while i < |lens|
      modifies freq
      invariant i <= |lens| && freq[..] == Tally(items, |items|)
      invariant items + ItemsFrom(lens, i) == TreeItems(lens)
    {
      items, i := AddRun(items, freq, lens, i);
    }
  }

  method WriteFields(w: BitWriter, vs: seq<nat>, width: nat)
    requires w.Valid() && width <= 16
    modifies w
    ensures w.Valid() && w.Bits() == old(w.Bits()) + FieldBits(vs, width)
  {
    assert vs[0..] == vs;
    for i := 0 to |vs|
      invariant w.Valid() && w.Bits() + FieldBits(vs[i..], width) == old(w.Bits()) + FieldBits(vs, width)
    {
      assert vs[i..][1..] == vs[i + 1..];
      ConcatAssoc(w.Bits(), BitsOf(vs[i], width), FieldBits(vs[i + 1..], width));
      w.Write(vs[i], width);
    }
    assert w.Bits() + [] == w.Bits();
  }

  method WriteItem(w: BitWriter, pre: seq<nat>, codes: seq<nat>, it: Item)
    requires w.Valid() && it.sym < |pre| && 0 < pre[it.sym] <= 16 && codes == Codes(pre, |pre|) && it.extraBits <= 16
    modifies w
    ensures w.Valid() && w.Bits() == old(w.Bits()) + ItemBits(pre, it)
  {
    CodesAt(pre, |pre|, it.sym);
    ConcatAssoc(w.Bits(), CodeBits(pre, it.sym), BitsOf(it.extraVal, it.extraBits));
    w.Write(codes[it.sym], pre[it.sym]);
    if it.extraBits > 0 {
      w.Write(it.extraVal, it.extraBits);
    } else {
      assert w.Bits() + [] == w.Bits();
    }
  }

  predicate SmallExtras(items: seq<Item>)
  {
    forall i :: 0 <= i < |items| ==> items[i].extraBits <= 16
  }

  method WriteItems(w: BitWriter, pre: seq<nat>, codes: seq<nat>, items: seq<Item>)
    requires w.Valid() && ItemsCodable(pre, items) && Bounded(pre, 16) && codes == Codes(pre, |pre|) &&
             SmallExtras(items)
    modifies w
    ensures w.Valid() && w.Bits() == old(w.Bits()) + ItemsBits(pre, items)
  {
    assert items[0..] == items;
    for i := 0 to |items|
      invariant w.Valid() && w.Bits() + ItemsBits(pre, items[i..]) == old(w.Bits()) + ItemsBits(pre, items)
    {
      assert items[i..][1..] == items[i + 1..];
      ConcatAssoc(w.Bits(), ItemBits(pre, items[i]), ItemsBits(pre, items[i + 1..]));
      WriteItem(w, pre, codes, items[i]);
    }
    assert w.Bits() + [] == w.Bits();
  }

  /** Writes the lengths of one tree. */
  method WriteTree(w: BitWriter, lens: seq<nat>)
    requires w.Valid() && Bounded(lens, 16) && |lens| <= 512
    modifies w
    ensures w.Valid() && w.Bits() == old(w.Bits()) + TreeBits(lens)
  {
    var items, freq := CollectItems(lens);
    TreeItemsCount(lens);
    PretreeIsFit(lens);
    TreeExtras(lens);
    var pretreeLens := Assign(freq[..], PRETREE_LEN_LIMIT);
    var pretreeCodes := CanonicalCodes(pretreeLens);
    ConcatAssoc(w.Bits(), FieldBits(pretreeLens, 4), ItemsBits(pretreeLens, items));
    WriteFields(w, pretreeLens, 4);
    WriteItems(w, pretreeLens, pretreeCodes, items);
  }

  lemma TreeExtras(lens: seq<nat>)
    requires Bounded(lens, 16)
    ensures SmallExtras(TreeItems(lens))
  {
    PiecesSay(lens, 0);
    SaysExpressible(PiecesFrom(lens, 0), lens, 0);
    PiecesExtras(PiecesFrom(lens, 0));
  }

  lemma {:induction false} PiecesExtras(ps: seq<Piece>)
    requires AllExpressible(ps)
    ensures SmallExtras(AllItems(ps))
  {
    if ps != [] { PiecesExtras(ps[1..]); }
  }
}
