/** The decoder's table form of a canonical code, and symbol decoding one bit at a time. */
module DecodeTable {
  import opened Bits
  import opened BitStream
  import opened Canonical
  import opened Slots

  /** Where the symbols of length l begin when symbols are ordered by length, then number. */
  function Offset(lens: seq<nat>, l: nat): (o: nat)
  {
    if l <= 1 then 0 else Offset(lens, l - 1) + Count(lens, |lens|, l - 1)
  }

  /** How many of the first n symbols have a length from 1 to l. */
  function Short(lens: seq<nat>, n: nat, l: nat): (c: nat)
    requires n <= |lens|
    ensures c <= n
  {
    if n == 0 then 0 else Short(lens, n - 1, l) + (if 0 < lens[n - 1] <= l then 1 else 0)
  }

  lemma {:induction false} ShortStep(lens: seq<nat>, n: nat, l: nat)
    requires n <= |lens| && l > 0
    ensures Short(lens, n, l) == Short(lens, n, l - 1) + Count(lens, n, l)
  {
    if n > 0 { ShortStep(lens, n - 1, l); }
  }

  lemma {:induction false} ShortNone(lens: seq<nat>, n: nat)
    requires n <= |lens|
    ensures Short(lens, n, 0) == 0
  {
    if n > 0 { ShortNone(lens, n - 1); }
  }

  /** The blocks of the table lie one after another within it. */
  lemma {:induction false} OffsetBound(lens: seq<nat>, l: nat)
    requires l > 0
    ensures Offset(lens, l) + Count(lens, |lens|, l) == Short(lens, |lens|, l) <= |lens|
  {
    ShortStep(lens, |lens|, l);
    if l == 1 { ShortNone(lens, |lens|); } else { OffsetBound(lens, l - 1); }
  }

  lemma {:induction false} OffsetOrder(lens: seq<nat>, l: nat, m: nat)
    requires 0 < l < m
    ensures Offset(lens, l) + Count(lens, |lens|, l) <= Offset(lens, m)
  {
    if l < m - 1 { OffsetOrder(lens, l, m - 1); }
  }

  /** Symbols of the first n are in their places. */
  ghost predicate Placed(lens: seq<nat>, n: nat, symbol: seq<nat>)
    requires n <= |lens|
  {
    && |lens| <= |symbol|
    && forall i {:trigger InPlace(lens, symbol, i)} :: 0 <= i < n ==> InPlace(lens, symbol, i)
  }

  ghost predicate InPlace(lens: seq<nat>, symbol: seq<nat>, i: nat)
    requires i < |lens|
  {
    lens[i] > 0 ==> Slot(lens, i) < |symbol| && symbol[Slot(lens, i)] == i
  }

  function Slot(lens: seq<nat>, i: nat): nat
    requires i < |lens|
  {
    Offset(lens, lens[i]) + Count(lens, i, lens[i])
  }

  lemma SlotBound(lens: seq<nat>, i: nat)
    requires i < |lens| && lens[i] > 0
    ensures Slot(lens, i) < Offset(lens, lens[i]) + Count(lens, |lens|, lens[i]) <= |lens|
  {
    CountBefore(lens, i, |lens|);
    OffsetBound(lens, lens[i]);
  }

  lemma SlotsDistinct(lens: seq<nat>, i: nat, j: nat)
    requires i < j < |lens| && lens[i] > 0 && lens[j] > 0
    ensures Slot(lens, i) != Slot(lens, j)
  {
    SlotBound(lens, i);
    SlotBound(lens, j);
    if lens[i] == lens[j] {
      CountBefore(lens, i, j);
    } else if lens[i] < lens[j] {
      OffsetOrder(lens, lens[i], lens[j]);
    } else {
      OffsetOrder(lens, lens[j], lens[i]);
    }
  }

  lemma PlaceOne(lens: seq<nat>, n: nat, symbol: seq<nat>)
    requires n < |lens| && Placed(lens, n, symbol) && lens[n] > 0
    ensures Slot(lens, n) < |symbol| && Placed(lens, n + 1, symbol[Slot(lens, n) := n])
  {
    SlotBound(lens, n);
    var symbol' := symbol[Slot(lens, n) := n];
    forall i | 0 <= i < n + 1
      ensures InPlace(lens, symbol', i)
    {
      if i < n && lens[i] > 0 {
        assert InPlace(lens, symbol, i);
        SlotsDistinct(lens, i, n);
      }
    }
  }

  class Huffman {
    var maxBits: nat
    const count: array<nat>
    const symbol: array<nat>
    ghost var lens: seq<nat>

    ghost predicate Shape()
      reads this
    {
      count.Length == MAX_TREE_PATH + 1 && symbol.Length == MAIN_CODE_COUNT && count != symbol
    }

    /** The table decodes the code with lengths lens. */
    ghost predicate Valid()
      reads this, count, symbol
    {
      && Shape() && Usable(lens) && maxBits == MaxLength(lens)
      && (forall l {:trigger count[l]} :: 0 < l <= MAX_TREE_PATH ==> count[l] == Count(lens, |lens|, l))
      && (maxBits > 0 ==> Placed(lens, |lens|, symbol[..]))
    }

    constructor ()
      ensures Shape() && fresh(count) && fresh(symbol)
    {
      maxBits := 0;
      count := new nat[MAX_TREE_PATH + 1](_ => 0);
      symbol := new nat[MAIN_CODE_COUNT](_ => 0);
      lens := [];
    }

    /** Accepts exactly the complete codes and the empty one. */
    method Build(lens: seq<nat>) returns (ok: bool)
      requires Shape() && |lens| <= MAIN_CODE_COUNT
      modifies this, count, symbol
      ensures Shape() && ok == Usable(lens)
      ensures ok ==> Valid() && this.lens == lens
    {
      var counted := CountLengths(lens);
      if !counted { return false; }
      this.lens := lens;
      MaxLengthBounds(lens, MAX_TREE_PATH);
      if maxBits == 0 { return true; }
      ok := CheckComplete();
      if ok { PlaceSymbols(lens); }
    }

    method CountLengths(lens: seq<nat>) returns (ok: bool)
      requires Shape()
      modifies this`maxBits, count
      ensures Shape() && ok == Bounded(lens, MAX_TREE_PATH)
      ensures ok ==> maxBits == MaxLength(lens)
      ensures ok ==> forall l {:trigger count[l]} :: 0 <= l <= MAX_TREE_PATH ==> count[l] == Count(lens, |lens|, l)
    {
      for i := 0 to count.Length
        invariant forall l :: 0 <= l < i ==> count[l] == 0
      {
        count[i] := 0;
      }
      maxBits := 0;
      for i := 0 to |lens|
        invariant maxBits == Longest(lens, i)
        invariant forall j :: 0 <= j < i ==> lens[j] <= MAX_TREE_PATH
        invariant forall l {:trigger count[l]} :: 0 <= l <= MAX_TREE_PATH ==> count[l] == Count(lens, i, l)
      {
        if lens[i] > MAX_TREE_PATH { return false; }
        count[lens[i]] := count[lens[i]] + 1;
        if lens[i] > maxBits { maxBits := lens[i]; }
      }
      ok := true;
    }

    method CheckComplete() returns (ok: bool)
      requires Shape() && Bounded(lens, MAX_TREE_PATH)
      requires forall l {:trigger count[l]} :: 0 <= l <= MAX_TREE_PATH ==> count[l] == Count(lens, |lens|, l)
      ensures ok == (Kraft(lens, |lens|, MAX_TREE_PATH) == Pow2(MAX_TREE_PATH))
    {
      var left: int := 1;
      KraftZero(lens, |lens|);
      for l := 1 to MAX_TREE_PATH + 1
        invariant left == Pow2(l - 1) - Kraft(lens, |lens|, l - 1)
      {
        KraftStep(lens, |lens|, l);
        left := 2 * left - count[l];
        if left < 0 {
          if Kraft(lens, |lens|, MAX_TREE_PATH) == Pow2(MAX_TREE_PATH) {
            KraftBelow(lens, l, MAX_TREE_PATH);
          }
          return false;
        }
      }
      ok := left == 0;
    }

    method PlaceSymbols(lens: seq<nat>)
      requires Shape() && Bounded(lens, MAX_TREE_PATH) && |lens| <= MAIN_CODE_COUNT
      requires forall l {:trigger count[l]} :: 0 <= l <= MAX_TREE_PATH ==> count[l] == Count(lens, |lens|, l)
      modifies symbol
      ensures Placed(lens, |lens|, symbol[..])
    {
      var offs := Offsets(lens);
      for i := 0 to |lens|
        invariant Placed(lens, i, symbol[..])
        invariant forall l {:trigger offs[l]} ::
                  0 < l <= MAX_TREE_PATH ==> offs[l] == Offset(lens, l) + Count(lens, i, l)
      {
        var l := lens[i];
        if l != 0 {
          PlaceOne(lens, i, symbol[..]);
          symbol[offs[l]] := i;
          offs[l] := offs[l] + 1;
        }
      }
    }

    method Offsets(lens: seq<nat>) returns (offs: array<nat>)
      requires Shape()
      requires forall l {:trigger count[l]} :: 0 <= l <= MAX_TREE_PATH ==> count[l] == Count(lens, |lens|, l)
      ensures fresh(offs) && offs.Length == MAX_TREE_PATH + 2
      ensures forall l {:trigger offs[l]} :: 0 < l <= MAX_TREE_PATH ==> offs[l] == Offset(lens, l)
    {
      offs := new nat[MAX_TREE_PATH + 2](_ => 0);
      for l := 1 to MAX_TREE_PATH
        invariant forall m {:trigger offs[m]} :: 0 < m <= l ==> offs[m] == Offset(lens, m)
      {
        offs[l + 1] := offs[l] + count[l];
      }
    }
  }

  /** The spec-level outcome of a symbol read, as the reader reports it. */
  ghost predicate Agrees(r: Option<Decoded<nat>>, c: nat, at: nat, err: bool)
  {
    match r
    case None => err
    case Some(d) => !err && c == d.value && at == d.next
  }

  /** Decodes one symbol, a bit at a time. Only a tree with no code sets err. */
  method Sym(b: BitReader, h: Huffman) returns (c: nat)
    requires b.Valid() && h.Valid() && !b.err
    modifies b`pos, b`acc, b`nbits, b`at, b`fed, b`err
    ensures b.Valid()
    ensures Agrees(ReadSymbol(h.lens, b.Src(), old(b.at)), c, b.at, b.err)
  {
    hide Kraft, Value, Window, StreamBit, SymbolAt, SymbolFrom, First, Offset, Count, Huffman.Valid, Buffered;
    TableSays(h);
    PastLongest(h.lens, h.maxBits, b.Src(), b.at, h.maxBits + 1);
    if h.maxBits == 0 {
      b.err := true;
      return 0;
    }
    var code, first, index := 0, 0, 0;
    ghost var lens, s, at := h.lens, b.Src(), b.at;
    NothingRead(lens, s, at);
    for l := 1 to h.maxBits + 1
      invariant b.Valid() && !b.err && b.at == at + l - 1
      invariant code == 2 * Value(Window(s, at, l - 1)) >= 2 * Kraft(lens, |lens|, l - 1)
      invariant first == First(lens, l) && index == Offset(lens, l)
      invariant SymbolFrom(lens, h.maxBits, s, at, l) == ReadSymbol(lens, s, at)
    {
      code := AppendBit(b, code, at, l);
      TryLength(lens, h.maxBits, s, at, l);
      NextLength(lens, l);
      CountSays(h, l);
      var cnt := h.count[l];
      if code - first < cnt {
        FoundSymbol(h, l, code - first);
        return h.symbol[index + code - first];
      }
      index := index + cnt;
      first := 2 * (first + cnt);
      code := 2 * code;
    }
    b.err := true;
    c := 0;
  }

  lemma TableSays(h: Huffman)
    requires h.Valid()
    ensures h.maxBits == MaxLength(h.lens) <= MAX_TREE_PATH
  {
    hide Kraft;
    MaxLengthBounds(h.lens, MAX_TREE_PATH);
  }

  lemma CountSays(h: Huffman, l: nat)
    requires h.Valid() && 0 < l <= MAX_TREE_PATH
    ensures l < h.count.Length && h.count[l] == Count(h.lens, |h.lens|, l)
  {
    hide Kraft, Count;
  }

  lemma PastLongest(lens: seq<nat>, maxBits: nat, s: Source, at: nat, l: nat)
    requires l > maxBits
    ensures SymbolFrom(lens, maxBits, s, at, l) == None
  {
  }

  lemma NothingRead(lens: seq<nat>, s: Source, at: nat)
    ensures Value(Window(s, at, 0)) == 0 && Kraft(lens, |lens|, 0) == 0 && First(lens, 1) == 0 && Offset(lens, 1) == 0
  {
    KraftZero(lens, |lens|);
  }

  /** Where the codes and the symbols of the next length begin. */
  lemma NextLength(lens: seq<nat>, l: nat)
    requires l > 0
    ensures First(lens, l + 1) == 2 * (First(lens, l) + Count(lens, |lens|, l))
    ensures Offset(lens, l + 1) == Offset(lens, l) + Count(lens, |lens|, l)
  {
    hide Count;
  }

  /** Reads one more bit onto the code, whose l - 1 bits so far began at position at. */
  method AppendBit(b: BitReader, code: nat, ghost at: nat, ghost l: nat) returns (r: nat)
    requires b.Valid() && l > 0 && b.at == at + l - 1 && code == 2 * Value(Window(b.Src(), at, l - 1))
    modifies b`pos, b`acc, b`nbits, b`at, b`fed
    ensures b.Valid() && b.at == at + l
    ensures code <= r == Value(Window(b.Src(), at, l))
  {
    var bit := b.Bits(1);
    NextBit(b.Src(), at, l, bit);
    r := Or(code, bit);
  }

  /** Having read l bits, a decoder either has a code of that length or goes on to the next. */
  lemma TryLength(lens: seq<nat>, maxBits: nat, s: Source, at: nat, l: nat)
    requires 0 < l <= maxBits && Value(Window(s, at, l)) >= 2 * Kraft(lens, |lens|, l - 1)
    ensures var code := Value(Window(s, at, l));
            var n := Count(lens, |lens|, l);
            && code >= First(lens, l)
            && (code - First(lens, l) < n ==>
                  SymbolFrom(lens, maxBits, s, at, l) ==
                    Some(Decoded(SymbolAt(lens, |lens|, l, code - First(lens, l)), at + l)))
            && (code - First(lens, l) >= n ==>
                  SymbolFrom(lens, maxBits, s, at, l) == SymbolFrom(lens, maxBits, s, at, l + 1)
                  && code >= Kraft(lens, |lens|, l))
  {
    FirstIsKraft(lens, l);
  }

  lemma NextBit(s: Source, at: nat, l: nat, bit: nat)
    requires l > 0 && bit == Value(Window(s, at + l - 1, 1))
    ensures Or(2 * Value(Window(s, at, l - 1)), bit) == Value(Window(s, at, l))
    ensures Value(Window(s, at, l)) >= 2 * Value(Window(s, at, l - 1))
  {
    WindowSplit(s, at, l - 1, 1);
    var a, b := Window(s, at, l - 1), Window(s, at + l - 1, 1);
    OneMoreBit(a, b);
    OrDisjoint(Value(a), bit, 1);
    assert Shl(Value(a), 1) == 2 * Shl(Value(a), 0);
  }

  lemma FoundSymbol(h: Huffman, l: nat, r: nat)
    requires h.Valid() && h.maxBits > 0 && l > 0 && r < Count(h.lens, |h.lens|, l)
    ensures Offset(h.lens, l) + r < h.symbol.Length
    ensures h.symbol[Offset(h.lens, l) + r] == SymbolAt(h.lens, |h.lens|, l, r)
  {
    var i := SymbolAt(h.lens, |h.lens|, l, r);
    assert InPlace(h.lens, h.symbol[..], i);
  }
}
