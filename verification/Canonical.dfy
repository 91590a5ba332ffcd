/** Canonical prefix codes: which length vectors describe one, the codes they give, and how a code is decoded. */
module Canonical {
  import opened Bits
  import opened BitStream

  /** The longest code the format permits. */
  const MAX_TREE_PATH: nat := 16

  datatype Option<+T> = None | Some(value: T)

  /** How many of the first n symbols have length l. */
  function Count(lens: seq<nat>, n: nat, l: nat): (c: nat)
    requires n <= |lens|
    ensures c <= n
  {
    if n == 0 then 0 else Count(lens, n - 1, l) + (if lens[n - 1] == l then 1 else 0)
  }

  /** The share of the 2^l codes of length l that the first n symbols, those no longer than l, take up. */
  function Kraft(lens: seq<nat>, n: nat, l: nat): (k: nat)
    requires n <= |lens|
  {
    if n == 0 then 0 else Kraft(lens, n - 1, l) + Share(lens[n - 1], l)
  }

  /** A code of length len is a prefix of 2^(l - len) codes of length l. A symbol with no code has length 0. */
  function Share(len: nat, l: nat): (k: nat)
  {
    if 0 < len <= l then Pow2(l - len) else 0
  }

  predicate Bounded(lens: seq<nat>, limit: nat)
  {
    forall i :: 0 <= i < |lens| ==> lens[i] <= limit
  }

  predicate Absent(lens: seq<nat>)
  {
    forall i :: 0 <= i < |lens| ==> lens[i] == 0
  }

  /** The length vectors of complete codes: neither over- nor under-subscribed. */
  predicate Complete(lens: seq<nat>, limit: nat)
  {
    Bounded(lens, limit) && Kraft(lens, |lens|, limit) == Pow2(limit)
  }

  /** What a decoder accepts: a complete code, or no code at all. */
  predicate Usable(lens: seq<nat>)
  {
    Complete(lens, MAX_TREE_PATH) || Absent(lens)
  }

  // ---------- codes ----------

  /** The first code of length l, counting on from the codes of the shorter lengths. */
  function First(lens: seq<nat>, l: nat): (c: nat)
  {
    if l <= 1 then 0 else 2 * (First(lens, l - 1) + Count(lens, |lens|, l - 1))
  }

  /** The code of symbol i: symbols are ordered by length, then by number. */
  function Code(lens: seq<nat>, i: nat): (c: nat)
    requires i < |lens| && lens[i] > 0
  {
    First(lens, lens[i]) + Count(lens, i, lens[i])
  }

  function CodeBits(lens: seq<nat>, i: nat): (bs: seq<bool>)
    requires i < |lens| && lens[i] > 0
    ensures |bs| == lens[i]
  {
    BitsOf(Code(lens, i), lens[i])
  }

  lemma {:induction false} CountMonotone(lens: seq<nat>, m: nat, n: nat, l: nat)
    requires m <= n <= |lens|
    ensures Count(lens, m, l) <= Count(lens, n, l)
  {
    if m < n { CountMonotone(lens, m, n - 1, l); }
  }

  lemma CountBefore(lens: seq<nat>, i: nat, n: nat)
    requires i < n <= |lens|
    ensures Count(lens, i, lens[i]) < Count(lens, n, lens[i])
  {
    CountMonotone(lens, i + 1, n, lens[i]);
  }

  /** One bit further, every share doubles and the codes of that length join. */
  lemma {:induction false} KraftStep(lens: seq<nat>, n: nat, l: nat)
    requires n <= |lens| && l > 0
    ensures Kraft(lens, n, l) == 2 * Kraft(lens, n, l - 1) + Count(lens, n, l)
  {
    if n > 0 {
      KraftStep(lens, n - 1, l);
      var len := lens[n - 1];
      assert Share(len, l) == 2 * Share(len, l - 1) + (if len == l then 1 else 0);
    }
  }

  lemma {:induction false} KraftZero(lens: seq<nat>, n: nat)
    requires n <= |lens|
    ensures Kraft(lens, n, 0) == 0
  {
    if n > 0 { KraftZero(lens, n - 1); }
  }

  /** The codes up to length l end where the Kraft sum says. */
  lemma {:induction false} FirstIsKraft(lens: seq<nat>, l: nat)
    requires l > 0
    ensures First(lens, l) == 2 * Kraft(lens, |lens|, l - 1)
    ensures First(lens, l) + Count(lens, |lens|, l) == Kraft(lens, |lens|, l)
  {
    if l == 1 { KraftZero(lens, |lens|); } else { FirstIsKraft(lens, l - 1); }
    KraftStep(lens, |lens|, l);
  }

  /** A code that is not over-subscribed at the limit never was before it, and keeps the same gap. */
  lemma {:induction false} KraftBelow(lens: seq<nat>, l: nat, limit: nat)
    requires l <= limit && Kraft(lens, |lens|, limit) <= Pow2(limit)
    ensures Kraft(lens, |lens|, l) <= Pow2(l)
    decreases limit - l
  {
    if l < limit {
      KraftBelow(lens, l + 1, limit);
      KraftStep(lens, |lens|, l + 1);
    }
  }

  /** Past the longest code nothing is left over. */
  lemma {:induction false} KraftFull(lens: seq<nat>, l: nat, limit: nat)
    requires l <= limit && Bounded(lens, l) && Kraft(lens, |lens|, limit) == Pow2(limit)
    ensures Kraft(lens, |lens|, l) == Pow2(l)
    decreases limit - l
  {
    if l < limit {
      NoneOfLength(lens, |lens|, limit);
      KraftStep(lens, |lens|, limit);
      KraftFull(lens, l, limit - 1);
    }
  }

  lemma {:induction false} NoneOfLength(lens: seq<nat>, n: nat, l: nat)
    requires n <= |lens| && forall i :: 0 <= i < |lens| ==> lens[i] != l
    ensures Count(lens, n, l) == 0
  {
    if n > 0 { NoneOfLength(lens, n - 1, l); }
  }

  /** A complete code for one limit is complete for any larger one. */
  lemma {:induction false} CompleteWider(lens: seq<nat>, limit: nat, wider: nat)
    requires limit <= wider && Complete(lens, limit)
    ensures Complete(lens, wider)
    decreases wider - limit
  {
    if limit < wider {
      CompleteWider(lens, limit, wider - 1);
      NoneOfLength(lens, |lens|, wider);
      KraftStep(lens, |lens|, wider);
    }
  }

  /** A code fits in its own length, so writing it loses nothing. */
  lemma CodeFits(lens: seq<nat>, i: nat)
    requires i < |lens| && 0 < lens[i] <= MAX_TREE_PATH && Complete(lens, MAX_TREE_PATH)
    ensures First(lens, lens[i]) <= Code(lens, i) < First(lens, lens[i]) + Count(lens, |lens|, lens[i])
    ensures Code(lens, i) < Pow2(lens[i])
  {
    CountBefore(lens, i, |lens|);
    FirstIsKraft(lens, lens[i]);
    KraftBelow(lens, lens[i], MAX_TREE_PATH);
  }

  // ---------- decoding ----------

  /** The symbol that is number r, from 0, among those of length l. */
  function SymbolAt(lens: seq<nat>, n: nat, l: nat, r: nat): (i: nat)
    requires n <= |lens| && r < Count(lens, n, l)
    ensures i < n && lens[i] == l && Count(lens, i, l) == r
  {
    if r == Count(lens, n - 1, l) then n - 1 else SymbolAt(lens, n - 1, l, r)
  }

  lemma {:induction false} SymbolAtUnique(lens: seq<nat>, i: nat, n: nat)
    requires i < n <= |lens|
    ensures Count(lens, i, lens[i]) < Count(lens, n, lens[i])
    ensures SymbolAt(lens, n, lens[i], Count(lens, i, lens[i])) == i
  {
    CountBefore(lens, i, n);
    var j := SymbolAt(lens, n, lens[i], Count(lens, i, lens[i]));
    if j < i { CountBefore(lens, j, i); } else if i < j { CountBefore(lens, i, j); }
  }

  /** A decoded value and the bit position after it. */
  datatype Decoded<+T> = Decoded(value: T, next: nat)

  /** Decodes one symbol, having found that the first l - 1 bits at position at are no code. */
  function SymbolFrom(lens: seq<nat>, maxBits: nat, s: Source, at: nat, l: nat): (r: Option<Decoded<nat>>)
    requires l > 0
    ensures r.Some? ==> r.value.value < |lens| && lens[r.value.value] > 0
    decreases maxBits + 1 - l
  {
    if l > maxBits then None
    else
      var code := Value(Window(s, at, l));
      if First(lens, l) <= code < First(lens, l) + Count(lens, |lens|, l) then
        Some(Decoded(SymbolAt(lens, |lens|, l, code - First(lens, l)), at + l))
      else
        SymbolFrom(lens, maxBits, s, at, l + 1)
  }

  /** The longest length among the first n symbols, 0 when none has one. */
  function Longest(lens: seq<nat>, n: nat): (m: nat)
    requires n <= |lens|
  {
    if n == 0 then 0 else if lens[n - 1] > Longest(lens, n - 1) then lens[n - 1] else Longest(lens, n - 1)
  }

  function MaxLength(lens: seq<nat>): (m: nat)
  {
    Longest(lens, |lens|)
  }

  lemma {:induction false} LongestBounds(lens: seq<nat>, n: nat)
    requires n <= |lens|
    ensures forall i :: 0 <= i < n ==> lens[i] <= Longest(lens, n)
    ensures Longest(lens, n) > 0 ==> exists i :: 0 <= i < n && lens[i] == Longest(lens, n)
  {
    if n > 0 { LongestBounds(lens, n - 1); }
  }

  /** The longest length is a bound, and is within every other one. */
  lemma MaxLengthBounds(lens: seq<nat>, limit: nat)
    ensures Bounded(lens, MaxLength(lens)) && (MaxLength(lens) == 0 <==> Absent(lens))
    ensures Bounded(lens, limit) ==> MaxLength(lens) <= limit
  {
    LongestBounds(lens, |lens|);
  }

  function ReadSymbol(lens: seq<nat>, s: Source, at: nat): (r: Option<Decoded<nat>>)
    ensures r.Some? ==> r.value.value < |lens| && lens[r.value.value] > 0
  {
    SymbolFrom(lens, MaxLength(lens), s, at, 1)
  }

  /** The first l bits of a longer code lie beyond every code of length l or less. */
  lemma PrefixIsNoCode(lens: seq<nat>, i: nat, l: nat)
    requires i < |lens| && 0 < l < lens[i]
    ensures Shr(Code(lens, i), lens[i] - l) >= Kraft(lens, |lens|, l)
  {
    FirstIsKraft(lens, lens[i]);
    PrefixBound(lens, Code(lens, i), l, lens[i]);
  }

  lemma {:induction false} PrefixBound(lens: seq<nat>, code: nat, l: nat, len: nat)
    requires l < len && code >= 2 * Kraft(lens, |lens|, len - 1)
    ensures Shr(code, len - l) >= Kraft(lens, |lens|, l)
    decreases len
  {
    if l < len - 1 {
      KraftStep(lens, |lens|, len - 1);
      PrefixBound(lens, code / 2, l, len - 1);
    } else {
      assert Shr(code, len - l) == code / 2;
    }
  }

  /** A decoder fed the code of a symbol returns that symbol, having read exactly its bits. */
  lemma ReadsCode(lens: seq<nat>, i: nat, s: Source, at: nat)
    requires i < |lens| && lens[i] > 0 && Complete(lens, MAX_TREE_PATH)
    requires Holds(s, at, CodeBits(lens, i))
    ensures ReadSymbol(lens, s, at) == Some(Decoded(i, at + lens[i]))
  {
    ReadsCodeFrom(lens, i, s, at, 1);
  }

  lemma {:induction false} ReadsCodeFrom(lens: seq<nat>, i: nat, s: Source, at: nat, l: nat)
    requires i < |lens| && 0 < l <= lens[i] && Complete(lens, MAX_TREE_PATH)
    requires Holds(s, at, CodeBits(lens, i))
    ensures SymbolFrom(lens, MaxLength(lens), s, at, l) == Some(Decoded(i, at + lens[i]))
    decreases lens[i] - l
  {
    hide Kraft, First, Count, Window, Value, Pow2, Code, MaxLength, Holds;
    MaxLengthBounds(lens, MAX_TREE_PATH);
    if l < lens[i] {
      NotYetACode(lens, i, s, at, l);
      ReadsCodeFrom(lens, i, s, at, l + 1);
    } else {
      CodeFound(lens, i, s, at);
    }
  }

  lemma CodeFound(lens: seq<nat>, i: nat, s: Source, at: nat)
    requires i < |lens| && 0 < lens[i] <= MAX_TREE_PATH && Complete(lens, MAX_TREE_PATH)
    requires Holds(s, at, CodeBits(lens, i))
    ensures First(lens, lens[i]) <= Value(Window(s, at, lens[i])) < First(lens, lens[i]) + Count(lens, |lens|, lens[i])
    ensures SymbolAt(lens, |lens|, lens[i], Value(Window(s, at, lens[i])) - First(lens, lens[i])) == i
  {
    hide Kraft, First, Count, Window, Value, Pow2, Complete;
    CodeFits(lens, i);
    HoldsValue(s, at, Code(lens, i), lens[i]);
    SymbolAtUnique(lens, i, |lens|);
  }

  lemma {:induction false} NotYetACode(lens: seq<nat>, i: nat, s: Source, at: nat, l: nat)
    requires i < |lens| && 0 < l < lens[i] && Complete(lens, MAX_TREE_PATH)
    requires Holds(s, at, CodeBits(lens, i))
    ensures Value(Window(s, at, l)) >= First(lens, l) + Count(lens, |lens|, l)
  {
    var len := lens[i];
    CodeFits(lens, i);
    HoldsValue(s, at, Code(lens, i), len);
    PrefixIsNoCode(lens, i, l);
    FirstIsKraft(lens, l);
    WindowSplit(s, at, l, len - l);
    ValueSplit(Window(s, at, l), Window(s, at + l, len - l));
  }

  /** No code is a prefix of another symbol's. */
  lemma PrefixFree(lens: seq<nat>, i: nat, j: nat)
    requires i < |lens| && j < |lens| && lens[i] > 0 && lens[j] > 0 && Complete(lens, MAX_TREE_PATH)
    requires CodeBits(lens, i) <= CodeBits(lens, j)
    ensures i == j
  {
    CodeFits(lens, i);
    CodeFits(lens, j);
    ValueOfSmallBits(Code(lens, i), lens[i]);
    ValueOfSmallBits(Code(lens, j), lens[j]);
    if lens[i] < lens[j] {
      ShorterIsNoPrefix(lens, i, j);
    }
    assert CodeBits(lens, i) == CodeBits(lens, j);
    SymbolAtUnique(lens, i, |lens|);
    SymbolAtUnique(lens, j, |lens|);
  }

  lemma ShorterIsNoPrefix(lens: seq<nat>, i: nat, j: nat)
    requires i < |lens| && j < |lens| && 0 < lens[i] < lens[j] && Complete(lens, MAX_TREE_PATH)
    ensures !(CodeBits(lens, i) <= CodeBits(lens, j))
  {
    var a, b := CodeBits(lens, i), CodeBits(lens, j);
    if a <= b {
      CodeFits(lens, i);
      CodeFits(lens, j);
      ValueOfSmallBits(Code(lens, i), lens[i]);
      ValueOfSmallBits(Code(lens, j), lens[j]);
      PrefixIsNoCode(lens, j, lens[i]);
      FirstIsKraft(lens, lens[i]);
      assert b == a + b[|a|..];
      ValueSplit(a, b[|a|..]);
    }
  }

  /** Every bit stream begins with a code: with a complete code a decoder always finds a symbol. */
  lemma AlwaysDecodes(lens: seq<nat>, s: Source, at: nat)
    requires Complete(lens, MAX_TREE_PATH)
    ensures ReadSymbol(lens, s, at).Some?
    ensures at < ReadSymbol(lens, s, at).value.next <= at + MaxLength(lens)
  {
    var m := MaxLength(lens);
    MaxLengthBounds(lens, MAX_TREE_PATH);
    if m == 0 {
      AbsentKraft(lens, |lens|, MAX_TREE_PATH);
      assert false;
    }
    assert m <= MAX_TREE_PATH;
    KraftFull(lens, m, MAX_TREE_PATH);
    KraftZero(lens, |lens|);
    AlwaysDecodesFrom(lens, s, at, 1);
  }

  lemma {:induction false} AbsentKraft(lens: seq<nat>, n: nat, l: nat)
    requires n <= |lens| && Absent(lens)
    ensures Kraft(lens, n, l) == 0
  {
    if n > 0 { AbsentKraft(lens, n - 1, l); }
  }

  lemma {:induction false} AlwaysDecodesFrom(lens: seq<nat>, s: Source, at: nat, l: nat)
    requires 0 < l <= MaxLength(lens) && Kraft(lens, |lens|, MaxLength(lens)) == Pow2(MaxLength(lens))
    requires Value(Window(s, at, l - 1)) >= Kraft(lens, |lens|, l - 1)
    ensures var r := SymbolFrom(lens, MaxLength(lens), s, at, l);
            r.Some? && at < r.value.next <= at + MaxLength(lens)
    decreases MaxLength(lens) - l
  {
    FirstIsKraft(lens, l);
    WindowSplit(s, at, l - 1, 1);
    OneMoreBit(Window(s, at, l - 1), Window(s, at + l - 1, 1));
    var code := Value(Window(s, at, l));
    if code >= Kraft(lens, |lens|, l) {
      assert l < MaxLength(lens);
      AlwaysDecodesFrom(lens, s, at, l + 1);
    }
  }

  lemma OneMoreBit(a: seq<bool>, b: seq<bool>)
    requires |b| == 1
    ensures Value(a + b) == 2 * Value(a) + Value(b) && Value(b) <= 1
    ensures Value(b) == if b[0] then 1 else 0
  {
    ValueConcat(a, b);
    assert PrefixValue(b, 0) == 0;
  }

  /** A tree with no code decodes nothing. */
  lemma AbsentDecodesNothing(lens: seq<nat>, s: Source, at: nat)
    requires Absent(lens)
    ensures ReadSymbol(lens, s, at) == None
  {
    MaxLengthBounds(lens, 0);
  }

  /**
   * The room the codes before symbol j's take up, among codes of its length: those of every shorter code, and those of
   * its own length with a smaller number.
   */
  function Earlier(lens: seq<nat>, n: nat, j: nat): (k: nat)
    requires n <= |lens| && j < |lens|
  {
    if n == 0 then 0
    else
      var len := lens[n - 1];
      Earlier(lens, n - 1, j) + if 0 < len < lens[j] || (len == lens[j] && n - 1 < j) then Pow2(lens[j] - len) else 0
  }

  /** A symbol's code is the room the codes before it take up: the first is zero, and none is left out between two. */
  lemma CodeIsEarlier(lens: seq<nat>, j: nat)
    requires j < |lens| && lens[j] > 0
    ensures Code(lens, j) == Earlier(lens, |lens|, j)
  {
    FirstIsKraft(lens, lens[j]);
    EarlierIsKraft(lens, |lens|, j);
  }

  lemma {:induction false} EarlierIsKraft(lens: seq<nat>, n: nat, j: nat)
    requires n <= |lens| && j < |lens| && lens[j] > 0
    ensures Earlier(lens, n, j)
         == 2 * Kraft(lens, n, lens[j] - 1) + Count(lens, if n < j then n else j, lens[j])
  {
    if n > 0 {
      EarlierIsKraft(lens, n - 1, j);
      var len, l := lens[n - 1], lens[j];
      if 0 < len < l { assert Pow2(l - len) == 2 * Share(len, l - 1); }
    }
  }
}
