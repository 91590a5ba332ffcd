/** What the repair does to a one-bit code: it takes it away, for good, exactly when some length is over the limit. */
module OneBitCode {
  import opened Bits
  import opened Canonical
  import opened SymbolOrder
  import opened HuffmanDepths
  import opened HuffmanOptimal
  import opened Clamp

  // ---------- capping overfills ----------

  function Longer(lens: seq<nat>, n: nat, l: nat): nat
    requires n <= |lens|
  {
    if n == 0 then 0 else Longer(lens, n - 1, l) + (if lens[n - 1] > l then 1 else 0)
  }

  lemma {:induction false} SomeLonger(lens: seq<nat>, n: nat, l: nat, i: nat)
    requires i < n <= |lens| && lens[i] > l
    ensures Longer(lens, n, l) > 0
  {
    if i < n - 1 { SomeLonger(lens, n - 1, l, i); }
  }

  /** Cutting one bit more off doubles a share at most, and falls short of that for each length it cuts. */
  lemma {:induction false} CapHalves(lens: seq<nat>, n: nat, l: nat)
    requires n <= |lens| && l > 0
    ensures 2 * Kraft(Cap(lens, l), n, l) == Kraft(Cap(lens, l + 1), n, l + 1) + Longer(lens, n, l)
  {
    if n > 0 {
      CapHalves(lens, n - 1, l);
      var len := lens[n - 1];
      if 0 < len <= l {
        assert Share(len, l + 1) == 2 * Share(len, l);
      } else if len > l {
        assert Share(l, l) == 1 && Share(l + 1, l + 1) == 1;
      }
    }
  }

  /** A complete code that is cut to a limit is over-full if any length was over it. */
  lemma {:induction false} CapOverfills(lens: seq<nat>, l: nat, wide: nat)
    requires 0 < l <= wide && Complete(lens, wide)
    ensures Kraft(Cap(lens, l), |lens|, l) >= Pow2(l)
    ensures !Bounded(lens, l) ==> Kraft(Cap(lens, l), |lens|, l) > Pow2(l)
    decreases wide - l
  {
    hide Kraft;
    if l == wide {
      assert Cap(lens, l) == lens;
    } else {
      CapOverfills(lens, l + 1, wide);
      CapHalves(lens, |lens|, l);
      if !Bounded(lens, l) {
        var i :| 0 <= i < |lens| && lens[i] > l;
        SomeLonger(lens, |lens|, l, i);
      }
    }
  }

  // ---------- the one-bit code comes first ----------

  lemma TwoOnes(lens: seq<nat>, s: nat, x: nat)
    requires s < x < |lens| && lens[s] == lens[x] == 1
    ensures Kraft(lens, |lens|, 1) >= 2
  {
    CountBefore(lens, s, x);
    CountBefore(lens, x, |lens|);
    KraftZero(lens, |lens|);
    KraftStep(lens, |lens|, 1);
  }

  /** Beside a one-bit code and a longer one there is no other one-bit code. */
  lemma OnlyOne(lens: seq<nat>, wide: nat, s: nat, x: nat, y: nat)
    requires Complete(lens, wide) && s < |lens| && x < |lens| && y < |lens| && lens[s] == 1 && lens[y] > 1 && x != s
    ensures lens[x] != 1
  {
    hide Kraft;
    assert Pow2(1) == 2;
    KraftStrict(lens, 1, wide, y);
    if lens[x] == 1 {
      if s < x { TwoOnes(lens, s, x); } else { TwoOnes(lens, x, s); }
    }
  }

  /** The repair takes the symbols in order of length, so the one with the one-bit code comes first. */
  lemma OneBitFirst(lens: seq<nat>, limit: nat, wide: nat, s: nat, y: nat)
    requires limit > 1 && Complete(lens, wide) && s < |lens| && y < |lens| && lens[s] == 1 && lens[y] > limit
    ensures var order := SortBy(Cap(lens, limit), Used(lens, |lens|)); order != [] && order[0] == s
  {
    hide Kraft, SortBy;
    var capped, used := Cap(lens, limit), Used(lens, |lens|);
    var order := SortBy(capped, used);
    UsedAre(lens, |lens|);
    SortByIsSorted(capped, used);
    assert s in used && s in multiset(order);
    assert order[0] in multiset(order) && order[0] in used;
    var i :| 0 <= i < |order| && order[i] == s;
    if order[0] != s {
      assert capped[order[0]] <= capped[order[i]];
      OnlyOne(lens, wide, s, order[0], y);
    }
  }

  // ---------- lengthening it gives away a quarter of the code space ----------

  /** Less than a quarter of the code space is free. */
  predicate Tight(lens: seq<nat>, limit: nat)
    requires limit > 1
  {
    Kraft(lens, |lens|, limit) + Pow2(limit - 2) > Pow2(limit)
  }

  lemma {:induction false} LengthenTight(lens: seq<nat>, s: nat, limit: nat)
    requires limit > 1 && s < |lens| && 0 < lens[s] < limit && Kraft(lens, |lens|, limit) > Pow2(limit)
    ensures Tight(lens[s := lens[s] + 1], limit)
  {
    hide Kraft;
    Lengthen(lens, s, limit);
    Pow2Monotone(limit - lens[s] - 1, limit - 2);
  }

  /** However far the lengthening goes, less than a quarter comes free, and no length shrinks. */
  lemma {:induction false} DeepenTight(lens: seq<nat>, order: seq<nat>, limit: nat)
    requires limit > 1 && Coded(lens, order, limit) && Tight(lens, limit)
    ensures Tight(Deepen(lens, order, limit), limit)
    ensures forall i :: 0 <= i < |lens| ==> Deepen(lens, order, limit)[i] >= lens[i]
    decreases Kraft(lens, |lens|, limit)
  {
    hide Kraft, Tight;
    if Kraft(lens, |lens|, limit) > Pow2(limit) {
      var k := FirstShort(lens, order, limit, 0);
      if k < |order| {
        Lengthen(lens, order[k], limit);
        LengthenTight(lens, order[k], limit);
        DeepenTight(lens[order[k] := lens[order[k]] + 1], order, limit);
      }
    }
  }

  /** An over-full code's first symbol loses its one-bit code. */
  lemma DeepenLoses(lens: seq<nat>, order: seq<nat>, limit: nat)
    requires limit > 1 && Coded(lens, order, limit) && order != [] && lens[order[0]] == 1 &&
             Kraft(lens, |lens|, limit) > Pow2(limit)
    ensures Tight(Deepen(lens, order, limit), limit) && Deepen(lens, order, limit)[order[0]] > 1
  {
    hide Kraft, Tight;
    Lengthen(lens, order[0], limit);
    LengthenTight(lens, order[0], limit);
    DeepenTight(lens[order[0] := 2], order, limit);
  }

  /** Filling never gives a one-bit code back: that would take a quarter of the code space. */
  lemma {:induction false} FillKeepsLonger(lens: seq<nat>, used: seq<nat>, limit: nat, s: nat)
    requires limit > 1 && Coded(lens, used, limit) && s < |lens| && lens[s] > 1 && Tight(lens, limit)
    ensures Fill(lens, used, limit)[s] > 1
    decreases Pow2(limit) - Kraft(lens, |lens|, limit)
  {
    hide Kraft;
    var total := Kraft(lens, |lens|, limit);
    if total < Pow2(limit) {
      var b := Deepest(lens, used, |used|, total, limit);
      if b != -1 {
        Shorten(lens, b, limit);
        FillKeepsLonger(lens[b := lens[b] - 1], used, limit, s);
      }
    }
  }

  lemma RepairLoses(lens: seq<nat>, limit: nat, s: nat)
    requires limit > 1 && s < |lens| && Kraft(Cap(lens, limit), |lens|, limit) > Pow2(limit) && lens[s] == 1
    requires var order := SortBy(Cap(lens, limit), Used(lens, |lens|)); order != [] && order[0] == s
    ensures Clamped(lens, limit)[s] > 1
  {
    hide Kraft, SortBy, Used, Cap, Deepen, Fill, Tight;
    var used, capped := Used(lens, |lens|), Cap(lens, limit);
    UsedAre(lens, |lens|);
    SortedCoded(capped, capped, used, limit);
    var order := SortBy(capped, used);
    DeepenLoses(capped, order, limit);
    DeepenKeeps(capped, order, limit);
    KeptCoded(capped, Deepen(capped, order, limit), used, limit);
    FillKeepsLonger(Deepen(capped, order, limit), used, limit, s);
  }

  /** A one-bit code survives the limit exactly when no code is over it. */
  lemma OneBitSurvives(lens: seq<nat>, limit: nat, wide: nat, s: nat)
    requires limit > 1 && Complete(lens, wide) && s < |lens| && lens[s] == 1
    ensures Clamped(lens, limit)[s] == 1 <==> Bounded(lens, limit)
  {
    hide Kraft, SortBy, Used, Clamped;
    if Bounded(lens, limit) {
      if limit <= wide { KraftFull(lens, limit, wide); } else { CompleteWider(lens, wide, limit); }
      ClampedLeavesAlone(lens, limit);
    } else {
      var y :| 0 <= y < |lens| && lens[y] > limit;
      CapOverfills(lens, limit, wide);
      OneBitFirst(lens, limit, wide, s, y);
      RepairLoses(lens, limit, s);
    }
  }
}
