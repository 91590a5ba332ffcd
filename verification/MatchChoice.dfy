/**
 * What the match finder codes, told from the data: at each position the longest match it can see, and of those as long
 * the one it looks at first, unless the next position has a longer one.
 */
module MatchChoice {
  import opened Bits
  import opened BitStream
  import opened Slots
  import opened Tokens
  import opened MatchFinder

  // ---------- what can be seen ----------

  /** A recent offset, or that of one of the latest 64 positions entered that have the position's hash. */
  ghost predicate Seen(data: seq<byte>, pos: nat, inserted: nat, recent: Recent, offset: nat)
  {
    && pos + 3 <= |data| && 0 < offset <= pos
    && var hs := Hashes(data, |data|);
       || offset in [recent.r0, recent.r1, recent.r2]
       || (pos - offset < inserted && hs[pos - offset] == hs[pos] &&
             CountWith(hs, hs[pos], pos - offset + 1, inserted) < 64)
  }

  /** A match of n bytes that can be seen. */
  ghost predicate Offers(data: seq<byte>, pos: nat, inserted: nat, recent: Recent, offset: nat, n: nat)
  {
    Seen(data, pos, inserted, recent, offset) && Matches(data, pos, offset, n) && n <= 257
  }

  /** The recent offsets come first, in their order, and then the nearer position before the farther. */
  predicate NoLater(recent: Recent, a: nat, b: nat)
  {
    if b == recent.r0 then a == recent.r0
    else if b == recent.r1 then a in [recent.r0, recent.r1]
    else a in [recent.r0, recent.r1, recent.r2] || (b != recent.r2 && a <= b)
  }

  // ---------- the search ----------

  lemma {:induction false} CountJoins(hs: seq<nat>, h: nat, a: nat, m: nat, n: nat)
    requires a <= m <= n
    ensures CountWith(hs, h, a, n) == CountWith(hs, h, a, m) + CountWith(hs, h, m, n)
  {
    if m < n { CountJoins(hs, h, a, m, n - 1); }
  }

  lemma {:induction false} NoneAfterLast(hs: seq<nat>, h: nat, n: nat)
    ensures CountWith(hs, h, LastWith(hs, h, n), n) == 0
    ensures LastWith(hs, h, n) > 0 ==> hs[LastWith(hs, h, n) - 1] == h
  {
    if n > 0 && !(n <= |hs| && hs[n - 1] == h) { NoneAfterLast(hs, h, n - 1); }
  }

  /** One step down the chain passes one position with the hash. */
  lemma ChainCounts(hs: seq<nat>, h: nat, cur: nat, inserted: nat)
    requires 0 < cur <= inserted && cur <= |hs| && hs[cur - 1] == h
    ensures CountWith(hs, h, LastWith(hs, h, cur - 1), inserted) == CountWith(hs, h, cur, inserted) + 1
    ensures LastWith(hs, h, cur - 1) > 0 ==> hs[LastWith(hs, h, cur - 1) - 1] == h
  {
    var prev := LastWith(hs, h, cur - 1);
    NoneAfterLast(hs, h, cur - 1);
    CountJoins(hs, h, prev, cur - 1, inserted);
    CountJoins(hs, h, cur - 1, cur, inserted);
    assert CountWith(hs, h, cur - 1, cur) == CountWith(hs, h, cur - 1, cur - 1) + 1;
  }

  /** What the chain turns up can be seen. */
  lemma {:induction false} ChainIsSeen(data: seq<byte>, pos: nat, inserted: nat, recent: Recent, cur: nat, left: nat,
                                       best: Found)
    requires cur <= inserted <= pos && pos + MIN_LENGTH <= |data|
    requires var hs := Hashes(data, |data|);
             && (cur > 0 ==> hs[cur - 1] == hs[pos]) && CountWith(hs, hs[pos], cur, inserted) + left <= MAX_CHAIN
    ensures var f := TryChain(data, Hashes(data, |data|), pos, cur, left, best);
            f == best || (f.length > best.length && Seen(data, pos, inserted, recent, f.offset))
    decreases left
  {
    hide MatchLen, Hashes;
    var hs := Hashes(data, |data|);
    if cur > 0 && left > 0 {
      var better := Better(data, pos, cur, best);
      ChainCounts(hs, hs[pos], cur, inserted);
      ChainIsSeen(data, pos, inserted, recent, LastWith(hs, hs[pos], cur - 1), left - 1, better);
      assert better == best || better.offset == pos - (cur - 1);
    }
  }

  lemma ChainStep(data: seq<byte>, hs: seq<nat>, pos: nat, cur: nat, left: nat, best: Found)
    requires 0 < cur <= pos <= |data| && cur <= |hs| && left > 0
    ensures var better := Better(data, pos, cur, best);
            && (better == best || (better.length > best.length && better.offset == pos - (cur - 1)))
            && better.length >= MatchLen(data, pos, cur - 1, Reach(data, pos), 0)
            && var f := TryChain(data, hs, pos, cur, left, best);
               || f == TryChain(data, hs, pos, LastWith(hs, hs[cur - 1], cur - 1), left - 1, better)
               || (f == better && f.length >= Reach(data, pos))
  {
    hide MatchLen;
  }

  lemma {:induction false} ChainImproves(data: seq<byte>, hs: seq<nat>, pos: nat, cur: nat, left: nat, best: Found)
    requires cur <= pos <= |data| && cur <= |hs|
    ensures var f := TryChain(data, hs, pos, cur, left, best); f == best || f.length > best.length
    decreases left
  {
    hide MatchLen;
    if cur > 0 && left > 0 {
      ChainImproves(data, hs, pos, LastWith(hs, hs[cur - 1], cur - 1), left - 1, Better(data, pos, cur, best));
    }
  }

  /** Of matches as long, the chain keeps the one it meets first, which is the nearest. */
  lemma {:induction false} ChainKeepsFirst(data: seq<byte>, pos: nat, hs: seq<nat>, cur: nat, left: nat, best: Found,
                                           q: nat, n: nat)
    requires q < cur <= pos <= |data| && cur <= |hs| && hs[q] == hs[cur - 1] && CountWith(hs, hs[q], q + 1, cur) < left
    requires Matches(data, pos, pos - q, n) && n <= MAX_MATCH
    ensures var f := TryChain(data, hs, pos, cur, left, best);
            f.length > n || (f.length == n && (f == best || f.offset <= pos - q))
    decreases left
  {
    hide MatchLen, Matches, TryChain, Better, Reach;
    MatchLenIsMost(data, pos, pos - q, n);
    ChainStep(data, hs, pos, cur, left, best);
    var better, before := Better(data, pos, cur, best), LastWith(hs, hs[cur - 1], cur - 1);
    ChainImproves(data, hs, pos, before, left - 1, better);
    if q < cur - 1 {
      LastWithin(hs, hs[q], q, cur - 1);
      ChainKeepsFirst(data, pos, hs, before, left - 1, better, q, n);
    }
  }

  lemma RecentIsSeen(data: seq<byte>, pos: nat, recent: Recent)
    requires pos <= |data|
    ensures var f := BestRecent(data, pos, recent);
            f.length > 0 ==> 0 < f.offset <= pos && f.offset in [recent.r0, recent.r1, recent.r2]
  {
    hide MatchLen;
  }

  lemma RecentKeepsFirst(data: seq<byte>, pos: nat, recent: Recent, offset: nat, n: nat)
    requires Matches(data, pos, offset, n) && 0 < n <= MAX_MATCH && offset in [recent.r0, recent.r1, recent.r2]
    ensures var f := BestRecent(data, pos, recent); f.length > n || (f.length == n && NoLater(recent, f.offset, offset))
  {
    hide MatchLen, Agree;
    MatchLenIsMost(data, pos, offset, n);
  }

  lemma ChainStart(data: seq<byte>, pos: nat, inserted: nat)
    requires inserted <= pos && pos + MIN_LENGTH <= |data|
    ensures var hs := Hashes(data, |data|);
            var first := LastWith(hs, hs[pos], inserted);
            && first <= inserted && (first > 0 ==> hs[first - 1] == hs[pos])
            && CountWith(hs, hs[pos], first, inserted) == 0
  {
    var hs := Hashes(data, |data|);
    NoneAfterLast(hs, hs[pos], inserted);
  }

  /** What the search finds is a match that can be seen. */
  lemma LongestIsOffered(data: seq<byte>, pos: nat, inserted: nat, recent: Recent)
    requires inserted <= pos <= |data|
    ensures var f := Longest(data, Hashes(data, |data|), pos, inserted, recent);
            f.length > 0 ==> Offers(data, pos, inserted, recent, f.offset, f.length)
  {
    hide BestRecent, TryChain, Matches, Hashes, CountWith;
    var hs := Hashes(data, |data|);
    LongestSound(data, hs, pos, inserted, recent);
    if pos < |hs| {
      ChainStart(data, pos, inserted);
      RecentIsSeen(data, pos, recent);
      ChainIsSeen(data, pos, inserted, recent, LastWith(hs, hs[pos], inserted), MAX_CHAIN,
                  BestRecent(data, pos, recent));
    }
  }

  /** No match that can be seen is longer than the one found, and none as long comes before it. */
  lemma LongestIsFirst(data: seq<byte>, pos: nat, inserted: nat, recent: Recent, offset: nat, n: nat)
    requires inserted <= pos <= |data| && n > 0 && Offers(data, pos, inserted, recent, offset, n)
    ensures var f := Longest(data, Hashes(data, |data|), pos, inserted, recent);
            f.length > n || (f.length == n && NoLater(recent, f.offset, offset))
  {
    hide BestRecent, TryChain, Matches, Hashes, CountWith;
    var hs := Hashes(data, |data|);
    var best, first := BestRecent(data, pos, recent), LastWith(hs, hs[pos], inserted);
    ChainStart(data, pos, inserted);
    RecentIsSeen(data, pos, recent);
    ChainIsSeen(data, pos, inserted, recent, first, MAX_CHAIN, best);
    if offset in [recent.r0, recent.r1, recent.r2] {
      RecentKeepsFirst(data, pos, recent, offset, n);
    } else {
      LastWithin(hs, hs[pos], pos - offset, inserted);
      ChainKeepsFirst(data, pos, hs, first, MAX_CHAIN, best, pos - offset, n);
    }
  }

  // ---------- the tokens ----------

  /** No match that can be seen is longer than n. */
  ghost predicate NoneOver(data: seq<byte>, pos: nat, inserted: nat, recent: Recent, n: nat)
  {
    forall offset: nat, m: nat {:trigger Offers(data, pos, inserted, recent, offset, m)} ::
      Offers(data, pos, inserted, recent, offset, m) ==> m <= n
  }

  /** A literal where there is no match of three bytes, or a longer one starts at the next position. */
  ghost predicate LiteralIsDue(data: seq<byte>, pos: nat, recent: Recent)
  {
    || NoneOver(data, pos, pos, recent, 2)
    || exists offset: nat, n: nat {:trigger Offers(data, pos + 1, pos, recent, offset, n)} ::
         n > 0 && Offers(data, pos + 1, pos, recent, offset, n) && NoneOver(data, pos, pos, recent, n - 1)
  }

  /** The longest match there is, the first of those as long, and none longer at the next position. */
  ghost predicate MatchIsDue(data: seq<byte>, pos: nat, recent: Recent, offset: nat, n: nat)
  {
    && n >= 3 && Offers(data, pos, pos, recent, offset, n)
    && NoneOver(data, pos, pos, recent, n) && NoneOver(data, pos + 1, pos, recent, n)
    && forall o: nat {:trigger Offers(data, pos, pos, recent, o, n)} ::
         Offers(data, pos, pos, recent, o, n) ==> NoLater(recent, offset, o)
  }

  ghost predicate WellChosen(t: Token, data: seq<byte>, pos: nat, recent: Recent)
  {
    if IsLiteral(t) then LiteralIsDue(data, pos, recent)
    else
      t.sym >= MAIN_CODE_SPLIT &&
      MatchIsDue(data, pos, recent, CopyOfToken(t, recent).offset, CopyOfToken(t, recent).length)
  }

  /** Every token is well chosen for the position it starts at and the recent offsets there. */
  ghost predicate AllWellChosen(ts: seq<Token>, o: Output, data: seq<byte>)
    decreases |ts|
  {
    ts != [] ==>
      && Applies(ts[0], o, |data|) && WellChosen(ts[0], data, |o.bytes|, o.recent)
      && AllWellChosen(ts[1..], Apply(ts[0], o, |data|), data)
  }

  lemma NoneOverLongest(data: seq<byte>, pos: nat, inserted: nat, recent: Recent)
    requires inserted <= pos <= |data|
    ensures NoneOver(data, pos, inserted, recent, Longest(data, Hashes(data, |data|), pos, inserted, recent).length)
  {
    hide Longest, Offers, Hashes;
    forall offset: nat, m: nat | Offers(data, pos, inserted, recent, offset, m)
      ensures m <= Longest(data, Hashes(data, |data|), pos, inserted, recent).length
    {
      if m > 0 { LongestIsFirst(data, pos, inserted, recent, offset, m); }
    }
  }

  lemma FirstOfLongest(data: seq<byte>, pos: nat, recent: Recent)
    requires pos <= |data|
    ensures var f := Longest(data, Hashes(data, |data|), pos, pos, recent);
            f.length > 0 ==> forall o: nat {:trigger Offers(data, pos, pos, recent, o, f.length)} ::
              Offers(data, pos, pos, recent, o, f.length) ==> NoLater(recent, f.offset, o)
  {
    hide Longest, Offers, Hashes, NoLater;
    var f := Longest(data, Hashes(data, |data|), pos, pos, recent);
    forall o: nat | f.length > 0 && Offers(data, pos, pos, recent, o, f.length)
      ensures NoLater(recent, f.offset, o)
    {
      LongestIsFirst(data, pos, pos, recent, o, f.length);
    }
  }

  /** What is picked at a position is due there. */
  lemma PickIsDue(data: seq<byte>, pos: nat, recent: Recent)
    requires pos < |data|
    ensures var found := PickerOf(data, Hashes(data, |data|))(pos, recent);
            if found.length < MIN_LENGTH then LiteralIsDue(data, pos, recent)
            else MatchIsDue(data, pos, recent, found.offset, found.length)
  {
    hide Longest, Offers, Hashes, NoLater, NoneOver;
    var hs := Hashes(data, |data|);
    var here, there := Longest(data, hs, pos, pos, recent), Longest(data, hs, pos + 1, pos, recent);
    NoneOverLongest(data, pos, pos, recent);
    NoneOverLongest(data, pos + 1, pos, recent);
    LongestIsOffered(data, pos, pos, recent);
    LongestIsOffered(data, pos + 1, pos, recent);
    FirstOfLongest(data, pos, recent);
    NoneOverMore(data, pos, pos, recent, here.length);
    NoneOverMore(data, pos + 1, pos, recent, there.length);
    NothingAtEnd(data, hs, pos, recent);
  }

  lemma NoneOverMore(data: seq<byte>, pos: nat, inserted: nat, recent: Recent, n: nat)
    requires NoneOver(data, pos, inserted, recent, n)
    ensures forall m: nat {:trigger NoneOver(data, pos, inserted, recent, m)} ::
              m >= n ==> NoneOver(data, pos, inserted, recent, m)
  {
    hide Offers;
  }

  lemma NothingAtEnd(data: seq<byte>, hs: seq<nat>, pos: nat, recent: Recent)
    requires pos < |data| && |hs| <= |data|
    ensures pos + 1 == |data| ==> Longest(data, hs, pos + 1, pos, recent).length == 0
  {
  }

  /** A token's own meaning is the match it was made of, and leads to where the next one starts. */
  lemma TokenLeads(data: seq<byte>, pos: nat, found: Found, recent: Recent)
    requires pos < |data| <= WINDOW_SIZE && IsPick(data, pos, found)
    ensures var t := TokenFor(data, pos, found, recent);
            && Applies(t, Output(data[..pos], recent), |data|) && Next(pos, found) <= |data|
            && Apply(t, Output(data[..pos], recent), |data|) ==
               Output(data[..Next(pos, found)], NextRecent(found, recent))
            && (IsLiteral(t) <==> found.length < MIN_LENGTH)
            && (!IsLiteral(t) ==>
                  t.sym >= MAIN_CODE_SPLIT && CopyOfToken(t, recent).offset == found.offset &&
                  CopyOfToken(t, recent).length == found.length)
  {
    hide CopyOfToken, MatchToken, AfterMatch, CopyBytes;
    if found.length < MIN_LENGTH {
      assert data[..pos] + [data[pos]] == data[..pos + 1];
    } else {
      MatchTokenMeans(found.length, found.offset, recent);
      CopyReproduces(data, pos, found.offset, found.length);
    }
  }

  lemma {:induction false} TokenizeWellChosen(data: seq<byte>, pick: Picker, pos: nat, recent: Recent)
    requires pos <= |data| <= WINDOW_SIZE && Picks(pick, data) && pick == PickerOf(data, Hashes(data, |data|))
    ensures AllWellChosen(Tokenize(data, pick, pos, recent), Output(data[..pos], recent), data)
    decreases |data| - pos
  {
    hide PickerOf, Hashes, LiteralIsDue, MatchIsDue, TokenFor, Applies, Apply, NextRecent, CopyOfToken, Picks;
    if pos < |data| {
      var found := pick(pos, recent);
      PicksOne(data, pick, pos, recent);
      PickIsDue(data, pos, recent);
      TokenLeads(data, pos, found, recent);
      TokenizeWellChosen(data, pick, Next(pos, found), NextRecent(found, recent));
      var rest := Tokenize(data, pick, Next(pos, found), NextRecent(found, recent));
      assert ([TokenFor(data, pos, found, recent)] + rest)[1..] == rest;
    }
  }

  lemma PicksOne(data: seq<byte>, pick: Picker, pos: nat, recent: Recent)
    requires Picks(pick, data) && pos < |data|
    ensures IsPick(data, pos, pick(pos, recent))
  {
  }

  /**
   * Every token of a chunk, for the position and the recent offsets it is emitted at: a literal just where no match of
   * three bytes can be seen or a longer one follows, and otherwise the first of the longest matches.
   */
  lemma TokensWellChosen(data: seq<byte>)
    requires |data| <= WINDOW_SIZE
    ensures AllWellChosen(TokensOf(data), Output([], START), data)
  {
    hide PickerOf, Hashes, AllWellChosen, Tokenize;
    PickerPicks(data, Hashes(data, |data|));
    TokenizeWellChosen(data, PickerOf(data, Hashes(data, |data|)), 0, START);
    assert data[..0] == [];
  }
}
