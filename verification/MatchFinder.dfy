/** The match finder: hash chains, recent offsets first, and lazy matching. */
module MatchFinder {
  import opened Bits
  import opened BitStream
  import opened Slots
  import opened Tokens
  import Arithmetic

  const HASH_SIZE: nat := 32768
  const MIN_LENGTH: nat := 3
  const MAX_CHAIN: nat := 64
  const GOOD_MATCH: nat := 1024

  /** The three bytes' hash: a product cut to 32 bits, of which the top fifteen are kept. */
  function Hash3(a: byte, b: byte, c: byte): (h: nat)
    ensures h < HASH_SIZE
  {
    var v := 65536 * a + 256 * b + c;
    HashRange(v * 2654435761, 17);
    Shr(LowBits(v * 2654435761, 32), 17)
  }

  lemma HashRange(v: nat, n: nat)
    requires n == 17
    ensures Shr(LowBits(v, n + 15), n) < HASH_SIZE
  {
    ShrBound(LowBits(v, n + 15), n, 15);
    assert Pow2(15) == 4 * Pow2(13) by { assert Pow2(14) == 2 * Pow2(13); }
    PowersTo13(13);
  }

  lemma {:induction false} ShrBound(v: nat, n: nat, m: nat)
    requires v < Pow2(n + m)
    ensures Shr(v, n) < Pow2(m)
  {
    if n > 0 { ShrBound(v / 2, n - 1, m); }
  }

  /** The hash of every position that has three bytes. */
  function Hashes(data: seq<byte>, n: nat): (hs: seq<nat>)
    requires n <= |data|
    ensures |hs| == if n < MIN_LENGTH then 0 else n - 2
  {
    if n < MIN_LENGTH then [] else Hashes(data, n - 1) + [Hash3(data[n - 3], data[n - 2], data[n - 1])]
  }

  lemma {:induction false} HashesAt(data: seq<byte>, n: nat, i: nat)
    requires i + MIN_LENGTH <= n <= |data|
    ensures Hashes(data, n)[i] == Hash3(data[i], data[i + 1], data[i + 2])
  {
    if i + MIN_LENGTH < n { HashesAt(data, n - 1, i); }
  }

  /** One more than the last position before n with hash h, or 0. */
  function LastWith(hs: seq<nat>, h: nat, n: nat): (p: nat)
    ensures p <= n && p <= |hs|
  {
    if n == 0 then 0 else if n <= |hs| && hs[n - 1] == h then n else LastWith(hs, h, n - 1)
  }

  /** How many bytes agree at a and b, up to limit. */
  function MatchLen(data: seq<byte>, a: nat, b: nat, limit: nat, n: nat): (r: nat)
    requires n <= limit && a + limit <= |data| && b <= a
    ensures n <= r <= limit &&
            forall k: nat {:trigger Agree(data, k, a - b)} :: a + n <= k < a + r ==> Agree(data, k, a - b)
    ensures r < limit ==> data[a + r] != data[b + r]
    decreases limit - n
  {
    if n < limit && data[a + n] == data[b + n] then MatchLen(data, a, b, limit, n + 1) else n
  }

  /** A match length and its offset; length 0 means no match. */
  datatype Found = Found(length: nat, offset: nat)

  /** How far a match at pos can reach. */
  function Reach(data: seq<byte>, pos: nat): (n: nat)
    requires pos <= |data|
    ensures pos + n <= |data| && n <= MAX_MATCH
  {
    if |data| - pos > MAX_MATCH then MAX_MATCH else |data| - pos
  }

  /** A recent offset is taken when it matches further than the best so far. */
  function TryRecent(data: seq<byte>, pos: nat, r: nat, best: Found): Found
    requires pos <= |data|
  {
    if r > pos || r == 0 then best
    else
      var n := MatchLen(data, pos, pos - r, Reach(data, pos), 0);
      if n > best.length then Found(n, r) else best
  }

  function BestRecent(data: seq<byte>, pos: nat, recent: Recent): Found
    requires pos <= |data|
  {
    TryRecent(data, pos, recent.r2, TryRecent(data, pos, recent.r1, TryRecent(data, pos, recent.r0, Found(0, 0))))
  }

  /** The better of the best so far and the match against position cur - 1. */
  function Better(data: seq<byte>, pos: nat, cur: nat, best: Found): Found
    requires 0 < cur <= pos <= |data|
  {
    var l := MatchLen(data, pos, cur - 1, Reach(data, pos), 0);
    if l > best.length then Found(l, pos - (cur - 1)) else best
  }

  /** Follows the chain from cur - 1, with left entries still to be examined, until a match is good enough. */
  function TryChain(data: seq<byte>, hs: seq<nat>, pos: nat, cur: nat, left: nat, best: Found): Found
    requires cur <= pos <= |data| && cur <= |hs|
    decreases left, cur
  {
    if cur == 0 || left == 0 then best
    else
      var better := Better(data, pos, cur, best);
      if better.length > best.length && (better.length >= GOOD_MATCH || better.length >= Reach(data, pos)) then better
      else TryChain(data, hs, pos, LastWith(hs, hs[cur - 1], cur - 1), left - 1, better)
  }

  /** The match taken at pos when the positions before inserted are in the chains. */
  function Longest(data: seq<byte>, hs: seq<nat>, pos: nat, inserted: nat, recent: Recent): Found
    requires inserted <= pos <= |data|
  {
    if pos >= |hs| then Found(0, 0)
    else
      TryChain(data, hs, pos, LastWith(hs, hs[pos], inserted), MAX_CHAIN, BestRecent(data, pos, recent))
  }

  /** The length to code at pos: 0 when a literal is coded instead, because the next position has a longer match. */
  function Chosen(data: seq<byte>, hs: seq<nat>, pos: nat, recent: Recent): (length: nat)
    requires pos < |data|
  {
    var found := Longest(data, hs, pos, pos, recent);
    if found.length >= MIN_LENGTH && pos + 1 < |data| &&
      Longest(data, hs, pos + 1, pos, recent).length > found.length then 0
    else found.length
  }

  /** From a position and the recent offsets, to the match to code there. A length below MIN_LENGTH means a literal. */
  type Picker = (nat, Recent) -> Found

  function PickerOf(data: seq<byte>, hs: seq<nat>): Picker
  {
    (pos: nat, recent: Recent) =>
      if pos >= |data| then Found(0, 0)
      else Found(Chosen(data, hs, pos, recent), Longest(data, hs, pos, pos, recent).offset)
  }

  predicate IsPick(data: seq<byte>, pos: nat, found: Found)
  {
    found.length >= MIN_LENGTH ==> found.length <= MAX_MATCH && Matches(data, pos, found.offset, found.length)
  }

  /** Whatever is picked is a match. */
  ghost predicate Picks(pick: Picker, data: seq<byte>)
  {
    forall pos: nat, recent: Recent {:trigger pick(pos, recent)} ::
      pos < |data| ==> IsPick(data, pos, pick(pos, recent))
  }

  function TokenFor(data: seq<byte>, pos: nat, found: Found, recent: Recent): Token
    requires pos < |data|
  {
    if found.length < MIN_LENGTH then LiteralToken(data[pos]) else MatchToken(found.length, found.offset, recent)
  }

  /** Where a token leads. */
  function Next(pos: nat, found: Found): (p: nat)
    ensures p > pos
  {
    if found.length < MIN_LENGTH then pos + 1 else pos + found.length
  }

  function NextRecent(found: Found, recent: Recent): Recent
  {
    if found.length < MIN_LENGTH then recent else AfterMatch(found.offset, recent)
  }

  /** The tokens of the data from pos on. */
  ghost function Tokenize(data: seq<byte>, pick: Picker, pos: nat, recent: Recent): (ts: seq<Token>)
    requires pos <= |data| && Picks(pick, data)
    decreases |data| - pos
  {
    if pos == |data| then []
    else
      var found := pick(pos, recent);
      PickInside(data, pos, found);
      [TokenFor(data, pos, found, recent)] + Tokenize(data, pick, Next(pos, found), NextRecent(found, recent))
  }

  lemma PickInside(data: seq<byte>, pos: nat, found: Found)
    requires pos < |data| && IsPick(data, pos, found)
    ensures Next(pos, found) <= |data|
  {
  }

  /** The tokens of a chunk. */
  ghost function TokensOf(data: seq<byte>): (ts: seq<Token>)
  {
    PickerPicks(data, Hashes(data, |data|));
    Tokenize(data, PickerOf(data, Hashes(data, |data|)), 0, START)
  }

  // ---------- what is found is there ----------

  /** Nothing was found, or what was found is a match. */
  predicate Sound(data: seq<byte>, pos: nat, found: Found)
  {
    found.length > 0 ==> Matches(data, pos, found.offset, found.length) && found.length <= MAX_MATCH
  }

  lemma MatchLenMatches(data: seq<byte>, a: nat, b: nat, limit: nat)
    requires a + limit <= |data| && b < a
    ensures Matches(data, a, a - b, MatchLen(data, a, b, limit, 0))
  {
  }

  lemma TryRecentSound(data: seq<byte>, pos: nat, r: nat, best: Found)
    requires pos <= |data| && Sound(data, pos, best)
    ensures Sound(data, pos, TryRecent(data, pos, r, best)) && TryRecent(data, pos, r, best).length >= best.length
  {
    if 0 < r <= pos { MatchLenMatches(data, pos, pos - r, Reach(data, pos)); }
  }

  lemma {:induction false} TryChainSound(data: seq<byte>, hs: seq<nat>, pos: nat, cur: nat, left: nat, best: Found)
    requires cur <= pos <= |data| && cur <= |hs| && Sound(data, pos, best)
    ensures Sound(data, pos, TryChain(data, hs, pos, cur, left, best))
    decreases left
  {
    if cur > 0 && left > 0 {
      MatchLenMatches(data, pos, cur - 1, Reach(data, pos));
      TryChainSound(data, hs, pos, LastWith(hs, hs[cur - 1], cur - 1), left - 1, Better(data, pos, cur, best));
    }
  }

  /** Whatever the finder returns occurs offset bytes earlier, overlapping or not. */
  lemma LongestSound(data: seq<byte>, hs: seq<nat>, pos: nat, inserted: nat, recent: Recent)
    requires inserted <= pos <= |data|
    ensures Sound(data, pos, Longest(data, hs, pos, inserted, recent))
  {
    if pos < |hs| {
      var first := TryRecent(data, pos, recent.r0, Found(0, 0));
      TryRecentSound(data, pos, recent.r0, Found(0, 0));
      TryRecentSound(data, pos, recent.r1, first);
      TryRecentSound(data, pos, recent.r2, TryRecent(data, pos, recent.r1, first));
      TryChainSound(data, hs, pos, LastWith(hs, hs[pos], inserted), MAX_CHAIN, BestRecent(data, pos, recent));
    }
  }

  // ---------- nothing better was passed over ----------

  /** How many positions from a to just before n have hash h. */
  function CountWith(hs: seq<nat>, h: nat, a: nat, n: nat): (c: nat)
  {
    if n <= a then 0 else CountWith(hs, h, a, n - 1) + (if n <= |hs| && hs[n - 1] == h then 1 else 0)
  }

  /** The last position with hash h is no earlier than this one, and no position with it comes between that and n. */
  lemma {:induction false} LastWithin(hs: seq<nat>, h: nat, q: nat, n: nat)
    requires q < n && q < |hs| && hs[q] == h
    ensures q < LastWith(hs, h, n) && hs[LastWith(hs, h, n) - 1] == h
    ensures CountWith(hs, h, q + 1, LastWith(hs, h, n)) == CountWith(hs, h, q + 1, n)
  {
    if !(n <= |hs| && hs[n - 1] == h) { LastWithin(hs, h, q, n - 1); }
  }

  /** A match goes no further than the bytes agree. */
  lemma MatchLenIsMost(data: seq<byte>, pos: nat, offset: nat, n: nat)
    requires Matches(data, pos, offset, n) && n <= MAX_MATCH
    ensures pos <= |data| && n <= Reach(data, pos) && n <= MatchLen(data, pos, pos - offset, Reach(data, pos), 0)
  {
    var l := MatchLen(data, pos, pos - offset, Reach(data, pos), 0);
    assert l < n ==> Agree(data, pos + l, offset);
  }

  lemma {:induction false} ChainGrows(data: seq<byte>, hs: seq<nat>, pos: nat, cur: nat, left: nat, best: Found)
    requires cur <= pos <= |data| && cur <= |hs|
    ensures TryChain(data, hs, pos, cur, left, best).length >= best.length
    decreases left
  {
    if cur > 0 && left > 0 {
      ChainGrows(data, hs, pos, LastWith(hs, hs[cur - 1], cur - 1), left - 1, Better(data, pos, cur, best));
    }
  }

  /** The chain leads to the position before that match, unless the search has found one as long. */
  lemma {:induction false} ChainReaches(data: seq<byte>, hs: seq<nat>, pos: nat, cur: nat, left: nat, best: Found,
                                        q: nat, n: nat)
    requires q < cur <= pos <= |data| && cur <= |hs| && hs[q] == hs[cur - 1] && CountWith(hs, hs[q], q + 1, cur) < left
    requires Matches(data, pos, pos - q, n) && n <= MAX_MATCH
    ensures TryChain(data, hs, pos, cur, left, best).length >= n
    decreases left
  {
    hide MatchLen;
    MatchLenIsMost(data, pos, pos - q, n);
    var better, before := Better(data, pos, cur, best), LastWith(hs, hs[cur - 1], cur - 1);
    if q == cur - 1 {
      ChainGrows(data, hs, pos, before, left - 1, better);
    } else {
      LastWithin(hs, hs[q], q, cur - 1);
      ChainReaches(data, hs, pos, before, left - 1, better, q, n);
    }
  }

  /** Where three bytes match, so do the hashes. */
  lemma MatchSharesHash(data: seq<byte>, pos: nat, offset: nat, n: nat)
    requires Matches(data, pos, offset, n) && n >= MIN_LENGTH
    ensures pos < |Hashes(data, |data|)| && Hashes(data, |data|)[pos - offset] == Hashes(data, |data|)[pos]
  {
    hide Hash3;
    HashesAt(data, |data|, pos);
    HashesAt(data, |data|, pos - offset);
    assert Agree(data, pos, offset) && Agree(data, pos + 1, offset) && Agree(data, pos + 2, offset);
  }

  lemma RecentIsMost(data: seq<byte>, pos: nat, recent: Recent, offset: nat, n: nat)
    requires Matches(data, pos, offset, n) && n <= MAX_MATCH && offset in [recent.r0, recent.r1, recent.r2]
    ensures n <= BestRecent(data, pos, recent).length
  {
    hide MatchLen;
    MatchLenIsMost(data, pos, offset, n);
  }

  /**
   * No match is longer than the one found: neither at a recent offset nor at any of the latest 64 positions with the
   * same hash.
   */
  lemma LongestIsMost(data: seq<byte>, pos: nat, inserted: nat, recent: Recent, offset: nat, n: nat)
    requires inserted <= pos && pos + MIN_LENGTH <= |data| && Matches(data, pos, offset, n) && n <= MAX_MATCH
    ensures var hs := Hashes(data, |data|);
            && (offset in [recent.r0, recent.r1, recent.r2] ==> n <= Longest(data, hs, pos, inserted, recent).length)
            && (n >= MIN_LENGTH && pos - offset < inserted &&
                  CountWith(hs, hs[pos], pos - offset + 1, inserted) < MAX_CHAIN
                ==> n <= Longest(data, hs, pos, inserted, recent).length)
  {
    hide BestRecent, TryChain, Agree;
    var hs := Hashes(data, |data|);
    var best, first := BestRecent(data, pos, recent), LastWith(hs, hs[pos], inserted);
    ChainGrows(data, hs, pos, first, MAX_CHAIN, best);
    if offset in [recent.r0, recent.r1, recent.r2] { RecentIsMost(data, pos, recent, offset, n); }
    if n >= MIN_LENGTH && pos - offset < inserted && CountWith(hs, hs[pos], pos - offset + 1, inserted) < MAX_CHAIN {
      MatchSharesHash(data, pos, offset, n);
      LastWithin(hs, hs[pos], pos - offset, inserted);
      ChainReaches(data, hs, pos, first, MAX_CHAIN, best, pos - offset, n);
    }
  }

  /**
   * No match the encoder codes reaches past the last adjusted offset, and the chunk that ends as it begins has one
   * that reaches it.
   */
  lemma FarthestMatch(data: seq<byte>, pos: nat, offset: nat, length: nat)
    requires |data| == WINDOW_SIZE && length >= MIN_LENGTH
    ensures Matches(data, pos, offset, length) ==> offset + MIN_MATCH <= WINDOW_SIZE - 1
    ensures Matches(data, pos, offset, length) && offset + MIN_MATCH == WINDOW_SIZE - 1
       <==> pos == offset == WINDOW_SIZE - 3 && length == MIN_LENGTH && data[..3] == data[WINDOW_SIZE - 3..]
  {
    if pos == offset == WINDOW_SIZE - 3 && length == MIN_LENGTH {
      var a, b := data[..3], data[WINDOW_SIZE - 3..];
      if Matches(data, pos, offset, length) {
        assert Agree(data, pos, offset) && Agree(data, pos + 1, offset) && Agree(data, pos + 2, offset);
        assert a == b;
      }
      assert a == b ==> b[0] == a[0] && b[1] == a[1] && b[2] == a[2];
    }
  }

  lemma ChosenIsPick(data: seq<byte>, hs: seq<nat>, pos: nat, recent: Recent)
    requires pos < |data|
    ensures IsPick(data, pos, Found(Chosen(data, hs, pos, recent), Longest(data, hs, pos, pos, recent).offset))
  {
    LongestSound(data, hs, pos, pos, recent);
  }

  lemma PickerPicks(data: seq<byte>, hs: seq<nat>)
    ensures Picks(PickerOf(data, hs), data)
  {
    var pick := PickerOf(data, hs);
    forall pos: nat, recent: Recent | pos < |data|
      ensures IsPick(data, pos, pick(pos, recent))
    {
      ChosenIsPick(data, hs, pos, recent);
    }
  }

  lemma TokenExpands(data: seq<byte>, pos: nat, found: Found, recent: Recent, rest: seq<Token>)
    requires pos < |data| <= WINDOW_SIZE && IsPick(data, pos, found) && Next(pos, found) <= |data|
    requires Expands(rest, Output(data[..Next(pos, found)], NextRecent(found, recent)), data)
    ensures Expands([TokenFor(data, pos, found, recent)] + rest, Output(data[..pos], recent), data)
  {
    if found.length < MIN_LENGTH {
      ExpandsLiteral(rest, pos, recent, data);
    } else {
      ExpandsMatch(rest, pos, found.length, found.offset, recent, data);
    }
  }

  /** The tokens expand to the data: nothing skipped, nothing repeated, all of it inside the alphabets. */
  lemma {:induction false} TokenizeExpands(data: seq<byte>, pick: Picker, pos: nat, recent: Recent)
    requires pos <= |data| <= WINDOW_SIZE && Picks(pick, data)
    ensures Expands(Tokenize(data, pick, pos, recent), Output(data[..pos], recent), data)
    decreases |data| - pos
  {
    if pos == |data| {
      assert data[..pos] == data;
    } else {
      var found := pick(pos, recent);
      PickInside(data, pos, found);
      TokenizeExpands(data, pick, Next(pos, found), NextRecent(found, recent));
      TokenExpands(data, pos, found, recent, Tokenize(data, pick, Next(pos, found), NextRecent(found, recent)));
    }
  }

  lemma TokensExpand(data: seq<byte>)
    requires |data| <= WINDOW_SIZE
    ensures Expands(TokensOf(data), Output([], START), data)
  {
    PickerPicks(data, Hashes(data, |data|));
    TokenizeExpands(data, PickerOf(data, Hashes(data, |data|)), 0, START);
    assert data[..0] == [];
  }

  // ---------- the arrays hold the chains ----------

  /** Each hash's last position before n, biased by one. */
  ghost predicate Heads(hs: seq<nat>, head: seq<nat>, n: nat)
  {
    |head| == HASH_SIZE && forall h {:trigger head[h]} :: 0 <= h < HASH_SIZE ==> head[h] == LastWith(hs, h, n)
  }

  /** Each position before n leads to the one before it with its hash. What prev holds from n on is never looked at. */
  ghost predicate Links(hs: seq<nat>, prev: seq<nat>, n: nat)
  {
    |prev| == WINDOW_SIZE &&
      forall q {:trigger prev[q]} :: 0 <= q < n && q < |hs| && q < WINDOW_SIZE ==> prev[q] == LastWith(hs, hs[q], q)
  }

  ghost predicate Chains(hs: seq<nat>, head: seq<nat>, prev: seq<nat>, n: nat)
  {
    Heads(hs, head, n) && Links(hs, prev, n)
  }

  method ComputeMatchLen(data: array<byte>, a: nat, b: nat, limit: nat, ghost size: nat) returns (n: nat)
    requires size <= data.Length && a + limit <= size && b <= a
    ensures n == MatchLen(data[..size], a, b, limit, 0)
  {
    n := 0;
    while n < limit && data[a + n] == data[b + n]
      invariant n <= limit && MatchLen(data[..size], a, b, limit, n) == MatchLen(data[..size], a, b, limit, 0)
    {
      n := n + 1;
    }
  }

  method HashAt(data: array<byte>, size: nat, pos: nat, ghost hs: seq<nat>) returns (h: nat)
    requires pos + MIN_LENGTH <= size <= data.Length && hs == Hashes(data[..size], size)
    ensures h == hs[pos] < HASH_SIZE
  {
    HashesAt(data[..size], size, pos);
    h := Hash3(data[pos], data[pos + 1], data[pos + 2]);
  }

  /** Enters position pos into the chains. */
  method Insert(data: array<byte>, size: nat, head: array<nat>, prev: array<nat>, pos: nat, ghost hs: seq<nat>)
    requires pos < size <= data.Length && size <= WINDOW_SIZE && head != prev
    requires hs == Hashes(data[..size], size) && Chains(hs, head[..], prev[..], pos)
    modifies head, prev
    ensures Chains(hs, head[..], prev[..], pos + 1)
  {
    if pos + MIN_LENGTH > size { return; }
    var h := HashAt(data, size, pos, hs);
    Link(head, prev, pos, h, hs);
  }

  method Link(head: array<nat>, prev: array<nat>, pos: nat, h: nat, ghost hs: seq<nat>)
    requires head != prev && pos < WINDOW_SIZE && pos < |hs| && h == hs[pos] < HASH_SIZE &&
             Chains(hs, head[..], prev[..], pos)
    modifies head, prev
    ensures Chains(hs, head[..], prev[..], pos + 1)
  {
    prev[pos] := head[h];
    head[h] := pos + 1;
  }

  /** The longest match among the recent offsets and the chain of the position's hash. */
  method FindLongest(data: array<byte>, size: nat, head: array<nat>, prev: array<nat>, pos: nat, ghost inserted: nat,
                     recent: Recent,
                     ghost hs: seq<nat>)
    returns (length: nat, offset: nat)
    requires inserted <= pos <= size <= data.Length && size <= WINDOW_SIZE
    requires hs == Hashes(data[..size], size) && Chains(hs, head[..], prev[..], inserted)
    ensures Found(length, offset) == Longest(data[..size], hs, pos, inserted, recent)
  {
    if pos + MIN_LENGTH > size { return 0, 0; }
    var maxLen := size - pos;
    if maxLen > MAX_MATCH { maxLen := MAX_MATCH; }
    length, offset := FindRecent(data, size, pos, maxLen, recent);
    var h := HashAt(data, size, pos, hs);
    length, offset := FollowChain(data, size, prev, pos, head[h], maxLen, length, offset, inserted, hs);
  }

  /** The best of the recent offsets from number i on. */
  ghost function BestRecentFrom(data: seq<byte>, pos: nat, recent: Recent, i: nat, best: Found): Found
    requires pos <= |data| && i <= 3
    decreases 3 - i
  {
    if i == 3 then best else BestRecentFrom(data, pos, recent, i + 1, TryRecent(data, pos, Nth(recent, i), best))
  }

  method FindRecent(data: array<byte>, size: nat, pos: nat, maxLen: nat, recent: Recent)
    returns (length: nat, offset: nat)
    requires pos + MIN_LENGTH <= size <= data.Length && maxLen == Reach(data[..size], pos)
    ensures Found(length, offset) == BestRecent(data[..size], pos, recent)
  {
    ghost var d := data[..size];
    length, offset := 0, 0;
    for i := 0 to 3
      invariant BestRecentFrom(d, pos, recent, i, Found(length, offset)) == BestRecent(d, pos, recent)
    {
      var r := Nth(recent, i);
      if r > pos || r == 0 { continue; }
      var n := ComputeMatchLen(data, pos, pos - r, maxLen, size);
      if n > length { length, offset := n, r; }
    }
  }

  method Examine(data: array<byte>, size: nat, pos: nat, cur: nat, maxLen: nat, best: nat, at: nat)
    returns (better: bool, length: nat, offset: nat)
    requires 0 < cur <= pos <= size <= data.Length && maxLen == Reach(data[..size], pos)
    ensures Found(length, offset) == Better(data[..size], pos, cur, Found(best, at)) && better == (length > best)
  {
    var l := ComputeMatchLen(data, pos, cur - 1, maxLen, size);
    if l > best { return true, l, pos - (cur - 1); }
    return false, best, at;
  }

  method FollowChain(data: array<byte>, size: nat, prev: array<nat>, pos: nat, first: nat, maxLen: nat, best: nat,
                     at: nat,
                     ghost inserted: nat, ghost hs: seq<nat>)
    returns (length: nat, offset: nat)
    requires inserted <= pos < size <= data.Length && size <= WINDOW_SIZE && maxLen == Reach(data[..size], pos)
    requires pos < |hs| && Links(hs, prev[..], inserted) && first == LastWith(hs, hs[pos], inserted)
    ensures Found(length, offset) == TryChain(data[..size], hs, pos, first, MAX_CHAIN, Found(best, at))
  {
    hide Better, MatchLen;
    ghost var d := data[..size];
    length, offset := best, at;
    var cur: nat, n: nat := first, 0;
    while cur > 0 && n < MAX_CHAIN
      invariant n <= MAX_CHAIN && cur <= inserted && cur <= |hs|
      invariant TryChain(d, hs, pos, cur, MAX_CHAIN - n, Found(length, offset)) ==
                TryChain(d, hs, pos, first, MAX_CHAIN, Found(best, at))
      decreases MAX_CHAIN - n
    {
      var off := pos - (cur - 1);
      if off == 0 || off > WINDOW_SIZE {
        assert false;
        break;
      }
      var better;
      better, length, offset := Examine(data, size, pos, cur, maxLen, length, offset);
      if better && (length >= GOOD_MATCH || length >= maxLen) { return; }
      assert prev[..][cur - 1] == prev[cur - 1];
      cur := prev[cur - 1];
      n := n + 1;
    }
  }

  /** A mark: the fact below applies only where it is made. */
  ghost predicate Asked(pos: nat, recent: Recent)
  {
    true
  }

  ghost predicate ArePicks(pick: Picker, data: seq<byte>, hs: seq<nat>)
  {
    forall pos: nat, recent: Recent {:trigger Asked(pos, recent)} :: pos < |data| ==>
      pick(pos, recent) == Found(Chosen(data, hs, pos, recent), Longest(data, hs, pos, pos, recent).offset)
  }

  /** Lazy matching: a literal is coded when the next position starts a strictly longer match. */
  method Choose(data: array<byte>, size: nat, head: array<nat>, prev: array<nat>, pos: nat, recent: Recent,
                ghost hs: seq<nat>, ghost pick: Picker)
    returns (length: nat, offset: nat)
    requires pos < size <= data.Length && size <= WINDOW_SIZE
    requires hs == Hashes(data[..size], size) && Chains(hs, head[..], prev[..], pos) && ArePicks(pick, data[..size], hs)
    ensures Found(length, offset) == pick(pos, recent)
  {
    hide Longest, Hashes, Chains;
    length, offset := FindLongest(data, size, head, prev, pos, pos, recent, hs);
    if length >= MIN_LENGTH && pos + 1 < size {
      var nextLen, _ := FindLongest(data, size, head, prev, pos + 1, pos, recent, hs);
      if nextLen > length { length := 0; }
    }
    assert Asked(pos, recent);
  }

  /** Turns the data into tokens. What head and prev hold beforehand makes no difference. */
  method FindMatches(data: array<byte>, size: nat, head: array<nat>, prev: array<nat>) returns (tokens: seq<Token>)
    requires size <= data.Length && size <= WINDOW_SIZE && head.Length == HASH_SIZE && prev.Length == WINDOW_SIZE &&
             head != prev
    modifies head, prev
    ensures tokens == TokensOf(data[..size])
  {
    ghost var d := data[..size];
    PickerPicks(d, Hashes(d, size));
    tokens := EmitTokens(data, size, head, prev, Hashes(d, size), PickerOf(d, Hashes(d, size)));
  }

  method EmitTokens(data: array<byte>, size: nat, head: array<nat>, prev: array<nat>, ghost hs: seq<nat>,
                    ghost pick: Picker)
    returns (tokens: seq<Token>)
    requires size <= data.Length && size <= WINDOW_SIZE && head.Length == HASH_SIZE && prev.Length == WINDOW_SIZE &&
             head != prev
    requires hs == Hashes(data[..size], size) && ArePicks(pick, data[..size], hs) && Picks(pick, data[..size])
    modifies head, prev
    ensures tokens == Tokenize(data[..size], pick, 0, START)
  {
    tokens := [];
    ClearHead(head, prev[..], hs);
    var recent := START;
    var pos: nat := 0;
    while pos < size
      invariant pos <= size && Chains(hs, head[..], prev[..], pos)
      invariant tokens + Tokenize(data[..size], pick, pos, recent) == Tokenize(data[..size], pick, 0, START)
    {
      tokens, pos, recent := EmitToken(data, size, head, prev, pos, recent, tokens, hs, pick);
    }
  }

  /** Emits the token for pos and enters the positions it covers into the chains. */
  method EmitToken(data: array<byte>, size: nat, head: array<nat>, prev: array<nat>, pos: nat, recent: Recent,
                   tokens: seq<Token>,
                   ghost hs: seq<nat>, ghost pick: Picker)
    returns (ts: seq<Token>, next: nat, after: Recent)
    requires pos < size <= data.Length && size <= WINDOW_SIZE && head != prev
    requires hs == Hashes(data[..size], size) && ArePicks(pick, data[..size], hs) && Picks(pick, data[..size])
    requires Chains(hs, head[..], prev[..], pos)
    modifies head, prev
    ensures pos < next <= size && Chains(hs, head[..], prev[..], next)
    ensures ts + Tokenize(data[..size], pick, next, after) == tokens + Tokenize(data[..size], pick, pos, recent)
  {
    hide MatchToken, AfterMatch, Hashes, Chains, ArePicks;
    ghost var d := data[..size];
    var length, offset := Choose(data, size, head, prev, pos, recent, hs, pick);
    ghost var found := Found(length, offset);
    PickInside(d, pos, found);
    ConcatAssoc(tokens, [TokenFor(d, pos, found, recent)],
                Tokenize(d, pick, Next(pos, found), NextRecent(found, recent)));
    if length < MIN_LENGTH {
      ts := tokens + [LiteralToken(data[pos])];
      Insert(data, size, head, prev, pos, hs);
      next, after := pos + 1, recent;
    } else {
      ts := tokens + [MatchToken(length, offset, recent)];
      after := AfterMatch(offset, recent);
      InsertRun(data, size, head, prev, pos, length, hs);
      next := pos + length;
    }
  }

  method ClearHead(head: array<nat>, ghost prev: seq<nat>, ghost hs: seq<nat>)
    requires head.Length == HASH_SIZE && |prev| == WINDOW_SIZE
    modifies head
    ensures Chains(hs, head[..], prev, 0)
  {
    for i := 0 to head.Length
      invariant forall h :: 0 <= h < i ==> head[h] == 0
    {
      head[i] := 0;
    }
  }

  method InsertRun(data: array<byte>, size: nat, head: array<nat>, prev: array<nat>, pos: nat, length: nat,
                   ghost hs: seq<nat>)
    requires pos + length <= size <= data.Length && size <= WINDOW_SIZE && head != prev
    requires hs == Hashes(data[..size], size) && Chains(hs, head[..], prev[..], pos)
    modifies head, prev
    ensures Chains(hs, head[..], prev[..], pos + length)
  {
    hide Hashes, Chains;
    for p := pos to pos + length
      invariant Chains(hs, head[..], prev[..], p)
    {
      Insert(data, size, head, prev, p, hs);
    }
  }

  // ---------- the hash in numbers ----------

  lemma {:induction false} LowBitsAre(v: nat, n: nat)
    ensures LowBits(v, n) == v % Pow2(n)
  {
    if n > 0 {
      LowBitsAre(v / 2, n - 1);
      Arithmetic.Halved(v, Pow2(n - 1));
    }
  }

  lemma {:induction false} ShrIs(v: nat, n: nat)
    ensures Shr(v, n) == v / Pow2(n)
  {
    if n > 0 {
      ShrIs(v / 2, n - 1);
      Arithmetic.Halved(v, Pow2(n - 1));
    }
  }

  lemma EightTimes(n: nat)
    ensures Pow2(n + 8) == 256 * Pow2(n)
  {
    assert Pow2(n + 8) == 4 * Pow2(n + 6) == 16 * Pow2(n + 4) == 64 * Pow2(n + 2) == 256 * Pow2(n);
  }

  /** Three bytes hash to the top fifteen of the low 32 bits of their number times 2654435761. */
  lemma Hash3Is(a: byte, b: byte, c: byte)
    ensures Hash3(a, b, c) == (65536 * a + 256 * b + c) * 2654435761 % 0x1_0000_0000 / 0x2_0000
  {
    hide Pow2, LowBits, Shr;
    var v := 65536 * a + 256 * b + c;
    LowBitsAre(v * 2654435761, 32);
    ShrIs(LowBits(v * 2654435761, 32), 17);
    SmallestPowers();
    EightTimes(0);
    EightTimes(8);
    EightTimes(16);
    EightTimes(24);
    EightTimes(1);
    EightTimes(9);
  }

  lemma SmallestPowers()
    ensures Pow2(0) == 1 && Pow2(1) == 2
  {
  }
}
