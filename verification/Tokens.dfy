/** Coded elements and what they stand for: literals, and copies from earlier in the window. */
module Tokens {
  import opened Bits
  import opened Slots

  const MAX_MATCH: nat := MIN_MATCH + 7 + LEN_CODE_COUNT - 1

  /** A literal, or a match resolved to its slot and the offset bits above the slot's base. */
  datatype Token = Token(sym: nat, lenSym: int, slot: int, extra: nat)

  /** The three most recent match offsets. */
  datatype Recent = Recent(r0: nat, r1: nat, r2: nat)

  const START: Recent := Recent(1, 1, 1)

  function Nth(recent: Recent, i: nat): nat
    requires i < 3
  {
    if i == 0 then recent.r0 else if i == 1 then recent.r1 else recent.r2
  }

  /** Reusing recent offset i swaps it with the most recent one. */
  function Promote(recent: Recent, i: nat): Recent
    requires i < 3
  {
    if i == 0 then recent
    else if i == 1 then Recent(recent.r1, recent.r0, recent.r2)
    else Recent(recent.r2, recent.r1, recent.r0)
  }

  function Push(recent: Recent, offset: nat): Recent
  {
    Recent(offset, recent.r0, recent.r1)
  }

  // ---------- the decoder's side ----------

  /** length bytes from offset back, and the recent offsets afterwards. */
  datatype Copy = Copy(length: nat, offset: nat, recent: Recent)

  function ShortLength(sym: nat): (n: nat)
    requires sym >= MAIN_CODE_SPLIT
    ensures n < 8
  {
    (sym - MAIN_CODE_SPLIT) % 8
  }

  function SlotIn(sym: nat): (slot: nat)
    requires sym >= MAIN_CODE_SPLIT
  {
    (sym - MAIN_CODE_SPLIT) / 8
  }

  /** What a match symbol with its length symbol and offset bits says. */
  function CopyOf(sym: nat, lenSym: nat, extra: nat, recent: Recent): (c: Copy)
    requires sym >= MAIN_CODE_SPLIT
    ensures c.length >= MIN_MATCH
  {
    var short := ShortLength(sym);
    var length := (if short == 7 then 7 + lenSym else short) + MIN_MATCH;
    var slot := SlotIn(sym);
    if slot < 3 then
      Copy(length, Nth(recent, slot), Promote(recent, slot))
    else
      BaseMonotone(3, slot);
      EndsOfSlots();
      var offset := Base(slot) + extra - MIN_MATCH;
      Copy(length, offset, Push(recent, offset))
  }

  /** Appends length bytes, each the one offset before it: the copy may overlap itself. */
  function CopyBytes(out: seq<byte>, offset: nat, length: nat): (r: seq<byte>)
    requires 0 < offset <= |out|
    ensures |r| == |out| + length && out <= r
    decreases length
  {
    if length == 0 then out else CopyBytes(out + [out[|out| - offset]], offset, length - 1)
  }

  /** A copy the decoder accepts when it has produced n of total bytes. */
  predicate InRange(c: Copy, n: nat, total: nat)
  {
    0 < c.offset <= n && n + c.length <= total
  }

  // ---------- the encoder's side ----------

  predicate IsLiteral(t: Token)
  {
    t.slot < 0
  }

  /** A token's numbers are inside their alphabets. */
  predicate InAlphabet(t: Token)
  {
    if t.slot < 0 then t.sym < MAIN_CODE_SPLIT && t.lenSym == -1 && t.slot == -1 && t.extra == 0
    else
      && MAIN_CODE_SPLIT <= t.sym < MAIN_CODE_COUNT && t.slot == SlotIn(t.sym)
      && (t.lenSym >= 0 <==> ShortLength(t.sym) == 7) && -1 <= t.lenSym < LEN_CODE_COUNT
      && t.extra < Pow2(Footer(t.slot))
  }

  function LiteralToken(b: byte): (t: Token)
    ensures InAlphabet(t)
  {
    Token(b, -1, -1, 0)
  }

  /** The copy a match token stands for. */
  function CopyOfToken(t: Token, recent: Recent): Copy
    requires t.sym >= MAIN_CODE_SPLIT
  {
    CopyOf(t.sym, if t.lenSym >= 0 then t.lenSym else 0, t.extra, recent)
  }

  /** The first recent offset equal to offset, or 3. */
  function RecentSlot(recent: Recent, offset: nat): (i: nat)
    ensures i <= 3 && (i < 3 ==> Nth(recent, i) == offset)
  {
    if recent.r0 == offset then 0 else if recent.r1 == offset then 1 else if recent.r2 == offset then 2 else 3
  }

  /** The token of a match, its slot and offset bits given. */
  function LengthToken(length: nat, slot: nat, extra: nat): Token
    requires length >= MIN_MATCH
  {
    var short := length - MIN_MATCH;
    if short >= 7 then Token(MAIN_CODE_SPLIT + slot * 8 + 7, short - 7, slot, extra)
    else Token(MAIN_CODE_SPLIT + slot * 8 + short, -1, slot, extra)
  }

  function MatchToken(length: nat, offset: nat, recent: Recent): Token
    requires length >= MIN_MATCH
  {
    var i := RecentSlot(recent, offset);
    if i < 3 then LengthToken(length, i, 0)
    else
      var slot := PositionSlot(offset + MIN_MATCH);
      LengthToken(length, slot, offset + MIN_MATCH - Base(slot))
  }

  function AfterMatch(offset: nat, recent: Recent): Recent
  {
    var i := RecentSlot(recent, offset);
    if i < 3 then Promote(recent, i) else Push(recent, offset)
  }

  lemma LengthTokenParts(length: nat, slot: nat, extra: nat)
    requires MIN_MATCH <= length <= MAX_MATCH && slot < SLOT_COUNT - 1 && extra < Pow2(Footer(slot))
    ensures var t := LengthToken(length, slot, extra);
            && InAlphabet(t) && t.slot == slot && t.extra == extra && t.sym >= MAIN_CODE_SPLIT && SlotIn(t.sym) == slot
            && (if ShortLength(t.sym) == 7 then length == 7 + t.lenSym + MIN_MATCH
                  else length == ShortLength(t.sym) + MIN_MATCH)
  {
  }

  /** A match token is inside the alphabets, and the decoder makes of it the same length, offset and recent offsets. */
  lemma MatchTokenMeans(length: nat, offset: nat, recent: Recent)
    requires MIN_MATCH <= length <= MAX_MATCH && 1 <= offset && offset + MIN_MATCH < WINDOW_SIZE
    ensures var t := MatchToken(length, offset, recent);
            && InAlphabet(t) && t.slot >= 0 && t.sym >= MAIN_CODE_SPLIT
            && CopyOfToken(t, recent) == Copy(length, offset, AfterMatch(offset, recent))
  {
    var i := RecentSlot(recent, offset);
    if i < 3 {
      LengthTokenParts(length, i, 0);
    } else {
      OffsetSlot(offset);
      var slot := PositionSlot(offset + MIN_MATCH);
      LengthTokenParts(length, slot, offset + MIN_MATCH - Base(slot));
    }
  }

  /** Slots under 3 reuse a recent offset, which changes places with the most recent one; the third stays put. */
  lemma CopySwaps(sym: nat, lenSym: nat, extra: nat, recent: Recent)
    requires sym >= MAIN_CODE_SPLIT && SlotIn(sym) < 3
    ensures var c, i := CopyOf(sym, lenSym, extra, recent), SlotIn(sym);
            && c.offset == Nth(recent, i) && Nth(c.recent, 0) == Nth(recent, i) && Nth(c.recent, i) == Nth(recent, 0)
            && forall j {:trigger Nth(recent, j)} :: 0 < j < 3 && j != i ==> Nth(c.recent, j) == Nth(recent, j)
  {
  }

  /** The other slots bring a new offset, which goes first and drives the oldest out. */
  lemma CopyShifts(sym: nat, lenSym: nat, extra: nat, recent: Recent)
    requires sym >= MAIN_CODE_SPLIT && SlotIn(sym) >= 3
    ensures var c := CopyOf(sym, lenSym, extra, recent);
            && c.offset + MIN_MATCH == Base(SlotIn(sym)) + extra
            && Nth(c.recent, 0) == c.offset && Nth(c.recent, 1) == Nth(recent, 0) && Nth(c.recent, 2) == Nth(recent, 1)
  {
  }

  /** The token of a match reuses the first place its offset is in, if it is in one, and brings a new offset if not. */
  lemma MatchTokenRecents(length: nat, offset: nat, recent: Recent)
    requires MIN_MATCH <= length <= MAX_MATCH && 1 <= offset && offset + MIN_MATCH < WINDOW_SIZE
    ensures var t := MatchToken(length, offset, recent);
            t.sym >= MAIN_CODE_SPLIT && t.slot >= 0 &&
            var after := CopyOfToken(t, recent).recent;
            && Nth(after, 0) == offset
            && if t.slot < 3 then
                 && Nth(recent, t.slot) == offset && Nth(after, t.slot) == Nth(recent, 0)
                 && forall j {:trigger Nth(recent, j)} :: 0 < j < 3 ==>
                      (j < t.slot ==> Nth(recent, j) != offset) && (j != t.slot ==> Nth(after, j) == Nth(recent, j))
               else
                 && Nth(after, 1) == Nth(recent, 0) && Nth(after, 2) == Nth(recent, 1)
                 && forall j {:trigger Nth(recent, j)} :: 0 <= j < 3 ==> Nth(recent, j) != offset
  {
    hide Base;
    MatchTokenMeans(length, offset, recent);
    if RecentSlot(recent, offset) == 3 { OffsetSlot(offset); }
  }

  // ---------- token lists ----------

  /** What has been produced, and the recent offsets. */
  datatype Output = Output(bytes: seq<byte>, recent: Recent)

  /** The token is inside its alphabets, and the decoder accepts it towards total bytes. */
  predicate Applies(t: Token, o: Output, total: nat)
  {
    InAlphabet(t) && |o.bytes| < total && (IsLiteral(t) || InRange(CopyOfToken(t, o.recent), |o.bytes|, total))
  }

  /** What a token produces. */
  function Apply(t: Token, o: Output, total: nat): (r: Output)
    requires Applies(t, o, total)
    ensures |o.bytes| < |r.bytes| <= total
  {
    if IsLiteral(t) then Output(o.bytes + [t.sym], o.recent)
    else
      var c := CopyOfToken(t, o.recent);
      Output(CopyBytes(o.bytes, c.offset, c.length), c.recent)
  }

  /** Continuing from o, the tokens produce exactly data. */
  ghost predicate Expands(ts: seq<Token>, o: Output, data: seq<byte>)
    decreases |ts|
  {
    if ts == [] then o.bytes == data
    else Applies(ts[0], o, |data|) && Expands(ts[1..], Apply(ts[0], o, |data|), data)
  }

  predicate Agree(data: seq<byte>, k: nat, offset: nat)
  {
    offset <= k < |data| && data[k] == data[k - offset]
  }

  /** The match at pos against offset bytes before it has at least length bytes. */
  predicate Matches(data: seq<byte>, pos: nat, offset: nat, length: nat)
  {
    0 < offset <= pos && pos + length <= |data| &&
      forall k: nat {:trigger Agree(data, k, offset)} :: pos <= k < pos + length ==> Agree(data, k, offset)
  }

  /** Copying a match, overlapping or not, reproduces the data. */
  lemma {:induction false} CopyReproduces(data: seq<byte>, pos: nat, offset: nat, length: nat)
    requires Matches(data, pos, offset, length)
    ensures CopyBytes(data[..pos], offset, length) == data[..pos + length]
    decreases length
  {
    if length > 0 {
      assert Agree(data, pos, offset);
      assert data[..pos] + [data[pos]] == data[..pos + 1];
      assert Matches(data, pos + 1, offset, length - 1);
      CopyReproduces(data, pos + 1, offset, length - 1);
    }
  }

  /** A literal in front. */
  lemma ExpandsLiteral(ts: seq<Token>, pos: nat, recent: Recent, data: seq<byte>)
    requires pos < |data| && Expands(ts, Output(data[..pos + 1], recent), data)
    ensures Expands([LiteralToken(data[pos])] + ts, Output(data[..pos], recent), data)
  {
    assert data[..pos] + [data[pos]] == data[..pos + 1];
    assert ([LiteralToken(data[pos])] + ts)[1..] == ts;
  }

  /** A match in front. */
  lemma ExpandsMatch(ts: seq<Token>, pos: nat, length: nat, offset: nat, recent: Recent, data: seq<byte>)
    requires MIN_MATCH <= length <= MAX_MATCH && offset + MIN_MATCH < WINDOW_SIZE && Matches(data, pos, offset, length)
    requires Expands(ts, Output(data[..pos + length], AfterMatch(offset, recent)), data)
    ensures Expands([MatchToken(length, offset, recent)] + ts, Output(data[..pos], recent), data)
  {
    MatchTokenMeans(length, offset, recent);
    CopyReproduces(data, pos, offset, length);
    assert ([MatchToken(length, offset, recent)] + ts)[1..] == ts;
  }

  /** A match symbol is 256 and eight times its slot, and the length above 2, or 7 and a length symbol for the rest. */
  lemma SymbolSays(slot: nat, short: nat, lenSym: nat, extra: nat, recent: Recent)
    requires short < 8
    ensures var sym := 256 + 8 * slot + short;
            SlotIn(sym) == slot &&
            CopyOf(sym, lenSym, extra, recent).length == if short == 7 then 9 + lenSym else short + 2
  {
    hide Base;
  }
}
