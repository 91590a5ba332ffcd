/** Tokens as bits: what the encoder writes for each, and how the decoder turns the bits into output. */
module TokenCodec {
  import opened Bits
  import opened BitStream
  import opened Canonical
  import opened Readers
  import opened Slots
  import opened Tokens

  /** The code lengths of a block's three trees. */
  datatype Trees = Trees(main: seq<nat>, length: seq<nat>, aligned: seq<nat>)

  // ---------- writing ----------

  /** Every symbol the token needs has a code. */
  predicate Codable(t: Token, trees: Trees, useAligned: bool)
  {
    && t.sym < |trees.main| && trees.main[t.sym] > 0
    && (t.lenSym >= 0 ==> t.lenSym < |trees.length| && trees.length[t.lenSym] > 0)
    && (useAligned && t.slot >= 0 && Footer(t.slot) >= 3 ==>
          t.extra % 8 < |trees.aligned| && trees.aligned[t.extra % 8] > 0)
  }

  /** The offset bits: in an aligned block the low three are coded as a symbol. */
  function ExtraBits(t: Token, trees: Trees, useAligned: bool): seq<bool>
    requires Codable(t, trees, useAligned) && t.slot >= 0
  {
    var n := Footer(t.slot);
    if useAligned && n >= 3 then BitsOf(t.extra / 8, n - 3) + CodeBits(trees.aligned, t.extra % 8)
    else BitsOf(t.extra, n)
  }

  function LengthBits(t: Token, trees: Trees, useAligned: bool): seq<bool>
    requires Codable(t, trees, useAligned)
  {
    if t.lenSym >= 0 then CodeBits(trees.length, t.lenSym) else []
  }

  function TokenBits(t: Token, trees: Trees, useAligned: bool): seq<bool>
    requires Codable(t, trees, useAligned)
  {
    CodeBits(trees.main, t.sym) +
    if t.slot < 0 then []
    else LengthBits(t, trees, useAligned) + ExtraBits(t, trees, useAligned)
  }

  predicate AllCodable(ts: seq<Token>, trees: Trees, useAligned: bool)
  {
    forall i {:trigger ts[i]} :: 0 <= i < |ts| ==> Codable(ts[i], trees, useAligned)
  }

  function TokensBits(ts: seq<Token>, trees: Trees, useAligned: bool): seq<bool>
    requires AllCodable(ts, trees, useAligned)
  {
    if ts == [] then [] else TokenBits(ts[0], trees, useAligned) + TokensBits(ts[1..], trees, useAligned)
  }

  // ---------- reading ----------

  /** The decoder's ways of reading: a symbol of each tree, and raw bits. */
  datatype Decoders = Decoders(main: SymbolReader, length: SymbolReader, aligned: SymbolReader, field: FieldReader)

  function ReadExtra(rd: Decoders, at: nat, slot: nat, useAligned: bool): Option<Decoded<nat>>
  {
    var n := Footer(slot);
    if n == 0 then Some(Decoded(0, at))
    else if useAligned && n >= 3 then
      match rd.aligned(at + (n - 3))
      case None => None
      case Some(low) => Some(Decoded(8 * rd.field(at, n - 3) + low.value, low.next))
    else Some(Decoded(rd.field(at, n), at + n))
  }

  /** The length symbol of a match, which only the longest short length calls for. */
  function ReadLength(rd: Decoders, at: nat, sym: nat): Option<Decoded<nat>>
    requires sym >= MAIN_CODE_SPLIT
  {
    if ShortLength(sym) == 7 then rd.length(at) else Some(Decoded(0, at))
  }

  function ReadCopy(rd: Decoders, at: nat, sym: nat, recent: Recent, useAligned: bool): Option<Decoded<Copy>>
    requires sym >= MAIN_CODE_SPLIT
  {
    match ReadLength(rd, at, sym)
    case None => None
    case Some(len) =>
      var slot := SlotIn(sym);
      if slot < 3 then Some(Decoded(CopyOf(sym, len.value, 0, recent), len.next))
      else if slot >= SLOT_COUNT then None
      else
        match ReadExtra(rd, len.next, slot, useAligned)
        case None => None
        case Some(extra) => Some(Decoded(CopyOf(sym, len.value, extra.value, recent), extra.next))
  }

  /** What a block has produced, and where in the stream it has got to. */
  datatype Progress = Progress(o: Output, at: nat)

  /** Reads one token and produces what it stands for. */
  function ProduceOne(rd: Decoders, useAligned: bool, p: Progress, end: nat): (r: Option<Progress>)
    requires |p.o.bytes| < end
    ensures r.Some? ==> |p.o.bytes| < |r.value.o.bytes| <= end
  {
    match rd.main(p.at)
    case None => None
    case Some(sym) =>
      if sym.value < MAIN_CODE_SPLIT then Some(Progress(Output(p.o.bytes + [sym.value], p.o.recent), sym.next))
      else
        match ReadCopy(rd, sym.next, sym.value, p.o.recent, useAligned)
        case None => None
        case Some(c) =>
          if !InRange(c.value, |p.o.bytes|, end) then None
          else Some(Progress(Output(CopyBytes(p.o.bytes, c.value.offset, c.value.length), c.value.recent), c.next))
  }

  /** Produces output until there are end bytes. */
  function Produce(rd: Decoders, useAligned: bool, p: Progress, end: nat): (r: Option<Progress>)
    ensures r.Some? && |p.o.bytes| <= end ==> |r.value.o.bytes| == end
    decreases end - |p.o.bytes|
  {
    if |p.o.bytes| >= end then Some(p)
    else
      match ProduceOne(rd, useAligned, p, end)
      case None => None
      case Some(q) => Produce(rd, useAligned, q, end)
  }

  // ---------- what is written is read ----------

  /** The decoders find what the trees wrote. */
  ghost predicate Finds(rd: Decoders, trees: Trees, useAligned: bool, s: Source)
  {
    && FindsCodes(rd.main, trees.main, s) && FindsCodes(rd.length, trees.length, s) && FindsFields(rd.field, s)
    && (useAligned ==> FindsCodes(rd.aligned, trees.aligned, s))
  }

  lemma LengthRead(rd: Decoders, trees: Trees, useAligned: bool, s: Source, at: nat, t: Token)
    requires Finds(rd, trees, useAligned, s) && Codable(t, trees, useAligned) && InAlphabet(t) && !IsLiteral(t)
    requires Holds(s, at, LengthBits(t, trees, useAligned))
    ensures ReadLength(rd, at, t.sym) ==
            Some(Decoded(if t.lenSym >= 0 then t.lenSym else 0, at + |LengthBits(t, trees, useAligned)|))
  {
  }

  lemma TopOfExtra(extra: nat, n: nat)
    requires extra < Pow2(n)
    ensures n == 0 ==> extra == 0
    ensures n >= 3 ==> extra / 8 < Pow2(n - 3)
  {
    if n >= 3 {
      assert Pow2(n) == 2 * Pow2(n - 1) == 4 * Pow2(n - 2) == 8 * Pow2(n - 3);
    }
  }

  lemma ExtraRead(rd: Decoders, trees: Trees, useAligned: bool, s: Source, at: nat, t: Token)
    requires Finds(rd, trees, useAligned, s) && Codable(t, trees, useAligned) && t.slot >= 0 &&
             t.extra < Pow2(Footer(t.slot))
    requires Holds(s, at, ExtraBits(t, trees, useAligned))
    ensures ReadExtra(rd, at, t.slot, useAligned) == Some(Decoded(t.extra, at + |ExtraBits(t, trees, useAligned)|))
  {
    hide Footer, CodeBits, Window, Value, Pow2, Holds, BitsOf;
    var n := Footer(t.slot);
    TopOfExtra(t.extra, n);
    if useAligned && n >= 3 {
      HoldsConcat(s, at, BitsOf(t.extra / 8, n - 3), CodeBits(trees.aligned, t.extra % 8));
    }
  }

  lemma CopyFromParts(rd: Decoders, useAligned: bool, at: nat, sym: nat, recent: Recent, len: Decoded<nat>,
                      extra: Decoded<nat>)
    requires sym >= MAIN_CODE_SPLIT && SlotIn(sym) < SLOT_COUNT && ReadLength(rd, at, sym) == Some(len)
    requires ReadExtra(rd, len.next, SlotIn(sym), useAligned) == Some(extra)
    ensures ReadCopy(rd, at, sym, recent, useAligned) ==
            Some(Decoded(CopyOf(sym, len.value, extra.value, recent), extra.next))
  {
  }

  /** The decoder makes of a match token's bits the copy it stands for. */
  lemma CopyRead(rd: Decoders, trees: Trees, useAligned: bool, s: Source, at: nat, t: Token, recent: Recent)
    requires Finds(rd, trees, useAligned, s) && Codable(t, trees, useAligned) && InAlphabet(t) && !IsLiteral(t)
    requires Holds(s, at, LengthBits(t, trees, useAligned) + ExtraBits(t, trees, useAligned))
    ensures ReadCopy(rd, at, t.sym, recent, useAligned)
         == Some(Decoded(CopyOfToken(t, recent),
                         at + |LengthBits(t, trees, useAligned) + ExtraBits(t, trees, useAligned)|))
  {
    var len, extra := LengthBits(t, trees, useAligned), ExtraBits(t, trees, useAligned);
    HoldsConcat(s, at, len, extra);
    LengthRead(rd, trees, useAligned, s, at, t);
    ExtraRead(rd, trees, useAligned, s, at + |len|, t);
    CopyFromParts(rd, useAligned, at, t.sym, recent, Decoded(if t.lenSym >= 0 then t.lenSym else 0, at + |len|),
                  Decoded(t.extra, at + |len| + |extra|));
  }

  lemma ProduceLiteral(rd: Decoders, useAligned: bool, p: Progress, end: nat, t: Token, next: nat)
    requires Applies(t, p.o, end) && IsLiteral(t) && rd.main(p.at) == Some(Decoded(t.sym, next))
    ensures ProduceOne(rd, useAligned, p, end) == Some(Progress(Apply(t, p.o, end), next))
  {
    hide ReadCopy, CopyOfToken, CopyBytes, Base;
  }

  lemma ProduceMatch(rd: Decoders, useAligned: bool, p: Progress, end: nat, t: Token, at: nat, next: nat)
    requires Applies(t, p.o, end) && !IsLiteral(t) && rd.main(p.at) == Some(Decoded(t.sym, at))
    requires ReadCopy(rd, at, t.sym, p.o.recent, useAligned) == Some(Decoded(CopyOfToken(t, p.o.recent), next))
    ensures ProduceOne(rd, useAligned, p, end) == Some(Progress(Apply(t, p.o, end), next))
  {
    hide ReadCopy, CopyOfToken, CopyBytes, Base;
  }

  /** The main symbol of a token is found, and the position after it. */
  lemma MainFound(rd: Decoders, trees: Trees, useAligned: bool, s: Source, at: nat, t: Token)
    requires Finds(rd, trees, useAligned, s) && Codable(t, trees, useAligned) &&
             Holds(s, at, CodeBits(trees.main, t.sym))
    ensures rd.main(at) == Some(Decoded(t.sym, at + |CodeBits(trees.main, t.sym)|))
  {
    hide Holds, Code, Footer;
  }

  /** One token read produces what the token stands for. */
  lemma TokenRead(rd: Decoders, trees: Trees, useAligned: bool, s: Source, p: Progress, t: Token, end: nat)
    requires Finds(rd, trees, useAligned, s) && Codable(t, trees, useAligned) && Applies(t, p.o, end)
    requires Holds(s, p.at, TokenBits(t, trees, useAligned))
    ensures ProduceOne(rd, useAligned, p, end) ==
            Some(Progress(Apply(t, p.o, end), p.at + |TokenBits(t, trees, useAligned)|))
  {
    hide Finds, Holds, CodeBits, LengthBits, ExtraBits, ProduceOne, ReadCopy, Apply, CopyOfToken, Footer, Base;
    var code := CodeBits(trees.main, t.sym);
    var rest := if IsLiteral(t) then [] else LengthBits(t, trees, useAligned) + ExtraBits(t, trees, useAligned);
    HoldsConcat(s, p.at, code, rest);
    MainFound(rd, trees, useAligned, s, p.at, t);
    if IsLiteral(t) {
      ProduceLiteral(rd, useAligned, p, end, t, p.at + |code|);
    } else {
      CopyRead(rd, trees, useAligned, s, p.at + |code|, t, p.o.recent);
      ProduceMatch(rd, useAligned, p, end, t, p.at + |code|, p.at + |code| + |rest|);
    }
  }

  /** What tokens produce from o on, when the decoder accepts every one and they end at end bytes. */
  function Expanded(ts: seq<Token>, o: Output, end: nat): (last: Option<Output>)
    ensures last.Some? ==> |last.value.bytes| == end
  {
    if ts == [] then if |o.bytes| == end then Some(o) else None
    else if Applies(ts[0], o, end) then Expanded(ts[1..], Apply(ts[0], o, end), end)
    else None
  }

  lemma {:induction false} ExpandsToData(ts: seq<Token>, o: Output, data: seq<byte>)
    ensures Expands(ts, o, data) <==> Expanded(ts, o, |data|).Some? && Expanded(ts, o, |data|).value.bytes == data
    decreases |ts|
  {
    if ts != [] && Applies(ts[0], o, |data|) {
      ExpandsToData(ts[1..], Apply(ts[0], o, |data|), data);
    }
  }

  /** Tokens written and read again produce what they stand for, and reading stops at their last bit. */
  lemma {:induction false} TokensRead(rd: Decoders, trees: Trees, useAligned: bool, s: Source, p: Progress,
                                      ts: seq<Token>, end: nat)
    requires Finds(rd, trees, useAligned, s) && AllCodable(ts, trees, useAligned)
    requires Expanded(ts, p.o, end).Some? && Holds(s, p.at, TokensBits(ts, trees, useAligned))
    ensures Produce(rd, useAligned, p, end)
         == Some(Progress(Expanded(ts, p.o, end).value, p.at + |TokensBits(ts, trees, useAligned)|))
    decreases |ts|
  {
    hide TokenBits, Apply, Applies, ProduceOne, Finds, Codable, Holds;
    if ts != [] {
      var t, rest := ts[0], ts[1..];
      var bits := TokenBits(t, trees, useAligned);
      HoldsConcat(s, p.at, bits, TokensBits(rest, trees, useAligned));
      TokenRead(rd, trees, useAligned, s, p, t, end);
      TokensRead(rd, trees, useAligned, s, Progress(Apply(t, p.o, end), p.at + |bits|), rest, end);
    }
  }
}
