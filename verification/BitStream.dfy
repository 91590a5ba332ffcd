/** The LZX bit stream: bits leave and enter most significant first, in 16-bit little-endian words. */
module BitStream {
  import opened Bits

  /** Input bytes, read as words from byte offset base on; past the end they read as zeros for ever. */
  datatype Source = Source(data: seq<byte>, base: nat)

  function WordAt(data: seq<byte>, p: nat): (w: nat)
    ensures w < 0x1_0000
  {
    if p + 2 <= |data| then data[p] as int + 256 * data[p + 1] as int
    else if p < |data| then data[p]
    else 0
  }

  /** Bit k of the stream: words are taken in turn, most significant bit first. */
  function StreamBit(s: Source, k: nat): bool
    decreases k
  {
    if k < 16 then Shr(WordAt(s.data, s.base), 15 - k) % 2 == 1
    else StreamBit(Source(s.data, s.base + 2), k - 16)
  }

  /** The n bits of the stream that begin at bit position at. */
  function Window(s: Source, at: nat, n: nat): (bs: seq<bool>)
    ensures |bs| == n
  {
    if n == 0 then [] else Window(s, at, n - 1) + [StreamBit(s, at + n - 1)]
  }

  /** The stream carries exactly the bits bs at position at. */
  predicate Holds(s: Source, at: nat, bs: seq<bool>)
  {
    Window(s, at, |bs|) == bs
  }

  lemma ConcatAssoc<T>(a: seq<T>, b: seq<T>, c: seq<T>)
    ensures (a + b) + c == a + (b + c)
  {
  }

  lemma {:induction false} WindowSplit(s: Source, at: nat, m: nat, n: nat)
    ensures Window(s, at, m + n) == Window(s, at, m) + Window(s, at + m, n)
  {
    if n == 0 {
      assert Window(s, at, m) + [] == Window(s, at, m);
    } else {
      WindowSplit(s, at, m, n - 1);
      ConcatAssoc(Window(s, at, m), Window(s, at + m, n - 1), [StreamBit(s, at + m + n - 1)]);
    }
  }

  lemma HoldsConcat(s: Source, at: nat, a: seq<bool>, b: seq<bool>)
    ensures Holds(s, at, a + b) <==> Holds(s, at, a) && Holds(s, at + |a|, b)
  {
    WindowSplit(s, at, |a|, |b|);
    SameConcat(Window(s, at, |a|), Window(s, at + |a|, |b|), a, b);
  }

  lemma SameConcat<T>(a: seq<T>, b: seq<T>, c: seq<T>, d: seq<T>)
    requires |a| == |c|
    ensures a + b == c + d <==> a == c && b == d
  {
    if a + b == c + d {
      assert a == (a + b)[..|a|] == (c + d)[..|c|] == c;
      assert b == (a + b)[|a|..] == (c + d)[|c|..] == d;
    }
  }

  lemma HoldsValue(s: Source, at: nat, v: nat, n: nat)
    requires Holds(s, at, BitsOf(v, n)) && v < Pow2(n)
    ensures Value(Window(s, at, n)) == v
  {
    ValueOfSmallBits(v, n);
  }

  lemma WindowWord(s: Source, j: nat)
    ensures Window(s, 16 * j, 16) == BitsOf(WordAt(s.data, s.base + 2 * j), 16)
  {
    WindowInWord(s, j, 16);
    var w := BitsOf(WordAt(s.data, s.base + 2 * j), 16);
    assert w[..16] == w;
  }

  lemma {:induction false} WindowInWord(s: Source, j: nat, n: nat)
    requires n <= 16
    ensures Window(s, 16 * j, n) == BitsOf(WordAt(s.data, s.base + 2 * j), 16)[..n]
  {
    var v := WordAt(s.data, s.base + 2 * j);
    var w := BitsOf(v, 16);
    if n > 0 {
      WindowInWord(s, j, n - 1);
      BitAt(v, 16, n - 1);
      StreamBitInWord(s, j, n - 1);
      assert w[..n] == w[..n - 1] + [w[n - 1]];
    }
  }

  lemma {:induction false} StreamBitInWord(s: Source, j: nat, i: nat)
    requires i < 16
    ensures StreamBit(s, 16 * j + i) == (Shr(WordAt(s.data, s.base + 2 * j), 15 - i) % 2 == 1)
    decreases j
  {
    if j > 0 {
      StreamBitInWord(Source(s.data, s.base + 2), j - 1, i);
      assert 16 * (j - 1) + i == 16 * j + i - 16;
    }
  }

  /** The bits of whole words. */
  function Written(out: seq<byte>): (bs: seq<bool>)
  {
    if |out| < 2 then []
    else Written(out[..|out| - 2]) + BitsOf(WordAt(out, |out| - 2), 16)
  }

  lemma AppendWord(out: seq<byte>, lo: byte, hi: byte)
    ensures Written(out + [lo, hi]) == Written(out) + BitsOf(lo + 256 * hi, 16)
  {
    var out' := out + [lo, hi];
    assert out'[..|out'| - 2] == out;
    assert WordAt(out', |out|) == lo + 256 * hi;
  }

  /** The bytes of whole words. */
  function Bytes(bs: seq<bool>): (out: seq<byte>)
    ensures |out| % 2 == 0
  {
    if |bs| < 16 then []
    else
      var v := Value(bs[|bs| - 16..]);
      WordSize(v, |bs[|bs| - 16..]|);
      Bytes(bs[..|bs| - 16]) + [v % 256, v / 256]
  }

  /** How many zeros fill up the last word of n bits. */
  function Padding(n: nat): (p: nat)
  {
    if n % 16 == 0 then 0 else 16 - n % 16
  }

  /** The bytes a bit string leaves as. */
  function Packed(bs: seq<bool>): (out: seq<byte>)
  {
    Bytes(bs + Zeros(Padding(|bs|)))
  }

  lemma PackedSome(bs: seq<bool>)
    requires bs != []
    ensures Packed(bs) != []
  {
    hide Value;
    assert |bs + Zeros(Padding(|bs|))| >= 16;
  }

  lemma BytesStep(bs: seq<bool>, p: seq<bool>)
    requires |p| == 16
    ensures Value(p) < 0x1_0000 && Bytes(bs + p) == Bytes(bs) + [Value(p) % 256, Value(p) / 256]
  {
    WordSize(Value(p), |p|);
    assert (bs + p)[|bs + p| - 16..] == p && (bs + p)[..|bs + p| - 16] == bs;
  }

  /** Whole words are their bytes' bits, and nothing else is. */
  lemma {:induction false} BytesOfWritten(out: seq<byte>, n: nat)
    requires |out| == 2 * n
    ensures |Written(out)| == 16 * n && Bytes(Written(out)) == out
    decreases n
  {
    if n > 0 {
      var front, lo, hi := LastBytes(out);
      BytesOfWritten(front, n - 1);
      BytesOfAppended(front, lo, hi);
    }
  }

  lemma LastBytes(out: seq<byte>) returns (front: seq<byte>, lo: byte, hi: byte)
    requires |out| >= 2
    ensures out == front + [lo, hi]
  {
    front, lo, hi := out[..|out| - 2], out[|out| - 2], out[|out| - 1];
  }

  lemma BytesOfAppended(front: seq<byte>, lo: byte, hi: byte)
    requires Bytes(Written(front)) == front
    ensures Bytes(Written(front + [lo, hi])) == front + [lo, hi] && |Written(front + [lo, hi])| == |Written(front)| + 16
  {
    AppendWord(front, lo, hi);
    WordParts(lo, hi, 16);
    BytesStep(Written(front), BitsOf(lo + 256 * hi, 16));
  }

  lemma WordParts(lo: byte, hi: byte, n: nat)
    requires n == 16
    ensures var v := Value(BitsOf(lo + 256 * hi, n)); v % 256 == lo && v / 256 == hi
  {
    WordFits(lo + 256 * hi, n);
  }

  lemma {:induction false} WrittenOfBytes(bs: seq<bool>, n: nat)
    requires |bs| == 16 * n
    ensures |Bytes(bs)| == 2 * n && Written(Bytes(bs)) == bs
    decreases n
  {
    if n > 0 {
      var front, p := bs[..|bs| - 16], bs[|bs| - 16..];
      WrittenOfBytes(front, n - 1);
      assert bs == front + p;
      BytesStep(front, p);
      StoreWord(Bytes(front), p);
    }
  }

  /** Packed bits are read back, and then zeros for ever. */
  lemma PackedIsFlushed(bs: seq<bool>)
    ensures Flushed(Packed(bs), bs)
  {
    var pad := Padding(|bs|);
    var words := (|bs| + pad) / 16;
    WrittenOfBytes(bs + Zeros(pad), words);
    FlushedStream(bs, pad, Packed(bs), words);
  }

  /** Read back from the start, n whole words are the bits they were written from, and then come zeros. */
  lemma {:induction false} WrittenIsRead(out: seq<byte>, n: nat)
    requires |out| == 2 * n
    ensures Window(Source(out, 0), 0, 16 * n) == Written(out)
    ensures |Written(out)| == 16 * n
  {
    if n > 0 {
      var front := out[..|out| - 2];
      WrittenIsRead(front, n - 1);
      SameWords(front, out, 0, n - 1);
      LastWord(Source(out, 0), n - 1);
    }
  }

  lemma LastWord(s: Source, n: nat)
    ensures Window(s, 0, 16 * (n + 1)) == Window(s, 0, 16 * n) + BitsOf(WordAt(s.data, s.base + 2 * n), 16)
  {
    WindowSplit(s, 0, 16 * n, 16);
    WindowWord(s, n);
  }

  /** Streams that agree on their first n words agree on their first 16 * n bits. */
  lemma {:induction false} SameWords(a: seq<byte>, b: seq<byte>, base: nat, n: nat)
    requires base + 2 * n <= |a| && a <= b
    ensures Window(Source(a, base), 0, 16 * n) == Window(Source(b, base), 0, 16 * n)
  {
    if n > 0 {
      SameWords(a, b, base, n - 1);
      LastWord(Source(a, base), n - 1);
      LastWord(Source(b, base), n - 1);
      assert WordAt(a, base + 2 * (n - 1)) == WordAt(b, base + 2 * (n - 1));
    }
  }

  lemma {:induction false} ShrZero(n: nat)
    ensures Shr(0, n) == 0
  {
    if n > 0 { ShrZero(n - 1); }
  }

  lemma {:induction false} BitPastEnd(s: Source, j: nat, k: nat)
    requires s.base + 2 * j >= |s.data| && k >= 16 * j
    ensures !StreamBit(s, k)
    decreases k
  {
    if k < 16 {
      ShrZero(15 - k);
    } else {
      BitPastEnd(Source(s.data, s.base + 2), if j == 0 then 0 else j - 1, k - 16);
    }
  }

  lemma {:induction false} WindowPastEnd(s: Source, j: nat, n: nat)
    requires s.base + 2 * j >= |s.data|
    ensures Window(s, 16 * j, n) == Zeros(n)
  {
    if n > 0 {
      WindowPastEnd(s, j, n - 1);
      BitPastEnd(s, j, 16 * j + n - 1);
    }
  }

  // ---------- accumulators: w-bit words whose top bits are the ones still to leave ----------

  /** Or-ing new bits in below the pending ones appends them. */
  lemma OrBits(p: seq<bool>, q: seq<bool>, w: nat)
    requires |p| + |q| <= w
    ensures Or(Shl(Value(p), w - |p|), LowBits(Shl(Value(q), w - |p| - |q|), w)) == Shl(Value(p + q), w - |p| - |q|)
  {
    ValueConcat(p, q);
    OrWords(Value(p), Value(q), |p|, |q|, w - |p| - |q|, w);
  }

  lemma OrWords(vp: nat, vq: nat, a: nat, b: nat, k: nat, w: nat)
    requires w == a + b + k && vp < Pow2(a) && vq < Pow2(b)
    ensures Or(Shl(vp, b + k), LowBits(Shl(vq, k), w)) == Shl(Shl(vp, b) + vq, k)
  {
    ShlBound(vq, b, k);
    Pow2Monotone(b + k, w);
    LowBitsSmall(Shl(vq, k), w);
    OrDisjoint(vp, Shl(vq, k), b + k);
    ShlAdd(Shl(vp, b), vq, k);
    ShlShl(vp, b, k);
  }

  /** The top bits of an accumulator, and what shifting them out of it leaves. */
  lemma TopBits(p: seq<bool>, q: seq<bool>, w: nat)
    requires |p| + |q| <= w
    ensures Shr(Shl(Value(p + q), w - |p| - |q|), w - |p|) == Value(p)
    ensures LowBits(Shl(Shl(Value(p + q), w - |p| - |q|), |p|), w) == Shl(Value(q), w - |q|)
  {
    ValueConcat(p, q);
    TopWords(Value(p), Value(q), |p|, |q|, w - |p| - |q|, w);
  }

  lemma TopWords(vp: nat, vq: nat, a: nat, b: nat, k: nat, w: nat)
    requires w == a + b + k && vp < Pow2(a) && vq < Pow2(b)
    ensures Shr(Shl(Shl(vp, b) + vq, k), b + k) == vp
    ensures LowBits(Shl(Shl(Shl(vp, b) + vq, k), a), w) == Shl(vq, a + k)
  {
    ShlAdd(Shl(vp, b), vq, k);
    ShlShl(vp, b, k);
    ShlBound(vq, b, k);
    SplitWord(vp, Shl(vq, k), b + k);
    ShlAdd(Shl(vp, b + k), Shl(vq, k), a);
    ShlShl(vp, b + k, a);
    ShlShl(vq, k, a);
    ShlBound(vq, b, k + a);
    SplitWord(vp, Shl(vq, k + a), w);
  }

  /** Zeros appended to the pending bits are already in the accumulator. */
  lemma PadBits(p: seq<bool>, n: nat, w: nat)
    requires |p| + n <= w
    ensures Shl(Value(p + Zeros(n)), w - |p| - n) == Shl(Value(p), w - |p|)
  {
    ValueConcat(p, Zeros(n));
    ZerosValue(n);
    ShlShl(Value(p), n, w - |p| - n);
  }

  lemma WordSize(v: nat, n: nat)
    requires v < Pow2(n) && n == 16
    ensures v < 0x1_0000
  {
    assert Pow2(n) == 4 * Pow2(n - 2) == 16 * Pow2(n - 4) == 64 * Pow2(n - 6) == 256 * Pow2(n - 8);
    assert Pow2(n - 8) == 4 * Pow2(n - 10) == 16 * Pow2(n - 12) == 64 * Pow2(n - 14) == 256 * Pow2(n - 16);
  }

  // ---------- the writer ----------

  class BitWriter {
    var out: seq<byte>
    var acc: nat    // a 32-bit word: the pending bits sit at its top
    var nbits: nat
    ghost var pending: seq<bool>

    /** Everything written so far. */
    ghost function Bits(): seq<bool>
      reads this
    {
      Written(out) + pending
    }

    ghost predicate Valid()
      reads this
    {
      |out| % 2 == 0 && |pending| == nbits <= 15 && acc == Shl(Value(pending), 32 - nbits)
    }

    constructor ()
      ensures Valid() && Bits() == []
    {
      out, acc, nbits, pending := [], 0, 0, [];
      ShlZero(32);
    }

    method Reset()
      modifies this
      ensures Valid() && Bits() == []
    {
      out, acc, nbits, pending := [], 0, 0, [];
      ShlZero(32);
    }

    /** Moves the top sixteen pending bits out as one little-endian word. */
    method PutWord()
      requires |out| % 2 == 0 && 16 <= |pending| == nbits <= 31 && acc == Shl(Value(pending), 32 - nbits)
      modifies this
      ensures |out| == old(|out|) + 2 && |pending| == nbits == old(nbits) - 16
      ensures acc == Shl(Value(pending), 32 - nbits) && Bits() == old(Bits())
    {
      hide Value, Written, Shr, Shl, LowBits;
      ghost var p, q := pending[..16], pending[16..];
      EmitWord(out, acc, pending, p, q, 32);
      var word := Shr(acc, 16);
      out := out + [word % 256, word / 256];
      acc := Shl32(acc, 16);
      nbits := nbits - 16;
      pending := q;
    }

    /** Puts the low n bits of v below the pending ones in the accumulator. */
    method Accumulate(v: nat, n: nat)
      requires Valid() && n <= 16
      modifies this`acc, this`nbits, this`pending
      ensures pending == old(pending) + BitsOf(v, n)
      ensures |pending| == nbits <= 31 && acc == Shl(Value(pending), 32 - nbits)
    {
      AccumulateBits(acc, pending, v, n, 32);
      acc := Or(acc, Shl32(LowBits(v, n), 32 - nbits - n));
      nbits := nbits + n;
      pending := pending + BitsOf(v, n);
    }

    /** Appends the low n bits of v. */
    method Write(v: nat, n: nat)
      requires Valid() && n <= 16
      modifies this
      ensures Valid() && Bits() == old(Bits()) + BitsOf(v, n)
    {
      hide Shl, Value, Written;
      if n == 0 { return; }
      Accumulate(v, n);
      ConcatAssoc(Written(out), old(pending), BitsOf(v, n));
      Drain();
    }

    /** Moves out every whole word that is pending. */
    method Drain()
      requires |out| % 2 == 0 && |pending| == nbits <= 31 && acc == Shl(Value(pending), 32 - nbits)
      modifies this
      ensures Valid() && Bits() == old(Bits())
    {
      hide Shl, Value, Written;
      while nbits >= 16
        invariant |out| % 2 == 0 && |pending| == nbits <= 31 && acc == Shl(Value(pending), 32 - nbits)
        invariant Bits() == old(Bits())
        decreases nbits
      {
        PutWord();
      }
    }

    /** Fills up the last word with zeros and moves it out. */
    method Flush()
      requires Valid()
      modifies this
      ensures Valid() && nbits == 0
      ensures out == Packed(old(Bits()))
    {
      hide Shl, Written, Packed, Value, Padding;
      if nbits > 0 {
        ghost var pad := 16 - nbits;
        PadBits(pending, pad, 32);
        ConcatAssoc(Written(out), pending, Zeros(pad));
        nbits := 16;
        pending := pending + Zeros(pad);
        PutWord();
        acc := 0;
        ShlZero(32);
        WrittenIsPacked(out, |out| / 2, old(Bits()), pad);
      } else {
        WrittenIsPacked(out, |out| / 2, old(Bits()), 0);
      }
    }
  }

  lemma WrittenIsPacked(out: seq<byte>, n: nat, bs: seq<bool>, pad: nat)
    requires |out| == 2 * n && Written(out) == bs + Zeros(pad) && pad < 16
    ensures out == Packed(bs)
  {
    BytesOfWritten(out, n);
    PaddingIs(|bs|, pad, n);
  }

  lemma PaddingIs(len: nat, pad: nat, n: nat)
    requires len + pad == 16 * n && pad < 16
    ensures Padding(len) == pad
  {
  }

  /** The stream of out is all, and then zeros for ever. */
  ghost predicate Flushed(out: seq<byte>, all: seq<bool>)
  {
    && Holds(Source(out, 0), 0, all)
    && forall n :: Window(Source(out, 0), |all|, n) == Zeros(n)
  }

  lemma AccumulateBits(acc: nat, pending: seq<bool>, v: nat, n: nat, w: nat)
    requires |pending| + n <= w && acc == Shl(Value(pending), w - |pending|)
    ensures Or(acc, LowBits(Shl(LowBits(v, n), w - |pending| - n), w))
         == Shl(Value(pending + BitsOf(v, n)), w - |pending| - n)
  {
    ValueOfBits(v, n);
    OrBits(pending, BitsOf(v, n), w);
  }

  /** The top sixteen pending bits leave as the next word of the stream. */
  lemma {:induction false} EmitWord(out: seq<byte>, acc: nat, pending: seq<bool>, p: seq<bool>, q: seq<bool>, w: nat)
    requires |out| % 2 == 0 && pending == p + q && |p| == 16 && |p| + |q| <= w
    requires acc == Shl(Value(pending), w - |pending|)
    ensures var word := Shr(acc, w - 16);
            && word < 0x1_0000
            && Written(out + [word % 256, word / 256]) == Written(out) + p
    ensures LowBits(Shl(acc, 16), w) == Shl(Value(q), w - |q|)
  {
    TopBits(p, q, w);
    StoreWord(out, p);
  }

  lemma {:induction false} StoreWord(out: seq<byte>, p: seq<bool>)
    requires |p| == 16
    ensures Value(p) < 0x1_0000
    ensures Written(out + [Value(p) % 256, Value(p) / 256]) == Written(out) + p
  {
    var word := Value(p);
    WordSize(word, |p|);
    AppendWord(out, word % 256, word / 256);
    BitsOfValue(p);
  }

  lemma FlushedStream(all: seq<bool>, pad: nat, out: seq<byte>, words: nat)
    requires |out| == 2 * words && Written(out) == all + Zeros(pad)
    ensures Flushed(out, all)
  {
    var s := Source(out, 0);
    WrittenIsRead(out, words);
    HoldsConcat(s, 0, all, Zeros(pad));
    forall n: nat
      ensures Window(s, |all|, n) == Zeros(n)
    {
      ZerosAfter(s, |all|, pad, words, n);
    }
  }

  lemma ZerosAfter(s: Source, at: nat, pad: nat, words: nat, n: nat)
    requires at + pad == 16 * words && s.base + 2 * words >= |s.data|
    requires Window(s, at, pad) == Zeros(pad)
    ensures Window(s, at, n) == Zeros(n)
  {
    WindowSplit(s, at, pad, n);
    WindowPastEnd(s, words, n);
    ZerosSplit(pad, n);
    WindowSplit(s, at, n, pad);
    ZerosSplit(n, pad);
    SameConcat(Window(s, at, n), Window(s, at + n, pad), Zeros(n), Zeros(pad));
  }

  // ---------- the reader ----------

  class BitReader {
    var data: seq<byte>
    var pos: nat
    var acc: nat
    var nbits: nat
    var unaligned: bool
    var err: bool
    ghost var base: nat  // where the words now being read began
    ghost var at: nat    // bits consumed since then
    ghost var fed: nat   // words fed since then

    ghost function Src(): Source
      reads this
    {
      Source(data, base)
    }

    ghost predicate Valid()
      reads this
    {
      nbits <= 15 && Buffered(Src(), pos, acc, nbits, at, fed, 32)
    }

    constructor (data: seq<byte>)
      ensures Valid() && this.data == data && base == 0 && at == 0 && !err && !unaligned && pos == 0 && nbits == 0
    {
      this.data := data;
      pos, acc, nbits, unaligned, err, base, at, fed := 0, 0, 0, false, false, 0, 0, 0;
      ShlZero(32);
    }

    /** Moves one more word into the accumulator. */
    method Feed()
      requires nbits <= 15 && Buffered(Src(), pos, acc, nbits, at, fed, 32)
      modifies this`pos, this`acc, this`nbits, this`fed
      ensures nbits == old(nbits) + 16 && Buffered(Src(), pos, acc, nbits, at, fed, 32)
    {
      hide Value, Window, StreamBit, Or, Shl, LowBits;
      FeedWord(Src(), pos, acc, nbits, at, fed, 32);
      var w := 0;
      if pos + 2 <= |data| {
        w := data[pos] as int + 256 * data[pos + 1] as int;
        pos := pos + 2;
      } else if pos < |data| {
        w := data[pos];
        pos := |data|;
      }
      acc := Or(acc, Shl32(w, 16 - nbits));
      nbits := nbits + 16;
      fed := fed + 1;
    }

    /** The next n bits; past the end of the input they are zeros. */
    method Bits(n: nat) returns (v: nat)
      requires Valid() && n <= 16
      modifies this`pos, this`acc, this`nbits, this`at, this`fed
      ensures Valid() && at == old(at) + n
      ensures v == Value(Window(Src(), old(at), n)) < Pow2(n)
    {
      hide Value, Window, StreamBit, Shr, Shl, LowBits, Buffered, Pow2, WordPos;
      NoBits(Src(), at);
      if n == 0 { return 0; }
      if nbits < n {
        Feed();
      }
      TakeBits(Src(), pos, acc, nbits, at, fed, n, 32);
      v := Shr(acc, 32 - n);
      acc := Shl32(acc, n);
      nbits := nbits - n;
      at := at + n;
    }

    /** Between words: no bit is buffered, and words run from pos on. */
    ghost predicate AtWord()
      reads this
    {
      Valid() && at == 0 && fed == 0 && nbits == 0
    }

    /** Starts the word stream again at pos. */
    ghost method Rebase()
      requires Valid() && nbits == 0
      modifies this`base, this`at, this`fed
      ensures AtWord() && base == pos
    {
      base, at, fed := pos, 0, 0;
    }

    /** Restores 2-byte alignment after an uncompressed block of odd length. */
    method SkipPadding()
      requires Valid() && (unaligned ==> AtWord())
      modifies this`pos, this`unaligned, this`base, this`at, this`fed
      ensures Valid() && !unaligned && at == old(at)
      ensures base == if old(unaligned) && old(base) < |data| then old(base) + 1 else old(base)
    {
      if unaligned {
        if pos < |data| {
          pos := pos + 1;
        }
        unaligned := false;
        base := pos;
      }
    }

    /** Drops the rest of the current word, or all of the next one when there is no rest. */
    method SkipToWord()
      requires Valid()
      modifies this`pos, this`acc, this`nbits, this`base, this`at, this`fed
      ensures AtWord() && pos == base == WordPos(old(Src()), old(at) / 16 + 1)
    {
      hide Shl, Value, Window, StreamBit, Buffered;
      ghost var j := at / 16 + 1;
      ToBoundary(Src(), pos, acc, nbits, at, fed);
      var n := nbits;
      if n == 0 { n := 16; }
      var _ := Bits(n);
      AtBoundary(Src(), pos, acc, nbits, at, fed, j);
      Rebase();
    }

    /** Steps over bytes that are not part of the bit stream. */
    method Skip(n: nat)
      requires AtWord() && pos == base && pos + n <= |data|
      modifies this`pos, this`base
      ensures AtWord() && pos == base == old(base) + n
    {
      pos := pos + n;
      base := pos;
    }
  }

  /** The next n bits of the stream sit at the top of the w-bit word acc, and pos is the word after them. */
  ghost predicate Buffered(s: Source, pos: nat, acc: nat, n: nat, at: nat, fed: nat, w: nat)
  {
    && n <= w && s.base <= |s.data| && at + n == WordsLength(fed)
    && pos == WordPos(s, fed)
    && acc == Shl(Value(Window(s, at, n)), w - n)
  }

  /** How many bits n words hold. */
  function WordsLength(n: nat): nat
  {
    if n == 0 then 0 else 16 + WordsLength(n - 1)
  }

  lemma {:induction false} WordsLengthValue(n: nat)
    ensures WordsLength(n) == 16 * n
  {
    if n > 0 { WordsLengthValue(n - 1); }
  }

  /** The bits still buffered reach just to the end of a word. */
  lemma ToBoundary(s: Source, pos: nat, acc: nat, n: nat, at: nat, fed: nat)
    requires n <= 15 && Buffered(s, pos, acc, n, at, fed, 32)
    ensures at + (if n == 0 then 16 else n) == 16 * (at / 16 + 1)
  {
    hide Shl, Value, Window;
    WordsLengthValue(fed);
  }

  /** Between words nothing is buffered. */
  lemma AtBoundary(s: Source, pos: nat, acc: nat, n: nat, at: nat, fed: nat, j: nat)
    requires n <= 15 && Buffered(s, pos, acc, n, at, fed, 32) && at == 16 * j
    ensures n == 0 && pos == WordPos(s, j) && s.base <= |s.data|
  {
    hide Shl, Value, Window;
    WordsLengthValue(fed);
  }

  function WordPos(s: Source, j: nat): nat
  {
    if s.base + 2 * j <= |s.data| then s.base + 2 * j else |s.data|
  }

  lemma NoBits(s: Source, at: nat)
    ensures Value(Window(s, at, 0)) == 0 < Pow2(0)
  {
  }

  lemma FeedWord(s: Source, pos: nat, acc: nat, n: nat, at: nat, fed: nat, w: nat)
    requires Buffered(s, pos, acc, n, at, fed, w) && n + 16 <= w
    ensures var word := WordAt(s.data, pos);
            var pos' := if pos + 2 <= |s.data| then pos + 2 else |s.data|;
            Buffered(s, pos', Or(acc, LowBits(Shl(word, w - 16 - n), w)), n + 16, at, fed + 1, w)
  {
    var word := WordAt(s.data, pos);
    assert word == WordAt(s.data, s.base + 2 * fed);
    NextWord(s, at, n, fed);
    OrBits(Window(s, at, n), BitsOf(word, 16), w);
  }

  lemma NextWord(s: Source, at: nat, n: nat, fed: nat)
    requires at + n == WordsLength(fed)
    ensures Window(s, at, n + 16) == Window(s, at, n) + BitsOf(WordAt(s.data, s.base + 2 * fed), 16)
    ensures Value(BitsOf(WordAt(s.data, s.base + 2 * fed), 16)) == WordAt(s.data, s.base + 2 * fed)
  {
    WordsLengthValue(fed);
    WindowSplit(s, at, n, 16);
    WindowWord(s, fed);
    WordFits(WordAt(s.data, s.base + 2 * fed), 16);
  }

  lemma WordFits(v: nat, n: nat)
    requires v < 0x1_0000 && n == 16
    ensures Value(BitsOf(v, n)) == v
  {
    assert Pow2(n) == 4 * Pow2(n - 2) == 16 * Pow2(n - 4) == 64 * Pow2(n - 6) == 256 * Pow2(n - 8);
    assert Pow2(n - 8) == 4 * Pow2(n - 10) == 16 * Pow2(n - 12) == 64 * Pow2(n - 14) == 256 * Pow2(n - 16);
    ValueOfSmallBits(v, n);
  }

  lemma {:induction false} TakeBits(s: Source, pos: nat, acc: nat, nbits: nat, at: nat, fed: nat, n: nat, w: nat)
    requires 0 < n <= nbits && Buffered(s, pos, acc, nbits, at, fed, w)
    ensures Shr(acc, w - n) == Value(Window(s, at, n))
    ensures Buffered(s, pos, LowBits(Shl(acc, n), w), nbits - n, at + n, fed, w)
  {
    WindowSplit(s, at, n, nbits - n);
    TopBits(Window(s, at, n), Window(s, at + n, nbits - n), w);
  }

  // ---------- the order of the bits ----------

  /** Of a number put together from a low and a high part, each bit is one of the part it lies in. */
  lemma {:induction false} ShrOfSum(a: nat, b: nat, k: nat, m: nat)
    requires a < Pow2(k)
    ensures Shr(a + Shl(b, k), m) % 2 == (if m < k then Shr(a, m) else Shr(b, m - k)) % 2
  {
    if k > 0 && m > 0 {
      assert (a + Shl(b, k)) / 2 == a / 2 + Shl(b, k - 1);
      ShrOfSum(a / 2, b, k - 1, m - 1);
    }
  }

  /** The stream takes the second byte of each pair before the first, each from its top bit down, and then zeros. */
  lemma StreamBitIs(s: Source, k: nat)
    ensures var p := s.base + 2 * (k / 16) + (if k % 16 < 8 then 1 else 0);
            StreamBit(s, k) == (p < |s.data| && Shr(s.data[p], 7 - k % 8) % 2 == 1)
  {
    hide Shr, Shl, Pow2, StreamBit;
    var j, i := k / 16, k % 16;
    StreamBitInWord(s, j, i);
    var at := s.base + 2 * j;
    var lo, hi := if at < |s.data| then s.data[at] else 0, if at + 1 < |s.data| then s.data[at + 1] else 0;
    WordOfBytes(lo, hi, 8);
    ShrOfSum(lo, hi, 8, 15 - i);
    ShrZero(7 - k % 8);
  }

  lemma WordOfBytes(lo: byte, hi: byte, n: nat)
    requires n == 8
    ensures lo < Pow2(n) && Shl(hi, n) == 256 * hi
  {
    assert Pow2(n) == 4 * Pow2(n - 2) == 16 * Pow2(n - 4) == 64 * Pow2(n - 6) == 256 * Pow2(n - 8);
    assert Shl(hi, n) == 4 * Shl(hi, n - 2) == 16 * Shl(hi, n - 4) == 64 * Shl(hi, n - 6) == 256 * Shl(hi, n - 8);
  }
}
