/** Numbers written one after another, and read back one after another. */
module BitFields {
  import opened Arithmetic
  import opened Bits
  import opened BitStream

  /** A number, and how many bits it is written in. */
  datatype BitField = BitField(v: nat, width: nat)

  /** What writing the numbers in turn appends. */
  function FieldsBits(fs: seq<BitField>): (bs: seq<bool>)
  {
    if fs == [] then [] else FieldsBits(fs[..|fs| - 1]) + BitsOf(fs[|fs| - 1].v, fs[|fs| - 1].width)
  }

  /** Where number i begins. */
  function StartOf(fs: seq<BitField>, i: nat): (p: nat)
    requires i <= |fs|
  {
    if i == 0 then 0 else StartOf(fs, i - 1) + fs[i - 1].width
  }

  lemma {:induction false} StartOfFront(fs: seq<BitField>, n: nat, i: nat)
    requires i <= n <= |fs|
    ensures StartOf(fs[..n], i) == StartOf(fs, i)
  {
    if i > 0 { StartOfFront(fs, n, i - 1); }
  }

  lemma {:induction false} FieldsLength(fs: seq<BitField>)
    ensures |FieldsBits(fs)| == StartOf(fs, |fs|)
  {
    if fs != [] {
      FieldsLength(fs[..|fs| - 1]);
      StartOfFront(fs, |fs| - 1, |fs| - 1);
    }
  }

  /** A stream that holds the numbers has each in its place, cut to its width. */
  lemma {:induction false} FieldsHeld(s: Source, fs: seq<BitField>, i: nat)
    requires Holds(s, 0, FieldsBits(fs)) && i < |fs|
    ensures Value(Window(s, StartOf(fs, i), fs[i].width)) == LowBits(fs[i].v, fs[i].width)
    decreases |fs|
  {
    hide Value, Window, LowBits;
    var front, last := fs[..|fs| - 1], fs[|fs| - 1];
    HoldsConcat(s, 0, FieldsBits(front), BitsOf(last.v, last.width));
    FieldsLength(front);
    StartOfFront(fs, |fs| - 1, i);
    if i < |fs| - 1 {
      FieldsHeld(s, front, i);
    } else {
      ValueOfBits(last.v, last.width);
    }
  }

  /** Keeping the low n bits takes the remainder by 2^n. */
  lemma LowBitsIsRemainder(v: nat, n: nat)
    ensures LowBits(v, n) == v % Pow2(n)
  {
    var q := Quotient(v, n);
    DivModUnique(v, Pow2(n), q, LowBits(v, n));
  }

  lemma {:induction false} Quotient(v: nat, n: nat) returns (q: nat)
    ensures v == Pow2(n) * q + LowBits(v, n)
  {
    if n == 0 {
      q := v;
    } else {
      q := Quotient(v / 2, n - 1);
      assert 2 * (Pow2(n - 1) * q) == (2 * Pow2(n - 1)) * q;
    }
  }

  /** Numbers written, flushed and read back come out in order, each cut to its width, and then zeros for ever. */
  lemma FieldsReadBack(fs: seq<BitField>, n: nat)
    ensures var s := Source(Packed(FieldsBits(fs)), 0);
            && (forall i: nat {:trigger fs[i]} ::
                  i < |fs| ==> Value(Window(s, StartOf(fs, i), fs[i].width)) == fs[i].v % Pow2(fs[i].width))
            && Value(Window(s, StartOf(fs, |fs|), n)) == 0
  {
    hide Value, Window, LowBits, Packed;
    var bs := FieldsBits(fs);
    var s := Source(Packed(bs), 0);
    PackedIsFlushed(bs);
    forall i: nat | i < |fs|
      ensures Value(Window(s, StartOf(fs, i), fs[i].width)) == fs[i].v % Pow2(fs[i].width)
    {
      FieldsHeld(s, fs, i);
      LowBitsIsRemainder(fs[i].v, fs[i].width);
    }
    FieldsLength(fs);
    ZerosValue(n);
  }
}
