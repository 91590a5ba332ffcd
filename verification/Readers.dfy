/** Reading a stream through two functions: one finds symbols, the other numbers of a given width. */
module Readers {
  import opened Bits
  import opened BitStream
  import opened Canonical
  import opened DecodeTable

  /** From a bit position, to the symbol there and the position after it. */
  type SymbolReader = nat -> Option<Decoded<nat>>

  /** From a bit position and a width, to the number there. */
  type FieldReader = (nat, nat) -> nat

  function SymbolsOf(lens: seq<nat>, s: Source): SymbolReader
  {
    at => ReadSymbol(lens, s, at)
  }

  function FieldsOf(s: Source): FieldReader
  {
    (at, n) => Value(Window(s, at, n))
  }

  /** Wherever the stream holds a code, sym finds its symbol. */
  ghost predicate FindsCodes(sym: SymbolReader, lens: seq<nat>, s: Source)
  {
    forall at: nat, i: nat {:trigger Holds(s, at, CodeBits(lens, i))} ::
      i < |lens| && lens[i] > 0 && Holds(s, at, CodeBits(lens, i)) ==> sym(at) == Some(Decoded(i, at + lens[i]))
  }

  /** Wherever the stream holds a number, field finds it. */
  ghost predicate FindsFields(field: FieldReader, s: Source)
  {
    forall at: nat, v: nat, n: nat {:trigger Holds(s, at, BitsOf(v, n))} ::
      v < Pow2(n) && Holds(s, at, BitsOf(v, n)) ==> field(at, n) == v
  }

  lemma SymbolsFound(lens: seq<nat>, s: Source)
    requires Usable(lens)
    ensures FindsCodes(SymbolsOf(lens, s), lens, s)
  {
    forall at: nat, i: nat | i < |lens| && lens[i] > 0 && Holds(s, at, CodeBits(lens, i))
      ensures SymbolsOf(lens, s)(at) == Some(Decoded(i, at + lens[i]))
    {
      ReadsCode(lens, i, s, at);
    }
  }

  lemma FieldsFound(s: Source)
    ensures FindsFields(FieldsOf(s), s)
  {
    forall at: nat, v: nat, n: nat | v < Pow2(n) && Holds(s, at, BitsOf(v, n))
      ensures FieldsOf(s)(at, n) == v
    {
      HoldsValue(s, at, v, n);
    }
  }

  // ---------- readers over a BitReader ----------

  /** A mark: the facts below apply only where it is made. */
  ghost predicate Asked(at: nat, n: nat)
  {
    true
  }

  ghost predicate AreFields(field: FieldReader, s: Source)
  {
    forall at: nat, n: nat {:trigger Asked(at, n)} :: field(at, n) == Value(Window(s, at, n))
  }

  ghost predicate AreSymbols(sym: SymbolReader, lens: seq<nat>, s: Source)
  {
    forall at: nat, n: nat {:trigger Asked(at, n)} :: sym(at) == ReadSymbol(lens, s, at)
  }

  lemma FieldsAreFields(s: Source)
    ensures AreFields(FieldsOf(s), s)
  {
  }

  lemma SymbolsAreSymbols(lens: seq<nat>, s: Source)
    ensures AreSymbols(SymbolsOf(lens, s), lens, s)
  {
  }

  method ReadField(b: BitReader, n: nat, ghost field: FieldReader) returns (v: nat)
    requires b.Valid() && n <= 16 && AreFields(field, b.Src())
    modifies b`pos, b`acc, b`nbits, b`at, b`fed
    ensures b.Valid() && b.at == old(b.at) + n && v == field(old(b.at), n)
  {
    assert Asked(b.at, n);
    v := b.Bits(n);
  }

  method ReadSym(b: BitReader, h: Huffman, ghost sym: SymbolReader) returns (c: nat)
    requires b.Valid() && h.Valid() && !b.err && AreSymbols(sym, h.lens, b.Src())
    modifies b`pos, b`acc, b`nbits, b`at, b`fed, b`err
    ensures b.Valid() && Agrees(sym(old(b.at)), c, b.at, b.err)
  {
    assert Asked(b.at, 0);
    c := Sym(b, h);
  }
}
