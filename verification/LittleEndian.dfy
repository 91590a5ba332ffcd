/** Fixed-width little-endian numbers. */
module LittleEndian {
  import opened Bits

  /** How many values n bytes can hold. */
  function Bound(n: nat): (p: nat)
    ensures p >= 1
  {
    if n == 0 then 1 else 256 * Bound(n - 1)
  }

  function Get(b: seq<byte>): (u: nat)
    ensures u < Bound(|b|)
  {
    if b == [] then 0 else b[0] + 256 * Get(b[1..])
  }

  /** The low n bytes of u. */
  function Put(u: nat, n: nat): (b: seq<byte>)
    ensures |b| == n
  {
    if n == 0 then [] else [u % 256] + Put(u / 256, n - 1)
  }

  lemma {:induction false} GetPut(u: nat, n: nat)
    requires u < Bound(n)
    ensures Get(Put(u, n)) == u
  {
    if n > 0 {
      GetPut(u / 256, n - 1);
      assert Put(u, n)[1..] == Put(u / 256, n - 1);
    }
  }

  lemma {:induction false} PutGet(b: seq<byte>)
    ensures Put(Get(b), |b|) == b
  {
    hide Bound;
    if b != [] {
      PutGet(b[1..]);
    }
  }

  lemma Bounds()
    ensures Bound(1) == 0x100 && Bound(2) == 0x1_0000 && Bound(4) == 0x1_0000_0000
    ensures Bound(7) == 0x100_0000_0000_0000 && Bound(8) == 0x1_0000_0000_0000_0000
  {
    assert Bound(3) == 0x100_0000 && Bound(6) == 0x1_0000_0000_0000;
  }
}
