/** File names: code points, their UTF-16 form, and their order. */
module Names {
  /** A Unicode scalar value. */
  type Rune = r: nat | r < 0xD800 || 0xE000 <= r < 0x11_0000

  type Unit = u: nat | u < 0x1_0000

  const REPLACEMENT: Rune := 0xFFFD

  type Name = seq<Rune>

  // ---------- UTF-16 ----------

  /** The UTF-16 units of one code point (section 2.1 of RFC 2781). */
  function EncodeRune(r: Rune): (us: seq<Unit>)
    ensures |us| == 1 || |us| == 2
  {
    if r < 0x1_0000 then [r] else [0xD800 + (r - 0x1_0000) / 0x400, 0xDC00 + (r - 0x1_0000) % 0x400]
  }

  function Encode(name: Name): (us: seq<Unit>)
  {
    if name == [] then [] else EncodeRune(name[0]) + Encode(name[1..])
  }

  predicate IsHigh(u: Unit)
  {
    0xD800 <= u < 0xDC00
  }

  predicate IsLow(u: Unit)
  {
    0xDC00 <= u < 0xE000
  }

  /** Decoding (section 2.2 of RFC 2781); a surrogate without its partner becomes the replacement character. */
  function Decode(us: seq<Unit>): (name: Name)
  {
    if us == [] then []
    else if IsHigh(us[0]) && |us| > 1 && IsLow(us[1]) then
      [0x1_0000 + (us[0] as int - 0xD800) * 0x400 + (us[1] as int - 0xDC00)] + Decode(us[2..])
    else if IsHigh(us[0]) || IsLow(us[0]) then [REPLACEMENT] + Decode(us[1..])
    else [us[0]] + Decode(us[1..])
  }

  lemma DecodesRune(r: Rune, rest: seq<Unit>)
    ensures Decode(EncodeRune(r) + rest) == [r] + Decode(rest)
  {
    var us := EncodeRune(r) + rest;
    if r < 0x1_0000 {
      assert us[1..] == rest;
    } else {
      assert us[2..] == rest;
    }
  }

  /** A name survives the trip through UTF-16. */
  lemma {:induction false} DecodesEncoded(name: Name)
    ensures Decode(Encode(name)) == name
  {
    if name != [] {
      DecodesEncoded(name[1..]);
      DecodesRune(name[0], Encode(name[1..]));
    }
  }

  // ---------- order ----------

  /** The order of names by code point, which is the order of their UTF-8 bytes. */
  predicate Less(a: Name, b: Name)
  {
    if b == [] then false
    else if a == [] then true
    else a[0] < b[0] || (a[0] == b[0] && Less(a[1..], b[1..]))
  }

  lemma {:induction false} LessTotal(a: Name, b: Name)
    ensures Less(a, b) || Less(b, a) || a == b
    ensures !(Less(a, b) && Less(b, a)) && (a == b ==> !Less(a, b))
  {
    if a != [] && b != [] {
      LessTotal(a[1..], b[1..]);
      if a[0] == b[0] && a[1..] == b[1..] { assert a == [a[0]] + a[1..] == b; }
    }
  }

  lemma {:induction false} LessTransitive(a: Name, b: Name, c: Name)
    requires Less(a, b) && Less(b, c)
    ensures Less(a, c)
  {
    if a != [] && a[0] == b[0] == c[0] {
      LessTransitive(a[1..], b[1..], c[1..]);
    }
  }

  // ---------- path components ----------

  const DOT: Rune := 46
  const SLASH: Rune := 47

  /** A name that can stand as one component of a path. */
  predicate IsComponent(name: Name)
  {
    name != [] && name != [DOT] && name != [DOT, DOT] && SLASH !in name
  }

  /** The names agree up to place k, where the first ends or has the smaller code point. */
  predicate BeforeAt(a: Name, b: Name, k: nat)
  {
    k <= |a| && k < |b| && a[..k] == b[..k] && (k < |a| ==> a[k] < b[k])
  }

  /** The order is by the first place where two names differ, and a name comes before its own extensions. */
  lemma {:induction false} LessIs(a: Name, b: Name)
    ensures Less(a, b) <==> exists k: nat {:trigger BeforeAt(a, b, k)} :: BeforeAt(a, b, k)
  {
    if b == [] {
    } else if a == [] {
      assert BeforeAt(a, b, 0);
    } else {
      LessIs(a[1..], b[1..]);
      if a[0] < b[0] { assert BeforeAt(a, b, 0); }
      if a[0] == b[0] && Less(a[1..], b[1..]) {
        var k: nat :| BeforeAt(a[1..], b[1..], k);
        assert a[..k + 1] == [a[0]] + a[1..][..k] && b[..k + 1] == [b[0]] + b[1..][..k];
        assert BeforeAt(a, b, k + 1);
      }
      forall k: nat | BeforeAt(a, b, k)
        ensures Less(a, b)
      {
        if k > 0 { BeforeTails(a, b, k); }
      }
    }
  }

  lemma BeforeTails(a: Name, b: Name, k: nat)
    requires k > 0 && BeforeAt(a, b, k)
    ensures a[0] == b[0] && BeforeAt(a[1..], b[1..], k - 1)
  {
    assert a[0] == a[..k][0] == b[..k][0] == b[0];
    assert a[1..][..k - 1] == a[..k][1..] == b[..k][1..] == b[1..][..k - 1];
  }
}
