/** The Intel E8 branch translation, run over a chunk before it is coded and undone after it is decoded. */
module E8 {
  import opened Bits
  import opened LittleEndian

  const E8_FILE_SIZE: int := 12000000
  const E8_MIN_LENGTH: nat := 10

  /** A 32-bit word read as a signed number. */
  function Signed(u: nat): int
  {
    if u >= 0x8000_0000 then u - 0x1_0000_0000 else u
  }

  function Unsigned(x: int): (u: nat)
    requires -0x8000_0000 <= x
  {
    if x < 0 then x + 0x1_0000_0000 else x
  }

  /** What the encoder makes of the operand of a call at pos. */
  function Absolute(x: int, pos: int): (y: int)
  {
    if -pos <= x < E8_FILE_SIZE - pos then x + pos
    else if E8_FILE_SIZE - pos <= x < E8_FILE_SIZE then x - E8_FILE_SIZE
    else x
  }

  /** What the decoder makes of it. */
  function Relative(v: int, pos: int): (y: int)
  {
    if -pos <= v < E8_FILE_SIZE then (if v >= 0 then v - pos else v + E8_FILE_SIZE) else v
  }

  /** The translations of one operand undo each other, and permute [-pos, E8_FILE_SIZE) fixing all else. */
  lemma OperandInverse(x: int, pos: int)
    requires 0 <= pos <= E8_FILE_SIZE
    ensures Relative(Absolute(x, pos), pos) == x && Absolute(Relative(x, pos), pos) == x
    ensures -pos <= x < E8_FILE_SIZE <==> -pos <= Absolute(x, pos) < E8_FILE_SIZE
    ensures !(-pos <= x < E8_FILE_SIZE) ==> Absolute(x, pos) == x && Relative(x, pos) == x
  {
  }

  /**
   * Encoding turns the distance of a call at pos into its target, when that lies in the file, and rotates the operands
   * it translates by pos; decoding rotates them back.
   */
  lemma OperandIsTarget(x: int, pos: int)
    requires 0 <= pos <= 12000000 && -pos <= x < 12000000
    ensures 0 <= x + pos < 12000000 ==> Absolute(x, pos) == x + pos
    ensures 0 <= x ==> Relative(x, pos) == x - pos
    ensures (Absolute(x, pos) - (x + pos)) % (12000000 + pos) == 0
    ensures (Relative(x, pos) - (x - pos)) % (12000000 + pos) == 0
  {
    var m := E8_FILE_SIZE + pos;
    assert 0 % m == 0 && m % m == 0 && (-m) % m == 0 by { Multiples(m); }
  }

  lemma Multiples(m: int)
    requires m > 0
    ensures 0 % m == 0 && m % m == 0 && (-m) % m == 0
  {
  }

  // ---------- whole buffers ----------

  function Moved(u: nat, pos: int, encode: bool): (r: nat)
    requires u < 0x1_0000_0000 && 0 <= pos <= E8_FILE_SIZE
    ensures r < 0x1_0000_0000
  {
    Unsigned(if encode then Absolute(Signed(u), pos) else Relative(Signed(u), pos))
  }

  lemma MovedBack(u: nat, pos: int, encode: bool)
    requires u < 0x1_0000_0000 && 0 <= pos <= E8_FILE_SIZE
    ensures Moved(Moved(u, pos, encode), pos, !encode) == u
  {
    OperandInverse(Signed(u), pos);
  }

  function Operand(b: seq<byte>, pos: int, encode: bool): (r: seq<byte>)
    requires |b| == 4 && 0 <= pos <= E8_FILE_SIZE
    ensures |r| == 4
  {
    assert Get(b) < 0x1_0000_0000 by { Bounds(); }
    Put(Moved(Get(b), pos, encode), 4)
  }

  lemma OperandUndone(b: seq<byte>, pos: int, encode: bool)
    requires |b| == 4 && 0 <= pos <= E8_FILE_SIZE
    ensures Operand(Operand(b, pos, encode), pos, !encode) == b
  {
    Bounds();
    var u := Get(b);
    MovedBack(u, pos, encode);
    GetPut(Moved(u, pos, encode), 4);
    PutGet(b);
  }

  /** How far the scan moves: past a call and its operand, or past one byte. */
  function Stride(first: byte): (k: nat)
    ensures k == 1 || k == 5
  {
    if first == 0xe8 then 5 else 1
  }

  /** What becomes of the bytes of one stride. */
  function Step(p: seq<byte>, pos: int, encode: bool): (r: seq<byte>)
    requires p != [] && |p| == Stride(p[0]) && 0 <= pos <= E8_FILE_SIZE
    ensures |r| == |p| && r[0] == p[0]
  {
    if p[0] == 0xe8 then [p[0]] + Operand(p[1..], pos, encode) else p
  }

  lemma StepUndone(p: seq<byte>, pos: int, encode: bool)
    requires p != [] && |p| == Stride(p[0]) && 0 <= pos <= E8_FILE_SIZE
    ensures Step(Step(p, pos, encode), pos, !encode) == p
  {
    if p[0] == 0xe8 {
      OperandUndone(p[1..], pos, encode);
      assert Step(p, pos, encode)[1..] == Operand(p[1..], pos, encode);
    }
  }

  /** Translates what is left of a buffer from position pos on, a stride at a time. */
  function Translate(b: seq<byte>, pos: int, encode: bool): (r: seq<byte>)
    requires 0 <= pos && pos + |b| <= E8_FILE_SIZE
    ensures |r| == |b|
  {
    if |b| <= E8_MIN_LENGTH then b
    else
      var k := Stride(b[0]);
      Step(b[..k], pos, encode) + Translate(b[k..], pos + k, encode)
  }

  lemma TranslateStep(b: seq<byte>, p: seq<byte>, rest: seq<byte>, pos: int, encode: bool)
    requires 0 <= pos && pos + |b| <= E8_FILE_SIZE && |b| > E8_MIN_LENGTH && b == p + rest
    requires p != [] && |p| == Stride(p[0])
    ensures Translate(b, pos, encode) == Step(p, pos, encode) + Translate(rest, pos + |p|, encode)
  {
    assert b[..|p|] == p && b[|p|..] == rest;
  }

  lemma TranslateShort(b: seq<byte>, pos: int, encode: bool)
    requires 0 <= pos && pos + |b| <= E8_FILE_SIZE
    ensures |b| <= E8_MIN_LENGTH ==> Translate(b, pos, encode) == b
  {
    hide Step;
  }

  /** One stride, translated, is a stride the other way round: it is found again and undone. */
  lemma StrideBack(p: seq<byte>, rest: seq<byte>, pos: int, encode: bool) returns (q: seq<byte>)
    requires 0 <= pos && pos + |p| + |rest| <= E8_FILE_SIZE && |p| + |rest| > E8_MIN_LENGTH
    requires p != [] && |p| == Stride(p[0])
    ensures |q| == |p| && q[0] == p[0] && q == Step(p, pos, encode)
    ensures Translate(q + rest, pos, !encode) == p + Translate(rest, pos + |p|, !encode)
  {
    hide Operand;
    q := Step(p, pos, encode);
    StepUndone(p, pos, encode);
    TranslateStep(q + rest, q, rest, pos, !encode);
  }

  /** Both scans stop at the same calls, so translating one way and then the other gives the buffer back. */
  lemma {:induction false} TranslateInverse(b: seq<byte>, pos: int, encode: bool)
    requires 0 <= pos && pos + |b| <= E8_FILE_SIZE
    ensures Translate(Translate(b, pos, encode), pos, !encode) == b
    decreases |b|
  {
    hide Step, Translate;
    TranslateShort(b, pos, encode);
    TranslateShort(b, pos, !encode);
    if |b| > E8_MIN_LENGTH {
      var k := Stride(b[0]);
      var p, rest := b[..k], b[k..];
      TranslateInverse(rest, pos + k, encode);
      TranslateStep(b, p, rest, pos, encode);
      var q := StrideBack(p, Translate(rest, pos + k, encode), pos, encode);
    }
  }

  // ---------- which bytes change ----------

  /** A call: an E8 byte more than ten bytes from the end that is in no other call's operand. */
  predicate IsCall(b: seq<byte>, i: nat)
    decreases i, 1
  {
    i + 10 < |b| && b[i] == 0xe8 && !InOperand(b, i)
  }

  /** One of the four positions before i is a call. */
  predicate InOperand(b: seq<byte>, i: nat)
    decreases i, 0
  {
    || (i >= 1 && IsCall(b, i - 1)) || (i >= 2 && IsCall(b, i - 2))
    || (i >= 3 && IsCall(b, i - 3)) || (i >= 4 && IsCall(b, i - 4))
  }

  /** The scan stops at just the calls, and moves on to a byte that is in no operand. */
  lemma ScanFindsCalls(b: seq<byte>, pos: nat)
    requires pos + E8_MIN_LENGTH < |b| && !InOperand(b, pos)
    ensures var k := Stride(b[pos]);
            && (k == 5 <==> IsCall(b, pos)) && !InOperand(b, pos + k)
            && forall i: nat {:trigger InOperand(b, i)} :: pos < i < pos + k ==> InOperand(b, i) && !IsCall(b, i)
  {
    var k := Stride(b[pos]);
    assert k == 5 <==> IsCall(b, pos);
    if k == 5 {
      assert InOperand(b, pos + 1) && InOperand(b, pos + 2) && InOperand(b, pos + 3) && InOperand(b, pos + 4);
    }
  }

  /** What the scan makes of byte i: an operand is translated for its call's position, and nothing else changes. */
  ghost predicate Changed(b: seq<byte>, pos: nat, encode: bool, r: seq<byte>, i: nat)
    requires pos <= i < |b| <= E8_FILE_SIZE && |r| == |b| - pos
  {
    && (!InOperand(b, i) ==> r[i - pos] == b[i])
    && (IsCall(b, i) ==> r[i + 1 - pos..i + 5 - pos] == Operand(b[i + 1..i + 5], i, encode))
  }

  lemma ChangedFirst(b: seq<byte>, pos: nat, encode: bool, p: seq<byte>, tail: seq<byte>)
    requires pos + E8_MIN_LENGTH < |b| <= E8_FILE_SIZE && |p| + |tail| == |b| - pos
    requires !InOperand(b, pos) && p == Step(b[pos..][..Stride(b[pos])], pos, encode)
    ensures Changed(b, pos, encode, p + tail, pos)
  {
    hide Operand, IsCall, InOperand;
    ScanFindsCalls(b, pos);
    if IsCall(b, pos) {
      assert b[pos..][..5][1..] == b[pos + 1..pos + 5];
      assert (p + tail)[1..5] == p[1..5];
    }
  }

  lemma ChangedLater(b: seq<byte>, pos: nat, encode: bool, p: seq<byte>, tail: seq<byte>, i: nat)
    requires pos + |p| <= i < |b| <= E8_FILE_SIZE && |p| + |tail| == |b| - pos
    requires Changed(b, pos + |p|, encode, tail, i)
    ensures Changed(b, pos, encode, p + tail, i)
  {
    hide Operand, InOperand;
    if IsCall(b, i) {
      assert (p + tail)[i + 1 - pos..i + 5 - pos] == tail[i + 1 - pos - |p|..i + 5 - pos - |p|];
    }
  }

  lemma {:induction false} TranslatesFrom(b: seq<byte>, pos: nat, encode: bool, i: nat)
    requires pos <= i < |b| <= E8_FILE_SIZE && !InOperand(b, pos)
    ensures Changed(b, pos, encode, Translate(b[pos..], pos, encode), i)
    decreases |b| - pos
  {
    hide Translate, Step, InOperand, Changed, Operand;
    if pos + E8_MIN_LENGTH < |b| {
      var k := Stride(b[pos]);
      var p, tail := Step(b[pos..][..k], pos, encode), Translate(b[pos + k..], pos + k, encode);
      assert b[pos..] == b[pos..][..k] + b[pos + k..];
      TranslateStep(b[pos..], b[pos..][..k], b[pos + k..], pos, encode);
      ScanFindsCalls(b, pos);
      if i >= pos + k {
        TranslatesFrom(b, pos + k, encode, i);
        ChangedLater(b, pos, encode, p, tail, i);
      } else if i == pos {
        ChangedFirst(b, pos, encode, p, tail);
      } else {
        InOperandChanged(b, pos, encode, p + tail, i);
      }
    } else {
      TranslateShort(b[pos..], pos, encode);
      ShortChanged(b, pos, encode, i);
    }
  }

  lemma InOperandChanged(b: seq<byte>, pos: nat, encode: bool, r: seq<byte>, i: nat)
    requires pos <= i < |b| <= E8_FILE_SIZE && |r| == |b| - pos && InOperand(b, i)
    ensures Changed(b, pos, encode, r, i)
  {
    hide Operand;
  }

  lemma ShortChanged(b: seq<byte>, pos: nat, encode: bool, i: nat)
    requires pos <= i < |b| <= E8_FILE_SIZE && pos + E8_MIN_LENGTH >= |b|
    ensures Changed(b, pos, encode, b[pos..], i)
  {
    hide Operand, InOperand;
  }

  /** Translating a buffer rewrites the operands of its calls, each for its call's position, and nothing else. */
  lemma TranslatesCalls(b: seq<byte>, encode: bool, i: nat)
    requires i < |b| <= E8_FILE_SIZE
    ensures var r := Translate(b, 0, encode);
            && (!InOperand(b, i) ==> r[i] == b[i])
            && (IsCall(b, i) ==> r[i + 1..i + 5] == Operand(b[i + 1..i + 5], i, encode))
  {
    hide Translate, Operand;
    assert b[0..] == b;
    TranslatesFrom(b, 0, encode, i);
  }

  /** Translates the first n bytes of a buffer in place. */
  method TranslateBuffer(buf: array<byte>, n: nat, encode: bool)
    requires n <= buf.Length && n <= E8_FILE_SIZE
    modifies buf
    ensures buf[..] == Translate(old(buf[..n]), 0, encode) + old(buf[n..])
  {
    hide Translate, Step;
    ghost var all, tail := buf[..n], buf[n..];
    TranslateShort(all, 0, encode);
    assert buf[..] == [] + all + tail;
    if n < E8_MIN_LENGTH { return; }
    ghost var done, todo := [], all;
    var i := 0;
    assert done + Translate(todo, i, encode) == Translate(all, 0, encode);
    while i + E8_MIN_LENGTH < n
      invariant i <= n && |done| == i && |todo| == n - i && buf[..] == done + todo + tail
      invariant done + Translate(todo, i, encode) == Translate(all, 0, encode)
    {
      ghost var p, rest := CutStride(done, todo, tail, i, encode);
      ghost var next := Step(p, i, encode);
      i := TranslateAt(buf, i, encode, done, p, rest + tail);
      Regroup(done, next, rest, tail);
      done, todo := done + next, rest;
    }
    TranslateShort(todo, i, encode);
  }

  /** Translates the stride at i, and moves past it. */
  method TranslateAt(buf: array<byte>, i: nat, encode: bool, ghost done: seq<byte>, ghost p: seq<byte>,
                     ghost rest: seq<byte>)
    returns (next: nat)
    requires p != [] && |p| == Stride(p[0]) && |done| == i <= E8_FILE_SIZE && buf[..] == done + (p + rest)
    modifies buf
    ensures next == i + |p| && buf[..] == done + (Step(p, i, encode) + rest)
  {
    assert buf[..][i] == p[0];
    if buf[i] == 0xe8 {
      TranslateCall(buf, i, encode, done, p, rest);
      next := i + 5;
    } else {
      next := i + 1;
    }
  }

  lemma Regroup(a: seq<byte>, b: seq<byte>, c: seq<byte>, d: seq<byte>)
    ensures a + (b + (c + d)) == (a + b) + c + d
  {
  }

  lemma CutStride(done: seq<byte>, todo: seq<byte>, tail: seq<byte>, i: nat, encode: bool)
    returns (p: seq<byte>, rest: seq<byte>)
    requires |todo| > E8_MIN_LENGTH && i + |todo| <= E8_FILE_SIZE
    ensures p != [] && p[0] == todo[0] && |p| == Stride(p[0]) && |rest| == |todo| - |p|
    ensures done + todo + tail == done + (p + (rest + tail))
    ensures done + Translate(todo, i, encode) == (done + Step(p, i, encode)) + Translate(rest, i + |p|, encode)
  {
    var k := Stride(todo[0]);
    p, rest := todo[..k], todo[k..];
    assert todo == p + rest;
  }

  /** Rewrites the operand of the call at i. */
  method TranslateCall(buf: array<byte>, i: nat, encode: bool, ghost done: seq<byte>, ghost p: seq<byte>,
                       ghost rest: seq<byte>)
    requires |p| == 5 && p[0] == 0xe8 && |done| == i <= E8_FILE_SIZE && buf[..] == done + (p + rest)
    modifies buf
    ensures buf[..] == done + (Step(p, i, encode) + rest)
  {
    assert p == buf[..][i..i + 5];
    assert p[1..] == buf[i + 1..i + 5];
    var q := Operand(buf[i + 1..i + 5], i, encode);
    buf[i + 1], buf[i + 2], buf[i + 3], buf[i + 4] := q[0], q[1], q[2], q[3];
    assert Step(p, i, encode) == [p[0]] + q;
  }
}
