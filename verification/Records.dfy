/** A dentry's bytes: fields written over zeros. */
module Records {
  import opened Bits
  import opened Canonical
  import opened LittleEndian
  import opened ResourceFormat
  import opened Names
  import opened Dentries

  const ATTR_DIRECTORY: nat := 0x10
  const ATTR_NORMAL: nat := 0x80
  const MAX_NAME_BYTES: nat := 0xffff

  /** A captured file or directory. Children are given by their places in the list of all nodes. */
  datatype Node = Node(name: Name, isDir: bool, attrs: nat, secID: nat, hash: seq<byte>, filetime: nat,
                       children: seq<nat>)

  /** What a capture makes sure of for every node. */
  predicate Recordable(n: Node)
  {
    && n.attrs == (if n.isDir then ATTR_DIRECTORY else ATTR_NORMAL) && n.secID < 0x1_0000_0000 && |n.hash| == 20
    && n.filetime < WORD && 2 * |Encode(n.name)| <= MAX_NAME_BYTES
  }

  /** n rounded up to a multiple of 8. */
  function Align8(n: nat): (r: nat)
    ensures n <= r < n + 8 && r % 8 == 0
  {
    (n + 7) / 8 * 8
  }

  /** A dentry's stored length: the fixed part, the name and its terminator, rounded up. */
  function Len(n: Node): (len: nat)
    ensures len >= DENTRY_FIXED_SIZE + 2 + 2 * |Encode(n.name)| && len % 8 == 0
  {
    Align8(DENTRY_FIXED_SIZE + 2 * |Encode(n.name)| + 2)
  }

  function ZeroBytes(n: nat): (b: seq<byte>)
    ensures |b| == n && forall i :: 0 <= i < n ==> b[i] == 0
  {
    seq(n, _ => 0)
  }

  // ---------- fields ----------

  /** b with v written at position at. */
  function Over(b: seq<byte>, at: nat, v: seq<byte>): (r: seq<byte>)
    requires at + |v| <= |b|
    ensures |r| == |b|
  {
    b[..at] + v + b[at + |v|..]
  }

  datatype Value = Value(at: nat, v: seq<byte>)

  predicate FitIn(fs: seq<Value>, n: nat)
  {
    forall i {:trigger fs[i]} :: 0 <= i < |fs| ==> fs[i].at + |fs[i].v| <= n
  }

  function Apply(fs: seq<Value>, b: seq<byte>): (r: seq<byte>)
    requires FitIn(fs, |b|)
    ensures |r| == |b|
  {
    if fs == [] then b else Apply(fs[1..], Over(b, fs[0].at, fs[0].v))
  }

  /** Each field lies before the next. */
  predicate InOrder(fs: seq<Value>)
  {
    forall i, j {:trigger fs[i], fs[j]} :: 0 <= i < j < |fs| ==> fs[i].at + |fs[i].v| <= fs[j].at
  }

  predicate Clear(fs: seq<Value>, i: nat, j: nat)
  {
    forall k {:trigger fs[k]} :: 0 <= k < |fs| ==> fs[k].at + |fs[k].v| <= i || j <= fs[k].at
  }

  lemma OverSlice(b: seq<byte>, at: nat, v: seq<byte>, i: nat, j: nat)
    requires at + |v| <= |b| && i <= j <= |b| && (at + |v| <= i || j <= at)
    ensures Over(b, at, v)[i..j] == b[i..j] && Over(b, at, v)[at..at + |v|] == v
  {
  }

  /** What no field touches stays. */
  lemma {:induction false} Untouched(fs: seq<Value>, b: seq<byte>, i: nat, j: nat)
    requires FitIn(fs, |b|) && Clear(fs, i, j) && i <= j <= |b|
    ensures Apply(fs, b)[i..j] == b[i..j]
    decreases |fs|
  {
    hide Over;
    if fs != [] {
      var c := Over(b, fs[0].at, fs[0].v);
      OverSlice(b, fs[0].at, fs[0].v, i, j);
      assert FitIn(fs[1..], |c|) && Clear(fs[1..], i, j);
      Untouched(fs[1..], c, i, j);
    }
  }

  /** Every field can be read back. */
  lemma {:induction false} FieldAt(fs: seq<Value>, b: seq<byte>, k: nat)
    requires FitIn(fs, |b|) && InOrder(fs) && k < |fs|
    ensures Apply(fs, b)[fs[k].at..fs[k].at + |fs[k].v|] == fs[k].v
    decreases |fs|
  {
    hide Over;
    var c := Over(b, fs[0].at, fs[0].v);
    assert FitIn(fs[1..], |c|);
    if k == 0 {
      OverSlice(b, fs[0].at, fs[0].v, 0, 0);
      assert Clear(fs[1..], fs[0].at, fs[0].at + |fs[0].v|);
      Untouched(fs[1..], c, fs[0].at, fs[0].at + |fs[0].v|);
    } else {
      assert InOrder(fs[1..]) && fs[1..][k - 1] == fs[k];
      FieldAt(fs[1..], c, k - 1);
    }
  }

  /** Writing again what is there changes nothing. */
  lemma {:induction false} ApplyAgain(fs: seq<Value>, b: seq<byte>)
    requires FitIn(fs, |b|) &&
             forall k {:trigger fs[k]} :: 0 <= k < |fs| ==> b[fs[k].at..fs[k].at + |fs[k].v|] == fs[k].v
    ensures Apply(fs, b) == b
    decreases |fs|
  {
    if fs != [] {
      assert Over(b, fs[0].at, fs[0].v) == b;
      assert FitIn(fs[1..], |b|);
      ApplyAgain(fs[1..], b);
    }
  }

  // ---------- records ----------

  function NameBytes(us: seq<Unit>): (b: seq<byte>)
    ensures |b| == 2 * |us|
  {
    if us == [] then [] else Put(us[0], 2) + NameBytes(us[1..])
  }

  lemma {:induction false} UnitsOfNameBytes(us: seq<Unit>)
    ensures Units(NameBytes(us)) == us
  {
    if us != [] {
      var b := NameBytes(us);
      assert Put(us[0], 2) == [us[0] % 256, us[0] / 256 % 256] by { TwoBytes(us[0]); }
      assert b[2..] == NameBytes(us[1..]);
      UnitsOfNameBytes(us[1..]);
    }
  }

  lemma TwoBytes(u: Unit)
    ensures Put(u, 2) == [u % 256, u / 256 % 256]
  {
    assert Put(u / 256, 1) == [u / 256 % 256] + Put(u / 256 / 256, 0);
  }

  /** The fields of a dentry. */
  function FieldsOf(n: Node, sub: nat): (fs: seq<Value>)
    requires |n.hash| == 20
    ensures |fs| == 10
  {
    var us := Encode(n.name);
    [Value(0, Put(Len(n), 8)), Value(8, Put(n.attrs, 4)), Value(12, Put(n.secID, 4)), Value(16, Put(sub, 8)),
     Value(40, Put(n.filetime, 8)), Value(48, Put(n.filetime, 8)), Value(56, Put(n.filetime, 8)), Value(64, n.hash),
     Value(100, Put(2 * |us|, 2)), Value(102, NameBytes(us))]
  }

  lemma FieldsFit(n: Node, sub: nat)
    requires |n.hash| == 20
    ensures FitIn(FieldsOf(n, sub), Len(n)) && InOrder(FieldsOf(n, sub))
  {
    hide Put, NameBytes, Encode, Len;
  }

  function Record(n: Node, sub: nat): (b: seq<byte>)
    requires |n.hash| == 20
    ensures |b| == Len(n)
  {
    FieldsFit(n, sub);
    Apply(FieldsOf(n, sub), ZeroBytes(Len(n)))
  }

  /** Written over zeros, or over itself, a record comes out the same. */
  lemma RecordWritten(n: Node, sub: nat, b: seq<byte>)
    requires |n.hash| == 20 && |b| == Len(n) && (b == ZeroBytes(Len(n)) || b == Record(n, sub))
    ensures FitIn(FieldsOf(n, sub), |b|) && Apply(FieldsOf(n, sub), b) == Record(n, sub)
  {
    hide FieldsOf, Len, ZeroBytes;
    FieldsFit(n, sub);
    if b == Record(n, sub) {
      var fs := FieldsOf(n, sub);
      forall k | 0 <= k < |fs|
        ensures b[fs[k].at..fs[k].at + |fs[k].v|] == fs[k].v
      {
        FieldAt(fs, ZeroBytes(Len(n)), k);
      }
      ApplyAgain(fs, b);
    }
  }
}
