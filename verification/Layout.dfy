/** Where a captured tree's records and lists lie in the metadata, and what reading a record back gives. */
module Layout {
  import opened Bits
  import opened Canonical
  import opened LittleEndian
  import opened ResourceFormat
  import opened Names
  import opened Dentries
  import opened Records

  /**
   * Parents come before their children, every node but the first is a child of just one, and only directories have
   * children.
   */
  ghost predicate Linked(t: seq<Node>, parent: seq<nat>)
  {
    && |parent| == |t| > 0 && t[0].isDir
    && (forall x, i {:trigger t[x].children[i]} :: 0 <= x < |t| && 0 <= i < |t[x].children| ==>
          x < t[x].children[i] < |t| && parent[t[x].children[i]] == x)
    && (forall x {:trigger t[x].children} :: 0 <= x < |t| && t[x].children != [] ==> t[x].isDir)
    && (forall x {:trigger Distinct(t[x].children)} :: 0 <= x < |t| ==> Distinct(t[x].children))
    && (forall y {:trigger parent[y]} :: 0 < y < |t| ==> parent[y] < y && y in t[parent[y]].children)
  }

  predicate Distinct(xs: seq<nat>)
  {
    forall i, j {:trigger xs[i], xs[j]} :: 0 <= i < j < |xs| ==> xs[i] != xs[j]
  }

  ghost predicate AllRecordable(t: seq<Node>)
  {
    forall x {:trigger Recordable(t[x])} :: 0 <= x < |t| ==> Recordable(t[x])
  }

  /** The first i children of a list that starts at start reach to here. */
  function EndOf(t: seq<Node>, ch: seq<nat>, start: nat, i: nat): (p: nat)
    requires i <= |ch| && forall j :: 0 <= j < |ch| ==> ch[j] < |t|
    ensures p >= start
  {
    if i == 0 then start else EndOf(t, ch, start, i - 1) + Len(t[ch[i - 1]])
  }

  lemma {:induction false} EndOfMonotone(t: seq<Node>, ch: seq<nat>, start: nat, i: nat, j: nat)
    requires i <= j <= |ch| && forall k :: 0 <= k < |ch| ==> ch[k] < |t|
    ensures EndOf(t, ch, start, i) <= EndOf(t, ch, start, j)
    decreases j - i
  {
    if i < j { EndOfMonotone(t, ch, start, i, j - 1); }
  }

  predicate ChildrenIn(t: seq<Node>, d: nat)
    requires d < |t|
  {
    forall j :: 0 <= j < |t[d].children| ==> t[d].children[j] < |t|
  }

  /** Where directory d's list ends, when it starts at start: the place of its terminator. */
  function ListEnd(t: seq<Node>, d: nat, start: nat): nat
    requires d < |t| && ChildrenIn(t, d)
  {
    EndOf(t, t[d].children, start, |t[d].children|)
  }

  // ---------- what the finished buffer looks like ----------

  predicate EightZeros(md: seq<byte>, p: nat)
  {
    p + 8 <= |md| && md[p..p + 8] == ZeroBytes(8)
  }

  /** Node x's record is in its place. */
  ghost predicate RecordLaid(md: seq<byte>, t: seq<Node>, off: seq<nat>, sub: seq<nat>, x: nat)
    requires |off| == |sub| == |t| && x < |t|
  {
    |t[x].hash| == 20 && off[x] + Len(t[x]) <= |md| && md[off[x]..off[x] + Len(t[x])] == Record(t[x], sub[x])
  }

  /** Directory d's children lie end to end from where its record says, and then a terminator. */
  ghost predicate ListLaid(md: seq<byte>, t: seq<Node>, off: seq<nat>, sub: seq<nat>, d: nat)
    requires |off| == |sub| == |t| && d < |t|
  {
    && ChildrenIn(t, d) && 0 < sub[d] < WORD
    && (forall i {:trigger t[d].children[i]} ::
          0 <= i < |t[d].children| ==> off[t[d].children[i]] == EndOf(t, t[d].children, sub[d], i))
    && EightZeros(md, ListEnd(t, d, sub[d]))
  }

  ghost predicate Laid(md: seq<byte>, t: seq<Node>, off: seq<nat>, sub: seq<nat>)
  {
    && |off| == |sub| == |t| > 0
    && (forall x: nat {:trigger RecordLaid(md, t, off, sub, x)} :: x < |t| ==> RecordLaid(md, t, off, sub, x))
    && (forall d: nat {:trigger ListLaid(md, t, off, sub, d)} :: d < |t| && t[d].isDir ==> ListLaid(md, t, off, sub, d))
    && EightZeros(md, off[0] + Len(t[0]))
  }

  // ---------- reading a record back ----------

  lemma FieldRead(md: seq<byte>, off: nat, b: seq<byte>, i: nat, n: nat, v: nat)
    requires off + |b| <= |md| && md[off..off + |b|] == b && i + n <= |b| && b[i..i + n] == Put(v, n) && v < Bound(n)
    ensures Field(md, off + i, n) == v
  {
    SliceIn(md, off, b, i, i + n);
    GetPut(v, n);
  }

  lemma SliceIn(md: seq<byte>, off: nat, b: seq<byte>, i: nat, j: nat)
    requires off + |b| <= |md| && md[off..off + |b|] == b && i <= j <= |b|
    ensures md[off + i..off + j] == b[i..j]
  {
    forall k | 0 <= k < j - i
      ensures md[off + i..off + j][k] == b[i..j][k]
    {
      assert md[off..off + |b|][i + k] == md[off + (i + k)];
    }
  }

  /** The numbers and bytes of a record. */
  lemma RecordFields(n: Node, sub: nat)
    requires |n.hash| == 20
    ensures var b := Record(n, sub);
            && b[0..8] == Put(Len(n), 8) && b[8..12] == Put(n.attrs, 4) && b[12..16] == Put(n.secID, 4)
            && b[16..24] == Put(sub, 8)
            && b[40..48] == b[48..56] == b[56..64] == Put(n.filetime, 8) && b[64..84] == n.hash
            && b[100..102] == Put(2 * |Encode(n.name)|, 2)
            && b[102..102 + 2 * |Encode(n.name)|] == NameBytes(Encode(n.name))
  {
    hide Put, NameBytes, Encode, Apply, Len, ZeroBytes;
    FieldsFit(n, sub);
    var fs, z := FieldsOf(n, sub), ZeroBytes(Len(n));
    FieldAt(fs, z, 0);
    FieldAt(fs, z, 1);
    FieldAt(fs, z, 2);
    FieldAt(fs, z, 3);
    FieldAt(fs, z, 4);
    FieldAt(fs, z, 5);
    FieldAt(fs, z, 6);
    FieldAt(fs, z, 7);
    FieldAt(fs, z, 8);
    FieldAt(fs, z, 9);
  }

  /** All else is zero: no reparse data, no hard link, no alternate streams, no short name, and the padding. */
  lemma RecordGaps(n: Node, sub: nat)
    requires |n.hash| == 20
    ensures var b, end := Record(n, sub), 102 + 2 * |Encode(n.name)|;
            && b[24..40] == ZeroBytes(16) && b[84..100] == ZeroBytes(16) && b[end..] == ZeroBytes(|b| - end)
            && b[96..98] == ZeroBytes(2) && b[98..100] == ZeroBytes(2)
  {
    hide Put, NameBytes, Encode, Apply, Len;
    FieldsFit(n, sub);
    var fs, z := FieldsOf(n, sub), ZeroBytes(Len(n));
    var end := 102 + 2 * |Encode(n.name)|;
    Untouched(fs, z, 24, 40);
    Untouched(fs, z, 84, 100);
    Untouched(fs, z, end, |z|);
    assert Record(n, sub)[end..|z|] == z[end..|z|] == ZeroBytes(|z| - end);
    Untouched(fs, z, 96, 98);
    Untouched(fs, z, 98, 100);
  }

  lemma {:induction false} ZeroIsPut(n: nat)
    ensures Put(0, n) == ZeroBytes(n) && Bound(n) > 0
  {
    if n > 0 {
      ZeroIsPut(n - 1);
      assert Put(0, n) == [0] + Put(0, n - 1);
    }
  }

  /** The fields of a record laid in metadata, as the reader sees them. */
  lemma LaidFields(md: seq<byte>, off: nat, n: Node, sub: nat)
    requires Recordable(n) && sub < WORD && Len(n) < WORD
    requires off + Len(n) <= |md| < WORD && md[off..off + Len(n)] == Record(n, sub)
    ensures Field(md, off, 8) == Len(n) && Field(md, off + 8, 4) == n.attrs && Field(md, off + 16, 8) == sub
    ensures Field(md, off + 12, 4) == n.secID && Field(md, off + 40, 8) == Field(md, off + 48, 8) == n.filetime
    ensures Field(md, off + 56, 8) == n.filetime && Field(md, off + 96, 2) == 0 && Field(md, off + 98, 2) == 0
    ensures Field(md, off + 100, 2) == 2 * |Encode(n.name)| && md[off + 64..off + 84] == n.hash
    ensures md[off + 102..off + 102 + 2 * |Encode(n.name)|] == NameBytes(Encode(n.name))
  {
    hide Record, Put, Get, Field, Bound, Encode, NameBytes, Len, ZeroBytes;
    var b := Record(n, sub);
    WordBounds();
    RecordFields(n, sub);
    RecordGaps(n, sub);
    ZeroIsPut(2);
    FieldRead(md, off, b, 0, 8, Len(n));
    FieldRead(md, off, b, 8, 4, n.attrs);
    FieldRead(md, off, b, 12, 4, n.secID);
    FieldRead(md, off, b, 16, 8, sub);
    FieldRead(md, off, b, 40, 8, n.filetime);
    FieldRead(md, off, b, 48, 8, n.filetime);
    FieldRead(md, off, b, 56, 8, n.filetime);
    FieldRead(md, off, b, 96, 2, 0);
    FieldRead(md, off, b, 98, 2, 0);
    FieldRead(md, off, b, 100, 2, 2 * |Encode(n.name)|);
    SliceIn(md, off, b, 64, 84);
    SliceIn(md, off, b, 102, 102 + 2 * |Encode(n.name)|);
  }

  lemma WordBounds()
    ensures Bound(2) == 0x1_0000 && Bound(4) == 0x1_0000_0000 && Bound(8) == WORD
  {
    Bounds();
  }

  /** What the reader makes of a node's record, its children aside. */
  function EntryOf(n: Node, streams: Streams): Dentry
  {
    Resolve(streams, n.name, n.attrs, n.filetime, n.hash)
  }

  /** A name a capture can find: the root's is empty, any other is a path component. */
  predicate Named(n: Node, isRoot: bool)
  {
    if isRoot then n.name == [] else IsComponent(n.name)
  }

  lemma NameRead(name: Name, isRoot: bool)
    requires if isRoot then name == [] else IsComponent(name)
    ensures NameOf(NameBytes(Encode(name)), isRoot) == Some(name)
  {
    UnitsOfNameBytes(Encode(name));
    DecodesEncoded(name);
  }

  /** A laid record reads back as the node it was made of, and leads straight to what follows it. */
  lemma EntryRead(md: seq<byte>, off: nat, n: Node, sub: nat, isRoot: bool, streams: Streams)
    requires Recordable(n) && Named(n, isRoot) && sub < WORD && Len(n) < WORD
    requires off + Len(n) <= |md| < WORD && md[off..off + Len(n)] == Record(n, sub)
    ensures Fits(md, off, 8) && Field(md, off, 8) != 0
    ensures ReadEntry(md, off, isRoot, streams) == Some(Entry(EntryOf(n, streams), sub, off + Len(n)))
  {
    hide Record, Get, Field, Bound, Encode, NameBytes, NameOf, Resolve;
    LaidFields(md, off, n, sub);
    NameRead(n.name, isRoot);
    AlignedAlready(Len(n));
  }

  lemma AlignedAlready(n: nat)
    requires n % 8 == 0 && n < WORD
    ensures AlignUp8(n) == n
  {
  }
}
