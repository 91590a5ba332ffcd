/** Encoding a captured tree: lay it out breadth first, then write its records depth first into one buffer. */
module MetadataEncoder {
  import opened Bits
  import opened BitStream
  import opened Canonical
  import opened LittleEndian
  import opened ResourceFormat
  import opened Dentries
  import opened Names
  import opened Records
  import opened Layout
  import opened Placement
  import opened TreeRoundTrip
  import opened MetadataQueue

  // ---------- breadth-first layout ----------

  /** Puts the children of one directory end to end from pos on. */
  method PlaceKids(t: seq<Node>, off: array<nat>, ch: seq<nat>, start: nat) returns (pos: nat)
    requires off.Length == |t| && forall j :: 0 <= j < |ch| ==> ch[j] < |t|
    modifies off
    ensures off[..] == PlaceChildren(t, old(off[..]), ch, start, |ch|) && pos == EndOf(t, ch, start, |ch|)
  {
    hide Len;
    ghost var before := off[..];
    pos := start;
    for i := 0 to |ch|
      invariant off[..] == PlaceChildren(t, before, ch, start, i) && pos == EndOf(t, ch, start, i)
    {
      off[ch[i]] := pos;
      pos := pos + Len(t[ch[i]]);
    }
  }

  method Enqueue(t: seq<Node>, ch: seq<nat>, queue: seq<nat>) returns (q: seq<nat>)
    requires forall j :: 0 <= j < |ch| ==> ch[j] < |t|
    ensures q == queue + DirsOf(t, ch, |ch|)
  {
    q := queue;
    for i := 0 to |ch|
      invariant q == queue + DirsOf(t, ch, i)
    {
      if t[ch[i]].isDir { q := q + [ch[i]]; }
    }
  }

  ghost predicate OnlyListsOf(sub: seq<nat>, done: set<nat>)
  {
    forall x {:trigger sub[x]} :: 0 <= x < |sub| && x !in done ==> sub[x] == 0
  }

  lemma PlaceRoot(t: seq<Node>, parent: seq<nat>, off: seq<nat>, sub: seq<nat>, base: nat)
    requires Linked(t, parent) && |off| == |sub| == |t| && off[0] == base
    ensures Placed(t, off, sub, base, base + Len(t[0]) + 8, {0}, {}) && Queued(t, parent, [0], {0}, {})
    ensures Filled(t, off, sub, base, base + Len(t[0]) + 8, {0}, {})
  {
    hide Len;
    forall p | base <= p < base + Len(t[0]) + 8
      ensures Taken(t, off, sub, {0}, {}, p)
    {
      assert p < base + Len(t[0]) ==> InRecord(t, off, p, 0);
    }
  }

  /** Gives every record its place, directories' lists in the order the directories come off the queue. */
  method LayOut(t: seq<Node>, base: nat, ghost parent: seq<nat>) returns (off: array<nat>, sub: array<nat>, pos: nat)
    requires Linked(t, parent)
    ensures fresh(off) && fresh(sub) && off != sub && off.Length == sub.Length == |t|
    ensures Placed(t, off[..], sub[..], base, pos, AllNodes(t), Directories(t)) && OnlyListsOf(sub[..], Directories(t))
    ensures Filled(t, off[..], sub[..], base, pos, AllNodes(t), Directories(t))
  {
    hide Placed, Filled, Queued, Linked, DirsOf, EndOf, PlaceChildren, Len, Distinct, Members, AllNodes, Directories,
      OnlyListsOf, DoneBelow;
    NotEmpty(t, parent);
    off, sub := NoPlaces(t);
    off[0] := base;
    pos := base + Len(t[0]) + 8;
    var queue := [0];
    ghost var placed: set<nat>, done: set<nat> := {0}, {};
    NoneDone(|t|);
    PlaceRoot(t, parent, off[..], sub[..], base);
    while |queue| > 0
      modifies off, sub
      invariant Placed(t, off[..], sub[..], base, pos, placed, done) && Queued(t, parent, queue, placed, done)
      invariant Filled(t, off[..], sub[..], base, pos, placed, done) && OnlyListsOf(sub[..], done) &&
                DoneBelow(done, |t|)
      decreases |t| - |done|
    {
      var d := queue[0];
      KidsUnplaced(t, parent, queue, placed, done);
      QueueMoves(t, parent, queue, placed, done);
      HeadIsReady(t, parent, queue, placed, done);
      PlaceList(t, off[..], sub[..], base, pos, placed, done, d);
      FillList(t, off[..], sub[..], base, pos, placed, done, d);
      Counted(done, d, |t|);
      ListsGrow(sub[..], done, d, pos);
      queue := queue[1..];
      sub[d] := pos;
      pos := PlaceKids(t, off, t[d].children, pos);
      pos := pos + 8;
      queue := Enqueue(t, t[d].children, queue);
      placed, done := placed + Members(t[d].children), done + {d};
    }
    PlacedAll(t, parent, off[..], sub[..], base, pos, placed, done);
  }

  ghost predicate DoneBelow(done: set<nat>, n: nat)
  {
    forall x {:trigger x in done} :: x in done ==> x < n
  }

  lemma NotEmpty(t: seq<Node>, parent: seq<nat>)
    requires Linked(t, parent)
    ensures |t| > 0
  {
  }

  lemma NoneDone(n: nat)
    ensures DoneBelow({}, n)
  {
  }

  lemma Counted(done: set<nat>, d: nat, n: nat)
    requires DoneBelow(done, n) && d !in done && d < n
    ensures DoneBelow(done + {d}, n) && |done + {d}| == |done| + 1 <= n
  {
    StillToDo(done, d, n);
  }

  lemma ListsGrow(sub: seq<nat>, done: set<nat>, d: nat, pos: nat)
    requires OnlyListsOf(sub, done) && d < |sub|
    ensures OnlyListsOf(sub[d := pos], done + {d})
  {
  }

  lemma HeadIsReady(t: seq<Node>, parent: seq<nat>, queue: seq<nat>, placed: set<nat>, done: set<nat>)
    requires Linked(t, parent) && queue != [] && Queued(t, parent, queue, placed, done)
    ensures queue[0] in placed && queue[0] !in done && queue[0] < |t|
  {
    assert queue[0] in queue;
  }

  method NoPlaces(t: seq<Node>) returns (off: array<nat>, sub: array<nat>)
    ensures fresh(off) && fresh(sub) && off != sub && off.Length == sub.Length == |t|
    ensures OnlyListsOf(sub[..], {})
  {
    off := new nat[|t|](_ => 0);
    sub := new nat[|t|](_ => 0);
  }

  // ---------- depth-first emission ----------

  /** Writes one field of the len-byte record at o. */
  method PutAt(buf: array<byte>, o: nat, len: nat, at: nat, v: seq<byte>)
    requires at + |v| <= len && o + len <= buf.Length
    modifies buf
    ensures buf[o..o + len] == Over(old(buf[o..o + len]), at, v)
    ensures buf[..o] == old(buf[..o]) && buf[o + len..] == old(buf[o + len..])
  {
    hide Over;
    ghost var head, region, tail := buf[..o], buf[o..o + len], buf[o + len..];
    ghost var before := region;
    OverNothing(before, at);
    assert v[..0] == [];
    for i := 0 to |v|
      invariant |head| == o && |region| == len && buf[..] == head + region + tail && region == Over(before, at, v[..i])
    {
      OverMore(before, at, v, i);
      buf[o + at + i] := v[i];
      UpdateMiddle(head, region, tail, at + i, v[i]);
      region := region[at + i := v[i]];
    }
    assert v[..|v|] == v;
    Parts(buf[..], head, region, tail);
  }

  lemma OverNothing(b: seq<byte>, at: nat)
    requires at <= |b|
    ensures Over(b, at, []) == b
  {
  }

  lemma OverMore(b: seq<byte>, at: nat, v: seq<byte>, i: nat)
    requires at + |v| <= |b| && i < |v|
    ensures Over(b, at, v[..i])[at + i := v[i]] == Over(b, at, v[..i + 1])
  {
  }

  lemma UpdateMiddle(a: seq<byte>, b: seq<byte>, c: seq<byte>, i: nat, x: byte)
    requires i < |b|
    ensures (a + b + c)[|a| + i := x] == a + b[i := x] + c
  {
  }

  lemma Parts(all: seq<byte>, a: seq<byte>, b: seq<byte>, c: seq<byte>)
    requires all == a + b + c
    ensures all[..|a|] == a && all[|a|..|a| + |b|] == b && all[|a| + |b|..] == c
  {
  }

  /** A node's place is untouched, or holds its record. */
  ghost predicate RecordOrZero(md: seq<byte>, o: nat, n: Node, sub: nat)
  {
    |n.hash| == 20 && o + Len(n) <= |md| &&
      (md[o..o + Len(n)] == ZeroBytes(Len(n)) || md[o..o + Len(n)] == Record(n, sub))
  }

  /** Writes field number k, when those before it have been written. */
  method PutField(buf: array<byte>, o: nat, len: nat, at: nat, v: seq<byte>, ghost fs: seq<Value>,
                  ghost region: seq<byte>, ghost k: nat)
    requires k < |fs| && fs[k] == Value(at, v) && FitIn(fs, |region|) && |region| == len && o + len <= buf.Length
    requires buf[o..o + len] == UpTo(fs, region, k)
    modifies buf
    ensures buf[o..o + len] == UpTo(fs, region, k + 1)
    ensures buf[..o] == old(buf[..o]) && buf[o + len..] == old(buf[o + len..])
  {
    hide Over;
    PutAt(buf, o, len, at, v);
  }

  /** The record's length, and the numbers that follow it. */
  method PutNumbers(buf: array<byte>, n: Node, o: nat, len: nat, sub: nat, ghost region: seq<byte>)
    requires |n.hash| == 20 && len == Len(n) == |region| && o + len <= buf.Length && FitIn(FieldsOf(n, sub), len)
    requires buf[o..o + len] == UpTo(FieldsOf(n, sub), region, 0)
    modifies buf
    ensures buf[o..o + len] == UpTo(FieldsOf(n, sub), region, 4)
    ensures buf[..o] == old(buf[..o]) && buf[o + len..] == old(buf[o + len..])
  {
    hide Over, UpTo, Len, Put, Encode, NameBytes, FitIn;
    ghost var fs := FieldsOf(n, sub);
    PutField(buf, o, len, 0, Put(len, 8), fs, region, 0);
    PutField(buf, o, len, 8, Put(n.attrs, 4), fs, region, 1);
    PutField(buf, o, len, 12, Put(n.secID, 4), fs, region, 2);
    PutField(buf, o, len, 16, Put(sub, 8), fs, region, 3);
  }

  /** One time, three times over. */
  method PutTimes(buf: array<byte>, n: Node, o: nat, len: nat, sub: nat, ghost region: seq<byte>)
    requires |n.hash| == 20 && len == Len(n) == |region| && o + len <= buf.Length && FitIn(FieldsOf(n, sub), len)
    requires buf[o..o + len] == UpTo(FieldsOf(n, sub), region, 4)
    modifies buf
    ensures buf[o..o + len] == UpTo(FieldsOf(n, sub), region, 7)
    ensures buf[..o] == old(buf[..o]) && buf[o + len..] == old(buf[o + len..])
  {
    hide Over, UpTo, Len, Put, Encode, NameBytes, FitIn;
    ghost var fs := FieldsOf(n, sub);
    PutField(buf, o, len, 40, Put(n.filetime, 8), fs, region, 4);
    PutField(buf, o, len, 48, Put(n.filetime, 8), fs, region, 5);
    PutField(buf, o, len, 56, Put(n.filetime, 8), fs, region, 6);
  }

  method PutDentry(buf: array<byte>, n: Node, o: nat, sub: nat)
    requires RecordOrZero(buf[..], o, n, sub)
    modifies buf
    ensures buf[o..o + Len(n)] == Record(n, sub)
    ensures buf[..o] == old(buf[..o]) && buf[o + Len(n)..] == old(buf[o + Len(n)..])
  {
    hide Over, UpTo, Len, Record, ZeroBytes, Put, Encode, NameBytes, Apply, FitIn, InOrder;
    var len := Len(n);
    assert buf[..][o..o + len] == buf[o..o + len];
    RecordWritten(n, sub, buf[o..o + len]);
    var us := Encode(n.name);
    ghost var fs, region := FieldsOf(n, sub), buf[o..o + len];
    FieldsFit(n, sub);
    AppliedUpTo(fs, region);
    NoneYet(fs, region);
    PutNumbers(buf, n, o, len, sub, region);
    PutTimes(buf, n, o, len, sub, region);
    PutField(buf, o, len, 64, n.hash, fs, region, 7);
    PutField(buf, o, len, 100, Put(2 * |us|, 2), fs, region, 8);
    PutField(buf, o, len, 102, NameBytes(us), fs, region, 9);
  }

  /** The first k fields written. */
  function UpTo(fs: seq<Value>, b: seq<byte>, k: nat): (r: seq<byte>)
    requires k <= |fs| && FitIn(fs, |b|)
    ensures |r| == |b|
  {
    if k == 0 then b else Over(UpTo(fs, b, k - 1), fs[k - 1].at, fs[k - 1].v)
  }

  lemma NoneYet(fs: seq<Value>, b: seq<byte>)
    requires FitIn(fs, |b|)
    ensures UpTo(fs, b, 0) == b
  {
  }

  lemma {:induction false} AppliedUpTo(fs: seq<Value>, b: seq<byte>)
    requires FitIn(fs, |b|)
    ensures Apply(fs, b) == UpTo(fs, b, |fs|)
    decreases |fs|
  {
    hide Over;
    if fs != [] {
      var c := Over(b, fs[0].at, fs[0].v);
      assert FitIn(fs[1..], |c|);
      AppliedUpTo(fs[1..], c);
      UpToShifts(fs, b, |fs|);
    }
  }

  lemma {:induction false} UpToShifts(fs: seq<Value>, b: seq<byte>, k: nat)
    requires 0 < k <= |fs| && FitIn(fs, |b|) && FitIn(fs[1..], |b|)
    ensures UpTo(fs, b, k) == UpTo(fs[1..], Over(b, fs[0].at, fs[0].v), k - 1)
  {
    hide Over;
    if k > 1 { UpToShifts(fs, b, k - 1); }
  }

  /** What is written elsewhere leaves a stretch as it was. */
  lemma Elsewhere(before: seq<byte>, after: seq<byte>, o: nat, len: nat, p: nat, n: nat)
    requires |before| == |after| && o + len <= |before| && p + n <= |before| && Apart(o, len, p, n)
    requires before[..o] == after[..o] && before[o + len..] == after[o + len..]
    ensures before[p..p + n] == after[p..p + n]
  {
    var s, t := before[p..p + n], after[p..p + n];
    forall i | 0 <= i < n
      ensures s[i] == t[i]
    {
      if p + n <= o { assert before[..o][p + i] == after[..o][p + i]; }
      else { assert before[o + len..][p + i - (o + len)] == after[o + len..][p + i - (o + len)]; }
    }
  }

  /** Every node's place is in the buffer and untouched or its record's, and no two overlap. */
  ghost predicate Emitting(md: seq<byte>, t: seq<Node>, off: seq<nat>, sub: seq<nat>, base: nat)
  {
    && |off| == |sub| == |t|
    && (forall x {:trigger RecordOrZero(md, off[x], t[x], sub[x])} ::
          0 <= x < |t| ==> base <= off[x] && RecordOrZero(md, off[x], t[x], sub[x]))
    && (forall x, y {:trigger NodesApart(t, off, x, y)} :: 0 <= x < |t| && 0 <= y < |t| ==> NodesApart(t, off, x, y))
  }

  /** No record reaches into the eight bytes at p. */
  ghost predicate Free(t: seq<Node>, off: seq<nat>, p: nat)
    requires |off| == |t|
  {
    forall x {:trigger off[x]} :: 0 <= x < |t| ==> Apart(p, 8, off[x], Len(t[x]))
  }

  /** From before to after, only nodes' records have been written. */
  ghost predicate Progresses(before: seq<byte>, after: seq<byte>, t: seq<Node>, off: seq<nat>, sub: seq<nat>, base: nat)
    requires |off| == |sub| == |t| && base <= |before|
  {
    && |after| == |before| && after[..base] == before[..base]
    && (forall x: nat {:trigger RecordLaid(after, t, off, sub, x)} ::
          x < |t| && RecordLaid(before, t, off, sub, x) ==> RecordLaid(after, t, off, sub, x))
    && (forall p: nat {:trigger Free(t, off, p)} ::
          p + 8 <= |before| && Free(t, off, p) ==> after[p..p + 8] == before[p..p + 8])
  }

  /** Writing one node's record. */
  lemma OneWritten(before: seq<byte>, after: seq<byte>, t: seq<Node>, off: seq<nat>, sub: seq<nat>, base: nat, x: nat)
    requires Emitting(before, t, off, sub, base) && x < |t| && |after| == |before| && base <= |before|
    requires |t[x].hash| == 20 && off[x] + Len(t[x]) <= |before| &&
             after[off[x]..off[x] + Len(t[x])] == Record(t[x], sub[x])
    requires after[..off[x]] == before[..off[x]] && after[off[x] + Len(t[x])..] == before[off[x] + Len(t[x])..]
    ensures Emitting(after, t, off, sub, base) && Progresses(before, after, t, off, sub, base) &&
            RecordLaid(after, t, off, sub, x)
  {
    hide Record, Len, ZeroBytes;
    assert RecordOrZero(before, off[x], t[x], sub[x]);
    assert after[..base] == after[..off[x]][..base] == before[..off[x]][..base] == before[..base];
    forall y | 0 <= y < |t|
      ensures base <= off[y] && RecordOrZero(after, off[y], t[y], sub[y]) &&
              (RecordLaid(before, t, off, sub, y) ==> RecordLaid(after, t, off, sub, y))
    {
      assert RecordOrZero(before, off[y], t[y], sub[y]) && NodesApart(t, off, x, y);
      if y != x { Elsewhere(before, after, off[x], Len(t[x]), off[y], Len(t[y])); }
    }
    forall p: nat | p + 8 <= |before| && Free(t, off, p)
      ensures after[p..p + 8] == before[p..p + 8]
    {
      assert off[x] == off[x];
      Elsewhere(before, after, off[x], Len(t[x]), p, 8);
    }
  }

  lemma ProgressChain(a: seq<byte>, b: seq<byte>, c: seq<byte>, t: seq<Node>, off: seq<nat>, sub: seq<nat>, base: nat)
    requires |off| == |sub| == |t| && base <= |a| && Progresses(a, b, t, off, sub, base) &&
             Progresses(b, c, t, off, sub, base)
    ensures Progresses(a, c, t, off, sub, base)
  {
  }

  /** Node y is somewhere below directory d. */
  ghost predicate Below(t: seq<Node>, parent: seq<nat>, d: nat, y: nat)
    requires Linked(t, parent) && y < |t|
    decreases y
  {
    y > 0 && (parent[y] == d || Below(t, parent, d, parent[y]))
  }

  /** What is below a directory is one of its first i children, or below one of them. */
  ghost predicate Reached(t: seq<Node>, parent: seq<nat>, d: nat, i: nat, y: nat)
    requires Linked(t, parent) && d < |t| && i <= |t[d].children| && y < |t|
  {
    exists j {:trigger t[d].children[j]} ::
      0 <= j < i && (y == t[d].children[j] || Below(t, parent, t[d].children[j], y))
  }

  lemma {:induction false} AllReached(t: seq<Node>, parent: seq<nat>, d: nat, y: nat)
    requires Linked(t, parent) && d < |t| && y < |t| && Below(t, parent, d, y)
    ensures Reached(t, parent, d, |t[d].children|, y)
    decreases y
  {
    if parent[y] == d {
      assert y in t[d].children;
    } else {
      AllReached(t, parent, d, parent[y]);
      var j :| 0 <= j < |t[d].children| &&
        (parent[y] == t[d].children[j] || Below(t, parent, t[d].children[j], parent[y]));
      assert Below(t, parent, t[d].children[j], y);
    }
  }

  lemma {:induction false} FileHasNone(t: seq<Node>, parent: seq<nat>, c: nat, y: nat)
    requires Linked(t, parent) && c < |t| && !t[c].isDir && y < |t|
    ensures !Below(t, parent, c, y)
    decreases y
  {
    if y > 0 {
      FileHasNone(t, parent, c, parent[y]);
      assert y in t[parent[y]].children;
    }
  }

  /** All that has been reached of a directory so far has been written. */
  ghost predicate AllWritten(md: seq<byte>, t: seq<Node>, parent: seq<nat>, off: seq<nat>, sub: seq<nat>, d: nat,
                             i: nat)
    requires Linked(t, parent) && |off| == |sub| == |t| && d < |t| && i <= |t[d].children|
  {
    forall y: nat {:trigger RecordLaid(md, t, off, sub, y)} ::
      y < |t| && Reached(t, parent, d, i, y) ==> RecordLaid(md, t, off, sub, y)
  }

  ghost predicate BelowWritten(md: seq<byte>, t: seq<Node>, parent: seq<nat>, off: seq<nat>, sub: seq<nat>, d: nat)
    requires Linked(t, parent) && |off| == |sub| == |t| && d < |t|
  {
    forall y: nat {:trigger RecordLaid(md, t, off, sub, y)} ::
      y < |t| && Below(t, parent, d, y) ==> RecordLaid(md, t, off, sub, y)
  }

  lemma OneMoreChild(before: seq<byte>, after: seq<byte>, t: seq<Node>, parent: seq<nat>, off: seq<nat>, sub: seq<nat>,
                     base: nat, d: nat, i: nat)
    requires Linked(t, parent) && |off| == |sub| == |t| && d < |t| && i < |t[d].children| && t[d].children[i] < |t| &&
             base <= |before|
    requires AllWritten(before, t, parent, off, sub, d, i) && Progresses(before, after, t, off, sub, base)
    requires RecordLaid(after, t, off, sub, t[d].children[i]) &&
             BelowWritten(after, t, parent, off, sub, t[d].children[i])
    ensures AllWritten(after, t, parent, off, sub, d, i + 1)
  {
    hide RecordLaid, Linked, Below;
    forall y: nat | y < |t| && Reached(t, parent, d, i + 1, y)
      ensures RecordLaid(after, t, off, sub, y)
    {
      if Reached(t, parent, d, i, y) {
        assert RecordLaid(before, t, off, sub, y);
      } else {
        var j :| 0 <= j < i + 1 && (y == t[d].children[j] || Below(t, parent, t[d].children[j], y));
        assert j == i;
      }
    }
  }

  lemma NothingBelowFile(md: seq<byte>, t: seq<Node>, parent: seq<nat>, off: seq<nat>, sub: seq<nat>, c: nat)
    requires Linked(t, parent) && |off| == |sub| == |t| && c < |t| && !t[c].isDir
    ensures BelowWritten(md, t, parent, off, sub, c)
  {
    hide RecordLaid, Linked, Below;
    forall y: nat | y < |t|
      ensures !Below(t, parent, c, y)
    {
      FileHasNone(t, parent, c, y);
    }
  }

  lemma ReachedIsBelow(md: seq<byte>, t: seq<Node>, parent: seq<nat>, off: seq<nat>, sub: seq<nat>, d: nat)
    requires Linked(t, parent) && |off| == |sub| == |t| && d < |t| &&
             AllWritten(md, t, parent, off, sub, d, |t[d].children|)
    ensures BelowWritten(md, t, parent, off, sub, d)
  {
    hide RecordLaid, Linked, Below, Reached;
    forall y: nat | y < |t| && Below(t, parent, d, y)
      ensures RecordLaid(md, t, off, sub, y)
    {
      AllReached(t, parent, d, y);
    }
  }

  lemma NoneReached(md: seq<byte>, t: seq<Node>, parent: seq<nat>, off: seq<nat>, sub: seq<nat>, d: nat)
    requires Linked(t, parent) && |off| == |sub| == |t| && d < |t|
    ensures AllWritten(md, t, parent, off, sub, d, 0) && ChildrenIn(t, d)
  {
  }

  lemma NoProgress(md: seq<byte>, t: seq<Node>, off: seq<nat>, sub: seq<nat>, base: nat)
    requires |off| == |sub| == |t| && base <= |md|
    ensures Progresses(md, md, t, off, sub, base)
  {
  }

  lemma IsRecordOrZero(md: seq<byte>, t: seq<Node>, off: seq<nat>, sub: seq<nat>, base: nat, x: nat)
    requires Emitting(md, t, off, sub, base) && x < |t|
    ensures |off| == |sub| == |t| && RecordOrZero(md, off[x], t[x], sub[x]) && |t[x].hash| == 20 &&
            off[x] + Len(t[x]) <= |md|
  {
  }

  /** Writes one node's record into its place. */
  method WriteNode(buf: array<byte>, t: seq<Node>, off: seq<nat>, sub: seq<nat>, x: nat, ghost base: nat)
    requires Emitting(buf[..], t, off, sub, base) && x < |t| && base <= buf.Length
    modifies buf
    ensures Emitting(buf[..], t, off, sub, base) && Progresses(old(buf[..]), buf[..], t, off, sub, base) &&
            RecordLaid(buf[..], t, off, sub, x)
  {
    hide Emitting, Progresses, RecordLaid, RecordOrZero, Record, Len;
    IsRecordOrZero(buf[..], t, off, sub, base, x);
    ghost var before := buf[..];
    PutDentry(buf, t[x], off[x], sub[x]);
    ghost var o, len := off[x], Len(t[x]);
    assert buf[..][..o] == buf[..o] && before[..o] == old(buf[..o]);
    assert buf[..][o + len..] == buf[o + len..] && before[o + len..] == old(buf[o + len..]);
    assert buf[..][o..o + len] == buf[o..o + len];
    OneWritten(before, buf[..], t, off, sub, base, x);
  }

  /** Writes the records of all that is below directory d. */
  method Emit(buf: array<byte>, t: seq<Node>, off: seq<nat>, sub: seq<nat>, d: nat, ghost base: nat,
              ghost parent: seq<nat>)
    requires Linked(t, parent) && d < |t| && Emitting(buf[..], t, off, sub, base) && base <= buf.Length
    modifies buf
    ensures Emitting(buf[..], t, off, sub, base) && Progresses(old(buf[..]), buf[..], t, off, sub, base)
    ensures BelowWritten(buf[..], t, parent, off, sub, d)
    decreases |t| - d
  {
    hide Linked, Progresses, RecordLaid, RecordOrZero, AllWritten, BelowWritten, NodesApart;
    ghost var start := buf[..];
    NoneReached(start, t, parent, off, sub, d);
    NoProgress(start, t, off, sub, base);
    for i := 0 to |t[d].children|
      invariant Emitting(buf[..], t, off, sub, base) && Progresses(start, buf[..], t, off, sub, base)
      invariant AllWritten(buf[..], t, parent, off, sub, d, i)
    {
      ghost var before := buf[..];
      ChildIsLater(t, parent, d, i);
      var c := t[d].children[i];
      WriteNode(buf, t, off, sub, c, base);
      if t[c].isDir {
        ghost var middle := buf[..];
        Emit(buf, t, off, sub, c, base, parent);
        StillLaid(middle, buf[..], t, off, sub, base, c);
        ProgressChain(before, middle, buf[..], t, off, sub, base);
      } else {
        NothingBelowFile(buf[..], t, parent, off, sub, c);
      }
      OneMoreChild(before, buf[..], t, parent, off, sub, base, d, i);
      ProgressChain(start, before, buf[..], t, off, sub, base);
    }
    ReachedIsBelow(buf[..], t, parent, off, sub, d);
  }

  lemma StillLaid(before: seq<byte>, after: seq<byte>, t: seq<Node>, off: seq<nat>, sub: seq<nat>, base: nat, x: nat)
    requires |off| == |sub| == |t| && base <= |before| && x < |t| && RecordLaid(before, t, off, sub, x) &&
             Progresses(before, after, t, off, sub, base)
    ensures RecordLaid(after, t, off, sub, x)
  {
    hide RecordLaid;
  }

  // ---------- the whole resource ----------

  lemma StartEmitting(md: seq<byte>, t: seq<Node>, off: seq<nat>, sub: seq<nat>, base: nat)
    requires Placed(t, off, sub, base, |md|, AllNodes(t), Directories(t)) && AllRecordable(t)
    requires forall i :: base <= i < |md| ==> md[i] == 0
    ensures Emitting(md, t, off, sub, base) && base <= |md|
  {
    hide ListPlaced, EndApart, RootEndApart, Record, Len, NodesApart;
    forall x | 0 <= x < |t|
      ensures base <= off[x] && RecordOrZero(md, off[x], t[x], sub[x])
    {
      assert x in AllNodes(t) && Recordable(t[x]);
      assert md[off[x]..off[x] + Len(t[x])] == ZeroBytes(Len(t[x]));
    }
    forall x, y | 0 <= x < |t| && 0 <= y < |t|
      ensures NodesApart(t, off, x, y)
    {
      assert x in AllNodes(t) && y in AllNodes(t);
    }
    assert 0 in AllNodes(t);
  }

  lemma EndsAreFree(t: seq<Node>, off: seq<nat>, sub: seq<nat>, base: nat, pos: nat, d: nat)
    requires Placed(t, off, sub, base, pos, AllNodes(t), Directories(t)) && d < |t| && t[d].isDir
    ensures ListPlaced(t, off, sub, base, pos, d) && Free(t, off, ListEnd(t, d, sub[d]))
  {
    hide NodePlaced, RootEndApart, NodesApart, EndOf, Len;
    assert d in Directories(t);
    forall x | 0 <= x < |t|
      ensures Apart(ListEnd(t, d, sub[d]), 8, off[x], Len(t[x])) && ChildrenIn(t, d)
    {
      assert x in AllNodes(t) && EndApart(t, off, sub, d, x);
    }
  }

  lemma RootEndIsFree(t: seq<Node>, off: seq<nat>, sub: seq<nat>, base: nat, pos: nat)
    requires Placed(t, off, sub, base, pos, AllNodes(t), Directories(t))
    ensures off[0] == base && base + Len(t[0]) + 8 <= pos && Free(t, off, off[0] + Len(t[0]))
  {
    hide NodePlaced, EndApart, NodesApart, ListPlaced, Len;
    forall x | 0 <= x < |t|
      ensures Apart(off[0] + Len(t[0]), 8, off[x], Len(t[x]))
    {
      assert x in AllNodes(t);
    }
  }

  lemma ZerosThere(md: seq<byte>, base: nat, p: nat)
    requires base <= p && p + 8 <= |md| && forall i :: base <= i < |md| ==> md[i] == 0
    ensures EightZeros(md, p)
  {
    assert md[p..p + 8] == ZeroBytes(8);
  }

  /** Between two states of the buffer the eight bytes at a free place do not change. */
  lemma FreeStays(before: seq<byte>, after: seq<byte>, t: seq<Node>, off: seq<nat>, sub: seq<nat>, base: nat, p: nat)
    requires |off| == |sub| == |t| && base <= |before| && Progresses(before, after, t, off, sub, base)
    requires Free(t, off, p) && EightZeros(before, p)
    ensures EightZeros(after, p)
  {
    hide RecordLaid;
  }

  /** The finished buffer holds the whole tree. */
  lemma AllLaid(start: seq<byte>, md: seq<byte>, t: seq<Node>, parent: seq<nat>, off: seq<nat>, sub: seq<nat>,
                base: nat)
    requires Linked(t, parent) && Placed(t, off, sub, base, |md|, AllNodes(t), Directories(t)) && |md| < WORD &&
             |start| == |md| && base <= |md|
    requires forall i :: base <= i < |start| ==> start[i] == 0
    requires Progresses(start, md, t, off, sub, base) && RecordLaid(md, t, off, sub, 0) &&
             BelowWritten(md, t, parent, off, sub, 0)
    ensures Laid(md, t, off, sub)
  {
    hide Placed, RecordLaid, Linked, Progresses, ListEnd, Len, EightZeros, Free, Below;
    PlacedLengths(t, off, sub, base, |md|, AllNodes(t), Directories(t));
    forall x: nat | x < |t|
      ensures RecordLaid(md, t, off, sub, x)
    {
      if x > 0 { EverythingBelow(t, parent, x); }
    }
    forall d: nat | d < |t| && t[d].isDir
      ensures ListLaid(md, t, off, sub, d)
    {
      OneListLaid(start, md, t, off, sub, base, d);
    }
    RootEndIsFree(t, off, sub, base, |md|);
    ZerosThere(start, base, off[0] + Len(t[0]));
    FreeStays(start, md, t, off, sub, base, off[0] + Len(t[0]));
    LinkedLengths(t, parent);
  }

  lemma LinkedLengths(t: seq<Node>, parent: seq<nat>)
    requires Linked(t, parent)
    ensures |t| > 0 && t[0].isDir
  {
  }

  lemma OneListLaid(start: seq<byte>, md: seq<byte>, t: seq<Node>, off: seq<nat>, sub: seq<nat>, base: nat, d: nat)
    requires Placed(t, off, sub, base, |md|, AllNodes(t), Directories(t)) && |md| < WORD && |start| == |md| &&
             base <= |md|
    requires forall i :: base <= i < |start| ==> start[i] == 0
    requires |off| == |sub| == |t| && Progresses(start, md, t, off, sub, base) && d < |t| && t[d].isDir
    ensures ListLaid(md, t, off, sub, d)
  {
    hide Placed, Progresses, EightZeros, Free, EndOf;
    EndsAreFree(t, off, sub, base, |md|, d);
    ListEndAfter(t, d, sub[d]);
    ZerosThere(start, base, ListEnd(t, d, sub[d]));
    FreeStays(start, md, t, off, sub, base, ListEnd(t, d, sub[d]));
  }

  /** Every node but the root is below the root. */
  lemma {:induction false} EverythingBelow(t: seq<Node>, parent: seq<nat>, y: nat)
    requires Linked(t, parent) && 0 < y < |t|
    ensures Below(t, parent, 0, y)
  {
    if parent[y] > 0 { EverythingBelow(t, parent, parent[y]); }
  }

  lemma SubsFit(t: seq<Node>, off: seq<nat>, sub: seq<nat>, base: nat, pos: nat)
    requires Placed(t, off, sub, base, pos, AllNodes(t), Directories(t)) && OnlyListsOf(sub, Directories(t)) &&
             pos < WORD
    ensures forall x {:trigger sub[x]} :: 0 <= x < |t| ==> sub[x] < WORD
  {
    hide NodePlaced, EndApart, NodesApart, EndOf, Len, RootEndApart;
    forall x | 0 <= x < |t|
      ensures sub[x] < WORD
    {
      if t[x].isDir {
        assert x in Directories(t);
        ListEndAfter(t, x, sub[x]);
      } else {
        assert x !in Directories(t);
      }
    }
  }

  /** The tree is written into a buffer of pos bytes that starts with the security table. */
  method EmitTree(sec: seq<byte>, t: seq<Node>, off: seq<nat>, sub: seq<nat>, pos: nat, ghost parent: seq<nat>)
    returns (md: seq<byte>)
    requires Linked(t, parent) && AllRecordable(t) && Placed(t, off, sub, |sec|, pos, AllNodes(t), Directories(t)) &&
             |sec| <= pos
    ensures |md| == pos && md[..|sec|] == sec && (pos < WORD ==> Laid(md, t, off, sub))
  {
    hide Linked, AllRecordable, Placed, Emitting, Progresses, RecordLaid, BelowWritten, Laid;
    var buf := StartBuffer(sec, pos);
    ghost var start := buf[..];
    StartEmitting(start, t, off, sub, |sec|);
    LinkedLengths(t, parent);
    WriteNode(buf, t, off, sub, 0, |sec|);
    ghost var middle := buf[..];
    Emit(buf, t, off, sub, 0, |sec|, parent);
    md := buf[..];
    PlacedLengths(t, off, sub, |sec|, pos, AllNodes(t), Directories(t));
    StillLaid(middle, md, t, off, sub, |sec|, 0);
    ProgressChain(start, middle, md, t, off, sub, |sec|);
    SecurityStays(start, md, t, off, sub, |sec|);
    if pos < WORD { AllLaid(start, md, t, parent, off, sub, |sec|); }
  }

  lemma PlacedLengths(t: seq<Node>, off: seq<nat>, sub: seq<nat>, base: nat, pos: nat, placed: set<nat>, done: set<nat>)
    requires Placed(t, off, sub, base, pos, placed, done)
    ensures |off| == |sub| == |t| > 0 && off[0] == base && base + Len(t[0]) + 8 <= pos
  {
  }

  lemma SecurityStays(before: seq<byte>, after: seq<byte>, t: seq<Node>, off: seq<nat>, sub: seq<nat>, base: nat)
    requires |off| == |sub| == |t| && base <= |before| && Progresses(before, after, t, off, sub, base)
    ensures |after| == |before| && after[..base] == before[..base]
  {
  }

  method StartBuffer(sec: seq<byte>, pos: nat) returns (buf: array<byte>)
    requires |sec| <= pos
    ensures fresh(buf) && buf.Length == pos && buf[..|sec|] == sec && buf[..][..|sec|] == sec
    ensures forall i :: |sec| <= i < pos ==> buf[..][i] == 0
  {
    buf := new byte[pos](_ => 0);
    for i := 0 to |sec|
      modifies buf
      invariant buf[..i] == sec[..i] && forall j :: i <= j < pos ==> buf[j] == 0
    {
      buf[i] := sec[i];
    }
    assert buf[..][..|sec|] == buf[..|sec|] == sec[..|sec|] == sec;
  }

  /** The record at p says all that was captured of node n, its security descriptor by its number in the table. */
  ghost predicate Describes(md: seq<byte>, sds: seq<seq<byte>>, n: Node, p: nat, isRoot: bool)
    requires |md| < WORD
  {
    && p + 102 <= |md| && Field(md, p + 8, 4) == n.attrs
    && Field(md, p + 40, 8) == Field(md, p + 48, 8) == Field(md, p + 56, 8) == n.filetime
    && (n.secID < |sds| ==> DescriptorIn(md, Field(md, p + 12, 4)) == Some(sds[n.secID]))
    && forall streams {:trigger EntryOf(n, streams)} ::
         var e := ReadEntry(md, p, isRoot, streams); e.Some? && e.value.d == EntryOf(n, streams)
  }

  ghost predicate Described(md: seq<byte>, sds: seq<seq<byte>>, t: seq<Node>, places: seq<nat>)
    requires |md| < WORD
  {
    |places| == |t| &&
    forall x: nat {:trigger DescribesNode(md, sds, t, places, x)} :: x < |t| ==> DescribesNode(md, sds, t, places, x)
  }

  ghost predicate DescribesNode(md: seq<byte>, sds: seq<seq<byte>>, t: seq<Node>, places: seq<nat>, x: nat)
    requires |md| < WORD && x < |t| == |places|
  {
    Describes(md, sds, t[x], places[x], x == 0)
  }

  lemma LaidDescribes(md: seq<byte>, sds: seq<seq<byte>>, n: Node, p: nat, sub: nat, isRoot: bool)
    requires Recordable(n) && Named(n, isRoot) && sub < WORD && Len(n) < WORD
    requires p + Len(n) <= |md| < WORD && md[p..p + Len(n)] == Record(n, sub)
    requires |SecurityTable(sds)| <= |md| && md[..|SecurityTable(sds)|] == SecurityTable(sds)
    requires 8 + 8 * |sds| + Total(sds) < 0x1_0000_0000
    ensures Describes(md, sds, n, p, isRoot)
  {
    hide Record, Encode, Len, SecurityTable, Total, DescriptorIn, Field, ReadEntry, EntryOf, Recordable, Named;
    LenIsLong(n);
    LaidFields(md, p, n, sub);
    if n.secID < |sds| { DescriptorFound(md, sds, n.secID); }
    forall streams
      ensures ReadEntry(md, p, isRoot, streams) == Some(Entry(EntryOf(n, streams), sub, p + Len(n)))
    {
      EntryRead(md, p, n, sub, isRoot, streams);
    }
  }

  lemma LenIsLong(n: Node)
    ensures Len(n) >= 102
  {
  }

  lemma AllDescribed(md: seq<byte>, sds: seq<seq<byte>>, t: seq<Node>, parent: seq<nat>, off: seq<nat>, sub: seq<nat>)
    requires Capturable(t, parent) && Laid(md, t, off, sub) && |md| < WORD
    requires forall x {:trigger sub[x]} :: 0 <= x < |t| ==> sub[x] < WORD
    requires |SecurityTable(sds)| <= |md| && md[..|SecurityTable(sds)|] == SecurityTable(sds)
    requires 8 + 8 * |sds| + Total(sds) < 0x1_0000_0000
    ensures Described(md, sds, t, off)
  {
    hide Describes, Record, Len, SecurityTable, Total, Recordable, Named, ListLaid, Linked, SiblingsDiffer;
    forall x: nat | x < |t|
      ensures DescribesNode(md, sds, t, off, x)
    {
      assert RecordLaid(md, t, off, sub, x) && Recordable(t[x]) && sub[x] < WORD;
      assert Named(t[x], x == 0);
      LaidDescribes(md, sds, t[x], off[x], sub[x], x == 0);
    }
  }

  /**
   * An image's metadata: refused when there is no security descriptor at all, and otherwise read back just as it was
   * captured, within the reader's limits.
   */
  method EncodeMetadata(sds: seq<seq<byte>>, t: seq<Node>, ghost parent: seq<nat>)
    returns (ok: bool, md: seq<byte>, ghost places: seq<nat>)
    requires Capturable(t, parent)
    ensures ok == (sds != [])
    ensures ok && 8 + 8 * |sds| + Total(sds) < 0x1_0000_0000 && |md| < WORD ==> Described(md, sds, t, places)
    ensures ok && 8 + 8 * |sds| + Total(sds) < 0x1_0000_0000 && |md| < WORD ==>
      forall streams {:trigger Parse(md, streams)} ::
        Parse(md, streams) == if WithinLimits(t, parent) then Some(BuiltNode(t, parent, streams, 0)) else None
  {
    hide Placed, Laid, SecurityTable, Parse, BuiltNode, WithinLimits, Linked, AllRecordable, SiblingsDiffer, Named,
      Total, TreeOffset;
    if |sds| == 0 { return false, [], []; }
    var sec := EncodeSecurityTable(sds);
    var off, sub, pos := LayOut(t, |sec|, parent);
    PlacedLengths(t, off[..], sub[..], |sec|, pos, AllNodes(t), Directories(t));
    md := EmitTree(sec, t, off[..], sub[..], pos, parent);
    ok, places := true, off[..];
    if 8 + 8 * |sds| + Total(sds) < 0x1_0000_0000 && |md| < WORD {
      TableEndsAt(md, sds);
      SubsFit(t, off[..], sub[..], |sec|, pos);
      AllDescribed(md, sds, t, parent, off[..], sub[..]);
      forall streams
        ensures Parse(md, streams) == if WithinLimits(t, parent) then Some(BuiltNode(t, parent, streams, 0)) else None
      {
        ParsesBack(md, t, parent, off[..], sub[..], streams);
      }
    }
  }
}
