/** The security table, and the queue a tree is laid out by: when it runs empty, everything has its place. */
module MetadataQueue {
  import opened Bits
  import opened BitStream
  import opened Canonical
  import opened LittleEndian
  import opened ResourceFormat
  import opened Dentries
  import opened Names
  import opened Records
  import opened Layout
  import opened Placement
  import opened TreeRoundTrip
  import Arithmetic

  // ---------- the security table ----------

  function Total(sds: seq<seq<byte>>): (n: nat)
  {
    if sds == [] then 0 else |sds[0]| + Total(sds[1..])
  }

  function Lengths(sds: seq<seq<byte>>): (b: seq<byte>)
    ensures |b| == 8 * |sds|
  {
    if sds == [] then [] else Put(|sds[0]|, 8) + Lengths(sds[1..])
  }

  function Descriptors(sds: seq<seq<byte>>): (b: seq<byte>)
    ensures |b| == Total(sds)
  {
    if sds == [] then [] else sds[0] + Descriptors(sds[1..])
  }

  /** The block's length, which leaves out the padding, and its count; each descriptor's length; the descriptors. */
  function SecurityTable(sds: seq<seq<byte>>): (b: seq<byte>)
    ensures |b| == Align8(8 + 8 * |sds| + Total(sds))
  {
    var total := 8 + 8 * |sds| + Total(sds);
    Put(total, 4) + Put(|sds|, 4) + Lengths(sds) + Descriptors(sds) + ZeroBytes(Align8(total) - total)
  }

  /** The reader finds the tree at the table's aligned end, exactly when the table's length fits its field. */
  lemma {:induction false} TableEndsAt(md: seq<byte>, sds: seq<seq<byte>>)
    requires |SecurityTable(sds)| <= |md| && md[..|SecurityTable(sds)|] == SecurityTable(sds)
    ensures TreeOffset(md) == Some(|SecurityTable(sds)|) <==> 8 + 8 * |sds| + Total(sds) < 0x1_0000_0000
  {
    hide Put, Get, Bound, Lengths, Descriptors, Total;
    var total := 8 + 8 * |sds| + Total(sds);
    WordBounds();
    var b := SecurityTable(sds);
    assert b[0..4] == Put(total, 4) && b[4..8] == Put(|sds|, 4);
    assert md[0..|b|] == b;
    SliceIn(md, 0, b, 0, 4);
    SliceIn(md, 0, b, 4, 8);
    GetWraps(total, 4);
    GetWraps(|sds|, 4);
  }

  /** A field keeps what is left of a value that is too big for it. */
  lemma {:induction false} GetWraps(u: nat, n: nat)
    ensures Bound(n) > 0 && Get(Put(u, n)) == u % Bound(n)
  {
    if n > 0 {
      GetWraps(u / 256, n - 1);
      WrapStep(u, Bound(n - 1));
    }
  }

  lemma WrapStep(u: nat, m: nat)
    requires m > 0
    ensures u % 256 + 256 * (u / 256 % m) == u % (256 * m)
  {
    var q, r := u / 256 / m, u / 256 % m;
    assert u == 256 * m * q + (256 * r + u % 256);
    Arithmetic.DivModUnique(u, 256 * m, q, 256 * r + u % 256);
  }

  /** How many bytes of descriptors come before number id, by the lengths the table gives. */
  function SizesBefore(md: seq<byte>, id: nat): (n: nat)
    requires 8 + 8 * id <= |md|
  {
    if id == 0 then 0 else SizesBefore(md, id - 1) + Field(md, 8 * id, 8)
  }

  /** Security descriptor number id of metadata, found by the table's count and lengths alone. */
  function DescriptorIn(md: seq<byte>, id: nat): (sd: Option<seq<byte>>)
  {
    if |md| < 8 || id >= Field(md, 4, 4) || 8 + 8 * Field(md, 4, 4) > |md| then None
    else
      var start, n := 8 + 8 * Field(md, 4, 4) + SizesBefore(md, id), Field(md, 8 + 8 * id, 8);
      if start + n <= |md| then Some(md[start..start + n]) else None
  }

  lemma {:induction false} LengthIn(sds: seq<seq<byte>>, k: nat)
    requires k < |sds|
    ensures Lengths(sds)[8 * k..8 * k + 8] == Put(|sds[k]|, 8)
  {
    hide Put;
    if k > 0 {
      LengthIn(sds[1..], k - 1);
      SliceAfter(Put(|sds[0]|, 8), Lengths(sds[1..]), 8 * (k - 1), 8);
    }
  }

  lemma {:induction false} BodyIn(sds: seq<seq<byte>>, k: nat)
    requires k < |sds|
    ensures Total(sds[..k]) + |sds[k]| <= Total(sds)
    ensures Descriptors(sds)[Total(sds[..k])..Total(sds[..k]) + |sds[k]|] == sds[k]
  {
    if k > 0 {
      BodyIn(sds[1..], k - 1);
      assert sds[..k][1..] == sds[1..][..k - 1];
      SliceAfter(sds[0], Descriptors(sds[1..]), Total(sds[1..][..k - 1]), |sds[k]|);
    }
  }

  lemma SliceAfter(a: seq<byte>, b: seq<byte>, i: nat, n: nat)
    requires i + n <= |b|
    ensures (a + b)[|a| + i..|a| + i + n] == b[i..i + n]
  {
  }

  /** The parts of a table that metadata begins with. */
  lemma TableParts(md: seq<byte>, sds: seq<seq<byte>>)
    requires |SecurityTable(sds)| <= |md| && md[..|SecurityTable(sds)|] == SecurityTable(sds)
    ensures md[4..8] == Put(|sds|, 4) && md[8..8 + 8 * |sds|] == Lengths(sds)
    ensures md[8 + 8 * |sds|..8 + 8 * |sds| + Total(sds)] == Descriptors(sds)
  {
    hide Put, Lengths, Descriptors, Total, ZeroBytes;
    var b := SecurityTable(sds);
    assert md[0..|b|] == b;
    SliceIn(md, 0, b, 4, 8);
    SliceIn(md, 0, b, 8, 8 + 8 * |sds|);
    SliceIn(md, 0, b, 8 + 8 * |sds|, 8 + 8 * |sds| + Total(sds));
  }

  lemma {:induction false} SizesAre(md: seq<byte>, sds: seq<seq<byte>>, id: nat)
    requires id <= |sds| && 8 + 8 * |sds| <= |md| && md[8..8 + 8 * |sds|] == Lengths(sds)
    requires forall k {:trigger sds[k]} :: 0 <= k < |sds| ==> |sds[k]| < WORD
    ensures SizesBefore(md, id) == Total(sds[..id])
    ensures id < |sds| ==> Field(md, 8 + 8 * id, 8) == |sds[id]|
  {
    hide Put, Get, Bound, Lengths;
    WordBounds();
    if id < |sds| {
      LengthIn(sds, id);
      FieldRead(md, 8, Lengths(sds), 8 * id, 8, |sds[id]|);
    }
    if id > 0 {
      SizesAre(md, sds, id - 1);
      OneMoreTotal(sds[..id - 1], sds[id - 1]);
      assert sds[..id] == sds[..id - 1] + [sds[id - 1]];
    }
  }

  lemma {:induction false} OneMoreTotal(a: seq<seq<byte>>, sd: seq<byte>)
    ensures Total(a + [sd]) == Total(a) + |sd|
  {
    if a != [] {
      OneMoreTotal(a[1..], sd);
      assert (a + [sd])[1..] == a[1..] + [sd];
    } else {
      assert (a + [sd])[1..] == [];
    }
  }

  lemma {:induction false} WithinTotal(sds: seq<seq<byte>>, k: nat)
    requires k < |sds|
    ensures |sds[k]| <= Total(sds)
  {
    if k > 0 { WithinTotal(sds[1..], k - 1); }
  }

  /** Every descriptor of a table whose length fits its field is found under its number. */
  lemma DescriptorFound(md: seq<byte>, sds: seq<seq<byte>>, id: nat)
    requires |SecurityTable(sds)| <= |md| && md[..|SecurityTable(sds)|] == SecurityTable(sds)
    requires id < |sds| && 8 + 8 * |sds| + Total(sds) < 0x1_0000_0000
    ensures DescriptorIn(md, id) == Some(sds[id])
  {
    hide Put, Get, Bound, Lengths, Descriptors, Total, SecurityTable, SizesBefore;
    TableParts(md, sds);
    WordBounds();
    GetPut(|sds|, 4);
    forall k | 0 <= k < |sds|
      ensures |sds[k]| < WORD
    {
      WithinTotal(sds, k);
    }
    SizesAre(md, sds, id);
    BodyIn(sds, id);
    var at := 8 + 8 * |sds|;
    SliceIn(md, at, Descriptors(sds), Total(sds[..id]), Total(sds[..id]) + |sds[id]|);
  }

  /** The lengths and the descriptors so far, and those still to come, make up both lists. */
  ghost predicate Tables(sds: seq<seq<byte>>, i: nat, lengths: seq<byte>, body: seq<byte>)
    requires i <= |sds|
  {
    lengths + Lengths(sds[i..]) == Lengths(sds) && body + Descriptors(sds[i..]) == Descriptors(sds)
  }

  lemma TablesStep(sds: seq<seq<byte>>, i: nat, lengths: seq<byte>, body: seq<byte>)
    requires i < |sds| && Tables(sds, i, lengths, body)
    ensures Tables(sds, i + 1, lengths + Put(|sds[i]|, 8), body + sds[i])
  {
    hide Put;
    assert sds[i..][1..] == sds[i + 1..];
    ConcatAssoc(lengths, Put(|sds[i]|, 8), Lengths(sds[i + 1..]));
    ConcatAssoc(body, sds[i], Descriptors(sds[i + 1..]));
  }

  lemma {:induction false} TablesEnds(sds: seq<seq<byte>>, lengths: seq<byte>, body: seq<byte>)
    ensures Tables(sds, 0, [], [])
    ensures Tables(sds, |sds|, lengths, body) <==> lengths == Lengths(sds) && body == Descriptors(sds)
  {
    assert sds[0..] == sds && lengths + [] == lengths && body + [] == body;
  }

  method EncodeSecurityTable(sds: seq<seq<byte>>) returns (b: seq<byte>)
    ensures b == SecurityTable(sds)
  {
    hide Tables, Put, Descriptors;
    var lengths, body := [], [];
    TablesEnds(sds, lengths, body);
    for i := 0 to |sds|
      invariant Tables(sds, i, lengths, body)
    {
      TablesStep(sds, i, lengths, body);
      lengths := lengths + Put(|sds[i]|, 8);
      body := body + sds[i];
    }
    TablesEnds(sds, lengths, body);
    var total := 8 + |lengths| + |body|;
    b := Put(total, 4) + Put(|sds|, 4) + lengths + body + ZeroBytes(Align8(total) - total);
  }

  // ---------- the queue ----------

  /** The directories among the first i children. */
  function DirsOf(t: seq<Node>, ch: seq<nat>, i: nat): (ds: seq<nat>)
    requires i <= |ch| && forall j :: 0 <= j < |ch| ==> ch[j] < |t|
    ensures forall d :: d in ds ==> d in ch && t[d].isDir
  {
    if i == 0 then [] else DirsOf(t, ch, i - 1) + (if t[ch[i - 1]].isDir then [ch[i - 1]] else [])
  }

  lemma {:induction false} DirsOfAll(t: seq<Node>, ch: seq<nat>, i: nat)
    requires i <= |ch| && Distinct(ch) && forall j :: 0 <= j < |ch| ==> ch[j] < |t|
    ensures Distinct(DirsOf(t, ch, i))
    ensures forall j :: 0 <= j < i && t[ch[j]].isDir ==> ch[j] in DirsOf(t, ch, i)
    ensures forall d :: d in DirsOf(t, ch, i) ==> d in ch[..i]
  {
    if i > 0 {
      DirsOfAll(t, ch, i - 1);
      assert ch[..i] == ch[..i - 1] + [ch[i - 1]];
      assert ch[i - 1] !in ch[..i - 1];
    }
  }

  /** The queue holds just the directories that are placed and whose lists are not. */
  ghost predicate Queued(t: seq<Node>, parent: seq<nat>, queue: seq<nat>, placed: set<nat>, done: set<nat>)
    requires Linked(t, parent)
  {
    && Distinct(queue) && done <= placed && OnlyDirs(t, done)
    && (forall q {:trigger q in queue} :: q in queue ==> q < |t| && q in placed && q !in done && t[q].isDir)
    && (forall x {:trigger x in placed} ::
          x in placed ==> x < |t| && (t[x].isDir ==> x in done || x in queue) && (x == 0 || parent[x] in done))
  }

  /** None of the children of a queued directory has a place yet. */
  lemma KidsUnplaced(t: seq<Node>, parent: seq<nat>, queue: seq<nat>, placed: set<nat>, done: set<nat>)
    requires Linked(t, parent) && queue != [] && Queued(t, parent, queue, placed, done)
    ensures queue[0] < |t| && ChildrenIn(t, queue[0]) && Distinct(t[queue[0]].children)
    ensures forall c :: c in t[queue[0]].children ==> c !in placed
  {
    var d := queue[0];
    assert d in queue;
    forall c | c in t[d].children
      ensures c !in placed
    {
      var i :| 0 <= i < |t[d].children| && t[d].children[i] == c;
    }
  }

  lemma {:induction false} QueueMoves(t: seq<Node>, parent: seq<nat>, queue: seq<nat>, placed: set<nat>, done: set<nat>)
    requires Linked(t, parent) && queue != [] && Queued(t, parent, queue, placed, done)
    requires queue[0] < |t| && ChildrenIn(t, queue[0])
    ensures var ch := t[queue[0]].children;
            Queued(t, parent, queue[1..] + DirsOf(t, ch, |ch|), placed + Members(ch), done + {queue[0]})
  {
    hide DirsOf;
    var d := queue[0];
    var ch := t[d].children;
    KidsUnplaced(t, parent, queue, placed, done);
    DirsOfAll(t, ch, |ch|);
    var dirs := DirsOf(t, ch, |ch|);
    var queue', placed', done' := queue[1..] + dirs, placed + Members(ch), done + {d};
    assert queue == [d] + queue[1..];
    JoinDistinct(queue, dirs);
    assert d in queue && done' <= placed';
    assert Distinct(queue');
    forall q | q in queue'
      ensures q < |t| && q in placed' && q !in done' && t[q].isDir
    {
      if q in queue[1..] {
        assert q in queue;
      } else {
        assert q in dirs && q in ch && d in queue;
        var i :| 0 <= i < |ch| && ch[i] == q;
        assert t[d].children[i] == q;
      }
    }
    forall x | x in placed'
      ensures x < |t| && (t[x].isDir ==> x in done' || x in queue') && (x == 0 || parent[x] in done')
    {
      if x in ch {
        var i :| 0 <= i < |ch| && ch[i] == x;
        assert t[d].children[i] == x;
      } else {
        assert x in placed;
      }
    }
  }

  lemma JoinDistinct(queue: seq<nat>, dirs: seq<nat>)
    requires queue != [] && Distinct(queue) && Distinct(dirs) && forall d :: d in dirs ==> d !in queue
    ensures Distinct(queue[1..] + dirs) && queue[0] !in queue[1..]
  {
    var r := queue[1..] + dirs;
    forall i, j | 0 <= i < j < |r|
      ensures r[i] != r[j]
    {
      if i < |queue| - 1 && j >= |queue| - 1 {
        assert r[j] in dirs && r[i] in queue;
      }
    }
  }

  // ---------- breadth-first layout ----------

  function AllNodes(t: seq<Node>): (s: set<nat>)
  {
    set x {:trigger t[x]} | 0 <= x < |t|
  }

  function Directories(t: seq<Node>): (s: set<nat>)
  {
    set x | 0 <= x < |t| && t[x].isDir
  }

  lemma {:induction false} CardBound(s: set<nat>, n: nat)
    requires forall x {:trigger x in s} :: x in s ==> x < n
    ensures |s| <= n
  {
    if n > 0 {
      CardBound(s - {n - 1}, n - 1);
    } else {
      assert s == {};
    }
  }

  lemma StillToDo(done: set<nat>, d: nat, n: nat)
    requires d !in done && d < n && forall x {:trigger x in done} :: x in done ==> x < n
    ensures |done + {d}| == |done| + 1 <= n
  {
    CardBound(done + {d}, n);
  }

  /** Once the queue is empty every node has its place and every directory its list. */
  lemma {:induction false} AllArePlaced(t: seq<Node>, parent: seq<nat>, off: seq<nat>, sub: seq<nat>, base: nat,
                                        pos: nat, placed: set<nat>, done: set<nat>, y: nat)
    requires Linked(t, parent) && Placed(t, off, sub, base, pos, placed, done) && Queued(t, parent, [], placed, done) &&
             y < |t|
    ensures y in placed && (t[y].isDir ==> y in done)
  {
    hide ListPlaced, NodesApart, EndApart, NodePlaced;
    if y > 0 {
      AllArePlaced(t, parent, off, sub, base, pos, placed, done, parent[y]);
      assert y in t[parent[y]].children;
      assert t[parent[y]].children != [];
      assert parent[y] in done;
    }
    assert y in placed;
  }

  lemma PlacedAll(t: seq<Node>, parent: seq<nat>, off: seq<nat>, sub: seq<nat>, base: nat, pos: nat, placed: set<nat>,
                  done: set<nat>)
    requires Linked(t, parent) && Placed(t, off, sub, base, pos, placed, done) && Queued(t, parent, [], placed, done)
    ensures placed == AllNodes(t) && done == Directories(t)
  {
    hide ListPlaced, NodesApart, EndApart, NodePlaced, RootEndApart;
    forall y: nat | y < |t|
      ensures y in placed && (t[y].isDir ==> y in done)
    {
      AllArePlaced(t, parent, off, sub, base, pos, placed, done, y);
    }
    forall d | d in done
      ensures d in Directories(t)
    {
      DoneIsDir(t, parent, off, sub, base, pos, placed, done, d);
    }
  }

  lemma DoneIsDir(t: seq<Node>, parent: seq<nat>, off: seq<nat>, sub: seq<nat>, base: nat, pos: nat, placed: set<nat>,
                  done: set<nat>, d: nat)
    requires Linked(t, parent) && Placed(t, off, sub, base, pos, placed, done) && OnlyDirs(t, done) && d in done
    ensures d < |t| && t[d].isDir
  {
  }

  ghost predicate OnlyDirs(t: seq<Node>, done: set<nat>)
  {
    forall d {:trigger d in done} :: d in done ==> d < |t| && t[d].isDir
  }
}
