/** Capturing a walked tree: its nodes, its distinct streams and its distinct security descriptors. */
module Capture {
  import opened Bits
  import opened Canonical
  import opened ResourceFormat
  import opened Names
  import opened Dentries
  import opened Records
  import opened Layout
  import opened TreeRoundTrip

  datatype Kind = Directory | File | Symlink | Irregular

  /** One step of the walk: a path from the root, and what is found there. */
  datatype Visit = Visit(path: seq<Name>, kind: Kind, data: seq<byte>, filetime: nat, sd: Option<seq<byte>>)

  /** A stream's name: twenty bytes, never all zero. */
  type Hasher = seq<byte> -> seq<byte>

  ghost predicate Hashes(h: Hasher)
  {
    forall b: seq<byte> {:trigger h(b)} :: |h(b)| == 20 && h(b) != NO_HASH
  }

  /** One stream to be stored, and how many files hold it. */
  datatype Blob = Blob(path: seq<Name>, hash: seq<byte>, refs: nat)

  datatype Captured = Captured(nodes: seq<Node>, blobs: seq<Blob>, security: seq<seq<byte>>, dirCount: nat,
                               fileCount: nat)

  // ---------- what a walk gives ----------

  /** A walk names every path once, and every name in a path is a component. */
  ghost predicate Walk(vs: seq<Visit>)
  {
    && (forall i, j {:trigger vs[i], vs[j]} :: 0 <= i < j < |vs| ==> vs[i].path != vs[j].path)
    && (forall i {:trigger vs[i]} :: 0 <= i < |vs| ==> vs[i].filetime < WORD && (vs[i].path == [] <==> i == 0))
    && (forall i {:trigger vs[i]} :: 0 < i < |vs| ==> IsComponent(Last(vs[i].path)))
  }

  function Last(path: seq<Name>): Name
  {
    if path == [] then [] else path[|path| - 1]
  }

  function Parent(path: seq<Name>): seq<Name>
  {
    if path == [] then [] else path[..|path| - 1]
  }

  predicate HasStream(v: Visit)
  {
    v.kind == File && v.data != []
  }

  /** How many of the first n visits are files with content. */
  function StoredCount(vs: seq<Visit>, n: nat): (c: nat)
    requires n <= |vs|
  {
    if n == 0 then 0 else StoredCount(vs, n - 1) + (if HasStream(vs[n - 1]) then 1 else 0)
  }

  /** How many of the first n visits find a directory. */
  function DirsIn(vs: seq<Visit>, n: nat): (c: nat)
    requires n <= |vs|
    ensures c <= n
  {
    if n == 0 then 0 else DirsIn(vs, n - 1) + (if vs[n - 1].kind == Directory then 1 else 0)
  }

  /** How many of the first n visits find a file whose content has this hash. */
  function UsesOf(vs: seq<Visit>, n: nat, h: seq<byte>, hash: Hasher): (c: nat)
    requires n <= |vs|
  {
    if n == 0 then 0
    else UsesOf(vs, n - 1, h, hash) + (if HasStream(vs[n - 1]) && hash(vs[n - 1].data) == h then 1 else 0)
  }

  // ---------- streams ----------

  /** Visit x is the first of the first n to find content of this stream's hash, and the stream has its path. */
  ghost predicate FirstUse(b: Blob, vs: seq<Visit>, n: nat, hash: Hasher, x: nat)
    requires n <= |vs|
  {
    x < n && HasStream(vs[x]) && vs[x].path == b.path && hash(vs[x].data) == b.hash && UsesOf(vs, x, b.hash, hash) == 0
  }

  /** A stream has the path of the first file that holds it, and as many references as there are files that do. */
  ghost predicate BlobSays(b: Blob, vs: seq<Visit>, n: nat, hash: Hasher)
    requires n <= |vs|
  {
    b.refs == UsesOf(vs, n, b.hash, hash) &&
      exists x {:trigger FirstUse(b, vs, n, hash, x)} :: FirstUse(b, vs, n, hash, x)
  }

  ghost predicate BlobsSay(bs: seq<Blob>, vs: seq<Visit>, n: nat, hash: Hasher)
    requires n <= |vs|
  {
    forall i: nat {:trigger BlobSays(bs[i], vs, n, hash)} :: i < |bs| ==> BlobSays(bs[i], vs, n, hash)
  }

  /** The files seen so far have their streams. */
  ghost predicate UsesIndexed(vs: seq<Visit>, n: nat, hash: Hasher, index: map<seq<byte>, nat>)
    requires n <= |vs|
  {
    forall x {:trigger vs[x]} :: 0 <= x < n && HasStream(vs[x]) ==> hash(vs[x].data) in index
  }

  lemma {:induction false} Unused(vs: seq<Visit>, n: nat, h: seq<byte>, hash: Hasher, index: map<seq<byte>, nat>)
    requires n <= |vs| && UsesIndexed(vs, n, hash, index) && h !in index
    ensures UsesOf(vs, n, h, hash) == 0
  {
    if n > 0 {
      Unused(vs, n - 1, h, hash, index);
      assert HasStream(vs[n - 1]) ==> hash(vs[n - 1].data) in index;
    }
  }

  lemma SaysStill(b: Blob, c: Blob, vs: seq<Visit>, n: nat, hash: Hasher)
    requires n < |vs| && BlobSays(b, vs, n, hash) && c.path == b.path && c.hash == b.hash
    requires c.refs == b.refs + (if HasStream(vs[n]) && hash(vs[n].data) == b.hash then 1 else 0)
    ensures BlobSays(c, vs, n + 1, hash)
  {
    var x :| FirstUse(b, vs, n, hash, x);
    assert FirstUse(c, vs, n + 1, hash, x);
  }

  /** A visit without content changes no stream. */
  lemma BlobsStay(bs: seq<Blob>, vs: seq<Visit>, n: nat, hash: Hasher)
    requires n < |vs| && BlobsSay(bs, vs, n, hash) && !HasStream(vs[n])
    ensures BlobsSay(bs, vs, n + 1, hash)
  {
    hide BlobSays;
    forall i: nat | i < |bs|
      ensures BlobSays(bs[i], vs, n + 1, hash)
    {
      SaysStill(bs[i], bs[i], vs, n, hash);
    }
  }

  /** One with content is counted for its own stream alone. */
  lemma BlobsCount(bs: seq<Blob>, index: map<seq<byte>, nat>, vs: seq<Visit>, n: nat, hash: Hasher, r: seq<Blob>)
    requires n < |vs| && BlobsSay(bs, vs, n, hash) && HasStream(vs[n])
    requires Indexed(bs, index) && UsesIndexed(vs, n, hash, index)
    requires var h := hash(vs[n].data);
             if h in index then r == bs[index[h] := bs[index[h]].(refs := bs[index[h]].refs + 1)]
             else r == bs + [Blob(vs[n].path, h, 1)]
    ensures BlobsSay(r, vs, n + 1, hash)
  {
    hide BlobSays;
    var h := hash(vs[n].data);
    forall i: nat | i < |r|
      ensures BlobSays(r[i], vs, n + 1, hash)
    {
      if i < |bs| {
        assert bs[i].hash in index && index[bs[i].hash] == i;
        SaysStill(bs[i], r[i], vs, n, hash);
      } else {
        Unused(vs, n, h, hash, index);
        NewSays(r[i], vs, n, hash);
      }
    }
  }

  lemma NewSays(b: Blob, vs: seq<Visit>, n: nat, hash: Hasher)
    requires n < |vs| && HasStream(vs[n]) && b == Blob(vs[n].path, hash(vs[n].data), 1)
    requires UsesOf(vs, n, b.hash, hash) == 0
    ensures BlobSays(b, vs, n + 1, hash)
  {
    assert FirstUse(b, vs, n + 1, hash, n);
  }

  function References(bs: seq<Blob>): (n: nat)
  {
    if bs == [] then 0 else References(bs[..|bs| - 1]) + bs[|bs| - 1].refs
  }

  /** The index knows every stream by its hash, so no hash is there twice. */
  ghost predicate Indexed(bs: seq<Blob>, index: map<seq<byte>, nat>)
  {
    && (forall h {:trigger h in index} :: h in index ==> index[h] < |bs| && bs[index[h]].hash == h)
    && (forall i {:trigger bs[i]} :: 0 <= i < |bs| ==> bs[i].hash in index && index[bs[i].hash] == i && bs[i].refs > 0)
  }

  lemma {:induction false} OneMoreReference(bs: seq<Blob>, i: nat, b: Blob)
    requires i < |bs| && b == bs[i].(refs := bs[i].refs + 1)
    ensures References(bs[i := b]) == References(bs) + 1
  {
    var front := bs[..|bs| - 1];
    if i < |bs| - 1 {
      OneMoreReference(front, i, b);
      assert bs[i := b][..|bs| - 1] == front[i := b];
    } else {
      assert bs[i := b][..|bs| - 1] == front;
    }
  }

  lemma OneMoreBlob(bs: seq<Blob>, b: Blob)
    ensures References(bs + [b]) == References(bs) + b.refs
  {
    assert (bs + [b])[..|bs|] == bs;
  }

  /** Counts one more file with this hash: a stream seen before gains a reference, a new one is added. */
  method AddStream(bs: seq<Blob>, index: map<seq<byte>, nat>, path: seq<Name>, hash: seq<byte>)
    returns (r: seq<Blob>, index': map<seq<byte>, nat>)
    requires Indexed(bs, index)
    ensures Indexed(r, index') && References(r) == References(bs) + 1 && hash in index'
    ensures forall h {:trigger h in index} :: h in index ==> h in index'
    ensures if hash in index then r == bs[index[hash] := bs[index[hash]].(refs := bs[index[hash]].refs + 1)]
            else r == bs + [Blob(path, hash, 1)]
    ensures index' == if hash in index then index else index[hash := |bs|]
  {
    if hash in index {
      var i := index[hash];
      var b := bs[i].(refs := bs[i].refs + 1);
      OneMoreReference(bs, i, b);
      r, index' := bs[i := b], index;
    } else {
      var b := Blob(path, hash, 1);
      OneMoreBlob(bs, b);
      r, index' := bs + [b], index[hash := |bs|];
    }
  }

  // ---------- security descriptors ----------

  ghost predicate IndexedSds(sds: seq<seq<byte>>, index: map<seq<byte>, nat>)
  {
    && (forall d {:trigger d in index} :: d in index ==> index[d] < |sds| && sds[index[d]] == d)
    && (forall i {:trigger sds[i]} :: 0 <= i < |sds| ==> sds[i] in index && index[sds[i]] == i)
  }

  method AddDescriptor(sds: seq<seq<byte>>, index: map<seq<byte>, nat>, sd: seq<byte>)
    returns (r: seq<seq<byte>>, index': map<seq<byte>, nat>, id: nat)
    requires IndexedSds(sds, index)
    ensures IndexedSds(r, index') && id < |r| && r[id] == sd && sds <= r && |r| <= |sds| + 1
  {
    if sd in index {
      return sds, index, index[sd];
    }
    r, index', id := sds + [sd], index[sd := |sds|], |sds|;
  }

  // ---------- nodes ----------

  /** A node's children come after it, in the order they were found, and only a directory has any. */
  ghost predicate Kids(nodes: seq<Node>, parent: seq<nat>, x: nat)
    requires x < |nodes| == |parent|
  {
    var ch := nodes[x].children;
    && (forall i {:trigger ch[i]} :: 0 <= i < |ch| ==> x < ch[i] < |nodes| && parent[ch[i]] == x)
    && (forall i, j {:trigger ch[i], ch[j]} :: 0 <= i < j < |ch| ==> ch[i] < ch[j])
    && (ch != [] ==> nodes[x].isDir)
  }

  /** A node is a child of the directory its path says it is in. */
  ghost predicate InParent(nodes: seq<Node>, parent: seq<nat>, vs: seq<Visit>, y: nat)
    requires y < |nodes| == |parent| <= |vs|
  {
    y > 0 ==> parent[y] < y && y in nodes[parent[y]].children && vs[parent[y]].path == Parent(vs[y].path)
  }

  /** The nodes captured so far are those of the first visits, linked up as their paths say. */
  ghost predicate Grown(nodes: seq<Node>, parent: seq<nat>, vs: seq<Visit>, sds: seq<seq<byte>>, hash: Hasher)
  {
    && |nodes| == |parent| <= |vs|
    && (forall x: nat {:trigger NodeOf(nodes[x], vs[x], sds, hash)} ::
          x < |nodes| ==> NodeOf(nodes[x], vs[x], sds, hash))
    && (forall x: nat {:trigger Kids(nodes, parent, x)} :: x < |nodes| ==> Kids(nodes, parent, x))
    && (forall y: nat {:trigger InParent(nodes, parent, vs, y)} :: y < |nodes| ==> InParent(nodes, parent, vs, y))
  }

  /** A node says what was found at its path. */
  ghost predicate NodeOf(n: Node, v: Visit, sds: seq<seq<byte>>, hash: Hasher)
  {
    && n.name == Last(v.path) && n.isDir == (v.kind == Directory) && (v.kind == Directory || v.kind == File) &&
       Recordable(n) && n.filetime == v.filetime
    && n.hash == (if HasStream(v) then hash(v.data) else NO_HASH)
    && n.secID < |sds| && v.sd == Some(sds[n.secID])
  }

  /** Each directory visited, and nothing else, is known by its path. */
  ghost predicate KnownDirs(dirs: map<seq<Name>, nat>, nodes: seq<Node>, vs: seq<Visit>)
    requires |nodes| <= |vs|
  {
    && (forall p {:trigger p in dirs} ::
          p in dirs ==> dirs[p] < |nodes| && nodes[dirs[p]].isDir && vs[dirs[p]].path == p)
    && (forall j {:trigger nodes[j]} :: 0 <= j < |nodes| && nodes[j].isDir ==> vs[j].path in dirs)
  }

  /** The directory a visit's path is in has been visited before it. The root is in none. */
  ghost predicate ParentVisited(vs: seq<Visit>, i: nat)
    requires i < |vs|
  {
    vs[i].path == [] ||
      exists j {:trigger vs[j]} :: 0 <= j < i && vs[j].kind == Directory && vs[j].path == Parent(vs[i].path)
  }

  /** A visit a capture accepts. */
  ghost predicate Accepts(vs: seq<Visit>, i: nat)
    requires i < |vs|
  {
    && (vs[i].kind == Directory || vs[i].kind == File) && vs[i].sd.Some? &&
       2 * |Encode(Last(vs[i].path))| <= MAX_NAME_BYTES
    && ParentVisited(vs, i)
  }

  /** The nodes with one more, which is in directory p. */
  function With(nodes: seq<Node>, n: Node, p: nat): (r: seq<Node>)
    requires p < |nodes|
    ensures |r| == |nodes| + 1
  {
    nodes[p := nodes[p].(children := nodes[p].children + [|nodes|])] + [n]
  }

  /** Adding a node below its parent. */
  lemma GrowOne(nodes: seq<Node>, parent: seq<nat>, vs: seq<Visit>, sds: seq<seq<byte>>, sds': seq<seq<byte>>,
                hash: Hasher, n: Node, p: nat)
    requires Grown(nodes, parent, vs, sds, hash) && |nodes| < |vs| && n.children == [] &&
             NodeOf(n, vs[|nodes|], sds', hash)
    requires p < |nodes| && nodes[p].isDir && vs[p].path == Parent(vs[|nodes|].path) && sds <= sds'
    ensures Grown(With(nodes, n, p), parent + [p], vs, sds', hash)
  {
    hide Recordable, Last, Parent, Kids, InParent, NodeOf;
    var id, nodes', parent' := |nodes|, With(nodes, n, p), parent + [p];
    forall x: nat | x < |nodes'|
      ensures NodeOf(nodes'[x], vs[x], sds', hash) && Kids(nodes', parent', x) && InParent(nodes', parent', vs, x)
    {
      if x < id {
        assert NodeOf(nodes[x], vs[x], sds, hash) && Kids(nodes, parent, x) && InParent(nodes, parent, vs, x);
        NodeKept(nodes[x], nodes'[x].children, vs[x], sds, sds', hash);
        KidsKept(nodes, parent, n, p, x);
        ParentKept(nodes, parent, vs, n, p, x);
      } else {
        NewNode(nodes, parent, vs, n, p);
      }
    }
  }

  lemma NodeKept(n: Node, ch: seq<nat>, v: Visit, sds: seq<seq<byte>>, sds': seq<seq<byte>>, hash: Hasher)
    requires NodeOf(n, v, sds, hash) && sds <= sds'
    ensures NodeOf(n.(children := ch), v, sds', hash) && n.(children := n.children) == n
  {
  }

  lemma KidsKept(nodes: seq<Node>, parent: seq<nat>, n: Node, p: nat, x: nat)
    requires p < |nodes| == |parent| && x < |nodes| && nodes[p].isDir && Kids(nodes, parent, x)
    ensures Kids(With(nodes, n, p), parent + [p], x)
  {
  }

  lemma ParentKept(nodes: seq<Node>, parent: seq<nat>, vs: seq<Visit>, n: Node, p: nat, y: nat)
    requires p < |nodes| == |parent| < |vs| && y < |nodes| && InParent(nodes, parent, vs, y)
    ensures InParent(With(nodes, n, p), parent + [p], vs, y)
  {
    hide Parent;
  }

  lemma NewNode(nodes: seq<Node>, parent: seq<nat>, vs: seq<Visit>, n: Node, p: nat)
    requires p < |nodes| == |parent| < |vs| && n.children == [] && vs[p].path == Parent(vs[|nodes|].path)
    ensures Kids(With(nodes, n, p), parent + [p], |nodes|) && InParent(With(nodes, n, p), parent + [p], vs, |nodes|)
  {
    hide Parent;
    var ch := With(nodes, n, p)[p].children;
    assert ch[|ch| - 1] == |nodes|;
  }

  /** What has been captured can be encoded. */
  lemma GrownIsCapturable(nodes: seq<Node>, parent: seq<nat>, vs: seq<Visit>, sds: seq<seq<byte>>, hash: Hasher)
    requires Walk(vs) && Grown(nodes, parent, vs, sds, hash) && nodes != [] && nodes[0].isDir
    ensures Capturable(nodes, parent)
  {
    hide IsComponent, Recordable, SiblingsDiffer;
    forall d: nat | d < |nodes|
      ensures Distinct(nodes[d].children) && SiblingsDiffer(nodes, d)
    {
      assert Kids(nodes, parent, d);
      SameParentDiffers(nodes, parent, vs, sds, hash, d);
    }
    forall x, i | 0 <= x < |nodes| && 0 <= i < |nodes[x].children|
      ensures x < nodes[x].children[i] < |nodes| && parent[nodes[x].children[i]] == x
    {
      assert Kids(nodes, parent, x);
    }
    forall x | 0 <= x < |nodes|
      ensures Recordable(nodes[x]) && Named(nodes[x], x == 0) && (nodes[x].children != [] ==> nodes[x].isDir)
    {
      assert NodeOf(nodes[x], vs[x], sds, hash) && Kids(nodes, parent, x);
    }
    forall y | 0 < y < |nodes|
      ensures parent[y] < y && y in nodes[parent[y]].children
    {
      assert InParent(nodes, parent, vs, y);
    }
  }

  lemma SameParentDiffers(nodes: seq<Node>, parent: seq<nat>, vs: seq<Visit>, sds: seq<seq<byte>>, hash: Hasher, d: nat)
    requires Walk(vs) && Grown(nodes, parent, vs, sds, hash) && d < |nodes|
    ensures SiblingsDiffer(nodes, d)
  {
    hide IsComponent, Recordable;
    var ch := nodes[d].children;
    assert Kids(nodes, parent, d);
    forall i, j | 0 <= i < j < |ch|
      ensures nodes[ch[i]].name != nodes[ch[j]].name
    {
      var a, b := ch[i], ch[j];
      assert InParent(nodes, parent, vs, a) && InParent(nodes, parent, vs, b);
      assert NodeOf(nodes[a], vs[a], sds, hash) && NodeOf(nodes[b], vs[b], sds, hash);
      assert vs[a].path != [] && vs[b].path != [] && vs[a].path != vs[b].path;
      if nodes[a].name == nodes[b].name { SamePath(vs[a].path, vs[b].path); }
    }
  }

  lemma SamePath(a: seq<Name>, b: seq<Name>)
    requires a != [] && b != [] && Parent(a) == Parent(b) && Last(a) == Last(b)
    ensures a == b
  {
    assert a == a[..|a| - 1] + [a[|a| - 1]];
    assert b == b[..|b| - 1] + [b[|b| - 1]];
  }

  // ---------- the walk ----------

  lemma GrowRoot(vs: seq<Visit>, sds: seq<seq<byte>>, hash: Hasher, n: Node)
    requires |vs| > 0 && n.children == [] && NodeOf(n, vs[0], sds, hash)
    ensures Grown([n], [0], vs, sds, hash)
  {
    hide Recordable;
  }

  /**
   * What a captured tree amounts to: a tree that can be encoded, every stream and descriptor kept once, and every
   * file with content counted.
   */
  ghost predicate Faithful(c: Captured, parent: seq<nat>, vs: seq<Visit>, hash: Hasher)
  {
    && |c.nodes| == |vs| && Capturable(c.nodes, parent) && Grown(c.nodes, parent, vs, c.security, hash)
    && (exists index {:trigger Indexed(c.blobs, index)} :: Indexed(c.blobs, index)
          && forall x {:trigger c.nodes[x]} :: 0 <= x < |c.nodes| && HasStream(vs[x]) ==> c.nodes[x].hash in index)
    && References(c.blobs) == StoredCount(vs, |vs|)
    && (exists index {:trigger IndexedSds(c.security, index)} :: IndexedSds(c.security, index))
    && BlobsSay(c.blobs, vs, |vs|, hash)
    && c.security != [] && c.dirCount == DirsIn(vs, |vs|) && c.fileCount == |vs| - DirsIn(vs, |vs|)
  }

  /** The node for one visit, its children aside. */
  method MakeNode(v: Visit, id: nat, hash: Hasher) returns (ok: bool, n: Node)
    requires v.filetime < WORD && id < 0x1_0000_0000 && Hashes(hash)
    ensures n.children == [] && n.secID == id && n.isDir == (v.kind == Directory)
    ensures ok ==> Recordable(n) && n.name == Last(v.path) && n.filetime == v.filetime
                   && n.hash == (if HasStream(v) then hash(v.data) else NO_HASH)
    ensures ok <==> 2 * |Encode(Last(v.path))| <= MAX_NAME_BYTES
  {
    var isDir := v.kind == Directory;
    n := Node(Last(v.path), isDir, if isDir then ATTR_DIRECTORY else ATTR_NORMAL, id, NO_HASH, v.filetime, []);
    if 2 * |Encode(n.name)| > MAX_NAME_BYTES { return false, n; }
    if HasStream(v) { n := n.(hash := hash(v.data)); }
    ok := true;
  }

  /** What has come of the first i visits. */
  ghost predicate SoFar(c: Captured, parent: seq<nat>, vs: seq<Visit>, i: nat, blobIndex: map<seq<byte>, nat>,
                        sdIndex: map<seq<byte>, nat>,
                        dirs: map<seq<Name>, nat>, hash: Hasher)
    requires i <= |vs|
  {
    && |c.nodes| == i && Grown(c.nodes, parent, vs, c.security, hash) && KnownDirs(dirs, c.nodes, vs)
    && Indexed(c.blobs, blobIndex) && IndexedSds(c.security, sdIndex) && |c.security| <= i &&
       (i > 0 ==> c.security != [])
    && References(c.blobs) == StoredCount(vs, i) && BlobsSay(c.blobs, vs, i, hash) &&
       UsesIndexed(vs, i, hash, blobIndex)
    && c.dirCount == DirsIn(vs, i) && c.fileCount == i - DirsIn(vs, i)
  }

  /** A walk a capture accepts: every visit is, and the first finds a directory. */
  ghost predicate Acceptable(vs: seq<Visit>)
  {
    vs != [] && vs[0].kind == Directory && forall i: nat {:trigger Accepts(vs, i)} :: i < |vs| ==> Accepts(vs, i)
  }

  /** Captures a walk: any refusal refuses it all. */
  method CaptureTree(vs: seq<Visit>, hash: Hasher) returns (ok: bool, c: Captured, ghost parent: seq<nat>)
    requires Walk(vs) && Hashes(hash) && |vs| < 0x1_0000_0000
    ensures ok <==> Acceptable(vs)
    ensures ok ==> Faithful(c, parent, vs, hash)
  {
    hide Grown, Walk, Indexed, IndexedSds, KnownDirs, Recordable, References, StoredCount, Accepts, BlobsSay,
      UsesIndexed;
    c := Captured([], [], [], 0, 0);
    parent := [];
    var blobIndex: map<seq<byte>, nat>, sdIndex: map<seq<byte>, nat>, dirs: map<seq<Name>, nat> := map[], map[], map[];
    NothingYet(vs, hash);
    for i := 0 to |vs|
      invariant SoFar(c, parent, vs, i, blobIndex, sdIndex, dirs, hash)
      invariant forall j: nat {:trigger Accepts(vs, j)} :: j < i ==> Accepts(vs, j)
    {
      ok, c, parent, blobIndex, sdIndex, dirs := CaptureOne(c, parent, vs, i, blobIndex, sdIndex, dirs, hash);
      if !ok { return; }
    }
    if |vs| > 0 { RootKind(c.nodes, parent, vs, c.security, hash); }
    if |c.nodes| == 0 || !c.nodes[0].isDir { return false, c, parent; }
    GrownIsCapturable(c.nodes, parent, vs, c.security, hash);
    NodesIndexed(c.nodes, parent, vs, c.security, hash, blobIndex);
    ok := true;
  }

  lemma RootKind(nodes: seq<Node>, parent: seq<nat>, vs: seq<Visit>, sds: seq<seq<byte>>, hash: Hasher)
    requires Grown(nodes, parent, vs, sds, hash) && nodes != []
    ensures |vs| > 0 && nodes[0].isDir == (vs[0].kind == Directory)
  {
    assert NodeOf(nodes[0], vs[0], sds, hash);
  }

  lemma NodesIndexed(nodes: seq<Node>, parent: seq<nat>, vs: seq<Visit>, sds: seq<seq<byte>>, hash: Hasher,
                     index: map<seq<byte>, nat>)
    requires Grown(nodes, parent, vs, sds, hash) && UsesIndexed(vs, |vs|, hash, index)
    ensures forall x {:trigger nodes[x]} :: 0 <= x < |nodes| && HasStream(vs[x]) ==> nodes[x].hash in index
  {
    hide Recordable;
    forall x | 0 <= x < |nodes| && HasStream(vs[x])
      ensures nodes[x].hash in index
    {
      assert NodeOf(nodes[x], vs[x], sds, hash);
    }
  }

  lemma NothingYet(vs: seq<Visit>, hash: Hasher)
    ensures SoFar(Captured([], [], [], 0, 0), [], vs, 0, map[], map[], map[], hash)
  {
  }

  lemma VisitTimes(vs: seq<Visit>, i: nat)
    requires Walk(vs) && i < |vs|
    ensures vs[i].filetime < WORD && (vs[i].path == [] <==> i == 0)
  {
    assert vs[i] == vs[i];
  }

  lemma StoredCountStep(vs: seq<Visit>, i: nat)
    requires i < |vs|
    ensures StoredCount(vs, i + 1) == StoredCount(vs, i) + (if HasStream(vs[i]) then 1 else 0)
  {
  }

  lemma DirsInStep(vs: seq<Visit>, i: nat)
    requires i < |vs|
    ensures DirsIn(vs, i + 1) == DirsIn(vs, i) + (if vs[i].kind == Directory then 1 else 0)
  {
  }

  lemma StillIndexed(vs: seq<Visit>, n: nat, hash: Hasher, before: map<seq<byte>, nat>, after: map<seq<byte>, nat>)
    requires n < |vs| && UsesIndexed(vs, n, hash, before) &&
             forall h {:trigger h in before} :: h in before ==> h in after
    requires HasStream(vs[n]) ==> hash(vs[n].data) in after
    ensures UsesIndexed(vs, n + 1, hash, after)
  {
  }

  lemma DirsKept(dirs: map<seq<Name>, nat>, nodes: seq<Node>, vs: seq<Visit>, n: Node, p: nat)
    requires |nodes| < |vs| && p < |nodes| && KnownDirs(dirs, nodes, vs)
    ensures KnownDirs(if n.isDir then dirs[vs[|nodes|].path := |nodes|] else dirs, With(nodes, n, p), vs)
  {
    var nodes' := With(nodes, n, p);
    forall j | 0 <= j < |nodes|
      ensures nodes'[j].isDir == nodes[j].isDir
    {
    }
  }

  lemma RootKnown(vs: seq<Visit>, n: Node, dirs: map<seq<Name>, nat>)
    requires |vs| > 0 && KnownDirs(dirs, [], vs)
    ensures KnownDirs(if n.isDir then dirs[vs[0].path := 0] else dirs, [n], vs)
  {
  }

  /** A directory is known just when it has been visited. */
  lemma KnownIsVisited(dirs: map<seq<Name>, nat>, nodes: seq<Node>, parent: seq<nat>, vs: seq<Visit>,
                       sds: seq<seq<byte>>, hash: Hasher)
    requires |nodes| < |vs| && KnownDirs(dirs, nodes, vs) && Grown(nodes, parent, vs, sds, hash) &&
             vs[|nodes|].path != []
    ensures Parent(vs[|nodes|].path) in dirs <==> ParentVisited(vs, |nodes|)
    ensures Parent(vs[|nodes|].path) in dirs ==>
              var p := dirs[Parent(vs[|nodes|].path)];
              p < |nodes| && nodes[p].isDir && vs[p].path == Parent(vs[|nodes|].path)
  {
    hide Recordable, Parent, Last;
    var path := Parent(vs[|nodes|].path);
    if path in dirs {
      var p := dirs[path];
      assert NodeOf(nodes[p], vs[p], sds, hash) && vs[p] == vs[p];
    }
    if ParentVisited(vs, |nodes|) {
      var j :| 0 <= j < |nodes| && vs[j].kind == Directory && vs[j].path == path;
      assert NodeOf(nodes[j], vs[j], sds, hash);
    }
  }

  /** Links a node up with the directory its path is in, if that has been visited. */
  method PlaceNode(nodes: seq<Node>, ghost parent: seq<nat>, vs: seq<Visit>, n: Node, ghost sds: seq<seq<byte>>,
                   ghost sds': seq<seq<byte>>,
                   dirs: map<seq<Name>, nat>, ghost hash: Hasher)
    returns (ok: bool, nodes': seq<Node>, ghost parent': seq<nat>, dirs': map<seq<Name>, nat>)
    requires Walk(vs) && |nodes| < |vs| && Grown(nodes, parent, vs, sds, hash) && KnownDirs(dirs, nodes, vs)
    requires n.children == [] && NodeOf(n, vs[|nodes|], sds', hash) && sds <= sds'
    ensures ok <==> ParentVisited(vs, |nodes|)
    ensures ok ==> |nodes'| == |nodes| + 1 && Grown(nodes', parent', vs, sds', hash) && KnownDirs(dirs', nodes', vs)
    ensures ok ==>
            nodes'[|nodes|].hash == n.hash &&
            forall x {:trigger nodes'[x]} :: 0 <= x < |nodes| ==> nodes'[x].hash == nodes[x].hash
  {
    hide Grown, Walk, KnownDirs, NodeOf, Parent;
    VisitTimes(vs, |nodes|);
    var v := vs[|nodes|];
    nodes', parent', dirs' := nodes, parent, dirs;
    if v.path == [] {
      GrowRoot(vs, sds', hash, n);
      RootKnown(vs, n, dirs);
      nodes', parent' := [n], [0];
    } else {
      KnownIsVisited(dirs, nodes, parent, vs, sds, hash);
      if Parent(v.path) !in dirs { return false, nodes', parent', dirs'; }
      var p := dirs[Parent(v.path)];
      GrowOne(nodes, parent, vs, sds, sds', hash, n, p);
      DirsKept(dirs, nodes, vs, n, p);
      nodes', parent' := With(nodes, n, p), parent + [p];
    }
    if n.isDir { dirs' := dirs[v.path := |nodes|]; }
    ok := true;
  }

  /** Counts what visit i found, if that is a file with content. */
  method AddContent(bs: seq<Blob>, index: map<seq<byte>, nat>, vs: seq<Visit>, i: nat, h: seq<byte>, ghost hash: Hasher)
    returns (r: seq<Blob>, index': map<seq<byte>, nat>)
    requires i < |vs| && (HasStream(vs[i]) ==> h == hash(vs[i].data))
    requires Indexed(bs, index) && BlobsSay(bs, vs, i, hash) && UsesIndexed(vs, i, hash, index)
    requires References(bs) == StoredCount(vs, i)
    ensures Indexed(r, index') && BlobsSay(r, vs, i + 1, hash) && UsesIndexed(vs, i + 1, hash, index')
    ensures References(r) == StoredCount(vs, i + 1)
  {
    hide Indexed, BlobsSay, UsesIndexed, References, StoredCount, HasStream;
    StoredCountStep(vs, i);
    r, index' := bs, index;
    if HasStream(vs[i]) {
      r, index' := AddStream(bs, index, vs[i].path, h);
      BlobsCount(bs, index, vs, i, hash, r);
    } else {
      BlobsStay(bs, vs, i, hash);
    }
    StillIndexed(vs, i, hash, index, index');
  }

  /** Captures one visit. */
  method CaptureOne(c: Captured, ghost parent: seq<nat>, vs: seq<Visit>, i: nat, blobIndex: map<seq<byte>, nat>,
                    sdIndex: map<seq<byte>, nat>,
                    dirs: map<seq<Name>, nat>, hash: Hasher)
    returns (ok: bool, c': Captured, ghost parent': seq<nat>, blobs': map<seq<byte>, nat>, sds': map<seq<byte>, nat>,
             dirs': map<seq<Name>, nat>)
    requires Walk(vs) && Hashes(hash) && i < |vs| < 0x1_0000_0000 &&
             SoFar(c, parent, vs, i, blobIndex, sdIndex, dirs, hash)
    ensures ok <==> Accepts(vs, i)
    ensures ok ==> SoFar(c', parent', vs, i + 1, blobs', sds', dirs', hash)
  {
    hide Grown, Walk, Indexed, IndexedSds, KnownDirs, Recordable, References, StoredCount, Hashes, ParentVisited, Last;
    hide BlobsSay, UsesIndexed, DirsIn;
    c', parent', blobs', sds', dirs' := c, parent, blobIndex, sdIndex, dirs;
    var v := vs[i];
    if v.kind == Symlink || v.kind == Irregular { return false, c', parent', blobs', sds', dirs'; }
    if v.sd.None? { return false, c', parent', blobs', sds', dirs'; }
    VisitTimes(vs, i);
    DirsInStep(vs, i);
    var security, id, n;
    security, sds', id := AddDescriptor(c.security, sdIndex, v.sd.value);
    ok, n := MakeNode(v, id, hash);
    if !ok { return; }
    var blobs;
    blobs, blobs' := AddContent(c.blobs, blobIndex, vs, i, n.hash, hash);
    var dirCount, fileCount := c.dirCount, c.fileCount;
    if n.isDir { dirCount := dirCount + 1; } else { fileCount := fileCount + 1; }
    var nodes;
    ok, nodes, parent', dirs' := PlaceNode(c.nodes, parent, vs, n, c.security, security, dirs, hash);
    if !ok { return; }
    c' := Captured(nodes, blobs, security, dirCount, fileCount);
  }
}
