/** Parsing metadata: a recursive walk that counts the entries it has read. */
module MetaParser {
  import opened Bits
  import opened Canonical
  import opened LittleEndian
  import opened ResourceFormat
  import opened Names
  import opened Dentries

  class MetaParser {
    const md: seq<byte>
    const streams: Streams
    var nodes: nat

    ghost predicate Valid()
      reads this
    {
      |md| < WORD && nodes <= MAX_TREE_NODES
    }

    constructor (md: seq<byte>, streams: Streams)
      requires |md| < WORD
      ensures Valid() && this.md == md && this.streams == streams && nodes == 0
    {
      this.md, this.streams, nodes := md, streams, 0;
    }

    /** Steps over the alternate streams that follow a dentry. */
    method SkipStreams(start: nat, count: nat, hash: seq<byte>) returns (ok: bool, next: nat, found: seq<byte>)
      requires |md| < WORD && start <= |md| && |hash| == 20
      ensures StepStreams(md, start, 0, count, hash) == if ok then Some(Streamed(next, found)) else None
      ensures ok ==> start + STREAM_ENTRY_HEADER * count <= next <= |md|
    {
      Bounds();
      next, found := start, hash;
      for i := 0 to count
        invariant next <= |md| && |found| == 20
        invariant StepStreams(md, next, i, count, found) == StepStreams(md, start, 0, count, hash)
      {
        if !Fits(md, next, STREAM_ENTRY_HEADER) { return false, next, found; }
        var len := Field(md, next, 8);
        var step := AlignUp8(len);
        if len < STREAM_ENTRY_HEADER || step < len || !Fits(md, next, step) { return false, next, found; }
        if i == 0 && Field(md, next + 36, 2) == 0 && found == NO_HASH { found := md[next + 16..next + 36]; }
        next := next + step;
      }
      ok := true;
    }

    method DecodeUnits(b: seq<byte>) returns (us: seq<Unit>)
      ensures us == Units(b)
    {
      us := [];
      assert b[0..] == b;
      var i := 0;
      while i + 2 <= |b|
        invariant i <= |b| && us + Units(b[i..]) == Units(b)
      {
        var u: Unit := b[i] as int + 256 * b[i + 1] as int;
        assert b[i..][2..] == b[i + 2..];
        us := us + [u];
        i := i + 2;
      }
    }

    method ReadName(b: seq<byte>, isRoot: bool) returns (ok: bool, name: Name)
      ensures NameOf(b, isRoot) == if ok then Some(name) else None
    {
      hide Units, Decode;
      var us := DecodeUnits(b);
      name := Decode(us);
      if name == [] {
        ok := isRoot;
      } else {
        ok := !isRoot && name != [DOT] && name != [DOT, DOT] && SLASH !in name;
      }
    }

    method ReadDentry(off: nat, isRoot: bool) returns (ok: bool, d: Dentry, subdir: nat, next: nat)
      requires |md| < WORD && Fits(md, off, 8)
      ensures ReadEntry(md, off, isRoot, streams) == if ok then Some(Entry(d, subdir, next)) else None
    {
      hide StepStreams, NameOf, Get, Bound;
      WordBound();
      d, subdir, next := Dentry([], 0, 0, 0, [], None, false, []), 0, 0;
      var len := Field(md, off, 8);
      var step := AlignUp8(len);
      if len < DENTRY_FIXED_SIZE || step < len || !Fits(md, off, step) { return false, d, 0, 0; }
      var nameLen, shortLen := Field(md, off + 100, 2), Field(md, off + 98, 2);
      if nameLen + 2 + shortLen > len - DENTRY_FIXED_SIZE { return false, d, 0, 0; }
      var named, name := ReadName(md[off + 102..off + 102 + nameLen], isRoot);
      if !named { return false, d, 0, 0; }
      var hash;
      ok, next, hash := SkipStreams(off + step, Field(md, off + 96, 2), md[off + 64..off + 84]);
      if !ok { return; }
      d := Resolve(streams, name, Field(md, off + 8, 4), Field(md, off + 56, 8), hash);
      subdir := Field(md, off + 16, 8);
    }

    lemma WordBound()
      ensures Bound(8) == WORD
    {
      Bounds();
    }

    /** Whether two neighbours share a name. */
    method CheckTwins(ds: seq<Dentry>) returns (ok: bool)
      ensures ok == NoTwins(ds)
    {
      var i := 1;
      while i < |ds|
        invariant i > 0 && forall k {:trigger ds[k]} :: 0 < k < i && k < |ds| ==> ds[k].name != ds[k - 1].name
      {
        if ds[i].name == ds[i - 1].name { return false; }
        i := i + 1;
      }
      ok := true;
    }

    /** Parses one directory's list, and the lists below it. */
    method List(start: nat, depth: nat, isRoot: bool) returns (ok: bool, list: seq<Dentry>)
      requires Valid()
      modifies this
      ensures Valid() && old(nodes) <= nodes
      ensures match ReadList(md, start, depth, isRoot, streams, [], old(nodes))
              case None => !ok
              case Some(l) => ok && list == l.list && nodes == l.nodes
      decreases if depth <= MAX_TREE_DEPTH then MAX_TREE_DEPTH + 1 - depth else 0
    {
      hide Sort, NoTwins, ReadEntry, Field, HasList;
      if depth > MAX_TREE_DEPTH { return false, []; }
      var out: seq<Dentry> := [];
      var off := start;
      ghost var n0 := nodes;
      while true
        invariant Valid() && n0 <= nodes
        invariant ReadList(md, off, depth, isRoot, streams, out, nodes) ==
                  ReadList(md, start, depth, isRoot, streams, [], n0)
        decreases MAX_TREE_NODES - nodes
      {
        if !Fits(md, off, 8) { return false, []; }
        if Field(md, off, 8) == 0 {
          out := Sort(out);
          ok := CheckTwins(out);
          list := out;
          return;
        }
        if nodes == MAX_TREE_NODES { return false, []; }
        var d, subdir, next;
        ok, d, subdir, next := ReadDentry(off, isRoot);
        if !ok { return false, []; }
        nodes := nodes + 1;
        if HasList(d.attributes, subdir) {
          var kids;
          ok, kids := List(subdir, depth + 1, false);
          if !ok { return false, []; }
          d := d.(children := kids);
        }
        out := out + [d];
        off := next;
      }
    }
  }

  /** The tree the metadata holds. */
  method ParseMetadata(md: seq<byte>, streams: Streams) returns (ok: bool, root: Dentry)
    requires |md| < WORD
    ensures Parse(md, streams) == if ok then Some(root) else None
  {
    hide ReadList, TreeOffset;
    root := Dentry([], 0, 0, 0, [], None, false, []);
    var off;
    ok, off := FindTree(md);
    if !ok { return; }
    var p := new MetaParser(md, streams);
    var list;
    ok, list := p.List(off, 0, true);
    if !ok { return; }
    if |list| != 1 || !IsDirectory(list[0].attributes) { return false, root; }
    root := list[0];
  }

  method FindTree(md: seq<byte>) returns (ok: bool, off: nat)
    ensures TreeOffset(md) == if ok then Some(off) else None
  {
    off := 0;
    if |md| < 8 { return false, 0; }
    var total, count := Field(md, 0, 4), Field(md, 4, 4);
    if total < 8 { return false, 0; }
    if count > (total - 8) / 8 { return false, 0; }
    off := (total + 7) / 8 * 8;
    ok := off <= |md|;
  }
}
