/** A file tree as read from metadata: what any bytes are parsed to. */
module Dentries {
  import opened Bits
  import opened Canonical
  import opened LittleEndian
  import opened ResourceFormat
  import opened Names

  const DENTRY_FIXED_SIZE: nat := 102
  const STREAM_ENTRY_HEADER: nat := 38
  const MAX_TREE_DEPTH: nat := 64
  const MAX_TREE_NODES: nat := 0x10_0000

  /** A file or directory. */
  datatype Dentry = Dentry(name: Name, attributes: nat, written: nat, size: nat, hash: seq<byte>, res: Option<ResHdr>,
                           missing: bool, children: seq<Dentry>)

  /** The streams a WIM holds, by hash. */
  type Streams = map<seq<byte>, ResHdr>

  predicate IsDirectory(attributes: nat)
  {
    attributes / 16 % 2 == 1
  }

  predicate IsReparsePoint(attributes: nat)
  {
    attributes / 1024 % 2 == 1
  }

  /** n rounded up to a multiple of 8, saturating. */
  function AlignUp8(n: nat): (r: nat)
    requires n < WORD
    ensures n <= r < WORD && (n <= WORD - 8 ==> r < n + 8 && r % 8 == 0)
  {
    if n > WORD - 8 then WORD - 1 else (n + 7) / 8 * 8
  }

  /** n bytes at off lie inside the metadata. */
  predicate Fits(md: seq<byte>, off: nat, n: nat)
  {
    off <= |md| && n <= |md| - off
  }

  /** The n-byte number at off. */
  function Field(md: seq<byte>, off: nat, n: nat): (v: nat)
    requires off + n <= |md|
    ensures v < Bound(n)
  {
    Get(md[off..off + n])
  }

  // ---------- the security table ----------

  /** Where the dentry tree begins: the aligned end of the security table, if that can be what it says. */
  function TreeOffset(md: seq<byte>): (r: Option<nat>)
    ensures r.Some? ==> 8 <= r.value <= |md| && r.value % 8 == 0
  {
    if |md| < 8 then None
    else
      var total, count := Field(md, 0, 4), Field(md, 4, 4);
      if total < 8 || count > (total - 8) / 8 then None
      else
        var off := (total + 7) / 8 * 8;
        if off > |md| then None else Some(off)
  }

  // ---------- names ----------

  function Units(b: seq<byte>): (us: seq<Unit>)
  {
    if |b| < 2 then [] else [b[0] as int + 256 * b[1] as int] + Units(b[2..])
  }

  /** A dentry's name, if it can be one. Only the root's is empty. */
  function NameOf(b: seq<byte>, isRoot: bool): (r: Option<Name>)
    ensures r.Some? && !isRoot ==> IsComponent(r.value)
    ensures r.Some? && isRoot ==> r.value == []
  {
    var name := Decode(Units(b));
    if name == [] then (if isRoot then Some(name) else None)
    else if isRoot || !IsComponent(name) then None
    else Some(name)
  }

  // ---------- streams ----------

  const NO_HASH: seq<byte> := [0, 0, 0, 0, 0, 0, 0, 0, 0, 0, 0, 0, 0, 0, 0, 0, 0, 0, 0, 0]

  /** A position and the hash found so far. */
  datatype Streamed = Streamed(next: nat, hash: seq<byte>)

  /** Steps over stream entries i to count, taking the unnamed first one's hash when the dentry has none. */
  function StepStreams(md: seq<byte>, next: nat, i: nat, count: nat, hash: seq<byte>): (r: Option<Streamed>)
    requires next <= |md| < WORD && |hash| == 20
    ensures r.Some? ==> next <= r.value.next <= |md| && |r.value.hash| == 20
    ensures r.Some? && i <= count ==> next + STREAM_ENTRY_HEADER * (count - i) <= r.value.next
    decreases count - i
  {
    if i >= count then Some(Streamed(next, hash))
    else if !Fits(md, next, STREAM_ENTRY_HEADER) then None
    else
      Bounds();
      var len := Field(md, next, 8);
      var step := AlignUp8(len);
      if len < STREAM_ENTRY_HEADER || step < len || !Fits(md, next, step) then None
      else
        var h := if i == 0 && Field(md, next + 36, 2) == 0 && hash == NO_HASH then md[next + 16..next + 36] else hash;
        StepStreams(md, next + step, i + 1, count, h)
  }

  // ---------- entries ----------

  /** What one dentry record says, before its children are read. */
  datatype Entry = Entry(d: Dentry, subdir: nat, next: nat)

  /** The stream a hash names; an all-zero hash is the empty file's. */
  function Resolve(streams: Streams, name: Name, attributes: nat, written: nat, hash: seq<byte>): Dentry
  {
    if IsDirectory(attributes) || hash == NO_HASH then Dentry(name, attributes, written, 0, hash, None, false, [])
    else if hash in streams then
      Dentry(name, attributes, written, streams[hash].uncompressed, hash, Some(streams[hash]), false, [])
    else Dentry(name, attributes, written, 0, hash, None, true, [])
  }

  /** The record at off, whose length is not zero. */
  function ReadEntry(md: seq<byte>, off: nat, isRoot: bool, streams: Streams): (r: Option<Entry>)
    requires |md| < WORD && Fits(md, off, 8)
    ensures r.Some? ==>
            off < r.value.next <= |md| && r.value.d.children == [] &&
            (if isRoot then r.value.d.name == [] else IsComponent(r.value.d.name))
  {
    Bounds();
    var len := Field(md, off, 8);
    var step := AlignUp8(len);
    if len < DENTRY_FIXED_SIZE || step < len || !Fits(md, off, step) then None
    else
      var nameLen, shortLen := Field(md, off + 100, 2), Field(md, off + 98, 2);
      if nameLen + 2 + shortLen > len - DENTRY_FIXED_SIZE then None
      else
        match NameOf(md[off + 102..off + 102 + nameLen], isRoot)
        case None => None
        case Some(name) =>
          match StepStreams(md, off + step, 0, Field(md, off + 96, 2), md[off + 64..off + 84])
          case None => None
          case Some(s) =>
            Some(Entry(Resolve(streams, name, Field(md, off + 8, 4), Field(md, off + 56, 8), s.hash),
                       Field(md, off + 16, 8), s.next))
  }

  // ---------- what a record says ----------

  lemma {:induction false} LaterStreams(md: seq<byte>, next: nat, i: nat, count: nat, hash: seq<byte>)
    requires next <= |md| < WORD && |hash| == 20 && i > 0
    ensures var r := StepStreams(md, next, i, count, hash); r.Some? ==> r.value.hash == hash
    decreases count - i
  {
    hide AlignUp8, Field;
    if i < count && Fits(md, next, STREAM_ENTRY_HEADER) {
      Bounds();
      var len := Field(md, next, 8);
      var step := AlignUp8(len);
      if !(len < STREAM_ENTRY_HEADER || step < len || !Fits(md, next, step)) {
        LaterStreams(md, next + step, i + 1, count, hash);
      }
    }
  }

  /**
   * The streams yield the first one's hash, if it has no name and the dentry no hash, and the dentry's own otherwise.
   */
  lemma StreamedHash(md: seq<byte>, next: nat, count: nat, hash: seq<byte>)
    requires next <= |md| < WORD && |hash| == 20
    ensures var r := StepStreams(md, next, 0, count, hash);
            && (r.Some? && count > 0 ==> next + STREAM_ENTRY_HEADER <= |md|)
            && (r.Some? ==>
                  r.value.hash ==
                    if hash == NO_HASH && count > 0 && Field(md, next + 36, 2) == 0 then md[next + 16..next + 36]
                    else hash)
  {
    hide AlignUp8, Field;
    if count > 0 && Fits(md, next, STREAM_ENTRY_HEADER) {
      Bounds();
      var len := Field(md, next, 8);
      var step := AlignUp8(len);
      if !(len < STREAM_ENTRY_HEADER || step < len || !Fits(md, next, step)) {
        var h := if Field(md, next + 36, 2) == 0 && hash == NO_HASH then md[next + 16..next + 36] else hash;
        LaterStreams(md, next + step, 1, count, h);
      }
    }
  }

  /**
   * What an entry says is what lies in its record. Its hash is that of the first stream after it, when that has no name
   * and the record's own hash is zero; a file is missing just when it has a hash that no stream has.
   */
  lemma EntrySays(md: seq<byte>, off: nat, isRoot: bool, streams: Streams)
    requires |md| < WORD && Fits(md, off, 8) && ReadEntry(md, off, isRoot, streams).Some?
    ensures var e := ReadEntry(md, off, isRoot, streams).value;
            Field(md, off, 8) < WORD &&
            var after := off + AlignUp8(Field(md, off, 8));
            && off + 102 <= after <= |md|
            && e.d.attributes == Field(md, off + 8, 4) && e.d.written == Field(md, off + 56, 8)
            && e.subdir == Field(md, off + 16, 8)
            && var ownHash, count := md[off + 64..off + 84], Field(md, off + 96, 2);
               && (count > 0 ==> after + 38 <= |md|) && after + 38 * count <= e.next
               && e.d.hash == (if ownHash == NO_HASH && count > 0 && Field(md, after + 36, 2) == 0 then
                                 md[after + 16..after + 36]
                               else ownHash)
    ensures var d := ReadEntry(md, off, isRoot, streams).value.d;
            var wanted := !IsDirectory(d.attributes) && d.hash != NO_HASH;
            && (d.missing <==> wanted && d.hash !in streams)
            && d.res == (if wanted && d.hash in streams then Some(streams[d.hash]) else None)
            && d.size == (if d.res.Some? then d.res.value.uncompressed else 0)
  {
    hide StepStreams, Field, NameOf;
    Bounds();
    var len := Field(md, off, 8);
    StreamedHash(md, off + AlignUp8(len), Field(md, off + 96, 2), md[off + 64..off + 84]);
  }

  /** A directory's children are read unless it is a link to elsewhere or has no child list. */
  predicate HasList(attributes: nat, subdir: nat)
  {
    IsDirectory(attributes) && !IsReparsePoint(attributes) && subdir != 0
  }

  // ---------- sorting ----------

  function Insert(d: Dentry, ds: seq<Dentry>): (r: seq<Dentry>)
    ensures |r| == |ds| + 1
  {
    if ds == [] || Less(d.name, ds[0].name) then [d] + ds else [ds[0]] + Insert(d, ds[1..])
  }

  function Sort(ds: seq<Dentry>): (r: seq<Dentry>)
    ensures |r| == |ds|
  {
    if ds == [] then [] else Insert(ds[|ds| - 1], Sort(ds[..|ds| - 1]))
  }

  /** No two neighbours share a name. */
  predicate NoTwins(ds: seq<Dentry>)
  {
    forall i {:trigger ds[i]} :: 0 < i < |ds| ==> ds[i].name != ds[i - 1].name
  }

  // ---------- lists ----------

  /** A directory's children and how many entries have been read in all. */
  datatype Listed = Listed(list: seq<Dentry>, nodes: nat)

  /** Reads a child list from off on, out having been read before off; nodes entries have been read in all. */
  function ReadList(md: seq<byte>, off: nat, depth: nat, isRoot: bool, streams: Streams, out: seq<Dentry>,
                    nodes: nat): (r: Option<Listed>)
    requires |md| < WORD && nodes <= MAX_TREE_NODES
    ensures r.Some? ==> nodes <= r.value.nodes <= MAX_TREE_NODES
    decreases if depth <= MAX_TREE_DEPTH then MAX_TREE_DEPTH + 1 - depth else 0, MAX_TREE_NODES - nodes
  {
    if depth > MAX_TREE_DEPTH || !Fits(md, off, 8) then None
    else if Field(md, off, 8) == 0 then
      var sorted := Sort(out);
      if NoTwins(sorted) then Some(Listed(sorted, nodes)) else None
    else if nodes == MAX_TREE_NODES then None
    else
      match ReadEntry(md, off, isRoot, streams)
      case None => None
      case Some(e) =>
        if !HasList(e.d.attributes, e.subdir) then
          ReadList(md, e.next, depth, isRoot, streams, out + [e.d], nodes + 1)
        else
          match ReadList(md, e.subdir, depth + 1, false, streams, [], nodes + 1)
          case None => None
          case Some(sub) =>
            ReadList(md, e.next, depth, isRoot, streams, out + [e.d.(children := sub.list)], sub.nodes)
  }

  /** The tree the metadata holds. It opens with exactly one entry, the root. */
  function Parse(md: seq<byte>, streams: Streams): (r: Option<Dentry>)
    requires |md| < WORD
  {
    match TreeOffset(md)
    case None => None
    case Some(off) =>
      match ReadList(md, off, 0, true, streams, [], 0)
      case None => None
      case Some(l) => if |l.list| == 1 && IsDirectory(l.list[0].attributes) then Some(l.list[0]) else None
  }
}
