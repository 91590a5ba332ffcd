/** An image's tree as a file system: looking paths up, and listing directories. */
module FileTree {
  import opened Bits
  import opened Canonical
  import opened ResourceFormat
  import opened Names
  import opened Dentries
  import opened DentryBounds

  // ---------- finding a child ----------

  /** The child named name, by looking at them all. */
  function ChildNamed(ds: seq<Dentry>, name: Name): (r: Option<Dentry>)
    ensures r.Some? ==> r.value in ds && r.value.name == name
    ensures r.None? ==> forall d :: d in ds ==> d.name != name
  {
    if ds == [] then None else if ds[0].name == name then Some(ds[0]) else ChildNamed(ds[1..], name)
  }

  lemma {:induction false} OnlyChildNamed(ds: seq<Dentry>, i: nat)
    requires Ascending(ds) && i < |ds|
    ensures ChildNamed(ds, ds[i].name) == Some(ds[i])
  {
    if i > 0 {
      LessTotal(ds[0].name, ds[i].name);
      assert Ascending(ds[1..]);
      OnlyChildNamed(ds[1..], i - 1);
    }
  }

  /** A binary search finds just what a look at them all would. */
  method FindChild(ds: seq<Dentry>, name: Name) returns (r: Option<Dentry>)
    requires Ascending(ds)
    ensures r == ChildNamed(ds, name)
  {
    hide Less;
    var lo, hi := 0, |ds|;
    while lo < hi
      invariant 0 <= lo <= hi <= |ds|
      invariant forall k {:trigger ds[k]} :: 0 <= k < lo ==> Less(ds[k].name, name)
      invariant forall k {:trigger ds[k]} :: hi <= k < |ds| ==> !Less(ds[k].name, name)
    {
      var mid := (lo + hi) / 2;
      if Less(ds[mid].name, name) {
        forall k | 0 <= k <= mid
          ensures Less(ds[k].name, name)
        {
          if k < mid { LessTransitive(ds[k].name, ds[mid].name, name); }
        }
        lo := mid + 1;
      } else {
        forall k | mid <= k < |ds|
          ensures !Less(ds[k].name, name)
        {
          if k > mid && Less(ds[k].name, name) { LessTransitive(ds[mid].name, ds[k].name, name); }
        }
        hi := mid;
      }
    }
    if lo < |ds| && ds[lo].name == name {
      OnlyChildNamed(ds, lo);
      return Some(ds[lo]);
    }
    Elsewhere(ds, name, lo);
    r := None;
  }

  lemma Elsewhere(ds: seq<Dentry>, name: Name, lo: nat)
    requires Ascending(ds) && lo <= |ds| && (lo < |ds| ==> ds[lo].name != name)
    requires forall k {:trigger ds[k]} :: 0 <= k < lo ==> Less(ds[k].name, name)
    requires forall k {:trigger ds[k]} :: lo <= k < |ds| ==> !Less(ds[k].name, name)
    ensures ChildNamed(ds, name) == None
  {
    hide Less;
    if ChildNamed(ds, name).Some? {
      var i :| 0 <= i < |ds| && ds[i] == ChildNamed(ds, name).value;
      LessTotal(ds[i].name, name);
    }
  }

  // ---------- paths ----------

  type Path = seq<Rune>

  /** The components of a path, which are between its slashes. */
  function Split(p: Path): (cs: seq<Name>)
    ensures cs != []
  {
    if p == [] then [[]]
    else
      var rest := Split(p[1..]);
      if p[0] == SLASH then [[]] + rest else [[p[0]] + rest[0]] + rest[1..]
  }

  function Join(cs: seq<Name>): (p: Path)
    requires cs != []
  {
    if |cs| == 1 then cs[0] else cs[0] + [SLASH] + Join(cs[1..])
  }

  predicate Components(cs: seq<Name>)
  {
    forall i {:trigger cs[i]} :: 0 <= i < |cs| ==> IsComponent(cs[i])
  }

  lemma {:induction false} SplitHead(name: Name, p: Path)
    requires SLASH !in name
    ensures Split(name) == [name] && Split(name + [SLASH] + p) == [name] + Split(p)
  {
    if name == [] {
      assert name + [SLASH] + p == [SLASH] + p;
      assert ([SLASH] + p)[1..] == p;
    } else {
      SplitHead(name[1..], p);
      var whole := name + [SLASH] + p;
      assert whole[1..] == name[1..] + [SLASH] + p && whole[0] == name[0];
      assert [name[0]] + name[1..] == name;
      assert Split(whole)[0] == name && Split(whole)[1..] == Split(p);
    }
  }

  /** Joined components are taken apart again. */
  lemma {:induction false} SplitJoin(cs: seq<Name>)
    requires cs != [] && Components(cs)
    ensures Split(Join(cs)) == cs
  {
    hide Split;
    assert IsComponent(cs[0]);
    if |cs| == 1 {
      SplitHead(cs[0], []);
      assert [cs[0]] == cs;
    } else {
      SplitJoin(cs[1..]);
      SplitHead(cs[0], Join(cs[1..]));
      assert [cs[0]] + cs[1..] == cs;
    }
  }

  // ---------- lookup ----------

  /** The names from d down to e. */
  ghost predicate Leads(d: Dentry, cs: seq<Name>, e: Dentry)
    decreases |cs|
  {
    if cs == [] then d == e
    else exists c {:trigger c in d.children} :: c in d.children && c.name == cs[0] && Leads(c, cs[1..], e)
  }

  /** What a walk down the components comes to. */
  function Walk(d: Dentry, cs: seq<Name>): (r: Option<Dentry>)
    decreases |cs|
  {
    if cs == [] then Some(d)
    else if !IsDirectory(d.attributes) then None
    else
      match ChildNamed(d.children, cs[0])
      case None => None
      case Some(c) => Walk(c, cs[1..])
  }

  lemma {:induction false} ChildOrdered(ds: seq<Dentry>, i: nat)
    requires Ordered(ds) && i < |ds|
    ensures Ordered([ds[i]]) && Ascending(ds[i].children) && Ordered(ds[i].children)
    ensures ds[i].children != [] ==> IsDirectory(ds[i].attributes)
  {
    if i > 0 {
      ChildOrdered(ds[1..], i - 1);
    } else {
      assert [ds[0]][1..] == [];
    }
  }

  /** A walk comes to just the entry its components lead to. */
  lemma {:induction false} WalkFinds(d: Dentry, cs: seq<Name>, e: Dentry)
    requires Ordered([d])
    ensures Walk(d, cs) == Some(e) <==> Leads(d, cs, e)
    decreases |cs|
  {
    hide Ordered, Ascending, IsDirectory;
    ChildOrdered([d], 0);
    if cs != [] {
      if Leads(d, cs, e) {
        var c :| c in d.children && c.name == cs[0] && Leads(c, cs[1..], e);
        var i :| 0 <= i < |d.children| && d.children[i] == c;
        OnlyChildNamed(d.children, i);
        ChildOrdered(d.children, i);
        WalkFinds(c, cs[1..], e);
      }
      if Walk(d, cs) == Some(e) {
        var c := ChildNamed(d.children, cs[0]).value;
        var i :| 0 <= i < |d.children| && d.children[i] == c;
        ChildOrdered(d.children, i);
        WalkFinds(c, cs[1..], e);
      }
    }
  }

  datatype Found = NotValid | NotExist | Hit(d: Dentry)

  predicate ValidPath(p: Path)
  {
    p == [DOT] || Components(Split(p))
  }

  /** What a path names. */
  function Resolved(root: Dentry, p: Path): Found
  {
    if !ValidPath(p) then NotValid
    else if p == [DOT] then Hit(root)
    else
      match Walk(root, Split(p))
      case None => NotExist
      case Some(d) => Hit(d)
  }

  /** Every listed path names the entry it was listed for, and no other valid path names anything. */
  lemma ListedAreFound(root: Dentry, cs: seq<Name>, e: Dentry)
    requires Ordered([root]) && cs != [] && Components(cs)
    ensures Resolved(root, Join(cs)) == Hit(e) <==> Leads(root, cs, e)
    ensures Resolved(root, Join(cs)) == NotExist <==> !exists d :: Leads(root, cs, d)
  {
    hide Leads, Walk, Ordered, IsComponent, Split;
    SplitJoin(cs);
    NotDot(cs);
    WalkFinds(root, cs, e);
    forall d: Dentry
      ensures Walk(root, cs) == Some(d) <==> Leads(root, cs, d)
    {
      WalkFinds(root, cs, d);
    }
    if Walk(root, cs).Some? { assert Leads(root, cs, Walk(root, cs).value); }
  }

  lemma NotDot(cs: seq<Name>)
    requires cs != [] && Components(cs)
    ensures Join(cs) != [DOT]
  {
    assert IsComponent(cs[0]);
  }

  /** Walks a path one component at a time. */
  method LookUp(root: Dentry, p: Path) returns (r: Found)
    requires Ordered([root])
    ensures r == Resolved(root, p)
  {
    hide Ordered, Ascending, ChildNamed, IsDirectory;
    if !ValidPath(p) { return NotValid; }
    if p == [DOT] { return Hit(root); }
    var d, cs := root, Split(p);
    ChildOrdered([root], 0);
    for i := 0 to |cs|
      invariant Walk(root, cs) == Walk(d, cs[i..]) && Ordered([d])
    {
      if !IsDirectory(d.attributes) { return NotExist; }
      ChildOrdered([d], 0);
      var child := FindChild(d.children, cs[i]);
      if child.None? { return NotExist; }
      InOrderedList(d.children, cs[i]);
      assert cs[i..][1..] == cs[i + 1..];
      d := child.value;
    }
    r := Hit(d);
  }

  lemma InOrderedList(ds: seq<Dentry>, name: Name)
    requires Ordered(ds) && ChildNamed(ds, name).Some?
    ensures Ordered([ChildNamed(ds, name).value])
  {
    hide Ordered;
    var i :| 0 <= i < |ds| && ds[i] == ChildNamed(ds, name).value;
    ChildOrdered(ds, i);
  }

  // ---------- listing ----------

  /** An open directory, and how far its listing has been read. */
  class Directory {
    const d: Dentry
    var pos: nat

    constructor (d: Dentry)
      ensures this.d == d && pos == 0
    {
      this.d, pos := d, 0;
    }

    /** The next n entries, or all that are left when n is not positive. Each entry is listed once, in order. */
    method ReadDir(n: int) returns (entries: seq<Dentry>, eof: bool)
      requires pos <= |d.children|
      modifies this
      ensures old(pos) <= pos <= |d.children| && entries == d.children[old(pos)..pos]
      ensures n <= 0 ==> pos == |d.children|
      ensures n > 0 ==> |entries| <= n && (|entries| < n ==> pos == |d.children|)
      ensures eof <==> n > 0 && old(pos) == |d.children|
    {
      if pos >= |d.children| { return [], n > 0; }
      entries := d.children[pos..];
      if 0 < n < |entries| { entries := entries[..n]; }
      pos := pos + |entries|;
      eof := false;
    }
  }
}
