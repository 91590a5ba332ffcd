/** How often each stream is referenced: as often as some image's file holds it. */
module ReferenceCounts {
  import opened Bits
  import opened Canonical
  import opened ResourceFormat
  import opened TreeRoundTrip
  import opened BlobTable
  import opened Capture
  import opened WriterState
  import opened ImageRecords
  import Records

  /** How many references the stream with a hash has. */
  function RefsOf(blobs: seq<BlobEntry>, byHash: map<seq<byte>, nat>, h: seq<byte>): (n: nat)
  {
    if h in byHash && byHash[h] < |blobs| then blobs[byHash[h]].refs else 0
  }

  /** How many files of all the images have content of this hash. */
  function TotalUses(rs: seq<Recorded>, h: seq<byte>, hash: Hasher): (n: nat)
  {
    if rs == [] then 0
    else
      var r := rs[|rs| - 1];
      TotalUses(rs[..|rs| - 1], h, hash) + UsesOf(r.vs, |r.vs|, h, hash)
  }

  /** Every stream has as many references as there are files that hold it. */
  ghost predicate CountsUses(blobs: seq<BlobEntry>, byHash: map<seq<byte>, nat>, rs: seq<Recorded>, hash: Hasher)
  {
    forall h {:trigger RefsOf(blobs, byHash, h)} :: RefsOf(blobs, byHash, h) == TotalUses(rs, h, hash)
  }

  /** The references of the stream with a hash among the first n. */
  function BlobRefs(bs: seq<Blob>, n: nat, h: seq<byte>): (r: nat)
    requires n <= |bs|
  {
    if n == 0 then 0 else BlobRefs(bs, n - 1, h) + (if bs[n - 1].hash == h then bs[n - 1].refs else 0)
  }

  /** The streams captured and the references they add. */
  ghost predicate RefsGrown(before: seq<BlobEntry>, beforeBy: map<seq<byte>, nat>, after: seq<BlobEntry>,
                            afterBy: map<seq<byte>, nat>, bs: seq<Blob>, n: nat)
    requires n <= |bs|
  {
    forall h {:trigger RefsGrowth(before, beforeBy, after, afterBy, bs, n, h)} ::
      RefsGrowth(before, beforeBy, after, afterBy, bs, n, h)
  }

  ghost predicate RefsGrowth(before: seq<BlobEntry>, beforeBy: map<seq<byte>, nat>, after: seq<BlobEntry>,
                             afterBy: map<seq<byte>, nat>, bs: seq<Blob>, n: nat, h: seq<byte>)
    requires n <= |bs|
  {
    RefsOf(after, afterBy, h) == RefsOf(before, beforeBy, h) + BlobRefs(bs, n, h)
  }

  lemma RefsMore(blobs: seq<BlobEntry>, byHash: map<seq<byte>, nat>, streams: seq<Logged>, hash: Hasher, j: nat, n: nat,
                 more: seq<BlobEntry>)
    requires WriterState.Indexed(blobs, byHash, streams, hash) && j < |blobs| && blobs[j].hash in byHash &&
             byHash[blobs[j].hash] == j
    requires more == blobs[j := blobs[j].(refs := blobs[j].refs + n)]
    ensures forall h {:trigger RefsOf(more, byHash, h)} ::
              RefsOf(more, byHash, h) == RefsOf(blobs, byHash, h) + (if h == blobs[j].hash then n else 0)
  {
    forall h | h in byHash
      ensures byHash[h] == j ==> h == blobs[j].hash
    {
      assert HashIndexed(blobs, byHash, h);
    }
  }

  lemma RefsNew(blobs: seq<BlobEntry>, byHash: map<seq<byte>, nat>, streams: seq<Logged>, hash: Hasher, e: BlobEntry,
                more: seq<BlobEntry>, moreBy: map<seq<byte>, nat>)
    requires WriterState.Indexed(blobs, byHash, streams, hash) && e.hash !in byHash
    requires more == blobs + [e] && moreBy == byHash[e.hash := |blobs|]
    ensures forall h {:trigger RefsOf(more, moreBy, h)} ::
              RefsOf(more, moreBy, h) == RefsOf(blobs, byHash, h) + (if h == e.hash then e.refs else 0)
  {
    forall h | h in byHash
      ensures byHash[h] < |blobs|
    {
      assert HashIndexed(blobs, byHash, h);
    }
  }

  lemma RefsGrowOne(b0: seq<BlobEntry>, m0: map<seq<byte>, nat>, b1: seq<BlobEntry>, m1: map<seq<byte>, nat>,
                    b2: seq<BlobEntry>, m2: map<seq<byte>, nat>, bs: seq<Blob>, n: nat)
    requires n < |bs| && RefsGrown(b0, m0, b1, m1, bs, n)
    requires forall h {:trigger RefsOf(b2, m2, h)} ::
               RefsOf(b2, m2, h) == RefsOf(b1, m1, h) + (if h == bs[n].hash then bs[n].refs else 0)
    ensures RefsGrown(b0, m0, b2, m2, bs, n + 1)
  {
    hide RefsOf;
    forall h {:trigger RefsGrowth(b0, m0, b2, m2, bs, n + 1, h)}
      ensures RefsGrowth(b0, m0, b2, m2, bs, n + 1, h)
    {
      assert RefsGrowth(b0, m0, b1, m1, bs, n, h);
    }
  }

  lemma RefsGrowNone(b: seq<BlobEntry>, m: map<seq<byte>, nat>, bs: seq<Blob>)
    ensures RefsGrown(b, m, b, m, bs, 0)
  {
  }

  lemma {:induction false} BlobRefsAt(bs: seq<Blob>, n: nat, h: seq<byte>, i: nat)
    requires n <= |bs| && i < |bs| && bs[i].hash == h
    requires forall j, k {:trigger bs[j], bs[k]} :: 0 <= j < k < |bs| ==> bs[j].hash != bs[k].hash
    ensures BlobRefs(bs, n, h) == if i < n then bs[i].refs else 0
  {
    if n > 0 { BlobRefsAt(bs, n - 1, h, i); }
  }

  lemma {:induction false} BlobRefsNone(bs: seq<Blob>, n: nat, h: seq<byte>)
    requires n <= |bs| && forall i {:trigger bs[i]} :: 0 <= i < |bs| ==> bs[i].hash != h
    ensures BlobRefs(bs, n, h) == 0
  {
    if n > 0 { BlobRefsNone(bs, n - 1, h); }
  }

  /** A capture's references to a stream are its files that hold it. */
  lemma CaptureCounts(c: Captured, parent: seq<nat>, vs: seq<Visit>, hash: Hasher, h: seq<byte>)
    requires Faithful(c, parent, vs, hash)
    ensures BlobRefs(c.blobs, |c.blobs|, h) == UsesOf(vs, |vs|, h, hash)
  {
    hide Grown, Capturable, BlobRefs, UsesOf;
    var index :| Capture.Indexed(c.blobs, index) &&
      forall x {:trigger c.nodes[x]} :: 0 <= x < |c.nodes| && HasStream(vs[x]) ==> c.nodes[x].hash in index;
    if h in index {
      var i := index[h];
      assert BlobSays(c.blobs[i], vs, |vs|, hash);
      BlobRefsAt(c.blobs, |c.blobs|, h, i);
    } else {
      BlobRefsNone(c.blobs, |c.blobs|, h);
      VisitsIndexed(c, parent, vs, hash, index);
      Unused(vs, |vs|, h, hash, index);
    }
  }

  lemma VisitsIndexed(c: Captured, parent: seq<nat>, vs: seq<Visit>, hash: Hasher, index: map<seq<byte>, nat>)
    requires Grown(c.nodes, parent, vs, c.security, hash) && |c.nodes| == |vs|
    requires forall x {:trigger c.nodes[x]} :: 0 <= x < |c.nodes| && HasStream(vs[x]) ==> c.nodes[x].hash in index
    ensures UsesIndexed(vs, |vs|, hash, index)
  {
    hide Records.Recordable, Kids, InParent;
    forall x | 0 <= x < |vs| && HasStream(vs[x])
      ensures hash(vs[x].data) in index
    {
      assert NodeOf(c.nodes[x], vs[x], c.security, hash);
    }
  }

  /** One more image adds just its own files. */
  lemma CountedMore(b0: seq<BlobEntry>, m0: map<seq<byte>, nat>, b1: seq<BlobEntry>, m1: map<seq<byte>, nat>,
                    rs: seq<Recorded>, r: Recorded, hash: Hasher)
    requires CountsUses(b0, m0, rs, hash) && RefsGrown(b0, m0, b1, m1, r.c.blobs, |r.c.blobs|)
    requires Faithful(r.c, r.parent, r.vs, hash)
    ensures CountsUses(b1, m1, rs + [r], hash)
  {
    hide RefsOf, BlobRefs, UsesOf, Faithful;
    assert (rs + [r])[..|rs|] == rs;
    forall h
      ensures RefsOf(b1, m1, h) == TotalUses(rs + [r], h, hash)
    {
      CaptureCounts(r.c, r.parent, r.vs, hash, h);
      assert RefsOf(b0, m0, h) == TotalUses(rs, h, hash) && RefsGrowth(b0, m0, b1, m1, r.c.blobs, |r.c.blobs|, h);
    }
  }
}
