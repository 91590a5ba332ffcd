/** What is known of each image a writer has added. */
module ImageRecords {
  import opened Bits
  import opened Canonical
  import opened ResourceFormat
  import opened Records
  import opened Layout
  import opened TreeRoundTrip
  import opened MetadataEncoder
  import opened MetadataQueue
  import opened Capture
  import opened Dentries
  import opened WriterState

  /** A captured tree and the metadata it was encoded as. */
  datatype Recorded = Recorded(vs: seq<Visit>, c: Captured, parent: seq<nat>, md: seq<byte>)

  /** The metadata parses to the captured tree, if that is within the reader's limits, and to nothing otherwise. */
  ghost predicate ParsesAs(md: seq<byte>, c: Captured, parent: seq<nat>)
    requires |md| < WORD && Linked(c.nodes, parent)
  {
    forall streams {:trigger Parse(md, streams)} ::
      Parse(md, streams) == if WithinLimits(c.nodes, parent) then Some(BuiltNode(c.nodes, parent, streams, 0)) else None
  }

  ghost predicate ReadsBack(r: Recorded)
  {
    && Capturable(r.c.nodes, r.parent)
    && (8 + 8 * |r.c.security| + Total(r.c.security) < 0x1_0000_0000 && |r.md| < WORD ==>
          && ParsesAs(r.md, r.c, r.parent)
          && exists places {:trigger Described(r.md, r.c.security, r.c.nodes, places)} ::
               Described(r.md, r.c.security, r.c.nodes, places))
  }

  /** Every file with content is known by its hash. */
  ghost predicate AllStored(c: Captured, vs: seq<Visit>, byHash: map<seq<byte>, nat>)
  {
    |c.nodes| <= |vs| &&
      forall x {:trigger c.nodes[x]} :: 0 <= x < |c.nodes| && HasStream(vs[x]) ==> c.nodes[x].hash in byHash
  }

  ghost predicate Kept(r: Recorded, byHash: map<seq<byte>, nat>, hash: Hasher)
  {
    Walk(r.vs) && Faithful(r.c, r.parent, r.vs, hash) && ReadsBack(r) && AllStored(r.c, r.vs, byHash)
  }

  ghost predicate AllKept(rs: seq<Recorded>, byHash: map<seq<byte>, nat>, hash: Hasher)
  {
    forall k: nat {:trigger Kept(rs[k], byHash, hash)} :: k < |rs| ==> Kept(rs[k], byHash, hash)
  }

  /** Image number k's metadata is what was written as metadata resource number k. */
  ghost predicate MetasHold(rs: seq<Recorded>, metas: seq<Logged>)
  {
    |rs| == |metas| && forall k: nat {:trigger rs[k]} :: k < |rs| ==> metas[k].data == rs[k].md
  }

  lemma OneMoreMeta(rs: seq<Recorded>, metas: seq<Logged>, r: Recorded, l: Logged)
    requires MetasHold(rs, metas) && l.data == r.md
    ensures MetasHold(rs + [r], metas + [l])
  {
  }

  lemma KeptStill(rs: seq<Recorded>, before: map<seq<byte>, nat>, after: map<seq<byte>, nat>, hash: Hasher)
    requires AllKept(rs, before, hash) && forall h {:trigger h in before} :: h in before ==> h in after
    ensures AllKept(rs, after, hash)
  {
    hide Faithful, ReadsBack;
    forall k: nat | k < |rs|
      ensures Kept(rs[k], after, hash)
    {
      assert Kept(rs[k], before, hash);
    }
  }

  lemma OneMoreKept(rs: seq<Recorded>, byHash: map<seq<byte>, nat>, hash: Hasher, r: Recorded)
    requires AllKept(rs, byHash, hash) && Kept(r, byHash, hash)
    ensures AllKept(rs + [r], byHash, hash)
  {
    hide Kept;
    forall k: nat | k < |rs + [r]|
      ensures Kept((rs + [r])[k], byHash, hash)
    {
      if k < |rs| { assert Kept(rs[k], byHash, hash); }
    }
  }

  lemma FaithfulParts(c: Captured, parent: seq<nat>, vs: seq<Visit>, hash: Hasher)
    requires Faithful(c, parent, vs, hash)
    ensures Capturable(c.nodes, parent) && Capture.References(c.blobs) == StoredCount(vs, |vs|) && |c.nodes| == |vs|
    ensures c.security != []
    ensures forall i {:trigger c.blobs[i]} :: 0 <= i < |c.blobs| ==> c.blobs[i].refs > 0
  {
    hide Capturable, Grown;
  }

  /** When every stream of the capture is known, every file's hash is. */
  lemma StreamsCover(c: Captured, parent: seq<nat>, vs: seq<Visit>, hash: Hasher, byHash: map<seq<byte>, nat>)
    requires Faithful(c, parent, vs, hash) &&
             forall i {:trigger c.blobs[i]} :: 0 <= i < |c.blobs| ==> c.blobs[i].hash in byHash
    ensures AllStored(c, vs, byHash)
  {
    hide Capturable, Grown;
    var index :| Capture.Indexed(c.blobs, index) &&
      forall x {:trigger c.nodes[x]} :: 0 <= x < |c.nodes| && HasStream(vs[x]) ==> c.nodes[x].hash in index;
    forall x | 0 <= x < |c.nodes| && HasStream(vs[x])
      ensures c.nodes[x].hash in byHash
    {
      var h := c.nodes[x].hash;
      assert h in index && c.blobs[index[h]].hash == h;
    }
  }

  /** Encodes a capture's metadata. */
  method EncodeCaptured(c: Captured, ghost vs: seq<Visit>, ghost parent: seq<nat>) returns (ok: bool, md: seq<byte>)
    requires Capturable(c.nodes, parent)
    ensures ok == (c.security != []) && (ok ==> ReadsBack(Recorded(vs, c, parent, md)))
  {
    hide Capturable, Linked, Parse, BuiltNode, WithinLimits, Total, Described;
    ghost var places;
    ok, md, places := EncodeMetadata(c.security, c.nodes, parent);
    CapturableLinked(c, parent);
  }

  lemma CapturableLinked(c: Captured, parent: seq<nat>)
    requires Capturable(c.nodes, parent)
    ensures Linked(c.nodes, parent)
  {
    hide Linked;
  }
}
