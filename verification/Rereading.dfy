/** The write pass reads each file again: what has to agree with what was captured for that to succeed. */
module Rereading {
  import opened Bits
  import opened Canonical
  import opened ResourceFormat
  import opened Dentries
  import opened Names
  import opened TreeRoundTrip
  import opened Capture
  import Records

  /** What is read now has the hash that was captured. */
  predicate ReadsAs(data: Option<seq<byte>>, h: seq<byte>, hash: Hasher)
  {
    data.Some? && hash(data.value) == h
  }

  ghost predicate StreamsDiffer(bs: seq<Blob>)
  {
    forall i, j {:trigger bs[i], bs[j]} :: 0 <= i < j < |bs| ==> bs[i].hash != bs[j].hash
  }

  /** Each of the first n streams was known before, or reads as it was captured. */
  ghost predicate Covered(bs: seq<Blob>, n: nat, was: map<seq<byte>, nat>,
                          reread: seq<Name> -> Option<seq<byte>>, hash: Hasher)
    requires n <= |bs|
  {
    forall i {:trigger bs[i]} :: 0 <= i < n ==> bs[i].hash in was || ReadsAs(reread(bs[i].path), bs[i].hash, hash)
  }

  /** What is known now was known before, or is one of the first n streams. */
  ghost predicate KnownFrom(now: map<seq<byte>, nat>, was: map<seq<byte>, nat>, bs: seq<Blob>, n: nat)
    requires n <= |bs|
  {
    forall h {:trigger h in now} :: h in now ==> h in was || exists j {:trigger bs[j]} :: 0 <= j < n && bs[j].hash == h
  }

  lemma NoneCovered(bs: seq<Blob>, was: map<seq<byte>, nat>, reread: seq<Name> -> Option<seq<byte>>,
                    hash: Hasher)
    ensures KnownFrom(was, was, bs, 0) && Covered(bs, 0, was, reread, hash)
  {
  }

  /** A stream that is known by now was known before: no other of these has its hash. */
  lemma OneMoreCovered(bs: seq<Blob>, n: nat, now: map<seq<byte>, nat>, was: map<seq<byte>, nat>,
                       reread: seq<Name> -> Option<seq<byte>>, hash: Hasher)
    requires n < |bs| && StreamsDiffer(bs) && KnownFrom(now, was, bs, n) && Covered(bs, n, was, reread, hash)
    requires forall h {:trigger h in was} :: h in was ==> h in now
    ensures bs[n].hash in now <==> bs[n].hash in was
    ensures Covered(bs, n + 1, was, reread, hash) <==>
            bs[n].hash in now || ReadsAs(reread(bs[n].path), bs[n].hash, hash)
    ensures !Covered(bs, n + 1, was, reread, hash) ==> !Covered(bs, |bs|, was, reread, hash)
  {
    hide ReadsAs;
    assert bs[n] == bs[n];
  }

  lemma OneMoreKnown(before: map<seq<byte>, nat>, now: map<seq<byte>, nat>, was: map<seq<byte>, nat>,
                     bs: seq<Blob>, n: nat)
    requires n < |bs| && KnownFrom(before, was, bs, n)
    requires forall h {:trigger h in now} :: h in now ==> h in before || h == bs[n].hash
    ensures KnownFrom(now, was, bs, n + 1)
  {
    assert bs[n] == bs[n];
  }

  lemma ReferencesNext(bs: seq<Blob>, i: nat)
    requires i < |bs|
    ensures References(bs[..i + 1]) == References(bs[..i]) + bs[i].refs
  {
    assert bs[..i + 1][..i] == bs[..i];
  }

  lemma NoReferences(bs: seq<Blob>)
    ensures References(bs[..0]) == 0 && References(bs[..|bs|]) == References(bs)
  {
    assert bs[..|bs|] == bs;
  }

  // ---------- told from the walk ----------

  /** The first file of each content that is not known yet reads as it was captured. */
  ghost predicate Rereadable(vs: seq<Visit>, known: map<seq<byte>, nat>, reread: seq<Name> -> Option<seq<byte>>,
                             hash: Hasher)
  {
    forall x: nat {:trigger vs[x]} ::
      x < |vs| && HasStream(vs[x]) && UsesOf(vs, x, hash(vs[x].data), hash) == 0 && hash(vs[x].data) !in known ==>
        ReadsAs(reread(vs[x].path), hash(vs[x].data), hash)
  }

  /** Every file read again as it was is enough. */
  lemma SameContentRereads(vs: seq<Visit>, known: map<seq<byte>, nat>, reread: seq<Name> -> Option<seq<byte>>,
                           hash: Hasher)
    requires forall x {:trigger vs[x]} :: 0 <= x < |vs| && HasStream(vs[x]) ==> reread(vs[x].path) == Some(vs[x].data)
    ensures Rereadable(vs, known, reread, hash)
  {
    hide UsesOf;
  }

  lemma {:induction false} UsesGrow(vs: seq<Visit>, m: nat, n: nat, h: seq<byte>, hash: Hasher)
    requires m < n <= |vs| && HasStream(vs[m]) && hash(vs[m].data) == h
    ensures UsesOf(vs, n, h, hash) > 0
  {
    if m < n - 1 { UsesGrow(vs, m, n - 1, h, hash); }
  }

  lemma OneFirstUse(b: Blob, vs: seq<Visit>, hash: Hasher, x: nat, y: nat)
    requires FirstUse(b, vs, |vs|, hash, x) && y < |vs| && HasStream(vs[y]) && hash(vs[y].data) == b.hash
    requires UsesOf(vs, y, b.hash, hash) == 0
    ensures x == y
  {
    if x < y { UsesGrow(vs, x, y, b.hash, hash); }
    if y < x { UsesGrow(vs, y, x, b.hash, hash); }
  }

  /** What a stream of the capture needs read again is what the walk says. */
  lemma CoveredIsRereadable(c: Captured, parent: seq<nat>, vs: seq<Visit>, hash: Hasher, known: map<seq<byte>, nat>,
                            reread: seq<Name> -> Option<seq<byte>>)
    requires Faithful(c, parent, vs, hash)
    ensures Covered(c.blobs, |c.blobs|, known, reread, hash) <==> Rereadable(vs, known, reread, hash)
  {
    hide Grown, Capturable, UsesOf, ReadsAs;
    if Covered(c.blobs, |c.blobs|, known, reread, hash) {
      forall x: nat | x < |vs| && HasStream(vs[x]) && UsesOf(vs, x, hash(vs[x].data), hash) == 0 &&
                      hash(vs[x].data) !in known
        ensures ReadsAs(reread(vs[x].path), hash(vs[x].data), hash)
      {
        var i := StreamOfVisit(c, parent, vs, hash, x);
        var y: nat :| FirstUse(c.blobs[i], vs, |vs|, hash, y);
        OneFirstUse(c.blobs[i], vs, hash, y, x);
      }
    }
    if Rereadable(vs, known, reread, hash) {
      forall i | 0 <= i < |c.blobs|
        ensures c.blobs[i].hash in known || ReadsAs(reread(c.blobs[i].path), c.blobs[i].hash, hash)
      {
        assert BlobSays(c.blobs[i], vs, |vs|, hash);
        var y: nat :| FirstUse(c.blobs[i], vs, |vs|, hash, y);
        assert vs[y] == vs[y];
      }
    }
  }

  lemma StreamOfVisit(c: Captured, parent: seq<nat>, vs: seq<Visit>, hash: Hasher, x: nat) returns (i: nat)
    requires Faithful(c, parent, vs, hash) && x < |vs| && HasStream(vs[x])
    ensures i < |c.blobs| && c.blobs[i].hash == hash(vs[x].data) && BlobSays(c.blobs[i], vs, |vs|, hash)
  {
    hide Capturable, Kids, InParent, Records.Recordable, BlobSays;
    var index :| Indexed(c.blobs, index) &&
      forall x {:trigger c.nodes[x]} :: 0 <= x < |c.nodes| && HasStream(vs[x]) ==> c.nodes[x].hash in index;
    assert NodeOf(c.nodes[x], vs[x], c.security, hash);
    i := index[c.nodes[x].hash];
    assert BlobSays(c.blobs[i], vs, |vs|, hash);
  }

  lemma CaptureDiffers(c: Captured, parent: seq<nat>, vs: seq<Visit>, hash: Hasher)
    requires Faithful(c, parent, vs, hash)
    ensures StreamsDiffer(c.blobs)
  {
    hide Grown, Capturable;
  }
}
