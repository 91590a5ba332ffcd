/** The table a writer seals a WIM with, sorted by offset, and what a reader finds in it. */
module SealedTable {
  import opened Bits
  import opened Canonical
  import opened ResourceFormat
  import opened Dentries
  import opened BlobTable

  function InsertEntry(e: BlobEntry, es: seq<BlobEntry>): (r: seq<BlobEntry>)
    ensures |r| == |es| + 1
  {
    if es == [] || e.res.offset < es[0].res.offset then [e] + es else [es[0]] + InsertEntry(e, es[1..])
  }

  /** The entries by where their resources lie. */
  function SortEntries(es: seq<BlobEntry>): (r: seq<BlobEntry>)
    ensures |r| == |es|
  {
    if es == [] then [] else InsertEntry(es[|es| - 1], SortEntries(es[..|es| - 1]))
  }

  predicate Sorted(es: seq<BlobEntry>)
  {
    forall i, j {:trigger es[i], es[j]} :: 0 <= i < j < |es| ==> es[i].res.offset <= es[j].res.offset
  }

  lemma Tail(es: seq<BlobEntry>)
    requires es != []
    ensures es[0] in es && es == [es[0]] + es[1..]
    ensures forall x {:trigger x in es[1..]} :: x in es[1..] ==> x in es
    ensures Sorted(es) ==>
            Sorted(es[1..]) && forall x {:trigger x in es[1..]} :: x in es[1..] ==> es[0].res.offset <= x.res.offset
    ensures HashesDiffer(es) ==> HashesDiffer(es[1..])
  {
    hide IsMetadata;
  }

  lemma {:induction false} InsertBag(e: BlobEntry, es: seq<BlobEntry>)
    ensures multiset(InsertEntry(e, es)) == multiset(es) + multiset{e}
    decreases |es|
  {
    if es != [] && e.res.offset >= es[0].res.offset {
      InsertBag(e, es[1..]);
      assert es == [es[0]] + es[1..];
    }
  }

  /** What is in the list with e put in is in the list, or is e. */
  lemma InsertMembers(e: BlobEntry, es: seq<BlobEntry>, x: BlobEntry)
    requires x in InsertEntry(e, es)
    ensures x == e || x in es
  {
    InsertBag(e, es);
    assert x in multiset(InsertEntry(e, es));
  }

  lemma {:induction false} InsertSorted(e: BlobEntry, es: seq<BlobEntry>)
    requires Sorted(es)
    ensures Sorted(InsertEntry(e, es))
    decreases |es|
  {
    if es != [] {
      Tail(es);
      if e.res.offset >= es[0].res.offset {
        var rest := InsertEntry(e, es[1..]);
        InsertSorted(e, es[1..]);
        forall j | 0 <= j < |rest|
          ensures es[0].res.offset <= rest[j].res.offset
        {
          InsertMembers(e, es[1..], rest[j]);
        }
      }
    }
  }

  lemma {:induction false} SortKeeps(es: seq<BlobEntry>)
    ensures multiset(SortEntries(es)) == multiset(es) && Sorted(SortEntries(es))
  {
    hide InsertEntry;
    if es != [] {
      var front, e := es[..|es| - 1], es[|es| - 1];
      SortKeeps(front);
      InsertBag(e, SortEntries(front));
      InsertSorted(e, SortEntries(front));
      assert es == front + [e];
    }
  }

  // ---------- metadata keeps its order ----------

  /** All live metadata lies before position p. */
  predicate MetasBefore(es: seq<BlobEntry>, p: nat)
  {
    forall e {:trigger e in es} :: e in es && IsMetadata(e.res) ==> e.res.offset <= p
  }

  predicate MetasInOrder(es: seq<BlobEntry>)
  {
    forall i, j {:trigger es[i], es[j]} :: 0 <= i < j < |es| && IsMetadata(es[i].res) && IsMetadata(es[j].res) ==>
      es[i].res.offset <= es[j].res.offset
  }

  lemma {:induction false} LiveMetasConcat(a: seq<BlobEntry>, b: seq<BlobEntry>)
    ensures LiveMetas(a + b) == LiveMetas(a) + LiveMetas(b)
    decreases |a|
  {
    hide IsMetadata;
    if a == [] {
      assert a + b == b;
    } else {
      assert (a + b)[1..] == a[1..] + b;
      LiveMetasConcat(a[1..], b);
    }
  }

  lemma NotMetadata(e: BlobEntry)
    ensures LiveMetas([]) == [] && (!IsMetadata(e.res) ==> LiveMetas([e]) == [])
  {
    hide IsMetadata;
    assert [e][1..] == [];
  }

  lemma {:induction false} InsertMetas(e: BlobEntry, es: seq<BlobEntry>)
    requires Sorted(es) && (IsMetadata(e.res) ==> MetasBefore(es, e.res.offset))
    ensures LiveMetas(InsertEntry(e, es)) == LiveMetas(es) + LiveMetas([e])
    decreases |es|
  {
    hide IsMetadata, LiveMetas, Sorted;
    NotMetadata(e);
    if es == [] {
      assert [e] + es == [e];
    } else if e.res.offset < es[0].res.offset {
      LiveMetasConcat([e], es);
      if IsMetadata(e.res) { NoLiveMetas(es, e.res.offset); }
    } else {
      Tail(es);
      InsertMetas(e, es[1..]);
      LiveMetasConcat([es[0]], InsertEntry(e, es[1..]));
      LiveMetasConcat([es[0]], es[1..]);
    }
  }

  lemma {:induction false} NoLiveMetas(es: seq<BlobEntry>, p: nat)
    requires Sorted(es) && es != [] && p < es[0].res.offset && MetasBefore(es, p)
    ensures LiveMetas(es) == []
    decreases |es|
  {
    hide IsMetadata;
    Tail(es);
    if |es| > 1 {
      assert es[1] in es[1..];
      NoLiveMetas(es[1..], p);
    }
  }

  lemma NoMetasAtAll(es: seq<BlobEntry>)
    ensures es == [] ==> LiveMetas(SortEntries(es)) == LiveMetas(es)
  {
  }

  /** Sorting by offset leaves the metadata, which was written in order, in that order. */
  lemma {:induction false} SortMetas(es: seq<BlobEntry>)
    requires MetasInOrder(es)
    ensures LiveMetas(SortEntries(es)) == LiveMetas(es)
  {
    hide IsMetadata, InsertEntry, Sorted, LiveMetas;
    NoMetasAtAll(es);
    if es != [] {
      var front, e := es[..|es| - 1], es[|es| - 1];
      SortMetas(front);
      SortKeeps(front);
      forall x | x in SortEntries(front) && IsMetadata(x.res) && IsMetadata(e.res)
        ensures x.res.offset <= e.res.offset
      {
        assert x in multiset(SortEntries(front));
        var i :| 0 <= i < |front| && front[i] == x;
        assert es[i] == x && es[|es| - 1] == e;
      }
      InsertMetas(e, SortEntries(front));
      LiveMetasConcat(front, [e]);
      assert es == front + [e];
    }
  }

  // ---------- streams keep their hashes ----------

  /** No two streams have the same hash. */
  predicate HashesDiffer(es: seq<BlobEntry>)
  {
    forall i, j {:trigger es[i], es[j]} ::
      0 <= i < j < |es| && !IsMetadata(es[i].res) && !IsMetadata(es[j].res) ==> es[i].hash != es[j].hash
  }

  lemma {:induction false} FirstIsOnly(es: seq<BlobEntry>, i: nat)
    requires HashesDiffer(es) && i < |es| && !IsMetadata(es[i].res)
    ensures FirstStream(es, es[i].hash) == Some(es[i].res)
    decreases |es|
  {
    hide IsMetadata;
    if i > 0 {
      Tail(es);
      FirstIsOnly(es[1..], i - 1);
    }
  }

  lemma {:induction false} NoneWithHash(es: seq<BlobEntry>, hash: seq<byte>)
    requires forall e :: e in es && !IsMetadata(e.res) ==> e.hash != hash
    ensures FirstStream(es, hash) == None
    decreases |es|
  {
    hide IsMetadata;
    if es != [] {
      assert es[0] in es;
      NoneWithHash(es[1..], hash);
    }
  }

  predicate SameButOne(e: BlobEntry, es: seq<BlobEntry>)
  {
    forall x {:trigger x in es} :: x in es && !IsMetadata(x.res) && !IsMetadata(e.res) ==> x.hash != e.hash
  }

  lemma {:induction false} InsertDiffers(e: BlobEntry, es: seq<BlobEntry>)
    requires HashesDiffer(es) && SameButOne(e, es)
    ensures HashesDiffer(InsertEntry(e, es))
    decreases |es|
  {
    hide IsMetadata;
    if es != [] {
      Tail(es);
      if e.res.offset >= es[0].res.offset {
        var rest := InsertEntry(e, es[1..]);
        InsertDiffers(e, es[1..]);
        forall j | 0 <= j < |rest| && !IsMetadata(es[0].res) && !IsMetadata(rest[j].res)
          ensures es[0].hash != rest[j].hash
        {
          InsertMembers(e, es[1..], rest[j]);
          if rest[j] in es[1..] {
            var k :| 0 <= k < |es[1..]| && es[1..][k] == rest[j];
            assert es[k + 1] == rest[j];
          }
        }
      } else {
        FirstApart(e, es);
      }
    }
  }

  lemma FirstApart(e: BlobEntry, es: seq<BlobEntry>)
    requires HashesDiffer(es) && SameButOne(e, es)
    ensures HashesDiffer([e] + es)
  {
    hide IsMetadata;
    var r := [e] + es;
    forall i, j | 0 <= i < j < |r| && !IsMetadata(r[i].res) && !IsMetadata(r[j].res)
      ensures r[i].hash != r[j].hash
    {
      assert r[j] == es[j - 1] && es[j - 1] in es;
      if i > 0 { assert r[i] == es[i - 1]; }
    }
  }

  lemma {:induction false} SortDiffers(es: seq<BlobEntry>)
    requires HashesDiffer(es)
    ensures HashesDiffer(SortEntries(es))
  {
    hide IsMetadata, InsertEntry;
    if es != [] {
      var front, e := es[..|es| - 1], es[|es| - 1];
      SortDiffers(front);
      SortKeeps(front);
      forall x | x in SortEntries(front) && !IsMetadata(x.res) && !IsMetadata(e.res)
        ensures x.hash != e.hash
      {
        assert x in multiset(SortEntries(front));
        var i :| 0 <= i < |front| && front[i] == x;
        assert es[i] == x && es[|es| - 1] == e;
      }
      InsertDiffers(e, SortEntries(front));
    }
  }

  /** A stream of the table, sorted or not, is found by its hash. */
  lemma SortedFinds(es: seq<BlobEntry>, i: nat)
    requires HashesDiffer(es) && i < |es| && !IsMetadata(es[i].res)
    ensures FirstStream(SortEntries(es), es[i].hash) == Some(es[i].res)
  {
    hide IsMetadata, SortEntries;
    SortDiffers(es);
    SortKeeps(es);
    assert es[i] in multiset(SortEntries(es));
    var k :| 0 <= k < |SortEntries(es)| && SortEntries(es)[k] == es[i];
    FirstIsOnly(SortEntries(es), k);
  }

  lemma SortedFindsNone(es: seq<BlobEntry>, hash: seq<byte>)
    requires forall e :: e in es && !IsMetadata(e.res) ==> e.hash != hash
    ensures FirstStream(SortEntries(es), hash) == None
  {
    hide IsMetadata, SortEntries;
    SortKeeps(es);
    forall e | e in SortEntries(es) && !IsMetadata(e.res)
      ensures e.hash != hash
    {
      assert e in multiset(SortEntries(es));
    }
    NoneWithHash(SortEntries(es), hash);
  }
}
