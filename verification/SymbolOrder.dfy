/** The alphabet's used symbols, and their one order by a key and then by number. */
module SymbolOrder {
  /** The symbols among the first n with a positive frequency, in increasing order. */
  function Used(freq: seq<nat>, n: nat): (us: seq<nat>)
    requires n <= |freq|
    ensures |us| <= n && Indexes(us, |freq|)
  {
    if n == 0 then [] else if freq[n - 1] > 0 then Used(freq, n - 1) + [n - 1] else Used(freq, n - 1)
  }

  predicate Before(key: seq<nat>, x: nat, y: nat)
    requires x < |key| && y < |key|
  {
    key[x] < key[y] || (key[x] == key[y] && x < y)
  }

  predicate Indexes(xs: seq<nat>, n: nat)
  {
    forall i :: 0 <= i < |xs| ==> xs[i] < n
  }

  function InsertBy(key: seq<nat>, x: nat, ys: seq<nat>): (r: seq<nat>)
    requires x < |key| && Indexes(ys, |key|)
    ensures |r| == |ys| + 1 && Indexes(r, |key|)
  {
    if ys == [] || Before(key, x, ys[0]) then [x] + ys else [ys[0]] + InsertBy(key, x, ys[1..])
  }

  /** The sorted form, which any sorting algorithm must return: the order is total. */
  function SortBy(key: seq<nat>, xs: seq<nat>): (r: seq<nat>)
    requires Indexes(xs, |key|)
    ensures |r| == |xs| && Indexes(r, |key|)
  {
    if xs == [] then [] else InsertBy(key, xs[0], SortBy(key, xs[1..]))
  }

  predicate Rising(key: seq<nat>, xs: seq<nat>)
    requires Indexes(xs, |key|)
  {
    forall i, j :: 0 <= i < j < |xs| ==> key[xs[i]] <= key[xs[j]]
  }

  lemma {:induction false} UsedAre(freq: seq<nat>, n: nat)
    requires n <= |freq|
    ensures forall i :: 0 <= i < |Used(freq, n)| ==> Used(freq, n)[i] < n && freq[Used(freq, n)[i]] > 0
    ensures forall s :: 0 <= s < n && freq[s] > 0 ==> s in Used(freq, n)
    ensures forall s :: multiset(Used(freq, n))[s] <= 1
  {
    if n > 0 {
      UsedAre(freq, n - 1);
    }
  }

  lemma {:induction false} InsertByBag(key: seq<nat>, x: nat, ys: seq<nat>)
    requires x < |key| && Indexes(ys, |key|)
    ensures multiset(InsertBy(key, x, ys)) == multiset(ys) + multiset{x}
  {
    if ys != [] && !Before(key, x, ys[0]) {
      InsertByBag(key, x, ys[1..]);
      assert ys == [ys[0]] + ys[1..];
    }
  }

  lemma {:induction false} InsertByRising(key: seq<nat>, x: nat, ys: seq<nat>)
    requires x < |key| && Indexes(ys, |key|) && Rising(key, ys)
    ensures Rising(key, InsertBy(key, x, ys))
  {
    if ys != [] && !Before(key, x, ys[0]) {
      InsertByRising(key, x, ys[1..]);
      InsertByBag(key, x, ys[1..]);
      var r := InsertBy(key, x, ys[1..]);
      forall i | 0 <= i < |r|
        ensures key[ys[0]] <= key[r[i]]
      {
        assert r[i] in multiset(ys[1..]) + multiset{x};
      }
    }
  }

  lemma {:induction false} SortByIsSorted(key: seq<nat>, xs: seq<nat>)
    requires Indexes(xs, |key|)
    ensures multiset(SortBy(key, xs)) == multiset(xs)
    ensures Rising(key, SortBy(key, xs))
  {
    if xs != [] {
      var ys := SortBy(key, xs[1..]);
      SortByIsSorted(key, xs[1..]);
      InsertByBag(key, xs[0], ys);
      InsertByRising(key, xs[0], ys);
      assert xs == [xs[0]] + xs[1..];
    }
  }
}
