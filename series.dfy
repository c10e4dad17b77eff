/**
 * Frequency tables as pandas' `value_counts` builds them (log_analysis.py,
 * lines 108, 126, 131, 139, 152, 161, 166, 176): one entry per distinct
 * value with the number of times it occurs, largest count first; and the
 * selections the analyses take of them: `sort_index`, `head`, `tail` and a
 * threshold filter.
 */
module Series {
  import opened Wrappers

  /** One row of a table: a value and the number of records holding it. */
  datatype Entry<K> = Entry(key: K, count: nat)

  /** A pandas Series of counts, in its index order. */
  type Table<K> = seq<Entry<K>>

  predicate HasKey<K(==,!new)>(t: Table<K>, k: K) {
    exists i :: 0 <= i < |t| && t[i].key == k
  }

  /** No value appears twice in the index. */
  predicate DistinctKeys<K(==,!new)>(t: Table<K>) {
    forall i, j :: 0 <= i < |t| && 0 <= j < |t| && t[i].key == t[j].key ==> i == j
  }

  /** The values of the index, as a set. */
  function KeySet<K(==,!new)>(t: Table<K>): set<K> {
    set i | 0 <= i < |t| :: t[i].key
  }

  /** The total of the counts. */
  function Sum<K(==,!new)>(t: Table<K>): nat {
    if t == [] then 0 else Sum(t[..|t| - 1]) + t[|t| - 1].count
  }

  /**
   * `t` is the frequency table of `xs`: its keys are exactly the values in
   * `xs`, each once, each with the number of times it occurs there.
   */
  ghost predicate CountsOf<K(!new)>(t: Table<K>, xs: seq<K>) {
    DistinctKeys(t) &&
    (forall i :: 0 <= i < |t| ==> t[i].count == multiset(xs)[t[i].key]) &&
    (forall k :: k in xs <==> HasKey(t, k))
  }

  /** Counts in non-increasing order, as `value_counts` returns them. */
  predicate ByCountDesc<K(==,!new)>(t: Table<K>) {
    forall i, j :: 0 <= i < j < |t| ==> t[i].count >= t[j].count
  }

  // ---------------------------------------------------------------------
  // Counting
  // ---------------------------------------------------------------------

  /** The position of `k` in the index, -1 when it is not there. */
  function IndexOf<K(==,!new)>(t: Table<K>, k: K): (i: int)
    ensures -1 <= i < |t|
    ensures i >= 0 ==> t[i].key == k
    ensures i < 0 <==> !HasKey(t, k)
  {
    if t == [] then -1
    else if t[|t| - 1].key == k then |t| - 1
    else IndexOf(t[..|t| - 1], k)
  }

  /** One more occurrence of `k`: its count goes up, or it joins the index with count 1. */
  function Bump<K(==,!new)>(t: Table<K>, k: K): Table<K> {
    var i := IndexOf(t, k);
    if i < 0 then t + [Entry(k, 1)] else t[i := Entry(k, t[i].count + 1)]
  }

  /** The counts of `xs`, values in the order they first occur. */
  function Tally<K(==,!new)>(xs: seq<K>): Table<K> {
    if xs == [] then [] else Bump(Tally(xs[..|xs| - 1]), xs[|xs| - 1])
  }

  lemma {:induction false} SumAppend<K(!new)>(t: Table<K>, e: Entry<K>)
    ensures Sum(t + [e]) == Sum(t) + e.count
  {
    assert (t + [e])[..|t|] == t;
  }

  lemma {:induction false} SumUpdate<K(!new)>(t: Table<K>, i: nat, e: Entry<K>)
    requires i < |t|
    ensures Sum(t[i := e]) == Sum(t) - t[i].count + e.count
  {
    if i < |t| - 1 {
      assert t[i := e][..|t| - 1] == t[..|t| - 1][i := e];
      SumUpdate(t[..|t| - 1], i, e);
    } else {
      assert t[i := e][..|t| - 1] == t[..|t| - 1];
    }
  }

  /** Counting one more value keeps the table the frequency table of the longer column. */
  lemma BumpCounts<K(!new)>(t: Table<K>, xs: seq<K>, k: K)
    requires CountsOf(t, xs)
    ensures CountsOf(Bump(t, k), xs + [k])
    ensures Sum(Bump(t, k)) == Sum(t) + 1
  {
    assert multiset(xs + [k]) == multiset(xs) + multiset{k};
    if IndexOf(t, k) < 0 {
      BumpNew(t, xs, k);
    } else {
      BumpOld(t, xs, k);
    }
  }

  /** A value not yet counted joins the index with count 1. */
  lemma BumpNew<K(!new)>(t: Table<K>, xs: seq<K>, k: K)
    requires CountsOf(t, xs) && !HasKey(t, k)
    requires multiset(xs + [k]) == multiset(xs) + multiset{k}
    ensures CountsOf(Bump(t, k), xs + [k])
    ensures Sum(Bump(t, k)) == Sum(t) + 1
  {
    var ys := xs + [k];
    var r := t + [Entry(k, 1)];
    SumAppend(t, Entry(k, 1));
    assert k !in xs;
    forall j | 0 <= j < |r|
      ensures r[j].count == multiset(ys)[r[j].key]
    {
      if j == |t| {
        assert multiset(xs)[k] == 0;
      }
    }
    forall x
      ensures x in ys <==> HasKey(r, x)
    {
      if x in ys && x != k {
        assert x in xs;
        var j :| 0 <= j < |t| && t[j].key == x;
        assert r[j].key == x;
      }
      if HasKey(r, x) && x != k {
        var j :| 0 <= j < |r| && r[j].key == x;
        assert t[j].key == x;
      }
      if x == k {
        assert r[|t|].key == k;
      }
    }
  }

  /** A value already counted has its count raised by one. */
  lemma BumpOld<K(!new)>(t: Table<K>, xs: seq<K>, k: K)
    requires CountsOf(t, xs) && HasKey(t, k)
    requires multiset(xs + [k]) == multiset(xs) + multiset{k}
    ensures CountsOf(Bump(t, k), xs + [k])
    ensures Sum(Bump(t, k)) == Sum(t) + 1
  {
    var ys := xs + [k];
    var i := IndexOf(t, k);
    var r := t[i := Entry(k, t[i].count + 1)];
    SumUpdate(t, i, Entry(k, t[i].count + 1));
    assert forall j :: 0 <= j < |r| ==> r[j].key == t[j].key;
    forall j | 0 <= j < |r|
      ensures r[j].count == multiset(ys)[r[j].key]
    {
      if j != i {
        assert r[j] == t[j] && t[j].key != k;
      }
    }
    forall x
      ensures x in ys <==> HasKey(r, x)
    {
      if x in ys && x != k {
        assert x in xs;
        var j :| 0 <= j < |t| && t[j].key == x;
        assert r[j].key == x;
      }
      if HasKey(r, x) {
        var j :| 0 <= j < |r| && r[j].key == x;
        assert t[j].key == x;
      }
    }
  }

  /** The tally is the frequency table of the column and its counts total the column's length. */
  lemma {:induction false} TallyCounts<K(!new)>(xs: seq<K>)
    ensures CountsOf(Tally(xs), xs)
    ensures Sum(Tally(xs)) == |xs|
  {
    if xs != [] {
      var init := xs[..|xs| - 1];
      TallyCounts(init);
      BumpCounts(Tally(init), init, xs[|xs| - 1]);
      assert init + [xs[|xs| - 1]] == xs;
    }
  }

  // ---------------------------------------------------------------------
  // Ordering by count
  // ---------------------------------------------------------------------

  /** Insertion of one entry before the first one with a smaller count. */
  function InsertByCount<K(==,!new)>(e: Entry<K>, s: Table<K>): (r: Table<K>)
    ensures |r| == |s| + 1
    ensures multiset(r) == multiset(s) + multiset{e}
  {
    if s == [] || e.count >= s[0].count then [e] + s
    else
      assert s == [s[0]] + s[1..];
      [s[0]] + InsertByCount(e, s[1..])
  }

  /** The entries sorted by count, largest first. */
  function SortByCount<K(==,!new)>(t: Table<K>): (r: Table<K>)
    ensures |r| == |t|
    ensures multiset(r) == multiset(t)
  {
    if t == [] then []
    else
      assert t == [t[0]] + t[1..];
      InsertByCount(t[0], SortByCount(t[1..]))
  }

  lemma {:induction false} InsertByCountSorted<K(!new)>(e: Entry<K>, s: Table<K>)
    requires ByCountDesc(s)
    ensures ByCountDesc(InsertByCount(e, s))
  {
    if s != [] && e.count < s[0].count {
      InsertByCountSorted(e, s[1..]);
      var tail := InsertByCount(e, s[1..]);
      InsertByCountBelow(e, s[1..], s[0].count);
      var r := InsertByCount(e, s);
      assert r == [s[0]] + tail;
      forall i, j | 0 <= i < j < |r|
        ensures r[i].count >= r[j].count
      {
        assert r[j] == tail[j - 1];
        if i > 0 {
          assert r[i] == tail[i - 1];
        }
      }
    }
  }

  /** Inserting into a table bounded by `c` an entry bounded by `c` keeps the bound. */
  lemma {:induction false} InsertByCountBelow<K(!new)>(e: Entry<K>, s: Table<K>, c: nat)
    requires e.count <= c && forall k :: 0 <= k < |s| ==> s[k].count <= c
    ensures forall k :: 0 <= k < |InsertByCount(e, s)| ==> InsertByCount(e, s)[k].count <= c
  {
    if s != [] && e.count < s[0].count {
      InsertByCountBelow(e, s[1..], c);
      assert InsertByCount(e, s) == [s[0]] + InsertByCount(e, s[1..]);
    }
  }

  /** Sorting leaves the counts in non-increasing order. */
  lemma {:induction false} SortByCountSorted<K(!new)>(t: Table<K>)
    ensures ByCountDesc(SortByCount(t))
  {
    if t != [] {
      SortByCountSorted(t[1..]);
      InsertByCountSorted(t[0], SortByCount(t[1..]));
    }
  }

  // ---------------------------------------------------------------------
  // Reordering keeps a frequency table
  // ---------------------------------------------------------------------

  /** Two tables holding the same entries, in any order. */
  predicate SameEntries<K(==,!new)>(t: Table<K>, u: Table<K>) {
    multiset(t) == multiset(u)
  }

  lemma {:induction false} SumPermutation<K(!new)>(t: Table<K>, u: Table<K>)
    requires SameEntries(t, u)
    ensures Sum(t) == Sum(u)
    decreases |t|
  {
    if t != [] {
      var e, init := t[|t| - 1], t[..|t| - 1];
      assert e in multiset(u);
      var j :| 0 <= j < |u| && u[j] == e;
      var u' := u[..j] + u[j + 1..];
      assert u == u[..j] + [e] + u[j + 1..];
      assert t == init + [e];
      assert multiset(u') == multiset(u) - multiset{e};
      SumPermutation(init, u');
      SumRemove(u, j);
      assert Sum(t) == Sum(init) + e.count;
    }
  }

  lemma {:induction false} SumRemove<K(!new)>(u: Table<K>, j: nat)
    requires j < |u|
    ensures Sum(u) == Sum(u[..j] + u[j + 1..]) + u[j].count
    decreases |u|
  {
    if j == |u| - 1 {
      assert u[..j] + u[j + 1..] == u[..|u| - 1];
    } else {
      var v := u[..|u| - 1];
      SumRemove(v, j);
      assert u[..j] + u[j + 1..] == (v[..j] + v[j + 1..]) + [u[|u| - 1]];
      SumAppend(v[..j] + v[j + 1..], u[|u| - 1]);
    }
  }

  lemma {:induction false} DistinctPermutation<K(!new)>(t: Table<K>, u: Table<K>)
    requires SameEntries(t, u) && DistinctKeys(t)
    ensures DistinctKeys(u)
  {
    forall i, j | 0 <= i < |u| && 0 <= j < |u| && u[i].key == u[j].key
      ensures i == j
    {
      if i != j {
        assert u[i] in multiset(t) && u[j] in multiset(t);
        var a :| 0 <= a < |t| && t[a] == u[i];
        var b :| 0 <= b < |t| && t[b] == u[j];
        assert a == b;
        assert u[i] == u[j];
        PairCount(u, i, j);
        SingleCount(t, a);
      }
    }
  }

  /** An entry at two positions occurs at least twice. */
  lemma {:induction false} PairCount<K(!new)>(u: Table<K>, i: nat, j: nat)
    requires i < j < |u| || j < i < |u|
    requires u[i] == u[j]
    ensures multiset(u)[u[i]] >= 2
  {
    var lo, hi := if i < j then i else j, if i < j then j else i;
    assert u == u[..lo] + [u[lo]] + u[lo + 1..hi] + [u[hi]] + u[hi + 1..];
  }

  /** With distinct keys an entry occurs once. */
  lemma {:induction false} SingleCount<K(!new)>(t: Table<K>, a: nat)
    requires DistinctKeys(t) && a < |t|
    ensures multiset(t)[t[a]] == 1
  {
    var rest := t[..a] + t[a + 1..];
    assert t == t[..a] + [t[a]] + t[a + 1..];
    assert multiset(t) == multiset(rest) + multiset{t[a]};
    forall k | 0 <= k < |rest|
      ensures rest[k] != t[a]
    {
      if k < a {
        assert rest[k] == t[k];
      } else {
        assert rest[k] == t[k + 1];
      }
    }
    assert t[a] !in multiset(rest);
  }

  /** Reordering a frequency table keeps it the frequency table of the same column. */
  lemma SameEntriesCounts<K(!new)>(t: Table<K>, u: Table<K>, xs: seq<K>)
    requires SameEntries(t, u) && CountsOf(t, xs)
    ensures CountsOf(u, xs) && Sum(u) == Sum(t)
  {
    DistinctPermutation(t, u);
    SumPermutation(t, u);
    forall i | 0 <= i < |u|
      ensures u[i].count == multiset(xs)[u[i].key]
    {
      assert u[i] in multiset(t);
    }
    forall k
      ensures HasKey(t, k) <==> HasKey(u, k)
    {
      if HasKey(t, k) {
        var i :| 0 <= i < |t| && t[i].key == k;
        assert t[i] in multiset(u);
      }
      if HasKey(u, k) {
        var i :| 0 <= i < |u| && u[i].key == k;
        assert u[i] in multiset(t);
      }
    }
  }

  // ---------------------------------------------------------------------
  // value_counts
  // ---------------------------------------------------------------------

  /** `value_counts()`: the tally sorted by count, largest first. */
  function ValueCounts<K(==,!new)>(xs: seq<K>): Table<K> {
    SortByCount(Tally(xs))
  }

  /**
   * The table of a column has every distinct value of the column exactly
   * once, with its number of occurrences, largest count first; every count
   * is at least 1 and the counts total the number of records.
   */
  lemma ValueCountsTable<K(!new)>(xs: seq<K>)
    ensures var t := ValueCounts(xs);
      CountsOf(t, xs) && ByCountDesc(t) && Sum(t) == |xs| &&
      forall i :: 0 <= i < |t| ==> t[i].count >= 1
  {
    var t := ValueCounts(xs);
    TallyCounts(xs);
    SameEntriesCounts(Tally(xs), t, xs);
    SortByCountSorted(Tally(xs));
    forall i | 0 <= i < |t|
      ensures t[i].count >= 1
    {
      assert t[i].key in xs by {
        assert HasKey(t, t[i].key);
      }
    }
  }

  /** An entry is in the table of a column exactly when it pairs a value of the column with its number of occurrences. */
  lemma ValueCountsEntries<K(!new)>(xs: seq<K>)
    ensures forall e :: e in ValueCounts(xs) <==> e.key in xs && e.count == multiset(xs)[e.key]
  {
    var t := ValueCounts(xs);
    ValueCountsTable(xs);
    forall e: Entry<K> | e.key in xs && e.count == multiset(xs)[e.key]
      ensures e in t
    {
      var i :| 0 <= i < |t| && t[i].key == e.key;
      assert t[i] == e;
    }
  }

  /** A table with distinct keys has one entry per key. */
  lemma {:induction false} DistinctSize<K(!new)>(t: Table<K>)
    requires DistinctKeys(t)
    ensures |KeySet(t)| == |t|
  {
    if t != [] {
      var init := t[..|t| - 1];
      assert DistinctKeys(init);
      DistinctSize(init);
      assert KeySet(t) == KeySet(init) + {t[|t| - 1].key};
      assert t[|t| - 1].key !in KeySet(init);
    }
  }

  /** `nunique()`: the number of distinct values. */
  function NUnique<K(==,!new)>(xs: seq<K>): nat {
    |set x | x in xs|
  }

  /** The table of a column has as many entries as the column has distinct values. */
  lemma ValueCountsSize<K(!new)>(xs: seq<K>)
    ensures |ValueCounts(xs)| == NUnique(xs)
  {
    var t := ValueCounts(xs);
    ValueCountsTable(xs);
    DistinctSize(t);
    forall x
      ensures x in KeySet(t) <==> x in xs
    {
      if x in xs {
        var i :| 0 <= i < |t| && t[i].key == x;
      }
    }
    assert KeySet(t) == set x | x in xs;
  }

  /** `.loc[k]`: the count of `k`, none when the index does not hold it (a KeyError). */
  function Lookup<K(==,!new)>(t: Table<K>, k: K): (r: Option<nat>)
    ensures r.Some? <==> HasKey(t, k)
  {
    var i := IndexOf(t, k);
    if i < 0 then None else Some(t[i].count)
  }

  /** Looking up a value in the table of a column gives its number of occurrences. */
  lemma LookupCounts<K(!new)>(xs: seq<K>, k: K)
    ensures Lookup(ValueCounts(xs), k) == if k in xs then Some(multiset(xs)[k]) else None
  {
    ValueCountsTable(xs);
  }

  // ---------------------------------------------------------------------
  // sort_index
  // ---------------------------------------------------------------------

  /** `less` orders any two different keys one way or the other, consistently. */
  ghost predicate Total<K(!new)>(less: (K, K) -> bool) {
    (forall a, b :: a != b ==> less(a, b) || less(b, a)) &&
    (forall a, b, c :: less(a, b) && less(b, c) ==> less(a, c))
  }

  /** Keys strictly increasing along the index. */
  predicate ByKey<K(==,!new)>(t: Table<K>, less: (K, K) -> bool) {
    forall i, j :: 0 <= i < j < |t| ==> less(t[i].key, t[j].key)
  }

  function InsertByKey<K(==,!new)>(e: Entry<K>, s: Table<K>, less: (K, K) -> bool): (r: Table<K>)
    ensures |r| == |s| + 1
    ensures multiset(r) == multiset(s) + multiset{e}
  {
    if s == [] || less(e.key, s[0].key) then [e] + s
    else
      assert s == [s[0]] + s[1..];
      [s[0]] + InsertByKey(e, s[1..], less)
  }

  /** `sort_index()`: the entries ordered by key. */
  function SortByKey<K(==,!new)>(t: Table<K>, less: (K, K) -> bool): (r: Table<K>)
    ensures |r| == |t|
    ensures multiset(r) == multiset(t)
  {
    if t == [] then []
    else
      assert t == [t[0]] + t[1..];
      InsertByKey(t[0], SortByKey(t[1..], less), less)
  }

  lemma {:induction false} InsertByKeySorted<K(!new)>(e: Entry<K>, s: Table<K>, less: (K, K) -> bool)
    requires Total(less) && ByKey(s, less)
    requires !HasKey(s, e.key)
    ensures ByKey(InsertByKey(e, s, less), less)
  {
    if s != [] && !less(e.key, s[0].key) {
      assert s[0].key != e.key;
      InsertByKeySorted(e, s[1..], less);
      var tail := InsertByKey(e, s[1..], less);
      forall x | x in tail
        ensures less(s[0].key, x.key)
      {
        assert x in multiset(tail);
        assert x == e || x in multiset(s[1..]);
      }
    } else if s != [] {
      forall j | 0 <= j < |s|
        ensures less(e.key, s[j].key)
      {
        if j > 0 {
          assert less(s[0].key, s[j].key);
          assert s[j].key != e.key;
        }
      }
    }
  }

  /** With a total order and distinct keys, `sort_index` orders the keys strictly. */
  lemma {:induction false} SortByKeySorted<K(!new)>(t: Table<K>, less: (K, K) -> bool)
    requires Total(less) && DistinctKeys(t)
    ensures ByKey(SortByKey(t, less), less)
  {
    if t != [] {
      var rest := t[1..];
      assert DistinctKeys(rest) by {
        forall i, j | 0 <= i < |rest| && 0 <= j < |rest| && rest[i].key == rest[j].key
          ensures i == j
        {
          assert t[i + 1].key == t[j + 1].key;
        }
      }
      SortByKeySorted(rest, less);
      var sorted := SortByKey(rest, less);
      forall j | 0 <= j < |sorted|
        ensures sorted[j].key != t[0].key
      {
        assert sorted[j] in multiset(rest);
        var k :| 0 <= k < |rest| && rest[k] == sorted[j];
        assert rest[k] == t[k + 1];
      }
      InsertByKeySorted(t[0], sorted, less);
    }
  }

  /**
   * `value_counts().sort_index()`: still the frequency table of the column,
   * now with its values in strictly increasing order.
   */
  lemma SortIndexTable<K(!new)>(xs: seq<K>, less: (K, K) -> bool)
    requires Total(less)
    ensures var t := SortByKey(ValueCounts(xs), less);
      CountsOf(t, xs) && ByKey(t, less) && Sum(t) == |xs|
  {
    var t := ValueCounts(xs);
    ValueCountsTable(xs);
    SameEntriesCounts(t, SortByKey(t, less), xs);
    SortByKeySorted(t, less);
  }

  // ---------------------------------------------------------------------
  // head, tail and filters
  // ---------------------------------------------------------------------

  function Min(a: int, b: int): int {
    if a < b then a else b
  }

  /** `head(n)`: the first n entries, all of them when there are fewer. */
  function Head<K(==,!new)>(t: Table<K>, n: nat): (h: Table<K>)
    ensures |h| == Min(n, |t|)
    ensures h == t[..|h|]
  {
    t[..Min(n, |t|)]
  }

  /** `tail(n)`: the last n entries, all of them when there are fewer. */
  function Tail<K(==,!new)>(t: Table<K>, n: nat): (r: Table<K>)
    ensures |r| == Min(n, |t|)
    ensures r == t[|t| - |r|..]
  {
    t[|t| - Min(n, |t|)..]
  }

  /** On a table sorted by count, the head holds the largest counts: none left out is larger. */
  lemma HeadLargest<K(!new)>(t: Table<K>, n: nat)
    requires ByCountDesc(t)
    ensures var h := Head(t, n);
      forall i, j :: 0 <= i < |h| <= j < |t| ==> h[i].count >= t[j].count
  {
  }

  /** On a table sorted by count, the tail holds the smallest counts: none left out is smaller. */
  lemma TailSmallest<K(!new)>(t: Table<K>, n: nat)
    requires ByCountDesc(t)
    ensures var r := Tail(t, n);
      forall i, j :: 0 <= i < |r| && 0 <= j < |t| - |r| ==> r[i].count <= t[j].count
  {
    var r := Tail(t, n);
    forall i, j | 0 <= i < |r| && 0 <= j < |t| - |r|
      ensures r[i].count <= t[j].count
    {
      assert r[i] == t[|t| - |r| + i];
    }
  }

  /** `t[t > q]`: the entries whose count exceeds `q`, in table order. */
  function Above<K(==,!new)>(t: Table<K>, q: real): (r: Table<K>)
    ensures |r| <= |t|
    ensures forall e :: e in r <==> e in t && e.count as real > q
  {
    if t == [] then []
    else
      var rest := Above(t[1..], q);
      assert forall e :: e in t <==> e == t[0] || e in t[1..];
      if t[0].count as real > q then [t[0]] + rest else rest
  }

  /** The positions the mask `t > q` selects, from first to last. */
  function Kept<K>(t: Table<K>, q: real): seq<nat> {
    if t == [] then []
    else
      var rest := Shift(Kept(t[1..], q));
      if t[0].count as real > q then [0] + rest else rest
  }

  /** Positions in the rest of a table, as positions in the whole table. */
  function Shift(s: seq<nat>): (r: seq<nat>)
    ensures |r| == |s| && forall k :: 0 <= k < |s| ==> r[k] == s[k] + 1
  {
    seq(|s|, k requires 0 <= k < |s| => s[k] + 1)
  }

  /** Positions in strictly increasing order. */
  predicate Increasing(s: seq<nat>) {
    forall k, l :: 0 <= k < l < |s| ==> s[k] < s[l]
  }

  /** `r` holds the entries of `t` at the positions `ks`, one for one. */
  predicate Picks<K(==)>(r: Table<K>, t: Table<K>, ks: seq<nat>) {
    |ks| == |r| && forall k :: 0 <= k < |ks| ==> ks[k] < |t| && r[k] == t[ks[k]]
  }

  /**
   * `t[t > q]` keeps the entries at exactly the positions whose count
   * exceeds `q`, in increasing order of position: the k-th entry kept is
   * the entry at the k-th such position.
   */
  lemma AboveKept<K(!new)>(t: Table<K>, q: real)
    ensures Picks(Above(t, q), t, Kept(t, q)) && Increasing(Kept(t, q))
    ensures forall i :: 0 <= i < |t| ==> (i in Kept(t, q) <==> t[i].count as real > q)
  {
    KeptPicks(t, q);
    KeptPositions(t, q);
  }

  /** The mask's entries are those at the kept positions, which increase. */
  lemma {:induction false} KeptPicks<K(!new)>(t: Table<K>, q: real)
    ensures Picks(Above(t, q), t, Kept(t, q)) && Increasing(Kept(t, q))
  {
    if t != [] {
      KeptPicks(t[1..], q);
      assert t == [t[0]] + t[1..];
      ShiftIncreasing(Kept(t[1..], q));
      ShiftPicks(t[0], Above(t[1..], q), t[1..], Kept(t[1..], q));
    }
  }

  /** A position is kept exactly when its count exceeds the threshold. */
  lemma {:induction false} KeptPositions<K>(t: Table<K>, q: real)
    ensures forall i :: 0 <= i < |t| ==> (i in Kept(t, q) <==> t[i].count as real > q)
  {
    if t != [] {
      KeptPositions(t[1..], q);
      ShiftIn(Kept(t[1..], q));
      forall i | 0 <= i < |t|
        ensures i in Kept(t, q) <==> t[i].count as real > q
      {
        if i > 0 {
          assert t[1..][i - 1] == t[i];
        }
      }
    }
  }

  /** Moving increasing positions one place on keeps them increasing, with room for 0 in front. */
  lemma ShiftIncreasing(s: seq<nat>)
    requires Increasing(s)
    ensures Increasing(Shift(s)) && Increasing([0] + Shift(s))
  {
    var sh := Shift(s);
    forall k, l | 0 <= k < l < |[0] + sh|
      ensures ([0] + sh)[k] < ([0] + sh)[l]
    {
      assert ([0] + sh)[l] == s[l - 1] + 1;
      if k > 0 {
        assert ([0] + sh)[k] == s[k - 1] + 1;
      }
    }
  }

  /** Putting an entry in front moves every picked position one place on. */
  lemma ShiftPicks<K>(x: Entry<K>, r: Table<K>, t: Table<K>, ks: seq<nat>)
    requires Picks(r, t, ks)
    ensures Picks(r, [x] + t, Shift(ks)) && Picks([x] + r, [x] + t, [0] + Shift(ks))
  {
  }

  /** A moved position is one place after a position of the rest; none of them is 0. */
  lemma ShiftIn(ks: seq<nat>)
    ensures 0 !in Shift(ks) && 0 in [0] + Shift(ks)
    ensures forall i :: i in Shift(ks) <==> i >= 1 && i - 1 in ks
  {
    var sh := Shift(ks);
    forall i | i >= 1 && i - 1 in ks
      ensures i in sh
    {
      var k :| 0 <= k < |ks| && ks[k] == i - 1;
      assert sh[k] == i;
    }
  }

  /** On a table sorted by count, the entries above a threshold are a leading part of it. */
  lemma {:induction false} AbovePrefix<K(!new)>(t: Table<K>, q: real)
    requires ByCountDesc(t)
    ensures Above(t, q) == t[..|Above(t, q)|]
  {
    if t != [] {
      var rest := Above(t[1..], q);
      if t[0].count as real > q {
        AbovePrefix(t[1..], q);
        assert Above(t, q) == [t[0]] + rest;
        assert [t[0]] + t[1..][..|rest|] == t[..|rest| + 1];
      } else {
        AboveNone(t[1..], q);
      }
    }
  }

  /** Nothing is above a threshold no count exceeds. */
  lemma {:induction false} AboveNone<K(!new)>(t: Table<K>, q: real)
    requires forall i :: 0 <= i < |t| ==> t[i].count as real <= q
    ensures Above(t, q) == []
  {
    if t != [] {
      AboveNone(t[1..], q);
    }
  }

  /** The filter looks at the first entry and then at the rest. */
  lemma AboveCons<K(!new)>(x: Entry<K>, rest: Table<K>, q: real)
    ensures Above([x] + rest, q) == if x.count as real > q then [x] + Above(rest, q) else Above(rest, q)
  {
    assert ([x] + rest)[1..] == rest;
  }
}
