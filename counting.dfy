/** `collections.Counter` and the two orderings the summaries sort its items by:
    descending by count (stable, so ties keep the Counter's first-occurrence order) for
    the `top_*` rankings, and ascending by value for the count-frequency tables. */
module Counting {
  import opened Seqs

  /** The distinct values of `s` in first-occurrence order: the key order of
      `Counter(s)`, which keeps insertion order. */
  function Distinct<T(==,!new)>(s: seq<T>): (d: seq<T>)
    ensures forall x :: x in d <==> x in s
    ensures NoDup(d)
    decreases |s|
  {
    if s == [] then []
    else
      var init := s[..|s| - 1];
      var d0 := Distinct(init);
      assert s == init + [s[|s| - 1]];
      if s[|s| - 1] in d0 then d0 else d0 + [s[|s| - 1]]
  }

  /** The values of `d` appear in `d` in the order of their first occurrence in `s`. */
  predicate InFirstOccurrenceOrder<T(==)>(s: seq<T>, d: seq<T>) {
    forall i, j :: 0 <= i < j < |d| ==> FirstIndex(s, d[i]) < FirstIndex(s, d[j])
  }

  lemma {:induction false} DistinctInOrder<T(!new)>(s: seq<T>)
    ensures InFirstOccurrenceOrder(s, Distinct(s))
    decreases |s|
  {
    if s != [] {
      var init := s[..|s| - 1];
      var x := s[|s| - 1];
      assert s == init + [x];
      DistinctInOrder(init);
      forall y | y in init
        ensures FirstIndex(s, y) == FirstIndex(init, y)
      {
        FirstIndexAppend(init, [x], y);
      }
      if x !in init {
        assert s[..|init|] == init;
        FirstIndexIs(s, x, |init|);
      }
    }
  }

  /** A list without repetitions has as many elements as its set. */
  lemma {:induction false} NoDupCardinality<T>(d: seq<T>)
    requires NoDup(d)
    ensures |set x | x in d| == |d|
    decreases |d|
  {
    if d != [] {
      var init := d[..|d| - 1];
      var x := d[|d| - 1];
      assert d == init + [x];
      NoDupCardinality(init);
      assert (set y | y in d) == (set y | y in init) + {x};
    }
  }

  /** Each value of `d` paired with its multiplicity in `m`. */
  function PairsWith<T>(d: seq<T>, m: multiset<T>): (ps: seq<(T, nat)>)
    ensures |ps| == |d|
    ensures forall i :: 0 <= i < |d| ==> ps[i] == (d[i], m[d[i]])
  {
    if d == [] then [] else [(d[0], m[d[0]])] + PairsWith(d[1..], m)
  }

  /** `Counter(s).items()`: each distinct value of `s` with its number of occurrences,
      in first-occurrence order. */
  function CounterItems<T(==,!new)>(s: seq<T>): seq<(T, nat)> {
    PairsWith(Distinct(s), multiset(s))
  }

  /** The tally loop behind `Counter(s)`: one pass that bumps the count of a known key or
      inserts a new key with count 1; the dictionary keeps its keys in insertion order. */
  method CountItems<T(==,!new)>(s: seq<T>) returns (items: seq<(T, nat)>)
    ensures items == CounterItems(s)
  {
    var keys, counts := Tally(s);
    TallyKeys(s, keys, counts);
    items := seq(|keys|, k requires 0 <= k < |keys| => (keys[k], counts[keys[k]]));
    TallyItems(s, keys, counts, items);
  }

  /** The loop itself: the keys in insertion order and the count of each. */
  method Tally<T(==,!new)>(s: seq<T>) returns (keys: seq<T>, counts: map<T, nat>)
    ensures keys == Distinct(s)
    ensures Counted(counts, s)
  {
    keys := [];
    counts := map[];
    var i := 0;
    while i < |s|
      invariant 0 <= i <= |s|
      invariant keys == Distinct(s[..i])
      invariant Counted(counts, s[..i])
    {
      var x := s[i];
      TallyNext(s, i, keys, counts);
      if x in counts {
        counts := counts[x := counts[x] + 1];
      } else {
        keys := keys + [x];
        counts := counts[x := 1];
      }
      i := i + 1;
    }
    assert s[..i] == s;
  }

  /** `counts` maps exactly the values of `prefix`, each to its number of occurrences. */
  ghost predicate Counted<T(!new)>(counts: map<T, nat>, prefix: seq<T>) {
    (forall x :: x in counts <==> x in prefix) &&
    forall x :: x in counts ==> counts[x] == multiset(prefix)[x]
  }

  /** Bumping a known key, or appending a new one with count 1, tallies one more value. */
  lemma TallyNext<T(!new)>(s: seq<T>, i: nat, keys: seq<T>, counts: map<T, nat>)
    requires i < |s| && keys == Distinct(s[..i]) && Counted(counts, s[..i])
    ensures s[i] in counts ==> Distinct(s[..i + 1]) == keys && Counted(counts[s[i] := counts[s[i]] + 1], s[..i + 1])
    ensures s[i] !in counts ==> Distinct(s[..i + 1]) == keys + [s[i]] && Counted(counts[s[i] := 1], s[..i + 1])
  {
    var prefix := s[..i + 1];
    assert prefix == s[..i] + [s[i]];
    assert prefix[..i] == s[..i];
    assert multiset(prefix) == multiset(s[..i]) + multiset{s[i]};
  }

  /** Every key of the finished tally has a count. */
  lemma TallyKeys<T(!new)>(s: seq<T>, keys: seq<T>, counts: map<T, nat>)
    requires keys == Distinct(s) && Counted(counts, s)
    ensures forall k :: 0 <= k < |keys| ==> keys[k] in counts
  {
  }

  /** The finished tally, read out in key order, is `Counter(s).items()`. */
  lemma TallyItems<T(!new)>(s: seq<T>, keys: seq<T>, counts: map<T, nat>, items: seq<(T, nat)>)
    requires keys == Distinct(s)
    requires Counted(counts, s)
    requires |items| == |keys| && forall k :: 0 <= k < |keys| ==> keys[k] in counts && items[k] == (keys[k], counts[keys[k]])
    ensures items == CounterItems(s)
  {
  }

  /** The values of a list of (value, count) pairs. */
  function Keys<T>(ps: seq<(T, nat)>): (ks: seq<T>)
    ensures |ks| == |ps|
    ensures forall i :: 0 <= i < |ps| ==> ks[i] == ps[i].0
  {
    seq(|ps|, i requires 0 <= i < |ps| => ps[i].0)
  }

  /** Sum of the counts of a list of (value, count) pairs. */
  function Total<T>(ps: seq<(T, nat)>): nat {
    if ps == [] then 0 else ps[0].1 + Total(ps[1..])
  }

  lemma {:induction false} TotalAppend<T>(a: seq<(T, nat)>, b: seq<(T, nat)>)
    ensures Total(a + b) == Total(a) + Total(b)
  {
    if a == [] {
      assert a + b == b;
    } else {
      assert (a + b)[1..] == a[1..] + b;
      TotalAppend(a[1..], b);
    }
  }

  /** Reordering a list does not change its total. */
  lemma {:induction false} TotalPermutation<T>(a: seq<(T, nat)>, b: seq<(T, nat)>)
    requires multiset(a) == multiset(b)
    ensures Total(a) == Total(b)
    decreases |a|
  {
    if a == [] {
      assert |multiset(b)| == 0;
    } else {
      var x := a[0];
      assert x in multiset(a);
      var k := FirstIndex(b, x);
      TotalRemove(b, k);
      DropFirst(a);
      TotalPermutation(a[1..], b[..k] + b[k + 1..]);
    }
  }

  /** Removing one entry removes it from the multiset and its count from the total. */
  lemma TotalRemove<T>(b: seq<(T, nat)>, k: nat)
    requires k < |b|
    ensures multiset(b[..k] + b[k + 1..]) == multiset(b) - multiset{b[k]}
    ensures Total(b) == Total(b[..k] + b[k + 1..]) + b[k].1
  {
    RemoveOne(b, k);
    TotalSplit(b, k);
    TotalAppend(b[..k], b[k + 1..]);
  }

  lemma DropFirst<T>(a: seq<T>)
    requires a != []
    ensures multiset(a[1..]) == multiset(a) - multiset{a[0]}
  {
    assert a == [a[0]] + a[1..];
  }

  lemma RemoveOne<T>(b: seq<T>, k: nat)
    requires k < |b|
    ensures multiset(b[..k] + b[k + 1..]) == multiset(b) - multiset{b[k]}
  {
    assert b == b[..k] + [b[k]] + b[k + 1..];
  }

  lemma TotalSplit<T>(b: seq<(T, nat)>, k: nat)
    requires k < |b|
    ensures Total(b) == Total(b[..k]) + b[k].1 + Total(b[k + 1..])
  {
    var x := b[k];
    assert b == (b[..k] + [x]) + b[k + 1..];
    TotalAppend(b[..k] + [x], b[k + 1..]);
    TotalAppend(b[..k], [x]);
    assert Total([x]) == x.1;
  }

  lemma {:induction false} PairsBump<T>(d: seq<T>, m: multiset<T>, x: T)
    requires NoDup(d)
    ensures Total(PairsWith(d, m + multiset{x})) == Total(PairsWith(d, m)) + (if x in d then 1 else 0)
  {
    if d != [] {
      assert NoDup(d[1..]);
      PairsBump(d[1..], m, x);
      assert PairsWith(d, m)[1..] == PairsWith(d[1..], m);
      assert PairsWith(d, m + multiset{x})[1..] == PairsWith(d[1..], m + multiset{x});
      assert x in d <==> x == d[0] || x in d[1..];
      assert d[0] in d[1..] ==> false;
    }
  }

  /** The counts of `Counter(s)` add up to the length of `s`. */
  lemma {:induction false} CounterTotal<T(!new)>(s: seq<T>)
    ensures Total(CounterItems(s)) == |s|
    decreases |s|
  {
    if s != [] {
      var init := s[..|s| - 1];
      var x := s[|s| - 1];
      assert s == init + [x];
      CounterTotal(init);
      var d := Distinct(init);
      assert multiset(s) == multiset(init) + multiset{x};
      PairsBump(d, multiset(init), x);
      if x !in init {
        var ps := PairsWith(d, multiset(s));
        assert PairsWith(d + [x], multiset(s)) == ps + [(x, multiset(s)[x])];
        TotalAppend(ps, [(x, multiset(s)[x])]);
        assert Total([(x, multiset(s)[x])]) == 1;
      }
    }
  }

  /** `r` tallies `s`: every entry is a value of `s` with its number of occurrences, every
      value of `s` has an entry, and the counts add up to `|s|`. */
  ghost predicate Tallies<T(!new)>(r: seq<(T, nat)>, s: seq<T>) {
    && (forall i :: 0 <= i < |r| ==> r[i].0 in s && r[i].1 == multiset(s)[r[i].0])
    && (forall x :: x in s ==> x in Keys(r))
    && Total(r) == |s|
  }

  /** Any reordering of `Counter(s).items()` tallies `s`, and has one entry per distinct value. */
  lemma ReorderedItemsTally<T(!new)>(s: seq<T>, r: seq<(T, nat)>)
    requires multiset(r) == multiset(CounterItems(s))
    ensures Tallies(r, s)
    ensures |r| == |set x | x in s|
  {
    var items := CounterItems(s);
    var d := Distinct(s);
    forall i | 0 <= i < |r|
      ensures r[i].0 in s && r[i].1 == multiset(s)[r[i].0]
    {
      assert r[i] in multiset(items);
      var k :| 0 <= k < |items| && items[k] == r[i];
      assert d[k] in s;
    }
    forall x | x in s
      ensures x in Keys(r)
    {
      var k := FirstIndex(d, x);
      assert items[k] in multiset(r);
      var i :| 0 <= i < |r| && r[i] == items[k];
      assert Keys(r)[i] == x;
    }
    CounterTotal(s);
    TotalPermutation(r, items);
    assert |r| == |multiset(r)| == |multiset(items)| == |d|;
    NoDupCardinality(d);
    assert (set x | x in d) == (set x | x in s);
  }

  /** `a` ranks before `b` in a ranking of `s`: a higher count, or the same count and an
      earlier first occurrence in `s`. */
  predicate RanksBefore<T(==)>(s: seq<T>, a: (T, nat), b: (T, nat)) {
    a.1 > b.1 || (a.1 == b.1 && FirstIndex(s, a.0) < FirstIndex(s, b.0))
  }

  predicate Ranked<T(==)>(s: seq<T>, r: seq<(T, nat)>) {
    forall i, j :: 0 <= i < j < |r| ==> RanksBefore(s, r[i], r[j])
  }

  /** Inserts `p` before the first entry whose count is not larger. */
  function InsertByCount<T>(p: (T, nat), r: seq<(T, nat)>): seq<(T, nat)> {
    if r == [] || r[0].1 <= p.1 then [p] + r else [r[0]] + InsertByCount(p, r[1..])
  }

  /** `sorted(ps, key=lambda x: x[1], reverse=True)`: Python's sort is stable also when
      reversed, so entries with equal counts keep their order in `ps`. */
  function SortByCount<T>(ps: seq<(T, nat)>): seq<(T, nat)> {
    if ps == [] then [] else InsertByCount(ps[0], SortByCount(ps[1..]))
  }

  lemma RankedTail<T>(s: seq<T>, r: seq<(T, nat)>)
    requires Ranked(s, r) && r != []
    ensures Ranked(s, r[1..])
    ensures forall q :: q in r[1..] ==> RanksBefore(s, r[0], q)
  {
    forall i, j | 0 <= i < j < |r[1..]|
      ensures RanksBefore(s, r[1..][i], r[1..][j])
    {
      assert r[1..][i] == r[i + 1] && r[1..][j] == r[j + 1];
    }
  }

  lemma RankedCons<T>(s: seq<T>, p: (T, nat), r: seq<(T, nat)>)
    requires Ranked(s, r)
    requires forall q :: q in r ==> RanksBefore(s, p, q)
    ensures Ranked(s, [p] + r)
  {
    var out := [p] + r;
    forall i, j | 0 <= i < j < |out|
      ensures RanksBefore(s, out[i], out[j])
    {
      assert out[j] == r[j - 1];
      if i > 0 {
        assert out[i] == r[i - 1];
      }
    }
  }

  /** Inserting adds exactly the inserted entry. */
  lemma {:induction false} InsertPermutes<T>(p: (T, nat), r: seq<(T, nat)>)
    ensures multiset(InsertByCount(p, r)) == multiset(r) + multiset{p}
    decreases |r|
  {
    if r != [] && r[0].1 > p.1 {
      InsertPermutes(p, r[1..]);
      assert r == [r[0]] + r[1..];
    }
  }

  /** The sort by count is a permutation. */
  lemma {:induction false} SortPermutes<T>(ps: seq<(T, nat)>)
    ensures multiset(SortByCount(ps)) == multiset(ps)
  {
    if ps != [] {
      SortPermutes(ps[1..]);
      InsertPermutes(ps[0], SortByCount(ps[1..]));
      assert ps == [ps[0]] + ps[1..];
    }
  }

  lemma {:induction false} InsertRanked<T>(s: seq<T>, p: (T, nat), r: seq<(T, nat)>)
    requires Ranked(s, r)
    requires forall q :: q in r ==> FirstIndex(s, p.0) < FirstIndex(s, q.0)
    ensures Ranked(s, InsertByCount(p, r))
    decreases |r|
  {
    if r == [] {
      RankedCons(s, p, r);
    } else if r[0].1 <= p.1 {
      RankedTail(s, r);
      forall q | q in r
        ensures RanksBefore(s, p, q)
      {
      }
      RankedCons(s, p, r);
    } else {
      RankedTail(s, r);
      InsertRanked(s, p, r[1..]);
      var rest := InsertByCount(p, r[1..]);
      InsertPermutes(p, r[1..]);
      forall q | q in rest
        ensures RanksBefore(s, r[0], q)
      {
        assert q in multiset(rest);
      }
      RankedCons(s, r[0], rest);
    }
  }

  /** The entries of `ps` are listed in order of the first occurrence of their values in `s`. */
  predicate FirstOccurrenceOrdered<T(==)>(s: seq<T>, ps: seq<(T, nat)>) {
    forall i, j :: 0 <= i < j < |ps| ==> FirstIndex(s, ps[i].0) < FirstIndex(s, ps[j].0)
  }

  /** The first entry of a list in first-occurrence order precedes every later one. */
  lemma HeadFirst<T>(s: seq<T>, ps: seq<(T, nat)>)
    requires ps != [] && FirstOccurrenceOrdered(s, ps)
    ensures forall q :: q in ps[1..] ==> FirstIndex(s, ps[0].0) < FirstIndex(s, q.0)
    ensures FirstOccurrenceOrdered(s, ps[1..])
  {
    forall q | q in ps[1..]
      ensures FirstIndex(s, ps[0].0) < FirstIndex(s, q.0)
    {
      var k :| 0 <= k < |ps[1..]| && ps[1..][k] == q;
      assert ps[k + 1] == q;
    }
    forall i, j | 0 <= i < j < |ps[1..]|
      ensures FirstIndex(s, ps[1..][i].0) < FirstIndex(s, ps[1..][j].0)
    {
      assert ps[1..][i] == ps[i + 1] && ps[1..][j] == ps[j + 1];
    }
  }

  /** Sorting a list in first-occurrence order by descending count ranks it: ties stay in
      first-occurrence order because the sort is stable. */
  lemma {:induction false} SortRanked<T>(s: seq<T>, ps: seq<(T, nat)>)
    requires FirstOccurrenceOrdered(s, ps)
    ensures Ranked(s, SortByCount(ps))
  {
    if ps != [] {
      var tail := ps[1..];
      HeadFirst(s, ps);
      SortRanked(s, tail);
      var rest := SortByCount(tail);
      SortPermutes(tail);
      forall q | q in rest
        ensures FirstIndex(s, ps[0].0) < FirstIndex(s, q.0)
      {
        assert q in multiset(rest);
      }
      InsertRanked(s, ps[0], rest);
    }
  }

  /** `r` is the frequency ranking of `s`: it tallies `s` (each distinct value once, with
      its multiplicity, counts summing to `|s|`) and lists the entries by descending
      count, equal counts in order of first occurrence in `s`. */
  ghost predicate IsRankingOf<T(!new)>(r: seq<(T, nat)>, s: seq<T>) {
    Tallies(r, s) && Ranked(s, r)
  }

  /** `sorted(Counter(s).items(), key=lambda x: x[1], reverse=True)`, the `top_*` fields. */
  function Top<T(==,!new)>(s: seq<T>): (r: seq<(T, nat)>)
    ensures IsRankingOf(r, s)
    ensures |r| == |set x | x in s|
  {
    var items := CounterItems(s);
    DistinctInOrder(s);
    SortPermutes(items);
    SortRanked(s, items);
    ReorderedItemsTally(s, SortByCount(items));
    SortByCount(items)
  }

  /** Strictly increasing by value, so no value appears twice. */
  predicate StrictlyAscending(r: seq<(nat, nat)>) {
    forall i, j :: 0 <= i < j < |r| ==> r[i].0 < r[j].0
  }

  /** Inserts `p` before the first entry with a value not smaller. */
  function InsertByValue(p: (nat, nat), r: seq<(nat, nat)>): seq<(nat, nat)> {
    if r == [] || p.0 <= r[0].0 then [p] + r else [r[0]] + InsertByValue(p, r[1..])
  }

  /** `sorted(ps, key=lambda x: x[0])`. */
  function SortByValue(ps: seq<(nat, nat)>): seq<(nat, nat)> {
    if ps == [] then [] else InsertByValue(ps[0], SortByValue(ps[1..]))
  }

  lemma AscendingCons(p: (nat, nat), r: seq<(nat, nat)>)
    requires StrictlyAscending(r)
    requires forall q :: q in r ==> p.0 < q.0
    ensures StrictlyAscending([p] + r)
  {
    var out := [p] + r;
    forall i, j | 0 <= i < j < |out|
      ensures out[i].0 < out[j].0
    {
      assert out[j] == r[j - 1];
      if i > 0 {
        assert out[i] == r[i - 1];
      }
    }
  }

  lemma AscendingTail(r: seq<(nat, nat)>)
    requires StrictlyAscending(r) && r != []
    ensures StrictlyAscending(r[1..])
    ensures forall q :: q in r[1..] ==> r[0].0 < q.0
  {
    forall i, j | 0 <= i < j < |r[1..]|
      ensures r[1..][i].0 < r[1..][j].0
    {
      assert r[1..][i] == r[i + 1] && r[1..][j] == r[j + 1];
    }
  }

  /** Inserting adds exactly the inserted entry. */
  lemma {:induction false} InsertValuePermutes(p: (nat, nat), r: seq<(nat, nat)>)
    ensures multiset(InsertByValue(p, r)) == multiset(r) + multiset{p}
    decreases |r|
  {
    if r != [] && p.0 > r[0].0 {
      InsertValuePermutes(p, r[1..]);
      assert r == [r[0]] + r[1..];
    }
  }

  /** The sort by value is a permutation. */
  lemma {:induction false} SortValuePermutes(ps: seq<(nat, nat)>)
    ensures multiset(SortByValue(ps)) == multiset(ps)
  {
    if ps != [] {
      SortValuePermutes(ps[1..]);
      InsertValuePermutes(ps[0], SortByValue(ps[1..]));
      assert ps == [ps[0]] + ps[1..];
    }
  }

  lemma {:induction false} InsertAscending(p: (nat, nat), r: seq<(nat, nat)>)
    requires StrictlyAscending(r)
    requires forall q :: q in r ==> q.0 != p.0
    ensures StrictlyAscending(InsertByValue(p, r))
    decreases |r|
  {
    if r == [] {
      AscendingCons(p, r);
    } else {
      AscendingTail(r);
      if p.0 <= r[0].0 {
        AscendingCons(p, r);
      } else {
        InsertAscending(p, r[1..]);
        var rest := InsertByValue(p, r[1..]);
        InsertValuePermutes(p, r[1..]);
        forall q | q in rest
          ensures r[0].0 < q.0
        {
          assert q in multiset(rest);
        }
        AscendingCons(r[0], rest);
      }
    }
  }

  /** Values that are all different are sorted into strictly ascending order. */
  lemma {:induction false} SortAscending(ps: seq<(nat, nat)>)
    requires NoDup(Keys(ps))
    ensures StrictlyAscending(SortByValue(ps))
  {
    if ps != [] {
      var tail := ps[1..];
      assert NoDup(Keys(tail)) by {
        forall i, j | 0 <= i < j < |tail|
          ensures Keys(tail)[i] != Keys(tail)[j]
        {
          assert Keys(tail)[i] == Keys(ps)[i + 1] && Keys(tail)[j] == Keys(ps)[j + 1];
        }
      }
      SortAscending(tail);
      var rest := SortByValue(tail);
      SortValuePermutes(tail);
      forall q | q in rest
        ensures q.0 != ps[0].0
      {
        assert q in multiset(tail);
        var k :| 0 <= k < |tail| && tail[k] == q;
        assert Keys(ps)[0] == ps[0].0 && Keys(ps)[k + 1] == q.0;
      }
      InsertAscending(ps[0], rest);
    }
  }

  /** `r` is the count-frequency table of `counts`: it tallies `counts` (each count value
      once, with the number of records having it, summing to `|counts|`) in strictly
      ascending order of count value. */
  ghost predicate IsFrequencyTableOf(r: seq<(nat, nat)>, counts: seq<nat>) {
    Tallies(r, counts) && StrictlyAscending(r)
  }

  /** `sorted(Counter(counts).items(), key=lambda x: x[0])`, the `*_freq` fields. */
  function FrequencyTable(counts: seq<nat>): (r: seq<(nat, nat)>)
    ensures IsFrequencyTableOf(r, counts)
  {
    var items := CounterItems(counts);
    assert Keys(items) == Distinct(counts);
    SortValuePermutes(items);
    SortAscending(items);
    ReorderedItemsTally(counts, SortByValue(items));
    SortByValue(items)
  }
}
