/**
 * Ranking one row of the similarity matrix:
 * `sorted(list(enumerate(row)), reverse=True, key=lambda x: x[1])`.
 * The sort compares scores only and is stable, so entries with equal scores keep the order
 * they had in `enumerate`, which is ascending column index.
 */
module Ranking {

  /** One pair of `enumerate(row)`: a column index with its similarity score. */
  datatype Entry = Entry(index: nat, score: int)

  /** `list(enumerate(row))`: column k paired with row[k], in column order. */
  function Enumerate(row: seq<int>): seq<Entry>
  {
    seq(|row|, k requires 0 <= k < |row| => Entry(k, row[k]))
  }

  /** `x` comes strictly before `y` in a stable highest-score-first sort of an index-ordered input. */
  predicate Ahead(x: Entry, y: Entry)
  {
    x.score > y.score || (x.score == y.score && x.index < y.index)
  }

  /** Sorted by score, highest first, with equal scores in ascending index order. */
  predicate Ranked(s: seq<Entry>)
  {
    forall p, q :: 0 <= p < q < |s| ==> Ahead(s[p], s[q])
  }

  /** Column indices strictly increase along `s`, as they do along `enumerate(row)`. */
  predicate IndexOrdered(s: seq<Entry>)
  {
    forall p, q :: 0 <= p < q < |s| ==> s[p].index < s[q].index
  }

  /** Inserts `x` after every entry of `t` whose score is at least `x`'s, scanning from the end. */
  function InsertByScore(t: seq<Entry>, x: Entry): seq<Entry>
    decreases |t|
  {
    if t == [] || t[|t| - 1].score >= x.score then t + [x]
    else InsertByScore(t[..|t| - 1], x) + [t[|t| - 1]]
  }

  /** Stable sort by score, highest first: the specification of the ranking. */
  function SortByScore(s: seq<Entry>): seq<Entry>
  {
    if s == [] then [] else InsertByScore(SortByScore(s[..|s| - 1]), s[|s| - 1])
  }

  lemma {:induction false} InsertByScorePermutes(t: seq<Entry>, x: Entry)
    ensures multiset(InsertByScore(t, x)) == multiset(t) + multiset{x}
    decreases |t|
  {
    if t == [] || t[|t| - 1].score >= x.score {
    } else {
      var init, last := t[..|t| - 1], t[|t| - 1];
      assert t == init + [last];
      InsertByScorePermutes(init, x);
    }
  }

  /** The ranking is a permutation of its input. */
  lemma {:induction false} SortByScorePermutes(s: seq<Entry>)
    ensures multiset(SortByScore(s)) == multiset(s)
    ensures |SortByScore(s)| == |s|
  {
    if s != [] {
      var init, last := s[..|s| - 1], s[|s| - 1];
      assert s == init + [last];
      SortByScorePermutes(init);
      InsertByScorePermutes(SortByScore(init), last);
      assert |multiset(SortByScore(s))| == |multiset(s)|;
    }
  }

  lemma {:induction false} InsertByScoreRanked(t: seq<Entry>, x: Entry)
    requires Ranked(t)
    requires forall e :: e in t ==> e.index < x.index
    ensures Ranked(InsertByScore(t, x))
    decreases |t|
  {
    if t == [] || t[|t| - 1].score >= x.score {
      var r := t + [x];
      forall p, q | 0 <= p < q < |r| ensures Ahead(r[p], r[q]) {
        if q == |t| {
          assert r[p] in t;
          if p < |t| - 1 { assert Ahead(t[p], t[|t| - 1]); }
        }
      }
    } else {
      var init, last := t[..|t| - 1], t[|t| - 1];
      assert Ranked(init);
      InsertByScoreRanked(init, x);
      InsertByScorePermutes(init, x);
      var u := InsertByScore(init, x);
      var r := u + [last];
      forall p, q | 0 <= p < q < |r| ensures Ahead(r[p], r[q]) {
        if q == |u| {
          assert r[p] in multiset(u);
          if r[p] != x {
            assert r[p] in init;
            var k :| 0 <= k < |init| && init[k] == r[p];
            assert Ahead(t[k], t[|t| - 1]);
          }
        } else {
          assert r[p] == u[p] && r[q] == u[q];
        }
      }
    }
  }

  /** Sorting an index-ordered input by score alone yields a `Ranked` sequence: the sort is stable. */
  lemma {:induction false} SortByScoreRanked(s: seq<Entry>)
    requires IndexOrdered(s)
    ensures Ranked(SortByScore(s))
  {
    if s != [] {
      var init, last := s[..|s| - 1], s[|s| - 1];
      assert IndexOrdered(init);
      SortByScoreRanked(init);
      SortByScorePermutes(init);
      forall e | e in SortByScore(init) ensures e.index < last.index {
        assert e in multiset(SortByScore(init));
        assert e in init;
      }
      InsertByScoreRanked(SortByScore(init), last);
    }
  }

  /** Two non-empty `Ranked` sequences holding the same entries start with the same entry. */
  lemma RankedSameHead(a: seq<Entry>, b: seq<Entry>)
    requires Ranked(a) && Ranked(b) && a != [] && b != []
    requires multiset(a) == multiset(b)
    ensures a[0] == b[0]
  {
    assert a[0] in multiset(b) && b[0] in multiset(a);
    var i :| 0 <= i < |a| && a[i] == b[0];
    var j :| 0 <= j < |b| && b[j] == a[0];
    assert i != 0 ==> Ahead(a[0], a[i]);
    assert j != 0 ==> Ahead(b[0], b[j]);
  }

  /** Two `Ranked` sequences holding the same entries are equal: the ranked order is unique. */
  lemma {:induction false} RankedUnique(a: seq<Entry>, b: seq<Entry>)
    requires Ranked(a) && Ranked(b)
    requires multiset(a) == multiset(b)
    ensures a == b
    decreases |a|
  {
    assert |a| == |multiset(a)| == |multiset(b)| == |b|;
    if a != [] {
      RankedSameHead(a, b);
      var x := a[0];
      assert a == [x] + a[1..] && b == [x] + b[1..];
      assert multiset(a[1..]) == multiset(a) - multiset{x};
      assert multiset(b[1..]) == multiset(b) - multiset{x};
      RankedUnique(a[1..], b[1..]);
    }
  }

  /** What the ranking of a similarity row is: all its columns, highest score first, ties by index. */
  lemma SortByScoreOfRow(row: seq<int>)
    ensures var r := SortByScore(Enumerate(row));
      && |r| == |row|
      && Ranked(r)
      && (forall k :: 0 <= k < |r| ==> r[k].index < |row| && r[k].score == row[r[k].index])
      && (forall j :: 0 <= j < |row| ==> Entry(j, row[j]) in r)
      && (forall p, q :: 0 <= p < q < |r| ==> r[p].index != r[q].index)
      && (forall k :: 0 <= k < |r| - 1 ==> r[k].score >= r[k + 1].score)
      && (forall p, q :: 0 <= p < q < |r| && r[p].score == r[q].score ==> r[p].index < r[q].index)
  {
    var e := Enumerate(row);
    var r := SortByScore(e);
    SortByScorePermutes(e);
    SortByScoreRanked(e);
    forall k | 0 <= k < |r| ensures r[k].index < |row| && r[k].score == row[r[k].index] {
      assert r[k] in multiset(e);
    }
    forall j | 0 <= j < |row| ensures Entry(j, row[j]) in r {
      assert e[j] in multiset(r);
    }
    forall p, q | 0 <= p < q < |r| ensures r[p].index != r[q].index {
      assert Ahead(r[p], r[q]);
    }
    forall k | 0 <= k < |r| - 1 ensures r[k].score >= r[k + 1].score {
      assert Ahead(r[k], r[k + 1]);
    }
  }

  /** A row whose scores never increase left to right is ranked in column order. */
  lemma NonIncreasingRowKeepsOrder(row: seq<int>)
    requires forall p, q :: 0 <= p < q < |row| ==> row[p] >= row[q]
    ensures SortByScore(Enumerate(row)) == Enumerate(row)
  {
    var e := Enumerate(row);
    assert Ranked(e);
    SortByScorePermutes(e);
    SortByScoreRanked(e);
    RankedUnique(SortByScore(e), e);
  }

  /**
   * One step of the insertion sort: entry `i` moves towards the front past entries with a
   * strictly smaller score only, which keeps ties in input order.
   */
  method Sink(a: array<Entry>, i: nat)
    requires i < a.Length
    requires forall p, q :: 0 <= p < q < i ==> Ahead(a[p], a[q])
    requires forall p, q :: 0 <= p < i <= q < a.Length ==> a[p].index < a[q].index
    requires forall p, q :: i <= p < q < a.Length ==> a[p].index < a[q].index
    modifies a
    ensures forall p, q :: 0 <= p < q <= i ==> Ahead(a[p], a[q])
    ensures forall p, q :: 0 <= p <= i < q < a.Length ==> a[p].index < a[q].index
    ensures forall q :: i < q < a.Length ==> a[q] == old(a[q])
    ensures multiset(a[..]) == old(multiset(a[..]))
  {
    var j := i;
    while j > 0 && a[j - 1].score < a[j].score
      invariant 0 <= j <= i
      invariant forall p, q :: 0 <= p < q <= i && p != j && q != j ==> Ahead(a[p], a[q])
      invariant forall q :: j < q <= i ==> Ahead(a[j], a[q])
      invariant forall p :: 0 <= p <= i && p != j ==> a[p].index < a[j].index
      invariant forall p, q :: 0 <= p <= i < q < a.Length ==> a[p].index < a[q].index
      invariant forall q :: i < q < a.Length ==> a[q] == old(a[q])
      invariant multiset(a[..]) == old(multiset(a[..]))
    {
      a[j - 1], a[j] := a[j], a[j - 1];
      j := j - 1;
    }
  }

  /** Stable insertion sort by score, highest first, in place. */
  method SortInPlace(a: array<Entry>)
    requires IndexOrdered(a[..])
    modifies a
    ensures Ranked(a[..])
    ensures multiset(a[..]) == old(multiset(a[..]))
    ensures a[..] == SortByScore(old(a[..]))
  {
    ghost var input := a[..];
    var n := a.Length;
    var i := 0;
    while i < n
      invariant 0 <= i <= n
      invariant forall p, q :: 0 <= p < q < i ==> Ahead(a[p], a[q])
      invariant forall p, q :: 0 <= p < i <= q < n ==> a[p].index < a[q].index
      invariant forall q :: i <= q < n ==> a[q] == input[q]
      invariant multiset(a[..]) == multiset(input)
    {
      assert forall p, q :: i <= p < q < n ==> a[p].index < a[q].index by {
        assert IndexOrdered(input);
      }
      Sink(a, i);
      i := i + 1;
    }
    SortByScoreRanked(input);
    SortByScorePermutes(input);
    RankedUnique(a[..], SortByScore(input));
  }

  /** The ranking step of `recommend`: a fresh list of the row's pairs, sorted by `SortInPlace`. */
  method Rank(row: seq<int>) returns (ranked: seq<Entry>)
    ensures ranked == SortByScore(Enumerate(row))
    ensures |ranked| == |row| && Ranked(ranked)
    ensures multiset(ranked) == multiset(Enumerate(row))
  {
    var pairs := Enumerate(row);
    var a := new Entry[|pairs|](k requires 0 <= k < |pairs| => pairs[k]);
    assert a[..] == pairs;
    SortInPlace(a);
    ranked := a[..];
    SortByScorePermutes(pairs);
  }
}
