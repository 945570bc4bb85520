/**
 * `recommend(movie)`: look the title up in the catalog, rank every column of its similarity
 * row, skip rank 0 (normally the movie itself) and return the titles and poster URLs of
 * ranks 1 to 5 as two parallel lists.
 */
module Recommender {
  import opened Wrappers
  import opened Catalog
  import opened Ranking

  /** The failure `recommend` can meet: the title is in no catalog row (`.index[0]` raises). */
  datatype Error = TitleNotFound

  /** The two parallel lists `recommend` returns. */
  datatype Recommendation = Recommendation(names: seq<string>, posters: seq<string>)

  /** The fixed image base URL that `fetch_poster` prefixes to TMDb's `poster_path`. */
  const PosterBase: string := "https://image.tmdb.org/t/p/w500/"

  /**
   * `fetch_poster(movie_id)`: the metadata lookup is the parameter `posterPath`, which stands
   * for the `poster_path` field of TMDb's answer for that id.
   */
  function FetchPoster(posterPath: int -> string, id: int): (url: string)
    ensures |url| == |PosterBase| + |posterPath(id)|
    ensures url[..|PosterBase|] == PosterBase && url[|PosterBase|..] == posterPath(id)
  {
    PosterBase + posterPath(id)
  }

  /** Python's `s[lo:hi]` for non-negative bounds: both bounds are clamped to `|s|`, so it never fails. */
  function Slice<T>(s: seq<T>, lo: nat, hi: nat): (r: seq<T>)
    ensures |r| == Max(0, Min(hi, |s|) - lo)
    ensures forall k :: 0 <= k < |r| ==> r[k] == s[lo + k]
  {
    var l, h := Min(lo, |s|), Min(hi, |s|);
    if h <= l then [] else s[l..h]
  }

  /** `distances[1:6]`: the entries of ranks 1 to 5 of the ranking of `row`. */
  function Selected(row: seq<int>): seq<Entry>
  {
    Slice(SortByScore(Enumerate(row)), 1, 6)
  }

  /** What `distances[1:6]` holds: ranks 1..5 in order, at most five, best first, ties by index. */
  lemma SelectedOfRow(row: seq<int>)
    ensures var sel, r := Selected(row), SortByScore(Enumerate(row));
      && |sel| == Min(5, Max(0, |row| - 1))
      && (forall k :: 0 <= k < |sel| ==> sel[k] == r[k + 1])
      && (forall k :: 0 <= k < |sel| ==> sel[k].index < |row| && sel[k].score == row[sel[k].index])
      && (forall p, q :: 0 <= p < q < |sel| ==> sel[p].index != sel[q].index)
      && (forall k :: 0 <= k < |sel| - 1 ==> sel[k].score >= sel[k + 1].score)
      && (forall p, q :: 0 <= p < q < |sel| && sel[p].score == sel[q].score ==> sel[p].index < sel[q].index)
  {
    SortByScoreOfRow(row);
  }

  /**
   * No column ranked after the selection beats a selected one: every column whose score is
   * above that of the entry at rank k + 1 holds rank 0..k.
   */
  lemma SelectedAreBest(row: seq<int>, k: nat, j: nat)
    requires k < |Selected(row)| && j < |row|
    requires row[j] > Selected(row)[k].score
    ensures exists p :: 0 <= p <= k && SortByScore(Enumerate(row))[p].index == j
  {
    var r := SortByScore(Enumerate(row));
    SortByScoreOfRow(row);
    assert Entry(j, row[j]) in r;
    var p :| 0 <= p < |r| && r[p] == Entry(j, row[j]);
    if p > k {
      assert false;
    }
  }

  /** When a movie's self-similarity is strictly the highest in its row, it is not recommended. */
  lemma SelfNotSelected(row: seq<int>, self: nat)
    requires self < |row|
    requires forall j :: 0 <= j < |row| && j != self ==> row[j] < row[self]
    ensures forall k :: 0 <= k < |Selected(row)| ==> Selected(row)[k].index != self
  {
    var r := SortByScore(Enumerate(row));
    SortByScoreOfRow(row);
    SelectedOfRow(row);
    var p :| 0 <= p < |r| && r[p] == Entry(self, row[self]);
    if p != 0 {
      assert false;
    }
  }

  /**
   * A catalog A..F whose row for A scores 1.0, 0.9, 0.8, 0.5, 0.3, 0.1, in hundredths,
   * selects B, C, D, E, F in that order.
   */
  lemma DescendingRowExample()
    ensures Selected([100, 90, 80, 50, 30, 10])
         == [Entry(1, 90), Entry(2, 80), Entry(3, 50), Entry(4, 30), Entry(5, 10)]
  {
    var row := [100, 90, 80, 50, 30, 10];
    NonIncreasingRowKeepsOrder(row);
    assert Enumerate(row)[1..6] == [Entry(1, 90), Entry(2, 80), Entry(3, 50), Entry(4, 30), Entry(5, 10)];
  }

  /**
   * The loop of `recommend`: for each chosen entry, append the poster URL and the title of
   * the catalog row it names.
   */
  method BuildLists(movies: seq<Movie>, chosen: seq<Entry>, posterPath: int -> string)
    returns (lists: Recommendation)
    requires forall k :: 0 <= k < |chosen| ==> chosen[k].index < |movies|
    ensures |lists.names| == |chosen| == |lists.posters|
    ensures forall k :: 0 <= k < |chosen| ==>
      lists.names[k] == movies[chosen[k].index].title
      && lists.posters[k] == FetchPoster(posterPath, movies[chosen[k].index].id)
  {
    var names: seq<string> := [];
    var posters: seq<string> := [];
    for k := 0 to |chosen|
      invariant |names| == k && |posters| == k
      invariant forall t :: 0 <= t < k ==>
        names[t] == movies[chosen[t].index].title
        && posters[t] == FetchPoster(posterPath, movies[chosen[t].index].id)
    {
      var row := movies[chosen[k].index];
      posters := posters + [FetchPoster(posterPath, row.id)];
      names := names + [row.title];
    }
    lists := Recommendation(names, posters);
  }

  /**
   * `recommend(movie)` over the catalog `movies` and the square matrix `similarity`: look up,
   * rank, take `distances[1:6]` and build the two lists with `BuildLists`.
   */
  method Recommend(movies: seq<Movie>, similarity: seq<seq<int>>, movie: string, posterPath: int -> string)
    returns (result: Result<Recommendation, Error>)
    requires |similarity| == |movies|
    requires forall i :: 0 <= i < |similarity| ==> |similarity[i]| == |movies|
    ensures FirstIndexOf(movies, movie).None? <==> result == Err(TitleNotFound)
    ensures FirstIndexOf(movies, movie).Some? ==>
      var sel := Selected(similarity[FirstIndexOf(movies, movie).value]);
      && result.Ok?
      && |result.value.names| == |sel| == |result.value.posters|
      && |sel| == Min(5, |movies| - 1)
      && forall k :: 0 <= k < |sel| ==>
           sel[k].index < |movies|
           && result.value.names[k] == movies[sel[k].index].title
           && result.value.posters[k] == FetchPoster(posterPath, movies[sel[k].index].id)
  {
    var found := FirstIndexOf(movies, movie);
    if found.None? {
      return Err(TitleNotFound);
    }
    var index := found.value;
    var distances := Rank(similarity[index]);
    SelectedOfRow(similarity[index]);
    var chosen := Slice(distances, 1, 6);
    assert chosen == Selected(similarity[index]);
    var lists := BuildLists(movies, chosen, posterPath);
    result := Ok(lists);
  }
}
