/** The movie catalog: the table of rows loaded from `movie_list.pkl`, read-only after start-up. */
module Catalog {
  import opened Wrappers

  /** One catalog row: the TMDb identifier and the displayed title. */
  datatype Movie = Movie(id: int, title: string)

  /**
   * The position of the first row whose title equals `title`, or None when no row has it.
   * The catalog keeps its default row labels 0..n-1, so this position is also the row label
   * that `movies[movies['title'] == movie].index[0]` yields.
   */
  function FirstIndexOf(movies: seq<Movie>, title: string): (r: Option<nat>)
    ensures r.None? <==> forall k :: 0 <= k < |movies| ==> movies[k].title != title
    ensures r.Some? ==> r.value < |movies| && movies[r.value].title == title
    ensures r.Some? ==> forall k :: 0 <= k < r.value ==> movies[k].title != title
  {
    if movies == [] then None
    else if movies[0].title == title then Some(0)
    else match FirstIndexOf(movies[1..], title)
      case None => None
      case Some(i) => Some(i + 1)
  }
}
