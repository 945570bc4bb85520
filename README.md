# Movie recommender: the ranking rule, in Dafny

This project models the logic of a small Streamlit movie recommender. Given a movie title,
`recommend` finds the title's first row in the catalog. It pairs every column of that row of
the precomputed similarity matrix with its score, using `enumerate`. It sorts the pairs by
score, highest first, with Python's stable `sorted(..., reverse=True)`. It drops rank 0,
which is normally the movie itself, and takes ranks 1 to 5. It returns the titles and the
poster URLs of those movies as two parallel lists. The page also keeps a dark-mode flag in
its session state, which a checkbox toggles.

Modules:

- `Wrappers` (wrappers.dfy): `Option`, `Result`, `Min`, `Max`.
- `Catalog` (catalog.dfy): the `Movie` row and the first-match title lookup.
- `Ranking` (ranking.dfy): the ranking. It has two parts:
  - a specification function `SortByScore`, a stable insertion sort by score;
  - an in-place insertion sort `SortInPlace` over an `array<Entry>`, proved equal to that function.
- `Recommender` (recommender.dfy): Python's clamping slice `distances[1:6]`, the selection, and
  the `Recommend` method with its loop that builds the title and poster lists.
- `Theme` (theme.dfy): the session state's `dark_mode` entry and `toggle_theme`.

Scores are integers (for instance hundredths of the similarity), so they keep a total order.
The ordering "highest score first, equal scores by ascending column index" is called `Ahead`.
A sequence in which every entry is `Ahead` of every later one is `Ranked`. The sort compares
scores only, as the `key=lambda x: x[1]` does. That ties keep ascending index order is proved
from stability: the input `enumerate(row)` is in index order (`SortByScoreRanked`). A `Ranked`
order of a given set of entries is unique (`RankedUnique`). This lemma ties the array sort
to its specification function.

A title that is in no catalog row makes `.index[0]` raise in the source. The model returns
`Err(TitleNotFound)` there instead. The catalog is assumed to keep its default row labels
0..n-1, so the label that `.index[0]` yields is the row's position, and `.iloc` reads the
same row. The model requires the similarity matrix to be square, of the catalog's size, which is the
shape the artifacts have. This is the `requires` of `Recommend`. The source itself does not
check the shape. With other shapes it raises only sometimes: a missing row raises when that
row is looked up, and a row with more columns than the catalog has rows raises only when an
out-of-range column lands in ranks 1 to 5. A row with fewer columns raises nothing and ranks
only part of the catalog.

## Model

| member | source | states |
|---|---|---|
| Catalog.FirstIndexOf | app.py:18 | The result is None exactly when no row has the title. Otherwise it is a position whose row has the title, and no earlier row has it (first match). |
| Ranking.SortByScorePermutes | app.py:19 | The ranking is a permutation of its input: same multiset of (index, score) pairs, same length. |
| Ranking.SortByScoreRanked | app.py:19 | A stable sort by score alone, applied to an index-ordered input, puts higher scores first and equal scores in ascending index order. |
| Ranking.RankedUnique | app.py:19 | Two sequences that hold the same entries and are both ordered this way are equal, so the ranked order is fully determined. |
| Ranking.SortByScoreOfRow | app.py:19 | Ranking `enumerate(row)` gives every column 0..n-1 exactly once, each with its own score. Adjacent scores never increase, and equal scores appear in ascending index order. |
| Ranking.NonIncreasingRowKeepsOrder | app.py:19 | A row whose scores never increase from left to right is ranked in plain column order. |
| Ranking.Sink | app.py:19 | One insertion step. Entry i moves forward past strictly lower scores only. Afterwards the prefix 0..i is ranked, the suffix is unchanged, and the array is a permutation of before. |
| Ranking.SortInPlace | app.py:19 | The in-place sort leaves the array ranked and a permutation of its old contents, and equal to `SortByScore` of those contents. |
| Ranking.Rank | app.py:19 | `sorted(list(enumerate(row)), ...)` builds a fresh list: ranked, a permutation of `enumerate(row)`, and equal to the specification function. |
| Recommender.FetchPoster | app.py:12 | The URL is the fixed base `https://image.tmdb.org/t/p/w500/` followed by the abstract `poster_path` of the id, and nothing else. |
| Recommender.Slice | app.py:22 | Python slicing with non-negative bounds clamps to the length and never fails. The length is max(0, min(hi, n) - lo), and element k is element lo + k. |
| Recommender.SelectedOfRow | app.py:19-22 | `distances[1:6]` holds min(5, max(0, n-1)) entries, and they are exactly ranks 1.. in order. Each entry is a valid column with its own score, the columns are distinct, and the entries are ordered best first with ties by index. |
| Recommender.SelectedAreBest | app.py:19-22 | Any column scoring above the selected entry at rank k+1 holds one of the ranks 0..k. No movie ranked after the selection beats a selected one. |
| Recommender.SelfNotSelected | app.py:19-22 | If the queried row's own score is strictly above every other score in its row, that row is not among the results. |
| Recommender.DescendingRowExample | app.py:19-22 | For a catalog A..F whose row for A is 1.0, 0.9, 0.8, 0.5, 0.3, 0.1 (in hundredths), the selection is columns 1 to 5, that is B, C, D, E, F, in that order. |
| Recommender.BuildLists | app.py:20-25 | The two lists have one entry per chosen rank, and entry k of each comes from the same catalog row: its title, and `FetchPoster` of its id. |
| Recommender.Recommend | app.py:17-26 | A missing title gives `Err(TitleNotFound)`, and only a missing title does. Otherwise the two lists have equal length min(5, n-1), and entry k of either comes from the same selected row: the name is that row's title and the poster is `FetchPoster` of that row's id. |
| Theme.SessionState.constructor | app.py:187 | A new session has no `dark_mode` entry. |
| Theme.SessionState.InitDarkMode | app.py:187-188 | An absent entry becomes false. A present entry is kept. |
| Theme.SessionState.ToggleTheme | app.py:190-191 | The flag is negated. |
| Theme.ToggleTwice | app.py:190-191 | Toggling twice restores the original flag. |
| Theme.StartAndToggle | app.py:187-191 | A freshly initialised session is in light mode, and one toggle makes it dark. |

## Left out

- `fetch_poster` internals (app.py:8-13): the HTTP request to TMDb, JSON parsing and the API key are network I/O. The `poster_path` answer for an id is the parameter `posterPath: int -> string`. Only the concatenation with the fixed base URL (app.py:12) is modelled, in `FetchPoster`. Network and response errors are not modelled.
- `@st.cache_data` memoisation (app.py:7, app.py:16): a framework cache that affects performance only.
- `set_theme` (app.py:29-181): static CSS strings, a pure display concern.
- Page setup, selectbox, button, columns and card rendering (app.py:184-231): UI. The card loop reads results 0..4, so it needs a catalog of at least six rows. `Recommend` states that the lists then have exactly five entries.
- Loading `movie_list.pkl` and `similarity.pkl` (app.py:205-206): file I/O. The catalog and the matrix are immutable inputs.
- Floating-point similarity values: scores are integers with the same total order. Rounding and NaN are not modelled.
- Recommend: requires a square similarity matrix of the catalog's size, so it says nothing about other shapes. The source accepts them, ranks only the columns a row has, and raises only when a missing row is read or an out-of-range column is selected.
- pandas boolean masking, row labels and `.iloc` (app.py:18, app.py:23-25) are replaced by sequence indexing, with the default labels 0..n-1.
