/**
 * The movie table's derived columns (recommender.py, `_load_movielens`):
 * the normalised title, the year-less base title, and the genre list and
 * genre string read off the 0/1 genre flags in catalog order.
 */
module Catalog {
  import opened Seqs
  import opened PyStr

  /** A parsed `u.item` row: id, title and one flag per catalog genre. */
  datatype RawMovie = RawMovie(movieId: int, title: string, flags: seq<int>)

  /** A row of the `movies` table with its derived text columns. */
  datatype Movie = Movie(
    movieId: int,
    title: string,
    flags: seq<int>,
    titleNorm: string,
    titleBase: string,
    genresList: seq<string>,
    genresStr: string)

  /** Positions of the genres whose flag is 1, ascending. */
  function FlagIndices(flags: seq<int>): seq<nat>
  {
    Where(seq(|flags|, i requires 0 <= i < |flags| => flags[i] == 1))
  }

  /** The catalog genres whose flag is 1, in catalog order. */
  function GenresList(genres: seq<string>, flags: seq<int>): (r: seq<string>)
    requires |flags| == |genres|
    ensures |r| == |FlagIndices(flags)| && StrictlyIncreasing(FlagIndices(flags))
    ensures forall k :: 0 <= k < |r| ==> r[k] == genres[FlagIndices(flags)[k]]
    ensures forall g :: g in r <==> exists i :: 0 <= i < |genres| && genres[i] == g && flags[i] == 1
  {
    var mask := seq(|flags|, i requires 0 <= i < |flags| => flags[i] == 1);
    var idx := FlagIndices(flags);
    var r := seq(|idx|, k requires 0 <= k < |idx| => genres[idx[k]]);
    assert forall i :: 0 <= i < |genres| && flags[i] == 1 ==> mask[i] && i in idx;
    assert forall k :: 0 <= k < |idx| ==> genres[idx[k]] == r[k];
    r
  }

  /** `" ".join(xs) if xs else "unknown"`. */
  function GenresStr(xs: seq<string>): string
  {
    if xs == [] then "unknown" else Join(xs, " ")
  }

  /** Genre names without spaces can be read back from the genre string. */
  lemma GenresStrSplits(xs: seq<string>)
    requires xs != []
    requires forall k :: 0 <= k < |xs| ==> ' ' !in xs[k]
    ensures Split(GenresStr(xs), ' ') == xs
  {
    SplitJoin(xs, ' ');
  }

  lemma LowerKeepsStripped(s: string)
    requires Stripped(s)
    ensures Stripped(Lower(s))
  {
  }

  /** The derived columns of one row (`title_norm`, `title_base`, `genres_list`, `genres_str`). */
  function DeriveMovie(raw: RawMovie, genres: seq<string>): (m: Movie)
    requires |raw.flags| == |genres|
    ensures m.movieId == raw.movieId && m.title == raw.title && m.flags == raw.flags
    ensures Normal(m.titleNorm)
    ensures Lowered(m.titleBase) && Stripped(m.titleBase)
    ensures forall g :: g in m.genresList <==> exists i :: 0 <= i < |genres| && genres[i] == g && raw.flags[i] == 1
    ensures m.genresList == [] ==> m.genresStr == "unknown"
    ensures m.titleNorm == Norm(raw.title) && m.titleBase == Lower(StripYear(raw.title))
    ensures m.genresList == GenresList(genres, raw.flags) && m.genresStr == GenresStr(m.genresList)
  {
    LowerKeepsStripped(StripYear(raw.title));
    var gl := GenresList(genres, raw.flags);
    Movie(raw.movieId, raw.title, raw.flags, Norm(raw.title), Lower(StripYear(raw.title)), gl, GenresStr(gl))
  }

  /** The base title has no "(dddd)" year left at its end, whatever the spacing around it. */
  lemma BaseTitleDropsYear(raw: RawMovie, genres: seq<string>, a: string, w1: string, year: string, w2: string)
    requires |raw.flags| == |genres|
    requires AllSpace(w1) && AllSpace(w2)
    requires |year| == 4 && forall i :: 0 <= i < 4 ==> IsDigit(year[i])
    requires raw.title == a + w1 + "(" + year + ")" + w2
    ensures DeriveMovie(raw, genres).titleBase == Lower(Strip(a))
  {
    YearSuffixRemoved(a, w1, year, w2);
  }

  /** The text the content model vectorises: base title and genre string. */
  function ContentText(m: Movie): string
  {
    m.titleBase + " " + m.genresStr
  }
}
