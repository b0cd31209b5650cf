/**
 * The data bundle (recommender.py, `_load_movielens` from the parsed rows
 * on): the sorted user and movie id indices, the dense user-by-movie
 * rating matrix filled one rating row at a time, and the movie table cut
 * down to rated movies and relabelled by position.
 */
module Loader {
  import opened Seqs
  import opened Catalog

  /** A parsed `u.data` row (the timestamp is dropped). */
  datatype Rating = Rating(userId: int, movieId: int, rating: real)

  /** A movie row with its pandas index label. */
  datatype Labelled = Labelled(rowLabel: nat, movie: Movie)

  /** `DataBundle`: every table and matrix the recommender owns. */
  datatype DataBundle = DataBundle(
    movies: seq<Labelled>,
    ratings: seq<Rating>,
    genres: seq<string>,
    userItem: seq<seq<real>>,
    movieIndex: seq<int>,
    userIndex: seq<int>)

  function UserIds(ratings: seq<Rating>): (r: seq<int>)
    ensures |r| == |ratings| && forall t :: 0 <= t < |ratings| ==> r[t] == ratings[t].userId
  {
    seq(|ratings|, t requires 0 <= t < |ratings| => ratings[t].userId)
  }

  function MovieIds(ratings: seq<Rating>): (r: seq<int>)
    ensures |r| == |ratings| && forall t :: 0 <= t < |ratings| ==> r[t] == ratings[t].movieId
  {
    seq(|ratings|, t requires 0 <= t < |ratings| => ratings[t].movieId)
  }

  predicate RatesPair(r: Rating, u: int, m: int)
  {
    r.userId == u && r.movieId == m
  }

  /** The rating of the last row for user `u` and movie `m`, or 0 when there is none. */
  function LastRating(ratings: seq<Rating>, u: int, m: int): (v: real)
    ensures (forall t :: 0 <= t < |ratings| ==> !RatesPair(ratings[t], u, m)) ==> v == 0.0
  {
    if ratings == [] then 0.0
    else if RatesPair(ratings[|ratings| - 1], u, m) then ratings[|ratings| - 1].rating
    else LastRating(ratings[..|ratings| - 1], u, m)
  }

  /** Later duplicates win: the cell holds the rating of the last row for the pair. */
  lemma {:induction false} LastRowWins(ratings: seq<Rating>, u: int, m: int, t: nat)
    requires t < |ratings| && RatesPair(ratings[t], u, m)
    requires forall t' :: t < t' < |ratings| ==> !RatesPair(ratings[t'], u, m)
    ensures LastRating(ratings, u, m) == ratings[t].rating
  {
    if t < |ratings| - 1 {
      LastRowWins(ratings[..|ratings| - 1], u, m, t);
    }
  }

  predicate IsMatrix(M: seq<seq<real>>, rows: nat, cols: nat)
  {
    |M| == rows && forall u :: 0 <= u < rows ==> |M[u]| == cols
  }

  lemma LastRatingStep(ratings: seq<Rating>, t: nat, u: int, m: int)
    requires t < |ratings|
    ensures LastRating(ratings[..t + 1], u, m) ==
      if RatesPair(ratings[t], u, m) then ratings[t].rating else LastRating(ratings[..t], u, m)
  {
    assert ratings[..t + 1][..t] == ratings[..t];
  }

  /**
   * The id indices and the dense matrix: `M[u_map[user], i_map[movie]] = rating`
   * for each rating row in turn, starting from zeros.
   */
  method BuildUserItem(ratings: seq<Rating>) returns (userIndex: seq<int>, movieIndex: seq<int>, M: seq<seq<real>>)
    ensures userIndex == SortedUnique(UserIds(ratings)) && movieIndex == SortedUnique(MovieIds(ratings))
    ensures IsMatrix(M, |userIndex|, |movieIndex|)
    ensures forall u, j :: 0 <= u < |userIndex| && 0 <= j < |movieIndex| ==>
      M[u][j] == LastRating(ratings, userIndex[u], movieIndex[j])
  {
    userIndex := SortedUnique(UserIds(ratings));
    movieIndex := SortedUnique(MovieIds(ratings));
    var a := new real[|userIndex|, |movieIndex|]((_, _) => 0.0);
    for t := 0 to |ratings|
      invariant forall u, j :: 0 <= u < a.Length0 && 0 <= j < a.Length1 ==>
        a[u, j] == LastRating(ratings[..t], userIndex[u], movieIndex[j])
    {
      var r := ratings[t];
      assert UserIds(ratings)[t] == r.userId && MovieIds(ratings)[t] == r.movieId;
      var pu := IndexOf(userIndex, r.userId);
      var pm := IndexOf(movieIndex, r.movieId);
      a[pu, pm] := r.rating;
      forall u, j | 0 <= u < a.Length0 && 0 <= j < a.Length1
        ensures a[u, j] == LastRating(ratings[..t + 1], userIndex[u], movieIndex[j])
      {
        LastRatingStep(ratings, t, userIndex[u], movieIndex[j]);
        if RatesPair(r, userIndex[u], movieIndex[j]) {
          IncreasingInjective(userIndex, u, pu);
          IncreasingInjective(movieIndex, j, pm);
        }
      }
    }
    assert ratings[..|ratings|] == ratings;
    M := seq(|userIndex|, u requires 0 <= u < |userIndex| reads a =>
           seq(|movieIndex|, j requires 0 <= j < |movieIndex| reads a => a[u, j]));
  }

  function RowIds(rows: seq<Labelled>): (r: seq<int>)
    ensures |r| == |rows| && forall k :: 0 <= k < |rows| ==> r[k] == rows[k].movie.movieId
  {
    seq(|rows|, k requires 0 <= k < |rows| => rows[k].movie.movieId)
  }

  function TableIds(movies: seq<Movie>): (r: seq<int>)
    ensures |r| == |movies| && forall k :: 0 <= k < |movies| ==> r[k] == movies[k].movieId
  {
    seq(|movies|, k requires 0 <= k < |movies| => movies[k].movieId)
  }

  /**
   * `movies[movies.movie_id.isin(movie_index)]` relabelled by position in
   * `movie_index`: each kept row's label points back at its id.
   */
  function KeepMovies(movies: seq<Movie>, movieIndex: seq<int>): (r: seq<Labelled>)
    requires StrictlyIncreasing(movieIndex)
    ensures |r| <= |movies|
    ensures forall k :: 0 <= k < |r| ==> r[k].rowLabel < |movieIndex| && movieIndex[r[k].rowLabel] == r[k].movie.movieId
  {
    if movies == [] then []
    else
      var rest := KeepMovies(movies[..|movies| - 1], movieIndex);
      var m := movies[|movies| - 1];
      if m.movieId in movieIndex then rest + [Labelled(IndexOf(movieIndex, m.movieId), m)] else rest
  }

  /** The kept rows are exactly the table rows whose id was rated. */
  lemma {:induction false} KeepMoviesMembers(movies: seq<Movie>, movieIndex: seq<int>)
    requires StrictlyIncreasing(movieIndex)
    ensures forall k :: 0 <= k < |KeepMovies(movies, movieIndex)| ==> KeepMovies(movies, movieIndex)[k].movie in movies
    ensures forall m :: m in movies && m.movieId in movieIndex ==>
      exists k :: 0 <= k < |KeepMovies(movies, movieIndex)| && KeepMovies(movies, movieIndex)[k].movie == m
  {
    if movies != [] {
      var init := movies[..|movies| - 1];
      KeepMoviesMembers(init, movieIndex);
      var rest := KeepMovies(init, movieIndex);
      var r := KeepMovies(movies, movieIndex);
      assert forall k :: 0 <= k < |rest| ==> r[k] == rest[k];
      assert forall x :: x in init ==> x in movies;
      forall m | m in movies && m.movieId in movieIndex
        ensures exists k :: 0 <= k < |r| && r[k].movie == m
      {
        if m in init {
          var k :| 0 <= k < |rest| && rest[k].movie == m;
          assert r[k].movie == m;
        } else {
          assert m == movies[|movies| - 1];
          assert r[|rest|].movie == m;
        }
      }
    }
  }

  /** Filtering keeps table order: sorted ids stay sorted. */
  lemma {:induction false} KeepMoviesSorted(movies: seq<Movie>, movieIndex: seq<int>)
    requires StrictlyIncreasing(movieIndex) && StrictlyIncreasing(TableIds(movies))
    ensures StrictlyIncreasing(RowIds(KeepMovies(movies, movieIndex)))
  {
    if movies != [] {
      var init := movies[..|movies| - 1];
      var last := movies[|movies| - 1];
      assert TableIds(init) == TableIds(movies)[..|movies| - 1];
      KeepMoviesSorted(init, movieIndex);
      KeepMoviesMembers(init, movieIndex);
      var rest := KeepMovies(init, movieIndex);
      var ids := RowIds(rest);
      forall k | 0 <= k < |ids|
        ensures ids[k] < last.movieId
      {
        var i :| 0 <= i < |init| && init[i] == rest[k].movie;
        assert TableIds(movies)[i] < TableIds(movies)[|movies| - 1];
      }
      if last.movieId in movieIndex {
        var r := KeepMovies(movies, movieIndex);
        assert RowIds(r) == ids + [last.movieId];
        IncreasingSnoc(ids, last.movieId);
      }
    }
  }

  /**
   * When the item table is sorted by id and holds every rated id, the kept
   * rows are exactly `movie_index` in order and row `k` carries label `k`:
   * row order and label order agree.
   */
  lemma KeptRowsAligned(movies: seq<Movie>, movieIndex: seq<int>)
    requires StrictlyIncreasing(movieIndex) && StrictlyIncreasing(TableIds(movies))
    requires forall id :: id in movieIndex ==> id in TableIds(movies)
    ensures |KeepMovies(movies, movieIndex)| == |movieIndex|
    ensures forall k :: 0 <= k < |movieIndex| ==>
      KeepMovies(movies, movieIndex)[k].rowLabel == k && KeepMovies(movies, movieIndex)[k].movie.movieId == movieIndex[k]
  {
    var r := KeepMovies(movies, movieIndex);
    var ids := RowIds(r);
    KeepMoviesMembers(movies, movieIndex);
    KeepMoviesSorted(movies, movieIndex);
    forall id
      ensures id in ids <==> id in movieIndex
    {
      if id in ids {
        var k :| 0 <= k < |r| && ids[k] == id;
        assert movieIndex[r[k].rowLabel] == id;
      }
      if id in movieIndex {
        var i :| 0 <= i < |movies| && TableIds(movies)[i] == id;
        assert movies[i] in movies;
        var k :| 0 <= k < |r| && r[k].movie == movies[i];
        assert ids[k] == id;
      }
    }
    IncreasingUnique(ids, movieIndex);
    forall k | 0 <= k < |movieIndex|
      ensures r[k].rowLabel == k
    {
      IncreasingInjective(movieIndex, r[k].rowLabel, k);
    }
  }

  predicate RawValid(genres: seq<string>, raw: seq<RawMovie>)
  {
    forall i :: 0 <= i < |raw| ==> |raw[i].flags| == |genres|
  }

  /** The `movies` table with its derived columns, one row per parsed row. */
  function DeriveAll(genres: seq<string>, raw: seq<RawMovie>): (r: seq<Movie>)
    requires RawValid(genres, raw)
    ensures |r| == |raw| && forall i :: 0 <= i < |raw| ==> r[i] == DeriveMovie(raw[i], genres)
    ensures forall i :: 0 <= i < |raw| ==> |r[i].flags| == |genres|
  {
    seq(|raw|, i requires 0 <= i < |raw| => DeriveMovie(raw[i], genres))
  }

  /** The bundle's structural invariant: indices sorted, rows aligned with `movie_index`. */
  predicate Aligned(b: DataBundle)
  {
    && StrictlyIncreasing(b.userIndex) && StrictlyIncreasing(b.movieIndex)
    && Distinct(b.genres)
    && IsMatrix(b.userItem, |b.userIndex|, |b.movieIndex|)
    && |b.movies| == |b.movieIndex|
    && forall k :: 0 <= k < |b.movies| ==>
         b.movies[k].rowLabel == k && b.movies[k].movie.movieId == b.movieIndex[k] &&
         |b.movies[k].movie.flags| == |b.genres|
  }

  /** Every cell of the dense matrix holds the last rating given for its pair, or 0. */
  predicate Filled(b: DataBundle)
  {
    && IsMatrix(b.userItem, |b.userIndex|, |b.movieIndex|)
    && forall u, j :: 0 <= u < |b.userIndex| && 0 <= j < |b.movieIndex| ==>
         b.userItem[u][j] == LastRating(b.ratings, b.userIndex[u], b.movieIndex[j])
  }

  /** The item table is sorted by id and holds every rated id. */
  predicate CoversRatings(movies: seq<Movie>, ratings: seq<Rating>)
  {
    StrictlyIncreasing(TableIds(movies)) &&
    forall t :: 0 <= t < |ratings| ==> ratings[t].movieId in TableIds(movies)
  }

  lemma BundleAligned(b: DataBundle, movies: seq<Movie>)
    requires StrictlyIncreasing(b.userIndex) && b.movieIndex == SortedUnique(MovieIds(b.ratings))
    requires IsMatrix(b.userItem, |b.userIndex|, |b.movieIndex|)
    requires Distinct(b.genres) && CoversRatings(movies, b.ratings)
    requires forall i :: 0 <= i < |movies| ==> |movies[i].flags| == |b.genres|
    requires b.movies == KeepMovies(movies, b.movieIndex)
    ensures Aligned(b)
  {
    forall id | id in b.movieIndex
      ensures id in TableIds(movies)
    {
      var t :| 0 <= t < |b.ratings| && MovieIds(b.ratings)[t] == id;
    }
    KeptRowsAligned(movies, b.movieIndex);
    KeepMoviesMembers(movies, b.movieIndex);
    forall k | 0 <= k < |b.movies|
      ensures |b.movies[k].movie.flags| == |b.genres|
    {
      var m := b.movies[k].movie;
      var i :| 0 <= i < |movies| && movies[i] == m;
    }
  }

  /** `_load_movielens` from the parsed genre list, item rows and rating rows. */
  method LoadMovieLens(genres: seq<string>, raw: seq<RawMovie>, ratings: seq<Rating>) returns (b: DataBundle)
    requires RawValid(genres, raw)
    ensures b.genres == genres && b.ratings == ratings
    ensures b.userIndex == SortedUnique(UserIds(ratings)) && b.movieIndex == SortedUnique(MovieIds(ratings))
    ensures Filled(b)
    ensures b.movies == KeepMovies(DeriveAll(genres, raw), b.movieIndex)
    ensures Distinct(genres) && CoversRatings(DeriveAll(genres, raw), ratings) ==> Aligned(b)
  {
    var userIndex, movieIndex, M := BuildUserItem(ratings);
    var movies := DeriveAll(genres, raw);
    b := DataBundle(KeepMovies(movies, movieIndex), ratings, genres, M, movieIndex, userIndex);
    assert Filled(b);
    if Distinct(genres) && CoversRatings(movies, ratings) {
      assert forall i :: 0 <= i < |movies| ==> |movies[i].flags| == |genres|;
      BundleAligned(b, movies);
    }
  }
}
