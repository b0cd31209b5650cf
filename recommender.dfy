/**
 * The recommender object (recommender.py, `HybridRecommender`). It owns the
 * data bundle, the content matrix and the item-item similarity, and it
 * answers title searches and recommendation queries.
 *
 * `CountVectorizer` with l2 row normalisation is a parameter (`vectorize`).
 * So is the Euclidean norm inside `cosine_similarity` (`norm`). Scores are
 * reals with the `-inf` sentinel of `Ranker.Score`.
 */
module Recommender {
  import opened Wrappers
  import opened Seqs
  import opened PyStr
  import opened Catalog
  import opened Loader
  import opened Collab
  import opened Ranker

  /** A `search_titles` row: `movie_id`, `title`. */
  datatype SearchRow = SearchRow(movieId: int, title: string)

  /** A `recommend_from_likes` row: `movie_id`, `title`, `score`, `why`. */
  datatype Recommendation = Recommendation(movieId: int, title: string, score: Score, why: string)

  /** A 2-D array: `n` rows, all of one width. */
  predicate Rect(M: seq<seq<real>>, n: nat)
  {
    |M| == n && forall i, j :: 0 <= i < n && 0 <= j < n ==> |M[i]| == |M[j]|
  }

  /** The vectoriser returns one row per text, all of one width. */
  ghost predicate VectorizerShape(vectorize: seq<string> -> seq<seq<real>>)
  {
    forall texts :: Rect(vectorize(texts), |texts|)
  }

  /** `title_base + " " + genres_str` for each row, in table order. */
  function Texts(rows: seq<Labelled>): (t: seq<string>)
    ensures |t| == |rows|
  {
    seq(|rows|, k requires 0 <= k < |rows| => ContentText(rows[k].movie))
  }

  /** The rows whose movie satisfies `p`, in table order (a boolean-mask selection). */
  function Select(rows: seq<Labelled>, p: Movie -> bool): (r: seq<Labelled>)
    ensures |r| <= |rows|
    ensures forall x :: x in r <==> x in rows && p(x.movie)
  {
    if rows == [] then []
    else
      var init := Select(rows[..|rows| - 1], p);
      var x := rows[|rows| - 1];
      assert forall y :: y in rows <==> y in rows[..|rows| - 1] || y == x;
      if p(x.movie) then init + [x] else init
  }

  /** Selecting from one row keeps it exactly when it passes. */
  lemma SelectOne(x: Labelled, p: Movie -> bool)
    ensures Select([x], p) == if p(x.movie) then [x] else []
  {
    assert [x][..0] == [];
  }

  /** Selection works row by row: selecting from two tables in turn is selecting from both. */
  lemma {:induction false} SelectAppend(a: seq<Labelled>, b: seq<Labelled>, p: Movie -> bool)
    ensures Select(a + b, p) == Select(a, p) + Select(b, p)
    decreases |b|
  {
    if b == [] {
      assert a + b == a;
    } else {
      var b0 := b[..|b| - 1];
      assert (a + b)[..|a + b| - 1] == a + b0;
      SelectAppend(a, b0, p);
    }
  }

  /** A selection that every row passes keeps the table whole. */
  lemma {:induction false} SelectAll(rows: seq<Labelled>, p: Movie -> bool)
    requires forall k :: 0 <= k < |rows| ==> p(rows[k].movie)
    ensures Select(rows, p) == rows
  {
    if rows != [] {
      var init := rows[..|rows| - 1];
      SelectAll(init, p);
      assert p(rows[|rows| - 1].movie);
      assert init + [rows[|rows| - 1]] == rows;
    }
  }

  /** pandas `head(k)`: the first `k` rows, or all but the last `-k` rows when `k` is negative. */
  function Head<T>(xs: seq<T>, k: int): (r: seq<T>)
    ensures r <= xs
    ensures k >= 0 ==> |r| == Min(k, |xs|)
    ensures k < 0 ==> |r| == if |xs| + k > 0 then |xs| + k else 0
  {
    if k >= 0 then xs[..Min(k, |xs|)]
    else if |xs| + k > 0 then xs[..|xs| + k]
    else []
  }

  function SearchRows(rows: seq<Labelled>): (r: seq<SearchRow>)
    ensures |r| == |rows|
    ensures forall k :: 0 <= k < |rows| ==> r[k] == SearchRow(rows[k].movie.movieId, rows[k].movie.title)
  {
    seq(|rows|, k requires 0 <= k < |rows| => SearchRow(rows[k].movie.movieId, rows[k].movie.title))
  }

  /** `mask = np.full(n, False); mask[keep] = True`: a flag per row, set for the rows listed in `keep`. */
  method KeepMask(keep: seq<nat>, n: nat) returns (mask: array<bool>)
    requires forall t :: 0 <= t < |keep| ==> keep[t] < n
    ensures fresh(mask) && mask.Length == n
    ensures forall i :: 0 <= i < n ==> mask[i] == (i in keep)
  {
    mask := new bool[n](_ => false);
    for t := 0 to |keep|
      modifies mask
      invariant forall i :: 0 <= i < n ==> mask[i] == (i in keep[..t])
    {
      assert keep[..t + 1] == keep[..t] + [keep[t]];
      mask[keep[t]] := true;
    }
    assert keep[..|keep|] == keep;
  }

  /** `title_base.str.contains(q)` on one row. */
  function BaseHit(q: string): Movie -> bool
  {
    (m: Movie) => Contains(m.titleBase, q)
  }

  /** `title_norm.str.contains(q)` on one row. */
  function NormHit(q: string): Movie -> bool
  {
    (m: Movie) => Contains(m.titleNorm, q)
  }

  /** The "why" column for a row whose closest seed is titled `title`. */
  function Because(title: string): string
  {
    "Because it\U{2019}s similar to '" + title + "'."
  }

  class HybridRecommender {
    const bundle: DataBundle
    /** `content_matrix`: one l2-normalised bag-of-words row per movie row. */
    const content: seq<seq<real>>
    /** `collab_sim`: item-item cosine of the centered ratings, diagonal 0. */
    const collabSim: seq<seq<real>>

    /** The number of items (`len(movie_index)`). */
    function N(): nat
    {
      |bundle.movieIndex|
    }

    /** The object invariant: an aligned bundle and matrices of matching shapes. */
    predicate Valid()
    {
      && Aligned(bundle) && Filled(bundle)
      && Rect(content, N())
      && IsMatrix(collabSim, N(), N())
    }

    /**
     * `__init__`: load the bundle, then `_build_models`. The item table must
     * be sorted by id and hold every rated id, and the genre names must be
     * distinct; then table row `k` is the item at `movie_index[k]`.
     */
    constructor (genres: seq<string>, raw: seq<RawMovie>, ratings: seq<Rating>,
                 vectorize: seq<string> -> seq<seq<real>>, norm: seq<real> -> real)
      requires RawValid(genres, raw) && Distinct(genres) && CoversRatings(DeriveAll(genres, raw), ratings)
      requires VectorizerShape(vectorize)
      ensures Valid()
      ensures bundle.genres == genres && bundle.ratings == ratings
      ensures bundle.userIndex == SortedUnique(UserIds(ratings)) && bundle.movieIndex == SortedUnique(MovieIds(ratings))
      ensures bundle.movies == KeepMovies(DeriveAll(genres, raw), bundle.movieIndex)
      ensures content == vectorize(Texts(bundle.movies))
      ensures forall a, b :: 0 <= a < N() && 0 <= b < N() ==>
        collabSim[a][b] == CollabEntry(CenteredMatrix(bundle.userItem, N()), N(), norm, a, b)
    {
      var b := LoadMovieLens(genres, raw, ratings);
      var n := |b.movieIndex|;
      var Rc := CenterRatings(b.userItem, n);
      var S := CollabSimilarity(Rc, n, norm);
      bundle := b;
      content := vectorize(Texts(b.movies));
      collabSim := S;
    }

    /**
     * The rows whose title column contains `q`, in table order: the base
     * titles while any of them matches, else the normalised titles.
     */
    function Matched(q: string): (r: seq<Labelled>)
      ensures (exists x :: x in bundle.movies && Contains(x.movie.titleBase, q)) ==>
        r == Select(bundle.movies, BaseHit(q))
      ensures !(exists x :: x in bundle.movies && Contains(x.movie.titleBase, q)) ==>
        r == Select(bundle.movies, NormHit(q))
    {
      var base := Select(bundle.movies, BaseHit(q));
      if base != [] then
        assert base[0] in base;
        base
      else Select(bundle.movies, NormHit(q))
    }

    /**
     * `search_titles`: the stripped, lower-cased query matched against the
     * base titles, or against the normalised titles when no base title
     * matches, cut to `head(k)`.
     */
    function SearchTitles(text: string, k: int): (r: seq<SearchRow>)
      ensures text == [] ==> r == []
      ensures |r| <= |bundle.movies|
      ensures k >= 0 ==> |r| <= k
      ensures forall x :: x in r ==> exists row :: (
        && row in bundle.movies
        && x == SearchRow(row.movie.movieId, row.movie.title)
        && (Contains(row.movie.titleBase, Lower(Strip(text))) || Contains(row.movie.titleNorm, Lower(Strip(text)))))
    {
      if text == [] then []
      else
        var q := Lower(Strip(text));
        var hits := Head(Matched(q), k);
        assert forall j :: 0 <= j < |hits| ==> hits[j] in Matched(q);
        SearchRows(hits)
    }

    /**
     * For `k >= 0` the search lists the first `min(k, n)` of the `n`
     * matching rows, in table order; with at most `k` matches it lists
     * every one of them.
     */
    lemma SearchListsFirstMatches(text: string, k: int)
      requires text != [] && k >= 0
      ensures var m := Matched(Lower(Strip(text)));
        && |SearchTitles(text, k)| == Min(k, |m|)
        && (forall t :: 0 <= t < Min(k, |m|) ==>
              SearchTitles(text, k)[t] == SearchRow(m[t].movie.movieId, m[t].movie.title))
        && (|m| <= k ==> forall x :: x in m ==> SearchRow(x.movie.movieId, x.movie.title) in SearchTitles(text, k))
    {
      var m := Matched(Lower(Strip(text)));
      var r := SearchTitles(text, k);
      var hits := Head(m, k);
      assert r == SearchRows(hits);
      if |m| <= k {
        forall x | x in m
          ensures SearchRow(x.movie.movieId, x.movie.title) in r
        {
          var t :| 0 <= t < |m| && m[t] == x;
          assert hits[t] == x;
          assert r[t] == SearchRow(x.movie.movieId, x.movie.title);
        }
      }
    }

    /** While some base title matches, every hit is a base-title match. */
    lemma SearchPrefersBase(text: string, k: int, row: Labelled)
      requires text != [] && row in bundle.movies && Contains(row.movie.titleBase, Lower(Strip(text)))
      ensures forall x :: x in SearchTitles(text, k) ==> exists r :: (
        && r in bundle.movies
        && x == SearchRow(r.movie.movieId, r.movie.title)
        && Contains(r.movie.titleBase, Lower(Strip(text))))
    {
      var q := Lower(Strip(text));
      var base := Select(bundle.movies, BaseHit(q));
      assert row in base;
      assert Matched(q) == base;
      var hits := Head(base, k);
      var rows := SearchRows(hits);
      assert SearchTitles(text, k) == rows;
      forall x | x in rows
        ensures exists r :: (
          && r in bundle.movies
          && x == SearchRow(r.movie.movieId, r.movie.title)
          && Contains(r.movie.titleBase, q))
      {
        var j :| 0 <= j < |rows| && rows[j] == x;
        assert hits[j] in base;
        var r := hits[j];
        assert x == SearchRow(r.movie.movieId, r.movie.title);
      }
    }

    /**
     * A query of spaces only is not empty text, so it strips to the empty
     * string, which every title contains: the first `k` rows come back.
     */
    lemma BlankSearchListsAll(text: string, k: int)
      requires text != [] && AllSpace(text)
      ensures SearchTitles(text, k) == SearchRows(Head(bundle.movies, k))
    {
      assert Strip(text) == [];
      var q := Lower(Strip(text));
      assert q == [];
      var p := BaseHit(q);
      forall j | 0 <= j < |bundle.movies|
        ensures p(bundle.movies[j].movie)
      {
        assert q <= bundle.movies[j].movie.titleBase;
      }
      SelectAll(bundle.movies, p);
      if bundle.movies != [] {
        assert bundle.movies[0] in Select(bundle.movies, p);
      }
    }

    /** Row `k` has genre `g` switched on in its flag columns. */
    predicate FlagOn(k: nat, g: string)
      requires Valid() && k < N() && g in bundle.genres
    {
      bundle.movies[k].movie.flags[IndexOf(bundle.genres, g)] == 1
    }

    /** `mask |= (movies[g] == 1)` for each known genre `g` of `fs`, from all-false. */
    function GenreMask(fs: seq<string>): (mask: seq<bool>)
      requires Valid()
      ensures |mask| == N()
      ensures forall k :: 0 <= k < N() ==>
        (mask[k] <==> exists g :: g in fs && g in bundle.genres && FlagOn(k, g))
    {
      if fs == [] then seq(N(), _ => false)
      else
        var prev := GenreMask(fs[..|fs| - 1]);
        var g := fs[|fs| - 1];
        assert forall h :: h in fs <==> h in fs[..|fs| - 1] || h == g;
        if g in bundle.genres then
          seq(N(), k requires 0 <= k < N() => prev[k] || FlagOn(k, g))
        else prev
    }

    /**
     * `_indices_for_genres`: every row when no filter is given (None or an
     * empty list), else the rows with at least one named, known genre.
     */
    function GenreRows(filters: Option<seq<string>>): (idx: seq<nat>)
      requires Valid()
      ensures StrictlyIncreasing(idx)
      ensures forall k: nat :: k in idx <==> (k < N() &&
        (filters.None? || filters.value == [] || exists g :: g in filters.value && g in bundle.genres && FlagOn(k, g)))
    {
      if filters.None? || filters.value == [] then
        Range(N())
      else
        var mask := GenreMask(filters.value);
        var r := Where(mask);
        assert forall k :: k in r ==> k < N() && mask[k];
        r
    }

    /** A filter naming only unknown genres keeps no row at all. */
    lemma UnknownGenresKeepNothing(fs: seq<string>)
      requires Valid() && fs != [] && forall g :: g in fs ==> g !in bundle.genres
      ensures GenreRows(Some(fs)) == []
    {
      WhereNone(GenreMask(fs));
    }

    /** `_indices_for_genres` as the source computes it: the mask is or-ed one genre at a time. */
    method IndicesForGenres(filters: Option<seq<string>>) returns (idx: seq<nat>)
      requires Valid()
      ensures idx == GenreRows(filters)
    {
      if filters.None? || filters.value == [] {
        return Range(N());
      }
      var fs := filters.value;
      var mask := new bool[N()](_ => false);
      for t := 0 to |fs|
        invariant mask[..] == GenreMask(fs[..t])
      {
        var g := fs[t];
        assert fs[..t + 1][..t] == fs[..t];
        if g in bundle.genres {
          var gi := IndexOf(bundle.genres, g);
          ghost var prev := mask[..];
          for k := 0 to N()
            invariant forall k' :: 0 <= k' < N() ==> mask[k'] == (prev[k'] || (k' < k && FlagOn(k', g)))
          {
            mask[k] := mask[k] || bundle.movies[k].movie.flags[gi] == 1;
          }
        }
      }
      assert fs[..|fs|] == fs;
      idx := Where(mask[..]);
    }

    /** `liked_idx`: the row of each liked id found in `movie_index`, duplicates kept, in order. */
    function Seeds(liked: seq<int>): (s: seq<nat>)
      requires Valid()
      ensures |s| <= |liked|
      ensures forall j :: 0 <= j < |s| ==> s[j] < N() && bundle.movieIndex[s[j]] in liked
      ensures forall m :: m in liked && m in bundle.movieIndex ==> IndexOf(bundle.movieIndex, m) in s
    {
      if liked == [] then []
      else
        var s0 := Seeds(liked[..|liked| - 1]);
        var m := liked[|liked| - 1];
        assert forall x :: x in liked <==> x in liked[..|liked| - 1] || x == m;
        if m in bundle.movieIndex then s0 + [IndexOf(bundle.movieIndex, m)] else s0
    }

    /** A single liked id gives its row when it is known, and nothing otherwise. */
    lemma SeedsOne(m: int)
      requires Valid()
      ensures Seeds([m]) == if m in bundle.movieIndex then [IndexOf(bundle.movieIndex, m)] else []
    {
      assert [m][..0] == [];
    }

    /**
     * The seeds are computed id by id: the seeds of two lists in turn are
     * the seeds of both, so order and repeated ids are kept.
     */
    lemma {:induction false} SeedsAppend(a: seq<int>, b: seq<int>)
      requires Valid()
      ensures Seeds(a + b) == Seeds(a) + Seeds(b)
      decreases |b|
    {
      if b == [] {
        assert a + b == a;
      } else {
        var b0 := b[..|b| - 1];
        assert (a + b)[..|a + b| - 1] == a + b0;
        SeedsAppend(a, b0);
      }
    }

    predicate SeedRows(seeds: seq<nat>)
    {
      forall j :: 0 <= j < |seeds| ==> seeds[j] < N()
    }

    /** `(C[i] @ C[liked_idx].T)`: the content similarity of row `i` to each seed. */
    function Contribs(seeds: seq<nat>, i: nat): (c: seq<real>)
      requires Valid() && SeedRows(seeds) && i < N()
      ensures |c| == |seeds|
    {
      seq(|seeds|, j requires 0 <= j < |seeds| => Dot(content[i], content[seeds[j]]))
    }

    /** The hybrid score of row `i`: the blend of mean content and mean collaborative similarity to the seeds. */
    function Blend(seeds: seq<nat>, alpha: real, i: nat): real
      requires Valid() && SeedRows(seeds) && seeds != [] && i < N()
    {
      var collab := seq(|seeds|, j requires 0 <= j < |seeds| => collabSim[i][seeds[j]]);
      alpha * Mean(Contribs(seeds, i)) + (1.0 - alpha) * Mean(collab)
    }

    /** The scores after the seeds and the rows outside `keep` are set to `-inf`. */
    function FinalScores(seeds: seq<nat>, alpha: real, keep: seq<nat>): (scores: seq<Score>)
      requires Valid() && SeedRows(seeds) && seeds != []
      ensures |scores| == N()
      ensures forall i :: 0 <= i < N() ==> (scores[i].NegInf? <==> i in seeds || i !in keep)
      ensures forall i :: 0 <= i < N() && scores[i].Fin? ==> scores[i].v == Blend(seeds, alpha, i)
    {
      seq(N(), i requires 0 <= i < N() => if i in seeds || i !in keep then NegInf else Fin(Blend(seeds, alpha, i)))
    }

    /** The explanation for row `i`: the title of the seed it is most content-similar to (first on ties). */
    function Why(seeds: seq<nat>, i: nat): string
      requires Valid() && SeedRows(seeds) && seeds != [] && i < N()
    {
      Because(bundle.movies[seeds[ArgMax(Contribs(seeds, i))]].movie.title)
    }

    /**
     * The explanation names a seed of largest content similarity to row
     * `i`, the first such seed in seed order (`np.argmax`).
     */
    lemma WhyNamesClosestSeed(seeds: seq<nat>, i: nat) returns (j: nat)
      requires Valid() && SeedRows(seeds) && seeds != [] && i < N()
      ensures j < |seeds| && Why(seeds, i) == Because(bundle.movies[seeds[j]].movie.title)
      ensures forall t :: 0 <= t < |seeds| ==>
        Dot(content[i], content[seeds[t]]) <= Dot(content[i], content[seeds[j]])
      ensures forall t :: 0 <= t < j ==>
        Dot(content[i], content[seeds[t]]) < Dot(content[i], content[seeds[j]])
    {
      var c := Contribs(seeds, i);
      j := ArgMax(c);
      assert forall t :: 0 <= t < |seeds| ==> c[t] == Dot(content[i], content[seeds[t]]);
    }

    /** The answer of `recommend_from_likes`, as a value. */
    function Recommendations(liked: seq<int>, topk: int, alpha: real, filters: Option<seq<string>>, explain: bool): (r: seq<Recommendation>)
      requires Valid()
      ensures Seeds(liked) == [] || topk <= 0 ==> r == []
      ensures Seeds(liked) != [] && topk > 0 ==> |r| == Min(topk, N())
    {
      var seeds := Seeds(liked);
      if liked == [] || seeds == [] then []
      else
        var k := Min(topk, N());
        if k <= 0 then []
        else
          var scores := FinalScores(seeds, alpha, GenreRows(filters));
          var top := TopK(scores, k);
          Rows(top, scores, seq(k, i requires 0 <= i < k => if explain then Why(seeds, top[i]) else ""))
    }

    /** The id, title, score and explanation of each chosen row, in ranked order. */
    function Rows(top: seq<nat>, scores: seq<Score>, why: seq<string>): (r: seq<Recommendation>)
      requires Valid() && |scores| == N() && |why| == |top|
      requires forall i :: 0 <= i < |top| ==> top[i] < N()
      ensures |r| == |top|
    {
      seq(|top|, i requires 0 <= i < |top| =>
        Recommendation(bundle.movieIndex[top[i]], bundle.movies[top[i]].movie.title, scores[top[i]], why[i]))
    }

    /**
     * The rows behind a recommendation list: a ranked choice of rows of the
     * final scores, each reported with its id, title, score and explanation.
     */
    lemma RecommendedRows(liked: seq<int>, topk: int, alpha: real, filters: Option<seq<string>>, explain: bool)
      returns (top: seq<nat>)
      requires Valid() && Seeds(liked) != [] && topk > 0
      ensures Ranked(FinalScores(Seeds(liked), alpha, GenreRows(filters)), Min(topk, N()), top)
      ensures forall i :: 0 <= i < |top| ==>
        var row := top[i];
        var r := Recommendations(liked, topk, alpha, filters, explain)[i];
        && r.movieId == bundle.movieIndex[row]
        && r.title == bundle.movies[row].movie.title
        && r.score == FinalScores(Seeds(liked), alpha, GenreRows(filters))[row]
        && r.why == if explain then Why(Seeds(liked), row) else ""
    {
      var seeds := Seeds(liked);
      var scores := FinalScores(seeds, alpha, GenreRows(filters));
      top := TopK(scores, Min(topk, N()));
    }

    /** Recommendations come in non-increasing score order. */
    lemma RecommendationsOrdered(liked: seq<int>, topk: int, alpha: real, filters: Option<seq<string>>, explain: bool)
      requires Valid()
      ensures var r := Recommendations(liked, topk, alpha, filters, explain);
        forall i, j :: 0 <= i < j < |r| ==> Le(r[j].score, r[i].score)
    {
      if Seeds(liked) != [] && topk > 0 {
        var top := RecommendedRows(liked, topk, alpha, filters, explain);
      }
    }

    /** No movie is recommended twice. */
    lemma RecommendationsDistinct(liked: seq<int>, topk: int, alpha: real, filters: Option<seq<string>>, explain: bool)
      requires Valid()
      ensures var r := Recommendations(liked, topk, alpha, filters, explain);
        forall i, j :: 0 <= i < j < |r| ==> r[i].movieId != r[j].movieId
    {
      if Seeds(liked) != [] && topk > 0 {
        var top := RecommendedRows(liked, topk, alpha, filters, explain);
        var r := Recommendations(liked, topk, alpha, filters, explain);
        forall i, j | 0 <= i < j < |r|
          ensures r[i].movieId != r[j].movieId
        {
          IncreasingDistinctValues(bundle.movieIndex, top[i], top[j]);
        }
      }
    }

    /**
     * A liked movie only comes back with score `-inf`, and only once every
     * row left out is `-inf` too (a seed or filtered out).
     */
    lemma LikedOnlyWhenExhausted(liked: seq<int>, topk: int, alpha: real, filters: Option<seq<string>>, explain: bool, i: nat)
      requires Valid()
      requires i < |Recommendations(liked, topk, alpha, filters, explain)|
      requires Recommendations(liked, topk, alpha, filters, explain)[i].movieId in liked
      ensures Recommendations(liked, topk, alpha, filters, explain)[i].score == NegInf
      ensures forall x :: 0 <= x < N() && (forall j :: 0 <= j < |Recommendations(liked, topk, alpha, filters, explain)| ==>
          Recommendations(liked, topk, alpha, filters, explain)[j].movieId != bundle.movieIndex[x]) ==>
        x in Seeds(liked) || x !in GenreRows(filters)
    {
      var seeds := Seeds(liked);
      var scores := FinalScores(seeds, alpha, GenreRows(filters));
      var r := Recommendations(liked, topk, alpha, filters, explain);
      var top := RecommendedRows(liked, topk, alpha, filters, explain);
      var row := top[i];
      var id := bundle.movieIndex[row];
      assert IndexOf(bundle.movieIndex, id) == row by {
        IncreasingInjective(bundle.movieIndex, IndexOf(bundle.movieIndex, id), row);
      }
      assert row in seeds;
      NegInfOnlyWhenExhausted(scores, |top|, top, i);
      forall x | 0 <= x < N() && (forall j :: 0 <= j < |r| ==> r[j].movieId != bundle.movieIndex[x])
        ensures x in seeds || x !in GenreRows(filters)
      {
        assert x !in top by {
          forall j | 0 <= j < |top|
            ensures top[j] != x
          {
            assert r[j].movieId == bundle.movieIndex[top[j]];
          }
        }
      }
    }

    /** A recommended row with a finite score passes the genre filter and carries its blended score. */
    lemma FiniteRowsPassFilter(liked: seq<int>, topk: int, alpha: real, filters: Option<seq<string>>, explain: bool, i: nat)
      requires Valid()
      requires i < |Recommendations(liked, topk, alpha, filters, explain)|
      requires Recommendations(liked, topk, alpha, filters, explain)[i].score.Fin?
      ensures exists row :: (
        && 0 <= row < N()
        && bundle.movieIndex[row] == Recommendations(liked, topk, alpha, filters, explain)[i].movieId
        && row !in Seeds(liked) && row in GenreRows(filters)
        && Recommendations(liked, topk, alpha, filters, explain)[i].score.v == Blend(Seeds(liked), alpha, row))
    {
      var top := RecommendedRows(liked, topk, alpha, filters, explain);
      var row := top[i];
      assert 0 <= row < N();
    }

    /**
     * The score array of `recommend_from_likes`: the blend for every row,
     * then `scores[liked_idx] = -inf`, then `scores[~mask] = -inf`, in place.
     */
    /** The blended scores with `-inf` written into every seed row. */
    method SeedScores(seeds: seq<nat>, alpha: real) returns (scores: array<Score>)
      requires Valid() && SeedRows(seeds) && seeds != []
      ensures fresh(scores) && scores.Length == N()
      ensures forall i :: 0 <= i < N() ==>
        scores[i] == if i in seeds then NegInf else Fin(Blend(seeds, alpha, i))
    {
      var n := N();
      var blend := seq(n, i requires 0 <= i < n => Fin(Blend(seeds, alpha, i)));
      scores := new Score[n](i => if 0 <= i < n then blend[i] else NegInf);
      for t := 0 to |seeds|
        modifies scores
        invariant forall i :: 0 <= i < n ==> scores[i] == if i in seeds[..t] then NegInf else blend[i]
      {
        assert seeds[..t + 1] == seeds[..t] + [seeds[t]];
        scores[seeds[t]] := NegInf;
      }
      assert seeds[..|seeds|] == seeds;
    }

    method ScoreRows(seeds: seq<nat>, alpha: real, keep: seq<nat>) returns (sc: seq<Score>)
      requires Valid() && SeedRows(seeds) && seeds != []
      requires forall t :: 0 <= t < |keep| ==> keep[t] < N()
      ensures sc == FinalScores(seeds, alpha, keep)
    {
      var n := N();
      var scores := SeedScores(seeds, alpha);
      var mask := KeepMask(keep, n);
      for i := 0 to n
        modifies scores
        invariant forall i' :: 0 <= i' < n ==>
          scores[i'] == if (i' < i && !mask[i']) || i' in seeds then NegInf else Fin(Blend(seeds, alpha, i'))
      {
        if !mask[i] {
          scores[i] := NegInf;
        }
      }
      sc := scores[..];
    }

    /** The `why` column: for each chosen row, the title of its most content-similar seed. */
    method Explain(seeds: seq<nat>, top: seq<nat>) returns (why: seq<string>)
      requires Valid() && SeedRows(seeds) && seeds != []
      requires forall i :: 0 <= i < |top| ==> top[i] < N()
      ensures |why| == |top| && forall i :: 0 <= i < |top| ==> why[i] == Why(seeds, top[i])
    {
      var w := new string[|top|](_ => "");
      for i := 0 to |top|
        invariant forall i' :: 0 <= i' < i ==> w[i'] == Why(seeds, top[i'])
      {
        var best := seeds[ArgMax(Contribs(seeds, top[i]))];
        w[i] := Because(bundle.movies[best].movie.title);
      }
      why := w[..];
    }

    /** `recommend_from_likes`: score, cut to the top k, explain on request. */
    method RecommendFromLikes(liked: seq<int>, topk: int, alpha: real, filters: Option<seq<string>>, explain: bool)
      returns (recs: seq<Recommendation>)
      requires Valid()
      ensures recs == Recommendations(liked, topk, alpha, filters, explain)
    {
      if liked == [] {
        return [];
      }
      var seeds := Seeds(liked);
      if seeds == [] {
        return [];
      }
      var keep := IndicesForGenres(filters);
      var scores := ScoreRows(seeds, alpha, keep);
      var k := Min(topk, N());
      if k <= 0 {
        return [];
      }
      var top := TopK(scores, k);
      var why := seq(k, _ => "");
      if explain {
        why := Explain(seeds, top);
      }
      assert why == seq(k, i requires 0 <= i < k => if explain then Why(seeds, top[i]) else "");
      recs := Rows(top, scores, why);
    }

    /** `recommend_from_title`: the likes query with the one seed. */
    method RecommendFromTitle(seedId: int, topk: int, alpha: real, filters: Option<seq<string>>, explain: bool)
      returns (recs: seq<Recommendation>)
      requires Valid()
      ensures recs == Recommendations([seedId], topk, alpha, filters, explain)
    {
      recs := RecommendFromLikes([seedId], topk, alpha, filters, explain);
    }

    /** The ids the user rated at least `threshold`, in `movie_index` order (unrated cells read 0). */
    function UserLikes(userId: int, threshold: real): (ids: seq<int>)
      requires Valid() && userId in bundle.userIndex
    {
      var u := IndexOf(bundle.userIndex, userId);
      var idx := Where(seq(N(), j requires 0 <= j < N() => bundle.userItem[u][j] >= threshold));
      seq(|idx|, t requires 0 <= t < |idx| => bundle.movieIndex[idx[t]])
    }

    /**
     * A user's implicit likes are exactly the indexed movies whose last
     * rating by that user reaches the threshold, in ascending id order.
     */
    lemma UserLikesRated(userId: int, threshold: real)
      requires Valid() && userId in bundle.userIndex
      ensures StrictlyIncreasing(UserLikes(userId, threshold))
      ensures forall m :: m in UserLikes(userId, threshold) <==>
        m in bundle.movieIndex && LastRating(bundle.ratings, userId, m) >= threshold
    {
      var u := IndexOf(bundle.userIndex, userId);
      var mask := seq(N(), j requires 0 <= j < N() => bundle.userItem[u][j] >= threshold);
      var idx := Where(mask);
      var ids := UserLikes(userId, threshold);
      forall m
        ensures m in ids <==> m in bundle.movieIndex && LastRating(bundle.ratings, userId, m) >= threshold
      {
        if m in bundle.movieIndex && LastRating(bundle.ratings, userId, m) >= threshold {
          var j := IndexOf(bundle.movieIndex, m);
          assert mask[j];
          var t :| 0 <= t < |idx| && idx[t] == j;
          assert ids[t] == m;
        }
      }
      forall s, t | 0 <= s < t < |ids|
        ensures ids[s] < ids[t]
      {
        assert idx[s] < idx[t];
      }
    }

    /** `recommend_for_user_id`: an unknown user gets nothing; else the likes query on the user's implicit likes. */
    method RecommendForUserId(userId: int, threshold: real, topk: int, alpha: real, filters: Option<seq<string>>, explain: bool)
      returns (recs: seq<Recommendation>)
      requires Valid()
      ensures userId !in bundle.userIndex ==> recs == []
      ensures userId in bundle.userIndex ==> recs == Recommendations(UserLikes(userId, threshold), topk, alpha, filters, explain)
    {
      if userId !in bundle.userIndex {
        return [];
      }
      var u := IndexOf(bundle.userIndex, userId);
      var idx := Where(seq(N(), j requires 0 <= j < N() => bundle.userItem[u][j] >= threshold));
      var liked := seq(|idx|, t requires 0 <= t < |idx| => bundle.movieIndex[idx[t]]);
      recs := RecommendFromLikes(liked, topk, alpha, filters, explain);
    }
  }
}
