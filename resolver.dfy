/**
 * The staged title resolver (utils.py, `resolve_title_to_id`): free text is
 * matched against the movie table by exact normalised title, then exact
 * base title, then base-title prefix, then base-title substring, then a
 * fuzzy match; the first stage with a hit decides and gives its first row
 * in table order.
 */
module Resolver {
  import opened Wrappers
  import opened PyStr
  import opened Catalog

  /**
   * difflib's `get_close_matches(q, choices, n=1, cutoff=0.6)`: at most one
   * of the choices, decided by a similarity ratio this model does not
   * compute.
   */
  type CloseMatch = (string, seq<string>) -> Option<string>

  /** The first row, in table order, that satisfies `p` (`df[mask].iloc[0]`). */
  function FirstWhere(movies: seq<Movie>, p: Movie -> bool): (r: Option<nat>)
    ensures r.Some? ==> r.value < |movies| && p(movies[r.value])
    ensures r.Some? ==> forall k :: 0 <= k < r.value ==> !p(movies[k])
    ensures r.None? ==> forall k :: 0 <= k < |movies| ==> !p(movies[k])
  {
    if movies == [] then None
    else if p(movies[0]) then Some(0)
    else match FirstWhere(movies[1..], p)
      case None => None
      case Some(i) => Some(i + 1)
  }

  function IdAt(movies: seq<Movie>, r: Option<nat>): Option<int>
    requires r.Some? ==> r.value < |movies|
  {
    match r
    case None => None
    case Some(i) => Some(movies[i].movieId)
  }

  /** The matching stages that come before the fuzzy fallback, in order. */
  datatype Stage = ExactTitle | ExactBase | BasePrefix | BaseSubstring

  function Rank(s: Stage): nat
  {
    match s
    case ExactTitle => 0
    case ExactBase => 1
    case BasePrefix => 2
    case BaseSubstring => 3
  }

  /** Whether row `m` is a hit of stage `s` for the query forms `q` and `qBase`. */
  predicate Hit(s: Stage, m: Movie, q: string, qBase: string)
  {
    match s
    case ExactTitle => m.titleNorm == q
    case ExactBase => m.titleBase == qBase
    case BasePrefix => qBase <= m.titleBase
    case BaseSubstring => Contains(m.titleBase, qBase)
  }

  /** `_norm(_strip_year(user_text))`. */
  function QueryBase(userText: string): string
  {
    Norm(StripYear(userText))
  }

  function Bases(movies: seq<Movie>): (r: seq<string>)
    ensures |r| == |movies| && forall i :: 0 <= i < |movies| ==> r[i] == movies[i].titleBase
  {
    seq(|movies|, i requires 0 <= i < |movies| => movies[i].titleBase)
  }

  /** The fuzzy stage: the first row whose base title is the oracle's pick. */
  function Fuzzy(movies: seq<Movie>, qBase: string, closeMatch: CloseMatch): Option<int>
  {
    match closeMatch(qBase, Bases(movies))
    case None => None
    case Some(t) => IdAt(movies, FirstWhere(movies, (m: Movie) => m.titleBase == t))
  }

  /** The stages run in order for the query forms `q` and `qBase`. */
  function Staged(movies: seq<Movie>, q: string, qBase: string, closeMatch: CloseMatch): (r: Option<int>)
    ensures r.Some? ==> exists i :: 0 <= i < |movies| && movies[i].movieId == r.value
  {
    var exact := FirstWhere(movies, (m: Movie) => Hit(ExactTitle, m, q, qBase));
    if exact.Some? then IdAt(movies, exact)
    else
      var base := FirstWhere(movies, (m: Movie) => Hit(ExactBase, m, q, qBase));
      if base.Some? then IdAt(movies, base)
      else
        var starts := FirstWhere(movies, (m: Movie) => Hit(BasePrefix, m, q, qBase));
        if starts.Some? then IdAt(movies, starts)
        else
          var contains := FirstWhere(movies, (m: Movie) => Hit(BaseSubstring, m, q, qBase));
          if contains.Some? then IdAt(movies, contains)
          else Fuzzy(movies, qBase, closeMatch)
  }

  /** `resolve_title_to_id(movies_df, user_text)`. */
  function Resolve(movies: seq<Movie>, userText: string, closeMatch: CloseMatch): (r: Option<int>)
    ensures userText == [] ==> r == None
    ensures r.Some? ==> exists i :: 0 <= i < |movies| && movies[i].movieId == r.value
  {
    if userText == [] then None
    else Staged(movies, Norm(userText), QueryBase(userText), closeMatch)
  }

  /** No row hits stage `e`. */
  predicate NoHit(movies: seq<Movie>, e: Stage, q: string, qBase: string)
  {
    forall k :: 0 <= k < |movies| ==> !Hit(e, movies[k], q, qBase)
  }

  /** Every stage ranked before `s` is empty. */
  predicate EarlierEmpty(movies: seq<Movie>, s: Stage, q: string, qBase: string)
  {
    && (Rank(s) > 0 ==> NoHit(movies, ExactTitle, q, qBase))
    && (Rank(s) > 1 ==> NoHit(movies, ExactBase, q, qBase))
    && (Rank(s) > 2 ==> NoHit(movies, BasePrefix, q, qBase))
  }

  /** `i` is the first row, in table order, that hits stage `s`. */
  predicate FirstHit(movies: seq<Movie>, s: Stage, q: string, qBase: string, i: nat)
  {
    i < |movies| && Hit(s, movies[i], q, qBase) &&
    forall k :: 0 <= k < i ==> !Hit(s, movies[k], q, qBase)
  }

  lemma FirstWhereFinds(movies: seq<Movie>, s: Stage, q: string, qBase: string, i: nat)
    requires FirstHit(movies, s, q, qBase, i)
    ensures FirstWhere(movies, (m: Movie) => Hit(s, m, q, qBase)) == Some(i)
  {
    var r := FirstWhere(movies, (m: Movie) => Hit(s, m, q, qBase));
    assert r.Some?;
    assert !(r.value < i);
    assert !(r.value > i);
  }

  lemma FirstWhereMisses(movies: seq<Movie>, s: Stage, q: string, qBase: string)
    requires NoHit(movies, s, q, qBase)
    ensures FirstWhere(movies, (m: Movie) => Hit(s, m, q, qBase)) == None
  {
  }

  /**
   * The first stage with a hit decides, and it gives the id of its first
   * hit in table order.
   */
  lemma FirstStageDecides(movies: seq<Movie>, userText: string, closeMatch: CloseMatch, s: Stage, i: nat)
    requires userText != []
    requires FirstHit(movies, s, Norm(userText), QueryBase(userText), i)
    requires EarlierEmpty(movies, s, Norm(userText), QueryBase(userText))
    ensures Resolve(movies, userText, closeMatch) == Some(movies[i].movieId)
  {
    var q, qBase := Norm(userText), QueryBase(userText);
    FirstWhereFinds(movies, s, q, qBase, i);
    if Rank(s) > 0 { FirstWhereMisses(movies, ExactTitle, q, qBase); }
    if Rank(s) > 1 { FirstWhereMisses(movies, ExactBase, q, qBase); }
    if Rank(s) > 2 { FirstWhereMisses(movies, BasePrefix, q, qBase); }
  }

  /** Only when no stage hits does the fuzzy oracle decide. */
  lemma FuzzyLast(movies: seq<Movie>, userText: string, closeMatch: CloseMatch)
    requires userText != []
    requires forall e: Stage :: NoHit(movies, e, Norm(userText), QueryBase(userText))
    ensures Resolve(movies, userText, closeMatch) == Fuzzy(movies, QueryBase(userText), closeMatch)
  {
    var q, qBase := Norm(userText), QueryBase(userText);
    FirstWhereMisses(movies, ExactTitle, q, qBase);
    FirstWhereMisses(movies, ExactBase, q, qBase);
    FirstWhereMisses(movies, BasePrefix, q, qBase);
    FirstWhereMisses(movies, BaseSubstring, q, qBase);
  }

  /** The fuzzy stage names a row whose base title is exactly the oracle's pick. */
  lemma FuzzyPicksOracleTitle(movies: seq<Movie>, qBase: string, closeMatch: CloseMatch)
    ensures Fuzzy(movies, qBase, closeMatch).Some? ==>
      closeMatch(qBase, Bases(movies)).Some? &&
      exists i :: 0 <= i < |movies| && movies[i].titleBase == closeMatch(qBase, Bases(movies)).value &&
        movies[i].movieId == Fuzzy(movies, qBase, closeMatch).value
  {
  }

  /**
   * Only the literal empty string is turned away: a whitespace-only query
   * normalises to "" and, unless an exact stage hits an empty title, the
   * prefix stage returns the first row.
   */
  lemma BlankQueryTakesFirstRow(movies: seq<Movie>, userText: string, closeMatch: CloseMatch)
    requires userText != [] && AllSpace(userText) && movies != []
    requires forall k :: 0 <= k < |movies| ==> movies[k].titleNorm != [] && movies[k].titleBase != []
    ensures Resolve(movies, userText, closeMatch) == Some(movies[0].movieId)
  {
    assert Strip(userText) == [];
    assert Norm(userText) == [];
    assert RStrip(userText) == [];
    assert StripYear(userText) == [];
    assert QueryBase(userText) == [];
    var q, qBase := Norm(userText), QueryBase(userText);
    assert NoHit(movies, ExactTitle, q, qBase);
    assert NoHit(movies, ExactBase, q, qBase);
    assert FirstHit(movies, BasePrefix, q, qBase, 0);
    FirstStageDecides(movies, userText, closeMatch, BasePrefix, 0);
  }
}
