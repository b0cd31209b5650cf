# Hybrid movie recommender, title resolver, rule-based chat bots and adaptive-UI bandit in Dafny

This project models the core of a small collection of programs:

- **The MovieLens hybrid recommender** (`HybridRecommender` in RecommendationSystem/src/recommender.py). The model covers:
  - the derived title and genre columns of the movie table;
  - the dense user-item rating matrix, and the relabelling of the movies that have ratings;
  - per-item mean centering over the rated cells, and the item-item similarity with its zeroed diagonal;
  - the genre filter and the title search;
  - the hybrid content/collaborative score, the top-k ranking and the explanations;
  - the delegations for a single seed title and for a user's own high ratings.
- **The title resolver** (RecommendationSystem/src/utils.py). It tries exact title, exact base title, base-title prefix and base-title substring, then a fuzzy match.
- **The two rule-based chat bots** (SentimentChatbot/bots/echo_bot.py and ChatBot/bots/echo_bot.py). Each maps one message to exactly one reply kind.
- **The contextual epsilon-greedy bandit** of the adaptive UI (AdaptiveUI/app.js). The model covers context buckets, table keys, variant choice, the incremental-mean update, rewards and the favourites set.

Files:

| file | contents |
|---|---|
| `wrappers.dfy`, `seqs.dfy` | Option, `np.where`, `np.arange`, `np.argmax`, sorted-unique, sums and means |
| `pystr.dfy` | the Python string operations used: `isspace`, `lower`, `strip`, whitespace collapsing, the year-suffix substitution, substring tests, `[::-1]`, `join`/`split` |
| `catalog.dfy` | one movie row's derived columns |
| `loader.dfy` | `_load_movielens`: rating matrix and kept movie rows |
| `collab.dfy` | `_build_models`: item means, masked centering, cosine similarity with zero diagonal |
| `ranker.dfy` | scores with a `-inf` sentinel and the top-k selection |
| `recommender.dfy` | class `HybridRecommender` and its public API |
| `resolver.dfy` | `resolve_title_to_id` |
| `bot_intents.dfy`, `sentiment_bot.dfy`, `chat_bot.dfy` | the two message handlers |
| `adaptive_ui.dfy` | the bandit, rewards and favourites |

The work that updates state in place is imperative Dafny: arrays inside methods, and classes whose methods reassign their fields. This covers:
- the cell-by-cell matrix fill;
- the masked zeroing and `fill_diagonal`;
- the `mask |=` genre loop;
- the `-inf` writes into the scores;
- the explanation loop;
- the exploit loop;
- the q/n table and favourites updates.

Each of these methods is proved equal to a specification function, or states its new fields through one. The properties are proved about those functions.

Where the documentation and the code disagree, the model follows the code:
- **Ranker output size.** `recommend_from_likes` always returns `min(topk, n)` rows. So when fewer rows have finite scores, seed movies and filtered-out movies are returned with score `-inf` (recommender.py:186-193). `LikedOnlyWhenExhausted` states exactly when this happens.
- **Whitespace-only queries.** The resolver only rejects the literal empty string (utils.py:16). A whitespace-only query resolves to the first row (`BlankQueryTakesFirstRow`). `search_titles` then lists the first `k` rows (`BlankSearchListsAll`).

## Model

| member | source | states |
|---|---|---|
| `PyStr.Norm` | RecommendationSystem/src/utils.py:5-6 | `_norm` yields a lowered, stripped text with single spaces |
| `PyStr.NormJoinsWords` | RecommendationSystem/src/utils.py:5-6 | `_norm(s)` equals `" ".join(s.lower().split())`: the words of the lowered text are kept, in order, one space apart |
| `PyStr.Collapse` | RecommendationSystem/src/utils.py:6 | `re.sub(r"\s+", " ", s)` is empty exactly for empty input and starts with the input's first character, or a space for leading whitespace |
| `PyStr.Words` | RecommendationSystem/src/utils.py:6 | the reference `str.split()`: every word is non-empty and free of whitespace |
| `PyStr.NormIdempotent` | RecommendationSystem/src/utils.py:5-6 | normalising twice is normalising once |
| `PyStr.CollapseSpacing` | RecommendationSystem/src/recommender.py:65 | after `\s+` -> " " no two spaces are adjacent and no other whitespace remains |
| `PyStr.StripYear` | RecommendationSystem/src/utils.py:8-9 | the result is stripped and never longer; a title without a trailing "(dddd)" is only stripped |
| `PyStr.YearSuffixRemoved` | RecommendationSystem/src/recommender.py:69 | a title ending in whitespace, "(dddd)" and whitespace loses exactly that suffix |
| `PyStr.ContainsAt` | RecommendationSystem/src/recommender.py:151-153 | the substring test holds exactly when the query occurs at some position |
| `PyStr.ReverseReverse` | SentimentChatbot/bots/echo_bot.py:117 | `[::-1]` applied twice gives the text back |
| `PyStr.SplitJoin` | RecommendationSystem/src/recommender.py:77 | splitting a separator-join of separator-free parts recovers the parts |
| `Catalog.GenresList` | RecommendationSystem/src/recommender.py:73-75 | `genres_list` holds the catalog genres whose flag is 1, in catalog order, and only those |
| `Catalog.GenresStrSplits` | RecommendationSystem/src/recommender.py:76-78 | the genre string (`GenresStr`: the space-joined list, or "unknown") splits back into a non-empty genre list |
| `Catalog.DeriveMovie` | RecommendationSystem/src/recommender.py:64-78 | a derived row keeps id, title and flags; `title_norm` is `Norm` of the title (see `NormJoinsWords`); `title_base` is the lowered `StripYear` of the title (see `YearSuffixRemoved`); `genres_list` is `GenresList` of the flags, in catalog order; `genres_str` is `GenresStr` of that list, "unknown" when empty |
| `Catalog.BaseTitleDropsYear` | RecommendationSystem/src/recommender.py:67-72 | `title_base` of "Name (1995)" is the lowered, stripped name |
| `Resolver.Resolve` | RecommendationSystem/src/utils.py:11-44 | an empty query gives None; any id returned belongs to a movie row |
| `Resolver.Staged` | RecommendationSystem/src/utils.py:21-44 | any id the stage cascade returns belongs to a movie row |
| `Resolver.FirstWhere` | RecommendationSystem/src/utils.py:21-23 | the first row satisfying a filter (`iloc[0]`), or None when no row does |
| `Resolver.FirstStageDecides` | RecommendationSystem/src/utils.py:21-35 | the first stage with a match decides, and returns its first matching row |
| `Resolver.FuzzyLast` | RecommendationSystem/src/utils.py:37-44 | the fuzzy step is consulted only when all four exact and partial stages miss |
| `Resolver.FuzzyPicksOracleTitle` | RecommendationSystem/src/utils.py:37-44 | the fuzzy stage (`Fuzzy`) answers with the first row whose base title is the close match, and None when the oracle has none |
| `Resolver.BlankQueryTakesFirstRow` | RecommendationSystem/src/utils.py:16-31 | a whitespace-only query is not rejected and resolves to the first row |
| `Loader.LastRating` | RecommendationSystem/src/recommender.py:92-94 | a pair never rated reads 0 |
| `Loader.LastRowWins` | RecommendationSystem/src/recommender.py:93-94 | the cell holds the rating of the last row for that user and movie |
| `Loader.BuildUserItem` | RecommendationSystem/src/recommender.py:87-94 | the indices are the sorted distinct ids; every cell is the last rating for the pair or 0 |
| `Loader.KeepMovies` | RecommendationSystem/src/recommender.py:97-98 | every kept row's new label is a position whose `movie_index` id is the row's id |
| `Loader.KeepMoviesMembers` | RecommendationSystem/src/recommender.py:97 | kept rows are exactly the movie rows whose id is in `movie_index` |
| `Loader.KeepMoviesSorted` | RecommendationSystem/src/recommender.py:97-98 | keeping rows preserves ascending ids |
| `Loader.KeptRowsAligned` | RecommendationSystem/src/recommender.py:97-98 | with every rated id present, row k is the movie `movie_index[k]` labelled k |
| `Loader.DeriveAll` | RecommendationSystem/src/recommender.py:64-78 | each row's derived columns come from its raw row |
| `Loader.BundleAligned` | RecommendationSystem/src/recommender.py:87-98 | a bundle built this way has its movie rows in `movie_index` order |
| `Loader.LoadMovieLens` | RecommendationSystem/src/recommender.py:87-107 | the bundle's indices, matrix cells and kept rows are as above, and rows line up with `movie_index` when every rated id is in the catalog |
| `Collab.CountRated` | RecommendationSystem/src/recommender.py:121 | the count of positive entries is at most the column length |
| `Collab.CountRatedCounts` | RecommendationSystem/src/recommender.py:121 | the count equals the number of positions holding a positive rating |
| `Collab.ItemMean` | RecommendationSystem/src/recommender.py:121-125 | for a rated item, mean times count is the column sum; an unrated item's mean is 0 |
| `Collab.SumOfNonNegative` | RecommendationSystem/src/recommender.py:121-122 | on a non-negative column the plain sum equals the sum of rated entries |
| `Collab.MeanWithinRatings` | RecommendationSystem/src/recommender.py:121-125 | an item's mean lies between its lowest and highest rating |
| `Collab.ItemMeans` | RecommendationSystem/src/recommender.py:123-125 | one mean per column, 0 for a column nobody rated |
| `Collab.CenteredSum` | RecommendationSystem/src/recommender.py:128-130 | a centered column sums to the rated sum minus count times mean |
| `Collab.CenteredColumnSumsToZero` | RecommendationSystem/src/recommender.py:121-130 | every centered column of a ratings matrix sums to 0 |
| `Collab.CenteredColumns` | RecommendationSystem/src/recommender.py:128-130 | column j of the centered matrix (`CenteredMatrix`, `R_centered`) is column j centered on its own mean, unrated cells 0 |
| `Collab.SubtractMeans` | RecommendationSystem/src/recommender.py:129 | every cell is the rating minus its column's mean |
| `Collab.ZeroUnrated` | RecommendationSystem/src/recommender.py:128-130 | unrated cells become 0 and rated cells keep rating minus mean |
| `Collab.CenterRatings` | RecommendationSystem/src/recommender.py:128-130 | the two in-place passes produce the centered matrix |
| `Collab.DotSymmetric` | RecommendationSystem/src/recommender.py:132 | the dot product is symmetric |
| `Collab.Cosine` | RecommendationSystem/src/recommender.py:132 | a zero-norm vector has similarity 0; otherwise similarity times the norms is the dot product |
| `Collab.CosineSymmetric` | RecommendationSystem/src/recommender.py:132 | cosine similarity is symmetric |
| `Collab.CollabSymmetric` | RecommendationSystem/src/recommender.py:132-133 | `collab_sim` is symmetric |
| `Collab.CosineMatrix` | RecommendationSystem/src/recommender.py:132 | cell `(a, b)` is the cosine of centered columns `a` and `b` |
| `Collab.FillDiagonal` | RecommendationSystem/src/recommender.py:133 | the diagonal becomes 0 and every other cell is unchanged |
| `Collab.CollabSimilarity` | RecommendationSystem/src/recommender.py:132-133 | every off-diagonal cell is the cosine of the two centered columns, and the diagonal is 0 |
| `Seqs.Where` | RecommendationSystem/src/recommender.py:143 | `np.where` lists exactly the true positions, ascending |
| `Seqs.Range` | RecommendationSystem/src/recommender.py:138 | `np.arange(n)` lists exactly 0..n-1, ascending |
| `Seqs.SortedUnique` | RecommendationSystem/src/recommender.py:87-88 | sorted distinct ids with the same members as the ratings column |
| `Seqs.ArgMax` | RecommendationSystem/src/recommender.py:199 | `np.argmax` gives the first position of a maximum |
| `Ranker.TopK` | RecommendationSystem/src/recommender.py:189-193 | k distinct rows in non-increasing score order, none scoring below a row left out |
| `Ranker.BestOutside` | RecommendationSystem/src/recommender.py:192 | the best row outside a chosen set, None only when every row is chosen |
| `Ranker.NegInfOnlyWhenExhausted` | RecommendationSystem/src/recommender.py:186-193 | a `-inf` row is ranked only when every omitted row is `-inf` too |
| `Ranker.FirstIsMaximum` | RecommendationSystem/src/recommender.py:192-193 | the first ranked row has the highest score overall |
| `Ranker.RankedScoresUnique` | RecommendationSystem/src/recommender.py:192-193 | any two valid rankings agree on the scores shown, whatever the tie order |
| `Ranker.RankedLe` | RecommendationSystem/src/recommender.py:192-193 | position i of any ranking scores at most position i of any other |
| `Recommender.Select` | RecommendationSystem/src/recommender.py:151 | a boolean row filter keeps exactly the rows that pass |
| `Recommender.SelectOne` | RecommendationSystem/src/recommender.py:151 | one row is kept exactly when it passes |
| `Recommender.SelectAppend` | RecommendationSystem/src/recommender.py:151 | filtering works row by row, so table order and repeats are kept |
| `Recommender.SelectAll` | RecommendationSystem/src/recommender.py:151-153 | a filter that every row passes keeps the whole table |
| `Recommender.Head` | RecommendationSystem/src/recommender.py:154 | `head(k)` is a prefix of length min(k, n), and all but the last -k rows for negative k |
| `Recommender.SearchRows` | RecommendationSystem/src/recommender.py:154 | one (movie_id, title) row per selected movie, in order |
| `Recommender.HybridRecommender.constructor` | RecommendationSystem/src/recommender.py:33-35 | the built recommender holds the loaded bundle, the vectoriser's content rows over `title_base + " " + genres_str` (`ContentText`, line 114) and the centered collaborative similarity |
| `Recommender.HybridRecommender.Matched` | RecommendationSystem/src/recommender.py:151-153 | the base-title matches while some base title contains the query, else the normalised-title matches |
| `Recommender.HybridRecommender.SearchTitles` | RecommendationSystem/src/recommender.py:146-154 | empty text gives no rows; never more rows than movies, nor than k for k >= 0; every row's base or normalised title contains the query |
| `Recommender.HybridRecommender.SearchListsFirstMatches` | RecommendationSystem/src/recommender.py:150-154 | for k >= 0 the rows are the first min(k, n) matches in table order, and every match when there are at most k |
| `Recommender.HybridRecommender.SearchPrefersBase` | RecommendationSystem/src/recommender.py:151-153 | when some base title contains the query, every result matches on its base title |
| `Recommender.HybridRecommender.BlankSearchListsAll` | RecommendationSystem/src/recommender.py:148-154 | whitespace-only text lists the first k rows |
| `Recommender.HybridRecommender.GenreMask` | RecommendationSystem/src/recommender.py:139-142 | a row is marked exactly when some requested known genre has flag 1 on it |
| `Recommender.HybridRecommender.GenreRows` | RecommendationSystem/src/recommender.py:136-143 | no filter gives every row; otherwise exactly the rows flagged with a requested known genre, ascending |
| `Recommender.HybridRecommender.UnknownGenresKeepNothing` | RecommendationSystem/src/recommender.py:140-143 | a non-empty filter of unknown genres keeps no row |
| `Recommender.HybridRecommender.IndicesForGenres` | RecommendationSystem/src/recommender.py:136-143 | the `mask |=` loop yields exactly those rows |
| `Recommender.HybridRecommender.Seeds` | RecommendationSystem/src/recommender.py:169-170 | seeds are the positions of the liked ids that are known; unknown ids are dropped |
| `Recommender.HybridRecommender.SeedsOne` | RecommendationSystem/src/recommender.py:170 | one liked id gives its position when known, nothing otherwise |
| `Recommender.HybridRecommender.SeedsAppend` | RecommendationSystem/src/recommender.py:170 | seeds are taken id by id, so the order and repeats of the liked ids are kept |
| `Recommender.HybridRecommender.FinalScores` | RecommendationSystem/src/recommender.py:174-186 | a score is `-inf` exactly for seeds and filtered-out rows, and otherwise is `Blend`, the alpha-blend of mean content and mean collaborative similarity |
| `Recommender.HybridRecommender.WhyNamesClosestSeed` | RecommendationSystem/src/recommender.py:195-200 | an explanation (`Why`) names the first seed of largest content similarity |
| `Recommender.HybridRecommender.Recommendations` | RecommendationSystem/src/recommender.py:165-193 | no known seed or topk <= 0 gives no rows; otherwise exactly min(topk, n) rows |
| `Recommender.HybridRecommender.RecommendedRows` | RecommendationSystem/src/recommender.py:189-209 | the rows are a valid ranking of the final scores, with id, title, score and explanation taken from the ranked row |
| `Recommender.HybridRecommender.RecommendationsOrdered` | RecommendationSystem/src/recommender.py:192-193 | scores never increase down the result |
| `Recommender.HybridRecommender.RecommendationsDistinct` | RecommendationSystem/src/recommender.py:192-204 | no movie appears twice |
| `Recommender.HybridRecommender.LikedOnlyWhenExhausted` | RecommendationSystem/src/recommender.py:179-193 | a liked movie is returned only with `-inf`, and only once every omitted row is a seed or filtered out |
| `Recommender.HybridRecommender.FiniteRowsPassFilter` | RecommendationSystem/src/recommender.py:177-186 | a finite-scored result is a non-seed row inside the genre filter, scored by the blend |
| `Recommender.HybridRecommender.SeedScores` | RecommendationSystem/src/recommender.py:174-180 | the blended scores with `-inf` in exactly the seed rows |
| `Recommender.KeepMask` | RecommendationSystem/src/recommender.py:184-185 | the mask is set exactly at the rows listed in `keep` |
| `Recommender.HybridRecommender.ScoreRows` | RecommendationSystem/src/recommender.py:174-186 | the in-place `-inf` writes produce the final scores |
| `Recommender.HybridRecommender.Explain` | RecommendationSystem/src/recommender.py:195-200 | the explanation loop fills one explanation per ranked row |
| `Recommender.HybridRecommender.RecommendFromLikes` | RecommendationSystem/src/recommender.py:156-209 | the method returns exactly the recommendations above |
| `Recommender.HybridRecommender.RecommendFromTitle` | RecommendationSystem/src/recommender.py:211-216 | a single title is the one-seed case |
| `Recommender.HybridRecommender.UserLikesRated` | RecommendationSystem/src/recommender.py:228-230 | a user's likes are, ascending, exactly the movies whose last rating by that user reaches the threshold |
| `Recommender.HybridRecommender.RecommendForUserId` | RecommendationSystem/src/recommender.py:218-231 | an unknown user gets no rows; a known user gets the recommendations seeded by their likes |
| `BotIntents.Received` | SentimentChatbot/bots/echo_bot.py:45-46 | the matched text is stripped, and empty exactly when the message is missing or all whitespace |
| `BotIntents.EmptyMentionsNothing` | ChatBot/bots/echo_bot.py:21-54 | no keyword test matches the empty text |
| `BotIntents.GreetingInsideWord` | ChatBot/bots/echo_bot.py:21 | keywords match inside words: any text holding "this" is a greeting |
| `SentimentBot.SentimentTarget` | SentimentChatbot/bots/echo_bot.py:64 | the target is the stripped original-case remainder after the command word; it is empty exactly when that remainder is all whitespace |
| `SentimentBot.SentimentLineFor` | SentimentChatbot/bots/echo_bot.py:125-129 | without a configured client the call raises the not-configured error, otherwise it reports the target's sentiment |
| `SentimentBot.LinkFromAt` | SentimentChatbot/bots/echo_bot.py:11 | the link search succeeds exactly when `https?://` followed by a non-space matches at some position |
| `SentimentBot.OnMessage` | SentimentChatbot/bots/echo_bot.py:43-59 | a missing text gets the attachment or no-text reply |
| `SentimentBot.Respond` | SentimentChatbot/bots/echo_bot.py:43-117 | an echoed reply reverses back to the stripped text, which is not malformed |
| `SentimentBot.EmptyTextReplies` | SentimentChatbot/bots/echo_bot.py:49-59 | empty text gets the attachment notice when attachments came and the no-text reply otherwise, and nothing else gets these |
| `SentimentBot.SentimentCommandFirst` | SentimentChatbot/bots/echo_bot.py:61-74 | exactly the command texts get sentiment outcomes, whatever keywords they hold; the usage prompt exactly when the target is blank |
| `SentimentBot.UnconfiguredRaises` | SentimentChatbot/bots/echo_bot.py:125-129 | the turn raises exactly for a command with a target and no client, with the not-configured message |
| `SentimentBot.CommandMentionsTime` | SentimentChatbot/bots/echo_bot.py:61-63 | every command text contains "time", so the command must be tested first |
| `SentimentBot.KeywordPrecedence` | SentimentChatbot/bots/echo_bot.py:76-101 | help beats time beats date beats farewell beats greeting, each reply exactly when its test is the first to hold |
| `SentimentBot.HeuristicReplies` | SentimentChatbot/bots/echo_bot.py:103-113 | malformed only when no keyword matched, exactly for short or alphanumeric-free text; link notice next, exactly when a link is found |
| `SentimentBot.EchoFallback` | SentimentChatbot/bots/echo_bot.py:115-117 | the echo happens exactly when every earlier test fails |
| `SentimentBot.EchoIsReversed` | SentimentChatbot/bots/echo_bot.py:117 | the echoed reply is the stripped text reversed |
| `ChatBot.OnMessage` | ChatBot/bots/echo_bot.py:16-18 | a missing text gets the no-text reply |
| `ChatBot.Respond` | ChatBot/bots/echo_bot.py:16-57 | an echoed reply is non-empty and reverses back to the stripped text |
| `ChatBot.GreetingFirst` | ChatBot/bots/echo_bot.py:20-23 | the greeting comes exactly when a greeting word occurs, even alongside "help" |
| `ChatBot.KeywordPrecedence` | ChatBot/bots/echo_bot.py:25-49 | help beats time beats date beats bye after the greeting test |
| `ChatBot.EmptyGetsNoText` | ChatBot/bots/echo_bot.py:51-54 | the no-text reply comes exactly for empty text |
| `ChatBot.EchoFallback` | ChatBot/bots/echo_bot.py:56-57 | the echo happens exactly for non-empty text with no keyword, and it is the reversed text |
| `AdaptiveUi.ContextOf` | AdaptiveUI/app.js:40-47 | the hour bucket is morning below 8 and evening from 16; the width bucket is narrow below 600 and wide from 1200; the scheme flag is kept |
| `AdaptiveUi.BucketsMonotone` | AdaptiveUI/app.js:44-45 | later hours and wider windows never fall in an earlier bucket |
| `AdaptiveUi.KeySplits` | AdaptiveUI/app.js:48 | a key (`Key`) splits on "|" into the id, hour, width and D/L fields |
| `AdaptiveUi.KeyInjective` | AdaptiveUI/app.js:48 | distinct variant/context pairs never share a key |
| `AdaptiveUi.IncMeanIsMean` | AdaptiveUI/app.js:61-66 | the incremental update of a running mean is the mean with the new reward |
| `AdaptiveUi.Policy.constructor` | AdaptiveUI/app.js:28-29 | a fresh policy has empty tables and epsilon 0.15 |
| `AdaptiveUi.Policy.QValues` | AdaptiveUI/app.js:56 | one q value per variant, a missing entry read as 0 |
| `AdaptiveUi.Policy.Exploit` | AdaptiveUI/app.js:53-59 | the exploit loop picks the first variant of maximal q |
| `AdaptiveUi.Policy.SelectVariant` | AdaptiveUI/app.js:50-60 | exploration picks the variant at floor(pick*4); otherwise the exploit choice |
| `AdaptiveUi.Policy.Update` | AdaptiveUI/app.js:61-67 | only the variant's key changes: n grows by one, q moves to the incremental mean, and q stays the mean of that key's rewards |
| `AdaptiveUi.BaseReward` | AdaptiveUI/app.js:112-119 | rewards lie in [-1, 2]; positive exactly for open and fav, negative exactly for dismiss |
| `AdaptiveUi.DwellBonus` | AdaptiveUI/app.js:120-123 | the bonus lies in [0, 1] |
| `AdaptiveUi.DwellBonusRamp` | AdaptiveUI/app.js:120-123 | the bonus is seconds/30 over the first 30 seconds, 1 after, 0 before the start |
| `AdaptiveUi.DwellBonusMonotone` | AdaptiveUI/app.js:120-123 | a later action never earns a smaller bonus |
| `AdaptiveUi.ActionReward` | AdaptiveUI/app.js:172 | an action's reward lies in [-1, 3]: at most 0 for dismiss, at least 1 for open and fav |
| `AdaptiveUi.Toggled` | AdaptiveUI/app.js:163-164 | the toggled id flips membership and every other id keeps its membership |
| `AdaptiveUi.ToggleTwice` | AdaptiveUI/app.js:163-164 | toggling twice restores the set |
| `AdaptiveUi.Favorites.constructor` | AdaptiveUI/app.js:35 | with nothing stored the favourites set starts empty |
| `AdaptiveUi.Favorites.Toggle` | AdaptiveUI/app.js:163-164 | the set becomes the toggled set and the result says whether the id is now a favourite |

## Left out

- File loading and parsing are not modelled: the CSV reads, encodings, `on_bad_lines` and the missing-file error. The model starts from parsed rows: the genre list, raw movie rows with their flags, and rating triples.
- The content matrix is not modelled. `CountVectorizer` tokenisation, stop words, `min_df` and `normalize` are a vectoriser function passed to the constructor; only its shape is assumed.
- The norm inside `cosine_similarity` is a function parameter. Square roots are not available over Dafny reals.
- Floating point is not modelled: float32 and float64 in numpy, and JavaScript numbers. All arithmetic is exact over `real`, and `-np.inf` is the explicit `NegInf` score.
- The tie order of `argpartition` and `argsort` is unspecified in the source. The ranking contract says nothing about it. The executable selection breaks ties by lowest row, and `RankedScoresUnique` shows that the scores shown do not depend on tie order.
- `difflib.get_close_matches` is a function parameter returning an optional title.
- The title search models `str.contains` as a literal substring test. In the source the query is a regular expression, because `regex=True` is the default. The resolver escapes its query, so there the literal test is exact.
- `str.lower`, `str.isspace`, `str.isalnum` and the case-insensitive link pattern are modelled on ASCII and Latin-1. Characters beyond U+00FF are treated as neither upper case nor alphanumeric. Unicode case folding such as the long s is not modelled.
- `\d` in the year pattern of `_strip_year` and `title_base` is modelled as the ASCII digits only (`IsDigit`). Python's `\d` also matches every other Unicode decimal digit.
- Default arguments are not modelled: every parameter is passed explicitly. The source defaults are `k=20` for `search_titles`, `topk=10` and `alpha_content=0.5` for the recommendation methods, `show_explanations=False` for `recommend_from_likes`, and `threshold_like=4.0` for `recommend_for_user_id`.
- These data assumptions are preconditions, not checked. Without them the source would misalign rows or raise:
  - the `u.item` ids ascend;
  - genre names are distinct;
  - every rated movie id appears in `u.item`.
- Self-similarity 1 on the content diagonal is not proved. The content rows come from the vectoriser parameter.
- The Azure Text Analytics call, its formatting and its failure error are not modelled. Neither are `datetime.now()` text, async message sending, the welcome handler, or the HTTP server and adapter setup of both bots.
- The browser parts of the adaptive UI are not modelled: DOM rendering, `applyVariant`, the modal, event wiring, the theme toggle button, and localStorage loading and saving. A policy loaded from storage is not modelled; a fresh policy is.
- `Math.random()` and `Date.now()` are parameters (`coin`, `pick`, `nowMs`, `startMs`). So is the window state: hour, width and colour-scheme preference.
- AdaptiveUi.Favorites.Toggle: the card id is an integer; `Number()` of a missing attribute (NaN) is not modelled.
- The Streamlit app, the FastAPI wrapper and the subset-making tool are not part of this model.
