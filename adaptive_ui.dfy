/**
 * The contextual epsilon-greedy bandit behind the adaptive UI
 * (AdaptiveUI/app.js): the context buckets and table keys, the choice of
 * a layout variant, the incremental-mean update of the q/n tables, the
 * rewards for card actions, and the favourites set.
 *
 * The clock, the window size, the colour-scheme query and `Math.random`
 * are parameters; the DOM and localStorage are not modelled.
 */
module AdaptiveUi {
  import opened Seqs
  import opened PyStr
  import opened Ranker

  datatype HourBucket = Morning | Day | Evening
  datatype WidthBucket = Narrow | Medium | Wide

  /** What `context()` returns. */
  datatype Context = Context(hourBucket: HourBucket, widthBucket: WidthBucket, prefersDark: bool)

  /** Hours before 8 are morning, before 16 day, the rest evening. */
  function HourBucketOf(hour: int): (b: HourBucket)
  {
    if hour < 8 then Morning else if hour < 16 then Day else Evening
  }

  /** Widths below 600 are narrow, below 1200 medium, the rest wide. */
  function WidthBucketOf(width: int): (b: WidthBucket)
  {
    if width < 600 then Narrow else if width < 1200 then Medium else Wide
  }

  function HourRank(b: HourBucket): nat
  {
    match b
    case Morning => 0
    case Day => 1
    case Evening => 2
  }

  function WidthRank(b: WidthBucket): nat
  {
    match b
    case Narrow => 0
    case Medium => 1
    case Wide => 2
  }

  /** `context()`, from the current hour, window width and `prefers-color-scheme: dark`. */
  function ContextOf(hour: int, width: int, prefersDark: bool): (c: Context)
    ensures c.prefersDark == prefersDark
    ensures (c.hourBucket == Morning <==> hour < 8) && (c.hourBucket == Evening <==> hour >= 16)
    ensures (c.widthBucket == Narrow <==> width < 600) && (c.widthBucket == Wide <==> width >= 1200)
  {
    Context(HourBucketOf(hour), WidthBucketOf(width), prefersDark)
  }

  /** The buckets are ordered like the hours and widths they come from. */
  lemma BucketsMonotone(h1: int, h2: int, w1: int, w2: int)
    requires h1 <= h2 && w1 <= w2
    ensures HourRank(HourBucketOf(h1)) <= HourRank(HourBucketOf(h2))
    ensures WidthRank(WidthBucketOf(w1)) <= WidthRank(WidthBucketOf(w2))
  {
  }

  function HourName(b: HourBucket): string
  {
    match b
    case Morning => "morning"
    case Day => "day"
    case Evening => "evening"
  }

  function WidthName(b: WidthBucket): string
  {
    match b
    case Narrow => "narrow"
    case Medium => "medium"
    case Wide => "wide"
  }

  function ThemeName(prefersDark: bool): string
  {
    if prefersDark then "D" else "L"
  }

  /** The four fields of a key, in order. */
  function KeyFields(variantId: string, ctx: Context): seq<string>
  {
    [variantId, HourName(ctx.hourBucket), WidthName(ctx.widthBucket), ThemeName(ctx.prefersDark)]
  }

  /** `k(variantId, ctx)`: the fields joined by "|". */
  function Key(variantId: string, ctx: Context): string
  {
    Join(KeyFields(variantId, ctx), "|")
  }

  /** Splitting a key on "|" gives back the variant id and the three context fields. */
  lemma KeySplits(variantId: string, ctx: Context)
    requires '|' !in variantId
    ensures Split(Key(variantId, ctx), '|') == KeyFields(variantId, ctx)
  {
    var xs := KeyFields(variantId, ctx);
    assert forall i :: 0 <= i < |xs| ==> '|' !in xs[i] by {
      assert '|' !in HourName(ctx.hourBucket);
      assert '|' !in WidthName(ctx.widthBucket);
      assert '|' !in ThemeName(ctx.prefersDark);
    }
    SplitJoin(xs, '|');
  }

  /**
   * Keys of ids without "|" are injective: two variant/context pairs share
   * a q/n entry only when they are the same pair.
   */
  lemma KeyInjective(a: string, c1: Context, b: string, c2: Context)
    requires '|' !in a && '|' !in b
    requires Key(a, c1) == Key(b, c2)
    ensures a == b && c1 == c2
  {
    KeySplits(a, c1);
    KeySplits(b, c2);
    var f1 := KeyFields(a, c1);
    var f2 := KeyFields(b, c2);
    assert f1 == f2;
    assert f1[1] == f2[1] && f1[2] == f2[2] && f1[3] == f2[3];
  }

  /** One layout variant of `VARIANTS`. */
  datatype Variant = Variant(id: string, classes: seq<string>, theme: string, description: string)

  const Variants: seq<Variant> := [
    Variant("A", ["dense", "small-cards"], "dark", "Dense + Small Cards + Dark"),
    Variant("B", ["spacious", "small-cards"], "light", "Spacious + Small Cards + Light"),
    Variant("C", ["dense", "large-cards"], "dark", "Dense + Large Cards + Dark"),
    Variant("D", ["spacious", "large-cards"], "light", "Spacious + Large Cards + Light")
  ]

  /** `table[key] ?? 0`. */
  function Lookup(table: map<string, real>, key: string): real
  {
    if key in table then table[key] else 0.0
  }

  function Count(table: map<string, nat>, key: string): nat
  {
    if key in table then table[key] else 0
  }

  /** The rewards recorded so far under a key, none for a key never updated. */
  function Rewards(history: map<string, seq<real>>, key: string): seq<real>
  {
    if key in history then history[key] else []
  }

  /** `q + (reward - q) / n` with `n` the count after this reward. */
  function IncMean(q: real, count: nat, reward: real): real
  {
    q + (reward - q) / ((count + 1) as real)
  }

  /** The mean of the rewards, 0 when there are none (a missing q reads as 0). */
  function MeanOrZero(rs: seq<real>): real
  {
    if rs == [] then 0.0 else Mean(rs)
  }

  lemma MeanStep(q: real, s: real, r: real, n: real)
    requires n >= 1.0 && q * (n - 1.0) == s
    ensures (q + (r - q) / n) * n == s + r
  {
    assert ((r - q) / n) * n == r - q;
  }

  /**
   * The incremental update of a key's running mean is the mean of its
   * rewards with the new one appended.
   */
  lemma IncMeanIsMean(rs: seq<real>, r: real)
    ensures IncMean(MeanOrZero(rs), |rs|, r) == Mean(rs + [r])
  {
    var n := (|rs| + 1) as real;
    var rs' := rs + [r];
    SumSnoc(rs, r);
    MeanOrZeroTimesCount(rs);
    MeanStep(MeanOrZero(rs), Sum(rs), r, n);
    CancelCount(IncMean(MeanOrZero(rs), |rs|, r), Mean(rs'), n);
  }

  lemma SumSnoc(rs: seq<real>, r: real)
    ensures Sum(rs + [r]) == Sum(rs) + r
  {
    assert (rs + [r])[..|rs|] == rs;
  }

  lemma MeanOrZeroTimesCount(rs: seq<real>)
    ensures MeanOrZero(rs) * (|rs| as real) == Sum(rs)
  {
  }

  lemma CancelCount(x: real, y: real, n: real)
    requires n > 0.0 && x * n == y * n
    ensures x == y
  {
    assert (x - y) * n == 0.0;
  }

  /** `policy`: the q and n tables of the bandit and its exploration rate. */
  class Policy {
    var q: map<string, real>
    var n: map<string, nat>
    var epsilon: real
    /** The rewards recorded under each key, oldest first. */
    ghost var history: map<string, seq<real>>

    /** Every key's n counts its rewards and its q is their mean. */
    ghost predicate Valid()
      reads this
    {
      && q.Keys == history.Keys && n.Keys == history.Keys
      && forall key :: key in history ==>
          && |history[key]| > 0
          && n[key] == |history[key]|
          && q[key] == Mean(history[key])
    }

    /** `{ q:{}, n:{}, epsilon: 0.15 }`, the policy when none is stored. */
    constructor ()
      ensures Valid()
      ensures q == map[] && n == map[] && history == map[] && epsilon == 0.15
    {
      q := map[];
      n := map[];
      epsilon := 0.15;
      history := map[];
    }

    /** The q values of the variants in list order, a missing entry read as 0. */
    function QValues(ctx: Context): (qs: seq<real>)
      reads this
      ensures |qs| == |Variants|
    {
      var table := q;
      seq(|Variants|, i requires 0 <= i < |Variants| => Lookup(table, Key(Variants[i].id, ctx)))
    }

    /** The exploit branch of `selectVariant`: the first variant with the largest q. */
    method Exploit(ctx: Context) returns (best: Variant)
      ensures best == Variants[ArgMax(QValues(ctx))]
    {
      var qs := QValues(ctx);
      best := Variants[0];
      var bestQ := NegInf;
      var bi := 0;
      for i := 0 to |Variants|
        invariant i == 0 ==> bestQ == NegInf
        invariant i > 0 ==> bi == ArgMax(qs[..i]) && bestQ == Fin(qs[bi])
        invariant bi < |Variants| && best == Variants[bi]
      {
        var qv := Lookup(q, Key(Variants[i].id, ctx));
        assert qv == qs[i];
        if i > 0 {
          ArgMaxExtend(qs, i);
        }
        if Lt(bestQ, Fin(qv)) {
          bestQ := Fin(qv);
          best := Variants[i];
          bi := i;
        }
      }
      assert qs[..|Variants|] == qs;
    }

    /**
     * `selectVariant`: with `coin < epsilon` the variant at
     * `floor(pick * 4)`, otherwise the exploit choice; `coin` and `pick`
     * are the two `Math.random()` draws.
     */
    method SelectVariant(ctx: Context, coin: real, pick: real) returns (v: Variant)
      requires 0.0 <= pick < 1.0
      ensures coin < epsilon ==> v == Variants[(pick * 4.0).Floor]
      ensures coin >= epsilon ==> v == Variants[ArgMax(QValues(ctx))]
    {
      if coin < epsilon {
        return Variants[(pick * 4.0).Floor];
      }
      v := Exploit(ctx);
    }

    /**
     * `updatePolicy`: the variant's key gets one more count and its q moves
     * to the incremental mean; every other key keeps its entries.
     */
    method Update(variant: Variant, ctx: Context, reward: real)
      modifies this
      ensures var key := Key(variant.id, ctx);
        && n == old(n)[key := Count(old(n), key) + 1]
        && q == old(q)[key := IncMean(Lookup(old(q), key), Count(old(n), key), reward)]
        && history == old(history)[key := Rewards(old(history), key) + [reward]]
        && epsilon == old(epsilon)
      ensures old(Valid()) ==> Valid()
      ensures old(Valid()) ==> q[Key(variant.id, ctx)] == Mean(history[Key(variant.id, ctx)])
    {
      var key := Key(variant.id, ctx);
      ghost var wasValid := Valid();
      ghost var rs := Rewards(history, key);
      if wasValid {
        IncMeanIsMean(rs, reward);
        assert Lookup(q, key) == MeanOrZero(rs);
        assert Count(n, key) == |rs|;
      }
      var count := Count(n, key) + 1;
      var q0 := Lookup(q, key);
      q := q[key := q0 + (reward - q0) / (count as real)];
      n := n[key := count];
      history := history[key := rs + [reward]];
    }
  }

  /** `baseReward`: opening and favouriting are rewarded, dismissing penalised. */
  function BaseReward(action: string): (r: real)
    ensures -1.0 <= r <= 2.0
    ensures r > 0.0 <==> action == "open" || action == "fav"
    ensures r < 0.0 <==> action == "dismiss"
  {
    if action == "open" then 1.0
    else if action == "fav" then 2.0
    else if action == "dismiss" then -1.0
    else 0.0
  }

  /** `dwellBonus`: the seconds since the session started over 30, clamped to [0, 1]. */
  function DwellBonus(nowMs: real, startMs: real): (b: real)
    ensures 0.0 <= b <= 1.0
  {
    var seconds := (nowMs - startMs) / 1000.0;
    var ramp := seconds / 30.0;
    if ramp < 0.0 then 0.0 else if ramp > 1.0 then 1.0 else ramp
  }

  /** The bonus ramps linearly over the first 30 seconds and stays at 1 after. */
  lemma DwellBonusRamp(nowMs: real, startMs: real)
    ensures var seconds := (nowMs - startMs) / 1000.0;
      && (0.0 <= seconds <= 30.0 ==> DwellBonus(nowMs, startMs) * 30.0 == seconds)
      && (seconds >= 30.0 ==> DwellBonus(nowMs, startMs) == 1.0)
      && (seconds <= 0.0 ==> DwellBonus(nowMs, startMs) == 0.0)
  {
  }

  /** A later click never earns a smaller bonus. */
  lemma DwellBonusMonotone(now1: real, now2: real, startMs: real)
    requires now1 <= now2
    ensures DwellBonus(now1, startMs) <= DwellBonus(now2, startMs)
  {
  }

  /** The reward of a card action: `baseReward(act) + dwellBonus()`. */
  function ActionReward(action: string, nowMs: real, startMs: real): (r: real)
    ensures -1.0 <= r <= 3.0
    ensures action == "dismiss" ==> r <= 0.0
    ensures action == "open" || action == "fav" ==> r >= 1.0
  {
    BaseReward(action) + DwellBonus(nowMs, startMs)
  }

  /** The favourites with `id` added when absent and removed when present. */
  function Toggled(ids: set<int>, id: int): (r: set<int>)
    ensures id in r <==> id !in ids
    ensures forall x :: x != id ==> (x in r <==> x in ids)
  {
    if id in ids then ids - {id} else ids + {id}
  }

  /** Toggling the same card twice restores the set. */
  lemma ToggleTwice(ids: set<int>, id: int)
    ensures Toggled(Toggled(ids, id), id) == ids
  {
  }

  /** The `favorites` Set. */
  class Favorites {
    var ids: set<int>

    constructor ()
      ensures ids == {}
    {
      ids := {};
    }

    /** The "fav" action: flip the card's membership and report the new state. */
    method Toggle(id: int) returns (nowFav: bool)
      modifies this
      ensures nowFav == (id !in old(ids))
      ensures ids == Toggled(old(ids), id)
    {
      nowFav := id !in ids;
      if nowFav {
        ids := ids + {id};
      } else {
        ids := ids - {id};
      }
    }
  }
}
