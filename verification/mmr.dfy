/** Maximal Marginal Relevance re-ranking (internal/repository/section.go): the incremental greedy
    loop against the naive greedy choice that recomputes every penalty from scratch. */
module Mmr {
  import opened Cardinality
  import opened Fusion

  const DEFAULT_CANDIDATE_POOL := 20
  const ESCAPE_LAMBDA := 0.999

  type Cosine = (Embedding, Embedding) -> real

  // ----- the naive greedy choice

  ghost predicate Within(picks: seq<nat>, n: nat) {
    forall t :: 0 <= t < |picks| ==> picks[t] < n
  }

  datatype Pool = Pool(scored: seq<SearchResult>, embs: seq<Embedding>, weight: real, cos: Cosine) {
    ghost predicate Valid() {
      |scored| == |embs|
    }

    /** The penalty of i: its largest similarity to a picked item, and never below 0. */
    ghost function MaxSim(picks: seq<nat>, i: nat): real
      requires Valid() && i < |embs| && Within(picks, |embs|)
    {
      if picks == [] then 0.0
      else
        var rest, sim := MaxSim(picks[..|picks| - 1], i), cos(embs[picks[|picks| - 1]], embs[i]);
        if sim > rest then sim else rest
    }

    ghost predicate Least(lo: real) {
      (exists i :: 0 <= i < |scored| && scored[i].score == lo) && forall i :: 0 <= i < |scored| ==> lo <= scored[i].score
    }

    ghost predicate Greatest(hi: real) {
      (exists i :: 0 <= i < |scored| && scored[i].score == hi) && forall i :: 0 <= i < |scored| ==> scored[i].score <= hi
    }

    /** rel is the score scaled to [0, 1] over the pool, or 1 throughout when all scores agree. */
    ghost predicate Scaled(rel: seq<real>) {
      |rel| == |scored| && forall lo, hi, i {:trigger Least(lo), Greatest(hi), rel[i]} :: Least(lo) && Greatest(hi) && 0 <= i < |rel| ==>
        rel[i] == if hi > lo then (scored[i].score - lo) / (hi - lo) else 1.0
    }

    ghost function Marginal(rel: seq<real>, picks: seq<nat>, i: nat): real
      requires Valid() && |rel| == |scored| && i < |scored| && Within(picks, |scored|)
    {
      weight * rel[i] - (1.0 - weight) * MaxSim(picks, i)
    }

    /** b is the first of the unpicked items with the greatest marginal relevance. */
    ghost predicate IsPick(rel: seq<real>, picks: seq<nat>, b: nat)
      requires Valid() && |rel| == |scored| && Within(picks, |scored|)
    {
      && b < |scored| && b !in picks
      && forall i: nat :: i < |scored| && i !in picks ==>
        Marginal(rel, picks, i) <= Marginal(rel, picks, b) && (i < b ==> Marginal(rel, picks, i) < Marginal(rel, picks, b))
    }

    ghost predicate IsGreedy(rel: seq<real>, picks: seq<nat>) {
      && Valid() && |rel| == |scored|
      && Within(picks, |scored|)
      && forall t :: 0 <= t < |picks| ==> IsPick(rel, picks[..t], picks[t])
    }
  }

  lemma {:induction false} GreedyDistinct(pool: Pool, rel: seq<real>, picks: seq<nat>)
    requires pool.IsGreedy(rel, picks)
    ensures forall s, t :: 0 <= s < t < |picks| ==> picks[s] != picks[t]
  {
    forall s, t | 0 <= s < t < |picks|
      ensures picks[s] != picks[t]
    {
      assert pool.IsPick(rel, picks[..t], picks[t]);
      assert picks[..t][s] == picks[s];
    }
  }

  /** Greedy choices are determined: the shorter of two runs is a prefix of the longer. */
  lemma {:induction false} GreedyPrefix(pool: Pool, rel: seq<real>, a: seq<nat>, b: seq<nat>)
    requires pool.IsGreedy(rel, a) && pool.IsGreedy(rel, b) && |a| <= |b|
    ensures a == b[..|a|]
  {
    if a != [] {
      var k := |a| - 1;
      GreedyDrop(pool, rel, a);
      GreedyPrefix(pool, rel, a[..k], b);
      SamePick(pool, rel, a[..k], a[k], b[k]);
      assert a == a[..k] + [a[k]] && b[..k + 1] == b[..k] + [b[k]];
    }
  }

  lemma {:induction false} GreedyDrop(pool: Pool, rel: seq<real>, a: seq<nat>)
    requires pool.IsGreedy(rel, a) && a != []
    ensures pool.IsGreedy(rel, a[..|a| - 1])
  {
    var a' := a[..|a| - 1];
    forall t | 0 <= t < |a'|
      ensures pool.IsPick(rel, a'[..t], a'[t])
    {
      assert a'[..t] == a[..t];
    }
  }

  lemma {:induction false} SamePick(pool: Pool, rel: seq<real>, picks: seq<nat>, b: nat, c: nat)
    requires pool.Valid() && |rel| == |pool.scored| && Within(picks, |pool.scored|)
    requires pool.IsPick(rel, picks, b) && pool.IsPick(rel, picks, c)
    ensures b == c
  {
  }

  lemma {:induction false} ScaledUnique(pool: Pool, rel: seq<real>, rel': seq<real>, lo: real, hi: real)
    requires pool.Scaled(rel) && pool.Scaled(rel')
    requires pool.scored != [] ==> pool.Least(lo) && pool.Greatest(hi)
    ensures rel == rel'
  {
    assert forall i :: 0 <= i < |rel| ==> rel[i] == rel'[i];
  }

  /** With a non-negative weight on relevance the first pick is the top of the score order. */
  lemma {:induction false} FirstPickIsTop(pool: Pool, rel: seq<real>, picks: seq<nat>)
    requires pool.IsGreedy(rel, picks) && pool.Scaled(rel) && picks != []
    requires pool.weight >= 0.0
    requires forall i, j :: 0 <= i < j < |pool.scored| ==> pool.scored[i].score >= pool.scored[j].score
    ensures picks[0] == 0
  {
    assert pool.IsPick(rel, picks[..0], picks[0]);
    var n := |pool.scored|;
    var hi, lo := pool.scored[0].score, pool.scored[n - 1].score;
    assert pool.Greatest(hi) && pool.Least(lo);
    var i: nat := picks[0];
    assert rel[0] >= rel[i] by {
      assert rel[0] == if hi > lo then (hi - lo) / (hi - lo) else 1.0;
      assert rel[i] == if hi > lo then (pool.scored[i].score - lo) / (hi - lo) else 1.0;
      if hi > lo {
        QuotientMonotone(pool.scored[i].score - lo, hi - lo, hi - lo);
      }
    }
    ProductMonotone(pool.weight, rel[i], rel[0]);
    assert pool.Marginal(rel, picks[..0], 0) >= pool.Marginal(rel, picks[..0], i);
  }

  lemma QuotientMonotone(a: real, b: real, d: real)
    requires a <= b && d > 0.0
    ensures a / d <= b / d
  {
  }

  lemma ProductMonotone(c: real, a: real, b: real)
    requires a <= b && c >= 0.0
    ensures c * a <= c * b
  {
  }

  // ----- the code

  method Normalize(scored: seq<SearchResult>, ghost pool: Pool) returns (rel: seq<real>)
    requires pool.scored == scored
    ensures pool.Scaled(rel)
  {
    rel := [];
    if |scored| > 0 {
      var low, high := scored[0].score, scored[0].score;
      var i := 1;
      while i < |scored|
        invariant 1 <= i <= |scored|
        invariant exists j :: 0 <= j < i && scored[j].score == low
        invariant exists j :: 0 <= j < i && scored[j].score == high
        invariant forall j :: 0 <= j < i ==> low <= scored[j].score <= high
      {
        if scored[i].score < low {
          low := scored[i].score;
        }
        if scored[i].score > high {
          high := scored[i].score;
        }
        i := i + 1;
      }
      assert pool.Least(low) && pool.Greatest(high);
      var span := high - low;
      i := 0;
      while i < |scored|
        invariant 0 <= i <= |scored| == |scored| && |rel| == i
        invariant forall j :: 0 <= j < i ==> rel[j] == if high > low then (scored[j].score - low) / (high - low) else 1.0
      {
        rel := rel + [if span > 0.0 then (scored[i].score - low) / span else 1.0];
        i := i + 1;
      }
    }
  }

  /** The flags and running penalties the loop keeps, for the picks made so far. */
  ghost predicate Tracks(pool: Pool, picks: seq<nat>, picked: seq<bool>, maxSim: seq<real>) {
    && pool.Valid() && |picked| == |maxSim| == |pool.scored| && Within(picks, |picked|)
    && (forall i: nat :: i < |picked| ==> (picked[i] <==> i in picks))
    && (forall i: nat :: i < |picked| && i !in picks ==> maxSim[i] == pool.MaxSim(picks, i))
  }

  /** The unpicked item of greatest marginal relevance, given the running penalties. */
  method Best(rel: seq<real>, picked: array<bool>, maxSim: array<real>, weight: real, ghost pool: Pool,
              ghost picks: seq<nat>) returns (best: int)
    requires Tracks(pool, picks, picked[..], maxSim[..]) && |rel| == |pool.scored| && weight == pool.weight
    requires exists i: nat :: i < |rel| && i !in picks
    ensures 0 <= best && pool.IsPick(rel, picks, best)
  {
    best := -1;
    var bestMmr := 0.0;
    var i := 0;
    while i < |rel|
      invariant 0 <= i <= |rel| && -1 <= best < i
      invariant best == -1 ==> forall j: nat :: j < i ==> j in picks
      invariant best >= 0 ==> best !in picks && bestMmr == pool.Marginal(rel, picks, best)
      invariant best >= 0 ==> forall j: nat :: j < i && j !in picks ==>
        pool.Marginal(rel, picks, j) <= bestMmr && (j < best ==> pool.Marginal(rel, picks, j) < bestMmr)
    {
      if !picked[i] {
        var mmr := weight * rel[i] - (1.0 - weight) * maxSim[i];
        assert picked[..][i] == picked[i] && maxSim[..][i] == maxSim[i];
        assert mmr == pool.Marginal(rel, picks, i);
        if best == -1 || mmr > bestMmr {
          best, bestMmr := i, mmr;
        }
      }
      i := i + 1;
    }
  }

  /** out is the first k greedy picks from the pool. */
  ghost predicate Reranks(pool: Pool, k: nat, out: seq<SearchResult>) {
    exists rel, picks :: ReranksBy(pool, rel, picks, k, out)
  }

  ghost predicate ReranksBy(pool: Pool, rel: seq<real>, picks: seq<nat>, k: nat, out: seq<SearchResult>) {
    && pool.Scaled(rel) && pool.IsGreedy(rel, picks)
    && |out| == |picks| == k && forall t :: 0 <= t < k ==> out[t] == pool.scored[picks[t]]
  }

  /** A smaller limit gives a prefix of what a larger one gives; equal limits give equal results. */
  lemma {:induction false} RerankPrefix(pool: Pool, k: nat, l: nat, out: seq<SearchResult>, out': seq<SearchResult>)
    requires Reranks(pool, k, out) && Reranks(pool, l, out') && k <= l
    ensures out == out'[..k]
  {
    var rel, picks :| ReranksBy(pool, rel, picks, k, out);
    var rel', picks' :| ReranksBy(pool, rel', picks', l, out');
    var lo, hi := 0.0, 0.0;
    if pool.scored != [] {
      lo, hi := Extremes(pool);
    }
    ScaledUnique(pool, rel, rel', lo, hi);
    GreedyPrefix(pool, rel, picks, picks');
    assert forall t :: 0 <= t < k ==> picks[t] == picks'[t];
  }

  lemma {:induction false} Extremes(pool: Pool) returns (lo: real, hi: real)
    requires pool.scored != []
    ensures pool.Least(lo) && pool.Greatest(hi)
  {
    var scored := pool.scored;
    lo, hi := scored[0].score, scored[0].score;
    var i := 1;
    while i < |scored|
      invariant 1 <= i <= |scored|
      invariant exists j :: 0 <= j < i && scored[j].score == lo
      invariant exists j :: 0 <= j < i && scored[j].score == hi
      invariant forall j :: 0 <= j < i ==> lo <= scored[j].score <= hi
    {
      lo := if scored[i].score < lo then scored[i].score else lo;
      hi := if scored[i].score > hi then scored[i].score else hi;
      i := i + 1;
    }
  }

  /** Nothing is made up and nothing appears twice: the results are distinct members of the pool. */
  lemma {:induction false} RerankSelects(pool: Pool, k: nat, out: seq<SearchResult>)
    requires Reranks(pool, k, out)
    requires forall i, j :: 0 <= i < j < |pool.scored| ==> pool.scored[i].sectionID != pool.scored[j].sectionID
    ensures forall r :: r in out ==> r in pool.scored
    ensures forall s, t :: 0 <= s < t < |out| ==> out[s].sectionID != out[t].sectionID
  {
    var rel, picks :| ReranksBy(pool, rel, picks, k, out);
    GreedyDistinct(pool, rel, picks);
  }

  lemma {:induction false} RerankKeepsTop(pool: Pool, k: nat, out: seq<SearchResult>)
    requires Reranks(pool, k, out) && k > 0 && pool.weight >= 0.0 && pool.scored != []
    requires forall i, j :: 0 <= i < j < |pool.scored| ==> pool.scored[i].score >= pool.scored[j].score
    ensures out[0] == pool.scored[0]
  {
    var rel, picks :| ReranksBy(pool, rel, picks, k, out);
    FirstPickIsTop(pool, rel, picks);
  }

  // ----- what a re-ranking means for scores and similarities

  /** x is the largest similarity of item i to what is picked, or 0 where none is larger. */
  ghost predicate IsPenalty(pool: Pool, picks: seq<nat>, i: nat, x: real)
    requires i < |pool.embs| && Within(picks, |pool.embs|)
  {
    && x >= 0.0
    && (forall p :: p in picks ==> pool.cos(pool.embs[p], pool.embs[i]) <= x)
    && (x == 0.0 || exists p :: p in picks && pool.cos(pool.embs[p], pool.embs[i]) == x)
  }

  lemma {:induction false} MaxSimIsPenalty(pool: Pool, picks: seq<nat>, i: nat)
    requires pool.Valid() && i < |pool.embs| && Within(picks, |pool.embs|)
    ensures IsPenalty(pool, picks, i, pool.MaxSim(picks, i))
  {
    if picks != [] {
      var rest, last := picks[..|picks| - 1], picks[|picks| - 1];
      MaxSimIsPenalty(pool, rest, i);
      assert picks == rest + [last];
    }
  }

  lemma {:induction false} Penalties(pool: Pool, picks: seq<nat>, i: nat, j: nat) returns (x: real, y: real)
    requires pool.Valid() && i < |pool.embs| && j < |pool.embs| && Within(picks, |pool.embs|)
    ensures IsPenalty(pool, picks, i, x) && IsPenalty(pool, picks, j, y)
  {
    x, y := pool.MaxSim(picks, i), pool.MaxSim(picks, j);
    MaxSimIsPenalty(pool, picks, i);
    MaxSimIsPenalty(pool, picks, j);
  }

  lemma {:induction false} PenaltyUnique(pool: Pool, picks: seq<nat>, i: nat, x: real, y: real)
    requires i < |pool.embs| && Within(picks, |pool.embs|) && IsPenalty(pool, picks, i, x) && IsPenalty(pool, picks, i, y)
    ensures x == y
  {
  }

  lemma {:induction false} MarginalIs(pool: Pool, rel: seq<real>, picks: seq<nat>, i: nat, u: real, x: real)
    requires pool.Valid() && |rel| == |pool.scored| && i < |pool.scored| && Within(picks, |pool.scored|)
    requires u == rel[i] && IsPenalty(pool, picks, i, x)
    ensures pool.Marginal(rel, picks, i) == pool.weight * u - (1.0 - pool.weight) * x
  {
    MaxSimIsPenalty(pool, picks, i);
    PenaltyUnique(pool, picks, i, x, pool.MaxSim(picks, i));
  }

  lemma {:induction false} PickBeats(pool: Pool, rel: seq<real>, picks: seq<nat>, k: nat, out: seq<SearchResult>, t: nat, j: nat)
    requires ReranksBy(pool, rel, picks, k, out) && t < k && j < |pool.scored| && j !in picks[..t]
    ensures Within(picks[..t], |pool.scored|) && picks[t] !in picks[..t]
    ensures pool.Marginal(rel, picks[..t], j) <= pool.Marginal(rel, picks[..t], picks[t])
    ensures j < picks[t] ==> pool.Marginal(rel, picks[..t], j) < pool.Marginal(rel, picks[..t], picks[t])
  {
    assert pool.IsPick(rel, picks[..t], picks[t]);
  }

  /** Each pick weighs score against similarity at least as well as every item passed over, and better than those before
      it: weight times the scaled score, less the rest times the largest similarity to what is picked. */
  lemma {:induction false} PicksAreBest(pool: Pool, rel: seq<real>, picks: seq<nat>, k: nat, out: seq<SearchResult>,
                                        t: nat, j: nat, u: real, v: real, x: real, y: real)
    requires ReranksBy(pool, rel, picks, k, out) && t < k && j < |pool.scored| && j !in picks[..t]
    requires IsPenalty(pool, picks[..t], picks[t], x) && IsPenalty(pool, picks[..t], j, y)
    requires IsRelevance(pool.scored, picks[t], u) && IsRelevance(pool.scored, j, v)
    ensures out[t] == pool.scored[picks[t]] && picks[t] !in picks[..t]
    ensures pool.weight * v - (1.0 - pool.weight) * y <= pool.weight * u - (1.0 - pool.weight) * x
    ensures j < picks[t] ==> pool.weight * v - (1.0 - pool.weight) * y < pool.weight * u - (1.0 - pool.weight) * x
  {
    PickBeats(pool, rel, picks, k, out, t, j);
    RelevanceIs(pool, rel, picks[t], u);
    RelevanceIs(pool, rel, j, v);
    MarginalIs(pool, rel, picks[..t], picks[t], u, x);
    MarginalIs(pool, rel, picks[..t], j, v, y);
  }

  /** u is the score of item i, scaled so that the lowest of the pool is 0 and the highest 1, or 1 where they all agree. */
  ghost predicate IsRelevance(scored: seq<SearchResult>, i: nat, u: real)
    requires i < |scored|
  {
    exists a, b :: ScaleBetween(scored, i, u, a, b)
  }

  ghost predicate ScaleBetween(scored: seq<SearchResult>, i: nat, u: real, a: int, b: int)
    requires i < |scored|
  {
    && 0 <= a < |scored| && 0 <= b < |scored|
    && (forall c :: 0 <= c < |scored| ==> scored[a].score <= scored[c].score <= scored[b].score)
    && var lo, hi := scored[a].score, scored[b].score;
       u == if hi > lo then (scored[i].score - lo) / (hi - lo) else 1.0
  }

  lemma {:induction false} RelevanceIs(pool: Pool, rel: seq<real>, i: nat, u: real)
    requires pool.Scaled(rel) && i < |rel| && IsRelevance(pool.scored, i, u)
    ensures rel[i] == u
  {
    var a, b :| ScaleBetween(pool.scored, i, u, a, b);
    ScaledAt(pool, rel, i, pool.scored[a].score, pool.scored[b].score);
  }

  lemma {:induction false} ScaledAt(pool: Pool, rel: seq<real>, i: nat, lo: real, hi: real)
    requires pool.Scaled(rel) && i < |rel| && pool.Least(lo) && pool.Greatest(hi)
    ensures rel[i] == if hi > lo then (pool.scored[i].score - lo) / (hi - lo) else 1.0
  {
  }

  lemma {:induction false} SameScoreSameRelevance(pool: Pool, rel: seq<real>, i: nat, j: nat)
    requires pool.Scaled(rel) && i < |rel| && j < |rel|
    ensures pool.scored[i].score == pool.scored[j].score ==> rel[i] == rel[j]
    ensures pool.scored[i].score < pool.scored[j].score ==> rel[i] < rel[j]
  {
    var lo, hi := Extremes(pool);
    ScaledAt(pool, rel, i, lo, hi);
    ScaledAt(pool, rel, j, lo, hi);
    if pool.scored[i].score < pool.scored[j].score {
      QuotientStrict(pool.scored[i].score - lo, pool.scored[j].score - lo, hi - lo);
    }
  }

  lemma QuotientStrict(a: real, b: real, d: real)
    requires a < b && d > 0.0
    ensures a / d < b / d
  {
  }

  lemma ProductStrict(c: real, a: real, b: real)
    requires a < b && c > 0.0
    ensures c * a < c * b
  {
  }

  lemma LowerPenaltyWins(a: real, d: real, x: real, y: real, m: real, n: real)
    requires d > 0.0 && m == a - d * y && n == a - d * x && m <= n
    ensures x <= y
  {
    if y < x {
      ProductStrict(d, y, x);
    }
  }

  lemma HigherRelevanceWins(c: real, u: real, v: real, x: real)
    requires c > 0.0 && c * v - (1.0 - c) * x <= c * u - (1.0 - c) * x
    ensures v <= u
  {
    if u < v {
      ProductStrict(c, u, v);
    }
  }

  lemma {:induction false} EqualRelevance(pool: Pool, rel: seq<real>, picks: seq<nat>, b: nat, j: nat, x: real, y: real)
    requires pool.Valid() && |rel| == |pool.scored| && Within(picks, |pool.scored|) && j < |pool.scored| && j !in picks
    requires pool.IsPick(rel, picks, b) && rel[j] == rel[b] && pool.weight < 1.0
    requires IsPenalty(pool, picks, b, x) && IsPenalty(pool, picks, j, y)
    ensures x <= y
  {
    MarginalIs(pool, rel, picks, b, rel[b], x);
    MarginalIs(pool, rel, picks, j, rel[b], y);
    assert pool.Marginal(rel, picks, j) <= pool.Marginal(rel, picks, b);
    LowerPenaltyWins(pool.weight * rel[b], 1.0 - pool.weight, x, y, pool.Marginal(rel, picks, j), pool.Marginal(rel, picks, b));
  }

  lemma {:induction false} EqualPenalty(pool: Pool, rel: seq<real>, picks: seq<nat>, b: nat, j: nat, x: real)
    requires pool.Valid() && |rel| == |pool.scored| && Within(picks, |pool.scored|) && j < |pool.scored| && j !in picks
    requires pool.IsPick(rel, picks, b) && pool.weight > 0.0
    requires IsPenalty(pool, picks, b, x) && IsPenalty(pool, picks, j, x)
    ensures rel[j] <= rel[b]
  {
    MarginalIs(pool, rel, picks, b, rel[b], x);
    MarginalIs(pool, rel, picks, j, rel[j], x);
    assert pool.Marginal(rel, picks, j) <= pool.Marginal(rel, picks, b);
    HigherRelevanceWins(pool.weight, rel[b], rel[j], x);
  }

  lemma {:induction false} IsPicked(pool: Pool, rel: seq<real>, picks: seq<nat>, k: nat, out: seq<SearchResult>, t: nat)
    requires ReranksBy(pool, rel, picks, k, out) && t < k
    ensures pool.Valid() && pool.Scaled(rel) && |rel| == |pool.scored| && Within(picks[..t], |pool.scored|)
    ensures pool.IsPick(rel, picks[..t], picks[t])
  {
  }

  /** Similarity to what is picked counts against an item: of equal scores, none is picked that has some similarity to an
      earlier pick while an item passed over is less similar to every earlier pick. */
  lemma {:induction false} NoveltyFirst(pool: Pool, rel: seq<real>, picks: seq<nat>, k: nat, out: seq<SearchResult>,
                                        t: nat, j: nat)
    requires ReranksBy(pool, rel, picks, k, out) && pool.weight < 1.0 && t < k && j < |pool.scored| && j !in picks[..t]
    requires pool.scored[j].score == pool.scored[picks[t]].score
    requires exists p :: p in picks[..t] && pool.cos(pool.embs[p], pool.embs[picks[t]]) > 0.0
    ensures exists p :: p in picks[..t] && pool.cos(pool.embs[p], pool.embs[j]) >= pool.cos(pool.embs[p], pool.embs[picks[t]])
  {
    IsPicked(pool, rel, picks, k, out, t);
    var x, y := Penalties(pool, picks[..t], picks[t], j);
    SameScoreSameRelevance(pool, rel, picks[t], j);
    EqualRelevance(pool, rel, picks[..t], picks[t], j, x, y);
  }

  /** Relevance counts for an item: of items equally similar to every earlier pick the higher score goes first. */
  lemma {:induction false} RelevanceFirst(pool: Pool, rel: seq<real>, picks: seq<nat>, k: nat, out: seq<SearchResult>,
                                          t: nat, j: nat)
    requires ReranksBy(pool, rel, picks, k, out) && pool.weight > 0.0 && t < k && j < |pool.scored| && j !in picks[..t]
    requires forall p :: p in picks[..t] ==> pool.cos(pool.embs[p], pool.embs[j]) == pool.cos(pool.embs[p], pool.embs[picks[t]])
    ensures pool.scored[j].score <= pool.scored[picks[t]].score
  {
    IsPicked(pool, rel, picks, k, out, t);
    var x, _ := Penalties(pool, picks[..t], picks[t], j);
    EqualPenalty(pool, rel, picks[..t], picks[t], j, x);
    SameScoreSameRelevance(pool, rel, picks[t], j);
  }

  method ApplyMmr(scored: seq<SearchResult>, embs: seq<Embedding>, weight: real, limit: int, poolSize: int, cos: Cosine)
    returns (out: seq<SearchResult>)
    requires |scored| == |embs|
    ensures weight >= 0.999 ==> out == if 0 < limit < |scored| then scored[..limit] else scored
    ensures weight < 0.999 ==>
              var cap := if poolSize > 0 then 2 * poolSize else 40;
              var n := if |scored| > cap then cap else |scored|;
              Reranks(Pool(scored[..n], embs[..n], weight, cos), if 0 < limit < n then limit else n, out)
  {
    if weight >= ESCAPE_LAMBDA {
      out := scored;
      if limit > 0 && |out| > limit {
        out := out[..limit];
      }
      return;
    }
    var maxCandidates := 2 * poolSize;
    if maxCandidates <= 0 {
      maxCandidates := 2 * DEFAULT_CANDIDATE_POOL;
    }
    var cut, cutEmbs := scored, embs;
    if |cut| > maxCandidates {
      cut, cutEmbs := cut[..maxCandidates], cutEmbs[..maxCandidates];
    }
    assert scored[..|scored|] == scored && embs[..|embs|] == embs;
    var n := |cut|;
    var k := n;
    if limit > 0 && limit < n {
      k := limit;
    }
    ghost var rel, picks;
    out, rel, picks := Greedy(cut, cutEmbs, weight, k, cos, Pool(cut, cutEmbs, weight, cos));
    assert ReranksBy(Pool(cut, cutEmbs, weight, cos), rel, picks, k, out);
  }

  /** The greedy loop over the pool: k picks. */
  method Greedy(cut: seq<SearchResult>, cutEmbs: seq<Embedding>, weight: real, k: nat, cos: Cosine, ghost pool: Pool)
    returns (out: seq<SearchResult>, ghost rel: seq<real>, ghost picks: seq<nat>)
    requires pool == Pool(cut, cutEmbs, weight, cos) && pool.Valid() && k <= |cut|
    ensures pool.Scaled(rel) && pool.IsGreedy(rel, picks) && |picks| == k
    ensures |out| == k && forall t :: 0 <= t < k ==> out[t] == cut[picks[t]]
  {
    var n := |cut|;
    var picked := new bool[n](_ => false);
    var maxSim := new real[n](_ => 0.0);
    var relevance := Normalize(cut, pool);
    out, rel, picks := [], relevance, [];
    while |out| < k
      invariant |out| == |picks| <= k
      invariant pool.IsGreedy(rel, picks)
      invariant Tracks(pool, picks, picked[..], maxSim[..])
      invariant forall t :: 0 <= t < |out| ==> out[t] == cut[picks[t]]
    {
      var best := Pick(relevance, picked, maxSim, cutEmbs, weight, cos, pool, picks);
      GreedyGrows(pool, rel, picks, best);
      out := out + [cut[best]];
      picks := picks + [best];
    }
  }

  /** One turn of that loop: the next pick, and what it does to the flags and penalties. */
  method Pick(rel: seq<real>, picked: array<bool>, maxSim: array<real>, embs: seq<Embedding>, weight: real, cos: Cosine,
              ghost pool: Pool, ghost picks: seq<nat>) returns (best: nat)
    requires Tracks(pool, picks, picked[..], maxSim[..]) && |rel| == |pool.scored| > |picks|
    requires weight == pool.weight && embs == pool.embs && cos == pool.cos
    modifies picked, maxSim
    ensures pool.IsPick(rel, picks, best) && Tracks(pool, picks + [best], picked[..], maxSim[..])
  {
    SomeLeft(picks, |rel|);
    best := Best(rel, picked, maxSim, weight, pool, picks);
    picked[best] := true;
    Penalize(best, embs, cos, picked, maxSim, pool, picks, picks + [best]);
  }

  lemma {:induction false} GreedyGrows(pool: Pool, rel: seq<real>, picks: seq<nat>, b: nat)
    requires pool.IsGreedy(rel, picks) && pool.IsPick(rel, picks, b)
    ensures pool.IsGreedy(rel, picks + [b])
  {
    var next := picks + [b];
    forall t | 0 <= t < |next|
      ensures pool.IsPick(rel, next[..t], next[t])
    {
      assert next[..t] == picks[..t];
    }
  }

  /** Raises the running penalties of the unpicked items after a pick. */
  method Penalize(best: nat, embs: seq<Embedding>, cos: Cosine, picked: array<bool>, maxSim: array<real>,
                  ghost pool: Pool, ghost before: seq<nat>, ghost picks: seq<nat>)
    requires pool.Valid() && embs == pool.embs && cos == pool.cos && |embs| == picked.Length == maxSim.Length
    requires best < |embs| && Within(before, |embs|) && picks == before + [best]
    requires forall i: nat :: i < |embs| ==> (picked[i] <==> i in picks)
    requires forall i: nat :: i < |embs| && i !in picks ==> maxSim[i] == pool.MaxSim(before, i)
    modifies maxSim
    ensures forall i: nat :: i < |embs| && i !in picks ==> maxSim[i] == pool.MaxSim(picks, i)
  {
    assert picks[..|picks| - 1] == before;
    var i := 0;
    while i < maxSim.Length
      invariant 0 <= i <= maxSim.Length
      invariant forall j: nat :: j < i && j !in picks ==> maxSim[j] == pool.MaxSim(picks, j)
      invariant forall j: nat :: i <= j < |embs| && j !in picks ==> maxSim[j] == pool.MaxSim(before, j)
    {
      if !picked[i] {
        var sim := cos(embs[best], embs[i]);
        if sim > maxSim[i] {
          maxSim[i] := sim;
        }
      }
      i := i + 1;
    }
  }

  lemma {:induction false} SomeLeft(picks: seq<nat>, n: nat)
    requires |picks| < n
    ensures exists i: nat :: i < n && i !in picks
  {
    var all: seq<nat> := seq(n, i => i);
    var picked, numbers := Elems(picks), Elems(all);
    ListedSet(all);
    SeqSetSize(picks);
    if numbers <= picked {
      SubsetSize(numbers, picked);
    }
    var i :| i in numbers && i !in picked;
  }
}
