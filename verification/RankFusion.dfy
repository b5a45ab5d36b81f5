/** Weighted reciprocal-rank fusion. */
module RankFusion {
  // The scores, and what a ranking by them is. Scores are exact.

  import opened Wrappers
  import opened Sorting

  // ---------- scores ----------

  /** What a ranked list adds to the score of `id`: `weight / (k + rank)` for every rank it has there. */
  function Contribution(ids: seq<string>, id: string, weight: real, k: real): real
    requires k > 0.0
  {
    if ids == [] then 0.0
    else
      Contribution(ids[..|ids| - 1], id, weight, k)
      + if ids[|ids| - 1] == id then weight / (k + |ids| as real) else 0.0
  }

  const VECTOR_WEIGHT: real := 0.7
  const KEYWORD_WEIGHT: real := 0.3
  const RRF_K: real := 60.0

  /** The fused score of a vector and a keyword ranking. */
  function Score(vector: seq<string>, keyword: seq<string>, id: string): real {
    Contribution(vector, id, VECTOR_WEIGHT, RRF_K) + Contribution(keyword, id, KEYWORD_WEIGHT, RRF_K)
  }

  function SetOf<T(==)>(s: seq<T>): set<T> {
    set x | x in s
  }

  /** The 1-based rank of `id` in a list without repetitions. */
  function Rank(ids: seq<string>, id: string): (r: Option<nat>)
    ensures r.Some? <==> id in ids
    ensures r.Some? ==> 1 <= r.value <= |ids| && ids[r.value - 1] == id
  {
    if ids == [] then None
    else if ids[|ids| - 1] == id then Some(|ids|)
    else Rank(ids[..|ids| - 1], id)
  }

  /** The share of a list as a function of the rank alone. */
  function Share(rank: Option<nat>, weight: real, k: real): real
    requires k > 0.0
  {
    if rank.None? then 0.0 else weight / (k + rank.value as real)
  }

  lemma {:induction false} AbsentContributes(ids: seq<string>, id: string, weight: real, k: real)
    requires k > 0.0 && id !in ids
    ensures Contribution(ids, id, weight, k) == 0.0
  {
    if ids != [] {
      assert ids[|ids| - 1] in ids;
      AbsentContributes(ids[..|ids| - 1], id, weight, k);
    }
  }

  /** Without repetitions an id contributes once, for its rank. */
  lemma {:induction false} ContributionIsShare(ids: seq<string>, id: string, weight: real, k: real)
    requires k > 0.0 && Distinct(ids)
    ensures Contribution(ids, id, weight, k) == Share(Rank(ids, id), weight, k)
  {
    if ids != [] {
      var front := ids[..|ids| - 1];
      if ids[|ids| - 1] == id {
        assert id !in front;
        AbsentContributes(front, id, weight, k);
      } else {
        ContributionIsShare(front, id, weight, k);
      }
    }
  }

  lemma {:induction false} ContributionNonNegative(ids: seq<string>, id: string, weight: real, k: real)
    requires k > 0.0 && weight > 0.0
    ensures Contribution(ids, id, weight, k) >= 0.0
  {
    if ids != [] {
      ContributionNonNegative(ids[..|ids| - 1], id, weight, k);
    }
  }

  /** An id contributes at least what any one of its ranks does. */
  lemma {:induction false} ContributionAtLeast(ids: seq<string>, i: nat, weight: real, k: real)
    requires k > 0.0 && weight > 0.0 && i < |ids|
    ensures Contribution(ids, ids[i], weight, k) >= weight / (k + (i + 1) as real)
  {
    var front := ids[..|ids| - 1];
    if i < |front| {
      ContributionAtLeast(front, i, weight, k);
      assert front[i] == ids[i];
    } else {
      ContributionNonNegative(front, ids[i], weight, k);
    }
  }

  // ---------- rankings ----------

  type Scores = map<string, real>

  predicate Descending(ids: seq<string>, scores: Scores)
    requires SetOf(ids) <= scores.Keys
  {
    forall i, j :: 0 <= i < j < |ids| ==> scores[ids[i]] >= scores[ids[j]]
  }

  /** The best `limit` ids, best first, in any order among equals. */
  ghost predicate IsTop(ids: seq<string>, scores: Scores, limit: nat) {
    && Distinct(ids)
    && SetOf(ids) <= scores.Keys
    && |ids| == (if limit <= |scores| then limit else |scores|)
    && Descending(ids, scores)
    && forall id, j :: id in scores && id !in ids && 0 <= j < |ids| ==> scores[id] <= scores[ids[j]]
  }

  lemma {:induction false} SetOfDistinct<T>(s: seq<T>)
    requires Distinct(s)
    ensures |SetOf(s)| == |s|
  {
    if s != [] {
      var front, last := s[..|s| - 1], s[|s| - 1];
      SetOfDistinct(front);
      assert last !in SetOf(front);
      assert SetOf(s) == SetOf(front) + {last};
    }
  }

  lemma SubsetCount<T>(a: set<T>, b: set<T>)
    requires a <= b
    ensures |a| <= |b|
    ensures |a| == |b| ==> a == b
  {
    var rest := b - a;
    assert b == a + rest && a * rest == {};
    assert |b| == |a| + |rest|;
  }

  /** A top that is not shorter than the scores ranks every id. */
  lemma FullTop(ids: seq<string>, scores: Scores, limit: nat)
    requires IsTop(ids, scores, limit) && limit >= |scores|
    ensures SetOf(ids) == scores.Keys
  {
    SetOfDistinct(ids);
    assert |scores.Keys| == |scores|;
    SubsetCount(SetOf(ids), scores.Keys);
  }

  /** Two rankings by the same scores agree up to ties: position by position they hold equal scores. */
  lemma RankingsAgree(a: seq<string>, b: seq<string>, scores: Scores, i: nat)
    requires IsTop(a, scores, |scores|) && IsTop(b, scores, |scores|) && i < |a|
    ensures i < |b| && scores[a[i]] == scores[b[i]]
  {
    FullTop(a, scores, |scores|);
    FullTop(b, scores, |scores|);
    NotAhead(a, b, scores, i);
    NotAhead(b, a, scores, i);
  }

  /** If `a` held more at `i` than `b`, its first `i + 1` ids would all be among the first `i` of `b`. */
  lemma NotAhead(a: seq<string>, b: seq<string>, scores: Scores, i: nat)
    requires IsTop(a, scores, |scores|) && IsTop(b, scores, |scores|) && i < |a| == |b|
    requires SetOf(a) == scores.Keys == SetOf(b)
    ensures scores[a[i]] <= scores[b[i]]
  {
    if scores[a[i]] > scores[b[i]] {
      forall j | 0 <= j <= i ensures a[j] in SetOf(b[..i]) {
        AmongFirst(b, scores, i, a[j]);
      }
      SetOfDistinct(a[..i + 1]);
      SetOfDistinct(b[..i]);
      SubsetCount(SetOf(a[..i + 1]), SetOf(b[..i]));
    }
  }

  lemma AmongFirst(b: seq<string>, scores: Scores, i: nat, id: string)
    requires SetOf(b) == scores.Keys && Descending(b, scores) && i < |b| && id in scores && scores[id] > scores[b[i]]
    ensures id in SetOf(b[..i])
  {
    assert id in SetOf(b);
    var n :| 0 <= n < |b| && b[n] == id;
    assert n < i;
    assert b[..i][n] == id;
  }

  // ---------- bounds that follow from the constants ----------

  lemma CompareShares(a: real, x: real, b: real, y: real)
    requires x > 0.0 && y > 0.0
    ensures a / x > b / y <==> a * y > b * x
  {
    var p, q := a / x, b / y;
    assert p * x == a && q * y == b;
    assert a * y == p * (x * y) by { assert p * x * y == p * (x * y); }
    assert b * x == q * (x * y) by { assert q * y * x == q * (x * y); }
    assert x * y > 0.0;
    if p > q {
      assert (p - q) * (x * y) > 0.0;
    } else {
      assert (q - p) * (x * y) >= 0.0;
    }
  }

  /** The score of a hit at rank `v` of the vector ranking only. */
  function VectorShare(v: nat): real {
    VECTOR_WEIGHT / (RRF_K + v as real)
  }

  /** The score of a hit at rank `w` of the keyword ranking only. */
  function KeywordShare(w: nat): real {
    KEYWORD_WEIGHT / (RRF_K + w as real)
  }

  /** A vector-only hit at rank `v` beats a keyword-only hit at rank `w` exactly when 3v < 240 + 7w. */
  lemma VectorBeatsKeyword(v: nat, w: nat)
    ensures VectorShare(v) > KeywordShare(w) <==> 3 * v < 240 + 7 * w
  {
    CompareShares(VECTOR_WEIGHT, RRF_K + v as real, KEYWORD_WEIGHT, RRF_K + w as real);
  }

  /** Rank 82 is the last vector rank that beats every keyword-only hit. */
  lemma EightyTwo(v: nat)
    ensures (forall w: nat :: w >= 1 ==> VectorShare(v) > KeywordShare(w)) <==> v <= 82
  {
    forall w: nat | w >= 1 && v <= 82 ensures VectorShare(v) > KeywordShare(w) {
      VectorBeatsKeyword(v, w);
    }
    VectorBeatsKeyword(v, 1);
  }

  /** A better rank earns a larger share. */
  lemma BetterRank(weight: real, k: real, better: nat, worse: Option<nat>)
    requires weight > 0.0 && k > 0.0 && (worse.Some? ==> better < worse.value)
    ensures Share(Some(better), weight, k) > Share(worse, weight, k)
  {
    if worse.Some? {
      CompareShares(weight, k + better as real, weight, k + worse.value as real);
      assert weight * (k + worse.value as real) > weight * (k + better as real);
    }
  }

  /** No worse: absent counts as worst. */
  predicate NoWorse(a: Option<nat>, b: Option<nat>) {
    b.None? || (a.Some? && a.value <= b.value)
  }

  predicate Better(a: Option<nat>, b: Option<nat>) {
    a.Some? && (b.None? || a.value < b.value)
  }

  /** Better in one list and no worse in the other means a strictly higher fused score. */
  lemma FusionIsMonotone(vector: seq<string>, keyword: seq<string>, a: string, b: string)
    requires Distinct(vector) && Distinct(keyword)
    requires NoWorse(Rank(vector, a), Rank(vector, b)) && NoWorse(Rank(keyword, a), Rank(keyword, b))
    requires Better(Rank(vector, a), Rank(vector, b)) || Better(Rank(keyword, a), Rank(keyword, b))
    ensures Score(vector, keyword, a) > Score(vector, keyword, b)
  {
    ListIsMonotone(vector, a, b, VECTOR_WEIGHT, RRF_K);
    ListIsMonotone(keyword, a, b, KEYWORD_WEIGHT, RRF_K);
  }

  lemma ListIsMonotone(ids: seq<string>, a: string, b: string, weight: real, k: real)
    requires Distinct(ids) && weight > 0.0 && k > 0.0 && NoWorse(Rank(ids, a), Rank(ids, b))
    ensures Contribution(ids, a, weight, k) >= Contribution(ids, b, weight, k)
    ensures Better(Rank(ids, a), Rank(ids, b)) ==> Contribution(ids, a, weight, k) > Contribution(ids, b, weight, k)
  {
    ContributionIsShare(ids, a, weight, k);
    ContributionIsShare(ids, b, weight, k);
    if Better(Rank(ids, a), Rank(ids, b)) {
      BetterRank(weight, k, Rank(ids, a).value, Rank(ids, b));
    } else if Rank(ids, a).Some? {
      assert weight / (k + Rank(ids, a).value as real) >= 0.0;
    }
  }

  /** The ids of a vector ranking that stand at rank 82 or better. */
  function SafeIds(vector: seq<string>): set<string> {
    set i | 0 <= i < |vector| && i < 82 :: vector[i]
  }

  /** Every safe id outscores every keyword-only id. */
  lemma SafeBeatsKeywordOnly(vector: seq<string>, keyword: seq<string>, safe: string, other: string)
    requires Distinct(keyword) && safe in SafeIds(vector) && other !in vector
    ensures Score(vector, keyword, safe) > Score(vector, keyword, other)
  {
    var i :| 0 <= i < |vector| && i < 82 && vector[i] == safe;
    ContributionAtLeast(vector, i, VECTOR_WEIGHT, RRF_K);
    ContributionNonNegative(keyword, safe, KEYWORD_WEIGHT, RRF_K);
    AbsentContributes(vector, other, VECTOR_WEIGHT, RRF_K);
    ContributionIsShare(keyword, other, KEYWORD_WEIGHT, RRF_K);
    EightyTwo(i + 1);
    if other in keyword {
      VectorBeatsKeyword(i + 1, Rank(keyword, other).value);
    }
  }

  /** With enough safe ids, the top holds no keyword-only id. */
  lemma NoKeywordOnly(vector: seq<string>, keyword: seq<string>, ids: seq<string>, scores: Scores, limit: nat,
                      id: string)
    requires Distinct(keyword) && limit <= |SafeIds(vector)|
    requires scores.Keys == SetOf(vector) + SetOf(keyword)
    requires forall x :: x in scores ==> scores[x] == Score(vector, keyword, x)
    requires IsTop(ids, scores, limit) && id in ids
    ensures id in vector
  {
    if id !in vector {
      var j :| 0 <= j < |ids| && ids[j] == id;
      forall safe | safe in SafeIds(vector) ensures safe in SetOf(ids) - {id} {
        SafeBeatsKeywordOnly(vector, keyword, safe, id);
      }
      SetOfDistinct(ids);
      SubsetCount(SafeIds(vector), SetOf(ids) - {id});
    }
  }
}
