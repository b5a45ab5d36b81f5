/** When fusion shows keyword-only hits. */
module KeywordOnly {
  // Up to a limit of 41 enough vector hits keep keyword-only documents out of a hybrid answer.

  import opened Wrappers
  import opened Sorting
  import opened RankFusion
  import opened Searcher
  import opened Hydration
  import opened HybridSearch
  import opened FullPages

  /**
   * With at least `2 * limit` distinct vector hits at rank 82 or better, a fusion cut at `2 * limit` holds vector
   * hits only.
   */
  lemma FusionHoldsVectorHits(vector: seq<VectorMatch>, keyword: seq<VectorMatch>, out: seq<VectorMatch>, limit: nat,
                              k: nat)
    requires Distinct(Ids(keyword)) && limit <= |SafeIds(Ids(vector))|
    requires IsFusion(out, Fuse(vector, keyword), limit) && k < |out|
    ensures out[k].id in Ids(vector)
  {
    FuseScores(vector, keyword);
    assert Ids(out)[k] == out[k].id;
    NoKeywordOnly(Ids(vector), Ids(keyword), Ids(out), ScoresOf(Fuse(vector, keyword)), limit, out[k].id);
  }

  lemma SafeIdsCount(ids: seq<string>, n: nat)
    requires Distinct(ids) && n <= |ids| && n <= 82
    ensures n <= |SafeIds(ids)|
  {
    SetOfDistinct(ids[..n]);
    forall id | id in SetOf(ids[..n]) ensures id in SafeIds(ids) {
      var i :| 0 <= i < n && ids[i] == id;
    }
    SubsetCount(SetOf(ids[..n]), SafeIds(ids));
  }

  /**
   * Up to a limit of 41, keyword-only documents appear only when fewer than `2 * limit` vector hits pass the
   * threshold.
   */
  lemma VectorHitsOnly(c: Cut, k: nat)
    requires c.Valid() && k < |c.Docs()| && Distinct(Ids(c.vector)) && Distinct(Ids(c.keyword))
    requires c.limit <= 41 && 2 * c.limit <= |c.vector|
    ensures c.Docs()[k].id in Ids(c.vector)
  {
    SafeIdsCount(Ids(c.vector), 2 * c.limit);
    PlaceInRanking(c, k);
    var i :| 0 <= i < |c.matches| && c.matches[i].id == c.Full()[k].id;
    FusionHoldsVectorHits(c.vector, c.keyword, c.matches, 2 * c.limit, i);
  }

  /** Two rankings without repetitions, the vector ranking long enough to fill the fusion. */
  predicate EnoughVectorHits(vector: seq<VectorMatch>, keyword: seq<VectorMatch>, limit: nat) {
    Distinct(Ids(vector)) && Distinct(Ids(keyword)) && 2 * limit <= |vector|
  }

  predicate AllIn(docs: seq<Document>, ids: seq<string>) {
    forall k :: 0 <= k < |docs| ==> docs[k].id in ids
  }

  /** No search with this limit and enough vector hits returns a keyword-only document. */
  ghost predicate KeywordNeverAlone(limit: nat) {
    forall p: Params, b: Backends, vector: seq<VectorMatch>, keyword: seq<VectorMatch>, docs: seq<Document> ::
      p.Limit() == limit && EnoughVectorHits(vector, keyword, limit) && IsHybridAnswer(p, b, vector, keyword, Ok(docs))
      ==> AllIn(docs, Ids(vector))
  }

  /** A keyword hit that no hit of `Hits(n)` stands for. */
  const STRANGER: VectorMatch := VectorMatch("b", "", 1.0)

  lemma StrangerIsNew(n: nat)
    ensures STRANGER.id !in Ids(Hits(n))
  {
    forall i | 0 <= i < n ensures Ids(Hits(n))[i] != STRANGER.id {
      assert i > 0 ==> Name(i)[0] == 'a';
    }
  }

  /** From vector rank 83 on, a best keyword hit scores more. */
  lemma StrangerScoresMore(n: nat)
    requires n > 82
    ensures Score(Ids(Hits(n)), [STRANGER.id], STRANGER.id) > Score(Ids(Hits(n)), [STRANGER.id], Name(n - 1))
  {
    var ids := Ids(Hits(n));
    StrangerIsNew(n);
    assert ids[n - 1] == Name(n - 1);
    assert Rank(ids, Name(n - 1)) == Some(n);
    ContributionIsShare(ids, Name(n - 1), VECTOR_WEIGHT, RRF_K);
    ContributionIsShare(ids, STRANGER.id, VECTOR_WEIGHT, RRF_K);
    ContributionIsShare([STRANGER.id], STRANGER.id, KEYWORD_WEIGHT, RRF_K);
    AbsentContributes([STRANGER.id], Name(n - 1), KEYWORD_WEIGHT, RRF_K);
    CompareShares(KEYWORD_WEIGHT, RRF_K + 1.0, VECTOR_WEIGHT, RRF_K + n as real);
  }

  /** A top that omits a single id keeps what outscores another. */
  lemma BetterIsKept(ids: seq<string>, scores: Scores, limit: nat, better: string, worse: string)
    requires IsTop(ids, scores, limit) && |ids| + 1 == |scores|
    requires better in scores && worse in scores && scores[better] > scores[worse]
    ensures better in ids
  {
    if worse in ids {
      var j :| 0 <= j < |ids| && ids[j] == worse;
    } else {
      SetOfDistinct(ids);
      assert |scores.Keys| == |scores|;
      SubsetCount(SetOf(ids), scores.Keys - {worse});
      assert better in SetOf(ids);
    }
  }

  lemma OneMore(ids: seq<string>, id: string)
    requires Distinct(ids) && id !in ids
    ensures |SetOf(ids) + SetOf([id])| == |ids| + 1
  {
    SetOfDistinct(ids);
    assert SetOf([id]) == {id};
    assert id !in SetOf(ids);
  }

  lemma FusedKeys(vector: seq<VectorMatch>, keyword: seq<VectorMatch>)
    ensures ScoresOf(Fuse(vector, keyword)).Keys == SetOf(Ids(vector)) + SetOf(Ids(keyword))
    ensures |ScoresOf(Fuse(vector, keyword))| == |SetOf(Ids(vector)) + SetOf(Ids(keyword))|
  {
    FuseScores(vector, keyword);
    assert |ScoresOf(Fuse(vector, keyword))| == |ScoresOf(Fuse(vector, keyword)).Keys|;
  }

  /** Every cut of that fusion to `n` ids holds the keyword hit. */
  lemma StrangerStays(ids: seq<string>, n: nat)
    requires n > 82 && IsTop(ids, ScoresOf(Fuse(Hits(n), [STRANGER])), n)
    ensures STRANGER.id in ids
  {
    var vector, scores := Ids(Hits(n)), ScoresOf(Fuse(Hits(n), [STRANGER]));
    assert Ids([STRANGER]) == [STRANGER.id];
    FusedKeys(Hits(n), [STRANGER]);
    StrangerIsNew(n);
    OneMore(vector, STRANGER.id);
    StrangerTops(n);
    BetterIsKept(ids, scores, n, STRANGER.id, Name(n - 1));
  }

  lemma StrangerTops(n: nat)
    requires n > 82
    ensures
      var scores := ScoresOf(Fuse(Hits(n), [STRANGER]));
      STRANGER.id in scores && Name(n - 1) in scores && scores[STRANGER.id] > scores[Name(n - 1)]
  {
    assert Ids([STRANGER]) == [STRANGER.id];
    FuseScores(Hits(n), [STRANGER]);
    StrangerScoresMore(n);
    assert [STRANGER.id][0] in SetOf([STRANGER.id]);
    assert Ids(Hits(n))[n - 1] == Name(n - 1);
    assert Name(n - 1) in SetOf(Ids(Hits(n)));
  }

  const STRANGER_ROW: Chunk := Chunk("b", "", "", "", 0, "", "")

  /** With a row for the keyword hit only, that is the page. */
  lemma OnlyStranger(c: Cut)
    requires c.Valid() && c.limit > 0 && c.rows == [STRANGER_ROW] && c.files == [] && STRANGER.id in Ids(c.matches)
    ensures c.Docs() != [] && c.Docs()[0].id == STRANGER.id
  {
    OneRowById(STRANGER_ROW);
    var k := FullDocument(c, STRANGER.id);
    PlaceInRanking(c, 0);
  }

  /** From a limit of 42 on, `2 * limit` vector hits do not keep a keyword-only document out. */
  lemma StrangerIsReturned(limit: nat) returns (p: Params, b: Backends, docs: seq<Document>)
    requires limit >= 42
    ensures p.Limit() == limit && IsHybridAnswer(p, b, Hits(2 * limit), [STRANGER], Ok(docs))
    ensures !AllIn(docs, Ids(Hits(2 * limit)))
  {
    var hits := Hits(2 * limit);
    p, b := Plain(limit), Indexed(hits, [STRANGER], [STRANGER_ROW]);
    IndexedAnswers(hits, [STRANGER], [STRANGER_ROW]);
    var ids := LeastTop(ScoresOf(Fuse(hits, [STRANGER])), {}, 2 * limit);
    var c := AnswerOf(p, b, [STRANGER_ROW], hits, [STRANGER], ids);
    StrangerStays(ids, 2 * limit);
    OnlyStranger(c);
    docs := c.Docs();
    StrangerIsNew(2 * limit);
  }

  /** `2 * limit` vector hits keep keyword-only documents out of every answer exactly up to a limit of 41. */
  lemma KeywordNeverAloneIff(limit: nat)
    requires limit > 0
    ensures KeywordNeverAlone(limit) <==> limit <= 41
  {
    if limit <= 41 {
      forall p: Params, b: Backends, vector: seq<VectorMatch>, keyword: seq<VectorMatch>, docs: seq<Document> |
        p.Limit() == limit && EnoughVectorHits(vector, keyword, limit) &&
            IsHybridAnswer(p, b, vector, keyword, Ok(docs))
        ensures AllIn(docs, Ids(vector))
      {
        var c := HybridAnswer(p, b, vector, keyword, docs);
        forall k: nat | k < |docs| ensures docs[k].id in Ids(vector) {
          VectorHitsOnly(c, k);
        }
      }
    } else {
      var p, b, docs := StrangerIsReturned(limit);
      assert EnoughVectorHits(Hits(2 * limit), [STRANGER], limit);
    }
  }
}
