/** At most TopK? */
module TopK {
  // How many documents the hybrid retriever of `eino_retriever.go` returns: both sub-retrievers cut at the limit, the
  // fusion of their streams does not.

  import opened Wrappers
  import opened Sorting
  import opened RankFusion
  import opened Searcher
  import opened Hydration
  import opened HybridSearch
  import FullPages
  import FanOut
  import Router
  import Text

  // ---------- the sub-retrievers ----------

  /** The documents of the hits, or the error of the store. */
  function Answer(p: Params, b: Backends, hits: seq<VectorMatch>): FanOut.Answer {
    if hits == [] then Ok([])
    else
      match b.rows(Ids(hits))
      case Err(cause) => Err(cause)
      case Ok(rows) => Ok(Take(Hydrated(hits, RowsById(rows), [], NO_NAMES), p.Limit()))
  }

  function VectorAnswer(p: Params, b: Backends, search: Search): FanOut.Answer {
    match b.embedding
    case Err(cause) => Err(cause)
    case Ok(vectors) =>
      if vectors == [] || vectors[0] == [] then Err(EMPTY_EMBEDDING)
      else
        match search(p.Candidates())
        case Err(cause) => Err(cause)
        case Ok(found) => Answer(p, b, VectorHits(p, found))
  }

  function KeywordAnswer(p: Params, b: Backends, search: Search): FanOut.Answer {
    match search(p.Candidates())
    case Err(cause) => Err(cause)
    case Ok(found) => Answer(p, b, KeywordHits(p, found))
  }

  const EMPTY_EMBEDDING: Cause := "empty embedding"

  method Hydrate(p: Params, b: Backends, hits: seq<VectorMatch>) returns (answer: FanOut.Answer)
    ensures answer == Answer(p, b, hits)
  {
    answer := Hydration.HydrateChunks(hits, b.rows, p.Limit());
  }

  method RetrieveByVector(p: Params, b: Backends, search: Search) returns (answer: FanOut.Answer)
    ensures answer == VectorAnswer(p, b, search)
  {
    if b.embedding.Err? {
      return Err(b.embedding.error);
    }
    if b.embedding.value == [] || b.embedding.value[0] == [] {
      return Err(EMPTY_EMBEDDING);
    }
    var candidateLimit := p.Limit() * 5;
    if candidateLimit < 50 {
      candidateLimit := 50;
    }
    var found := search(candidateLimit);
    if found.Err? {
      return Err(found.error);
    }
    var matches := FilterMatchesByScore(found.value, p.VectorThreshold());
    answer := Hydrate(p, b, matches);
  }

  method RetrieveByKeyword(p: Params, b: Backends, search: Search) returns (answer: FanOut.Answer)
    ensures answer == KeywordAnswer(p, b, search)
  {
    var candidateLimit := p.Limit() * 5;
    if candidateLimit < 50 {
      candidateLimit := 50;
    }
    var found := search(candidateLimit);
    if found.Err? {
      return Err(found.error);
    }
    var matches := FilterMatchesByScore(found.value, p.KeywordThreshold());
    answer := Hydrate(p, b, matches);
  }

  /** The sub-retrievers of the hybrid retriever; without a keyword index there is only one. */
  function Subs(p: Params, b: Backends): FanOut.Subs
    requires b.store.Some?
  {
    var vector := VectorAnswer(p, b, b.store.value);
    match b.keyword
    case None => map["vector" := vector]
    case Some(search) => map["vector" := vector, "keyword" := KeywordAnswer(p, b, search)]
  }

  /** Some interleaving of the sub-retrievers ends in these documents. */
  ghost predicate Returns(p: Params, b: Backends, docs: seq<Document>)
    requires b.store.Some?
  {
    Text.TrimSpace(p.query) != "" && exists moves, s :: ReturnsBy(p, b, moves, s, docs)
  }

  ghost predicate ReturnsBy(p: Params, b: Backends, moves: seq<FanOut.Move>, s: FanOut.State, docs: seq<Document>)
    requires b.store.Some?
  {
    && FanOut.Run(Subs(p, b), FanOut.Start(Subs(p, b)), moves) == Some(s)
    && s.caller.Merged?
    && FanOut.Fusion(Router.HYBRID_WEIGHTS, s.caller.streams, docs)
  }

  // ---------- what the streams hold ----------

  /** The first `limit` hits that have a chunk. */
  function Given(p: Params, table: seq<Chunk>, hits: seq<VectorMatch>): (ids: seq<string>)
    ensures |ids| <= p.Limit()
  {
    Take(Survivors(Ids(hits), RowsById(table), []), p.Limit())
  }

  /** There is a query, and the parts around the retriever answer it without an error: these are the hits. */
  predicate Finds(p: Params, b: Backends, vector: seq<VectorMatch>, keyword: seq<VectorMatch>) {
    && Text.TrimSpace(p.query) != ""
    && b.embedding.Ok? && b.embedding.value != [] && b.embedding.value[0] != []
    && b.store.Some? && b.store.value(p.Candidates()).Ok? &&
        vector == VectorHits(p, b.store.value(p.Candidates()).value)
    && match b.keyword
       case None => keyword == []
       case Some(search) => search(p.Candidates()).Ok? && keyword == KeywordHits(p, search(p.Candidates()).value)
  }

  lemma TakeIds(docs: seq<Document>, n: nat)
    ensures DocIds(Take(docs, n)) == Take(DocIds(docs), n)
  {
  }

  /** Over a table a stream has exactly the first `limit` hits with a chunk. */
  lemma AnswerGives(p: Params, b: Backends, table: seq<Chunk>, hits: seq<VectorMatch>)
    requires AnswersFrom(b.rows, table)
    ensures Answer(p, b, hits).Ok? && DocIds(Answer(p, b, hits).value) == Given(p, table, hits)
  {
    if hits == [] {
      assert Ids(hits) == [] && DocIds([]) == [];
    } else {
      assert Answers(b.rows(Ids(hits)), table, Ids(hits));
      AskedInOrder(table, Ids(hits));
      HydrationKeepsOrder(Ids(hits), RowsById(table), [], NO_NAMES, Similarities(hits));
      TakeIds(Hydrated(hits, RowsById(table), [], NO_NAMES), p.Limit());
    }
  }

  // ---------- the count ----------

  lemma OneStream(weights: map<string, real>, k: real, name: string, stream: seq<Document>, docs: seq<Document>)
    requires Router.IsFused(weights, k, map[name := stream], Ok(docs))
    ensures docs == stream
  {
    var streams := map[name := stream];
    assert |streams.Keys| == 1;
  }

  /** A fusion of two streams has every id of either once. */
  lemma TwoStreams(weights: map<string, real>, k: real, vector: seq<Document>, keyword: seq<Document>,
                   docs: seq<Document>)
    requires Router.IsFused(weights, k, Router.Hybrid(vector, keyword), Ok(docs))
    ensures Distinct(DocIds(docs)) && SetOf(DocIds(docs)) == SetOf(DocIds(vector)) + SetOf(DocIds(keyword))
    ensures |docs| == |SetOf(DocIds(vector)) + SetOf(DocIds(keyword))|
  {
    var streams := Router.Hybrid(vector, keyword);
    var scores := Router.Totals(weights, k, streams);
    Router.HybridIds(vector, keyword);
    assert |streams.Keys| == 2;
    FullTop(DocIds(docs), scores, |scores|);
    SetOfDistinct(DocIds(docs));
  }

  /** The number of documents that every complete run returns. */
  function Count(p: Params, b: Backends, table: seq<Chunk>, vector: seq<VectorMatch>, keyword: seq<VectorMatch>): nat {
    if b.keyword.None? then |Given(p, table, vector)|
    else |SetOf(Given(p, table, vector)) + SetOf(Given(p, table, keyword))|
  }

  lemma VectorOnly(p: Params, b: Backends, table: seq<Chunk>, vector: seq<VectorMatch>)
    requires AnswersFrom(b.rows, table) && Finds(p, b, vector, []) && b.keyword.None?
    ensures Answer(p, b, vector).Ok? && Subs(p, b) == map["vector" := Answer(p, b, vector)]
    ensures FanOut.AllOk(Subs(p, b)) && FanOut.Answers(Subs(p, b)) == map["vector" := Answer(p, b, vector).value]
  {
    AnswerGives(p, b, table, vector);
  }

  lemma BothStreams(p: Params, b: Backends, table: seq<Chunk>, vector: seq<VectorMatch>, keyword: seq<VectorMatch>)
    requires AnswersFrom(b.rows, table) && Finds(p, b, vector, keyword) && b.keyword.Some?
    ensures Answer(p, b, vector).Ok? && Answer(p, b, keyword).Ok?
    ensures Subs(p, b) == map["vector" := Answer(p, b, vector), "keyword" := Answer(p, b, keyword)]
  {
    AnswerGives(p, b, table, vector);
    AnswerGives(p, b, table, keyword);
  }

  lemma AnswersOfTwo(vector: seq<Document>, keyword: seq<Document>, subs: FanOut.Subs)
    requires subs == map["vector" := Ok(vector), "keyword" := Ok(keyword)]
    ensures FanOut.AllOk(subs) && FanOut.Answers(subs) == Router.Hybrid(vector, keyword)
  {
    assert subs.Keys == {"vector", "keyword"};
    assert FanOut.Answers(subs).Keys == {"vector", "keyword"};
  }

  /** The streams that every complete run fuses. */
  function Streams(p: Params, b: Backends, vector: seq<VectorMatch>, keyword: seq<VectorMatch>): Router.Streams
    requires Answer(p, b, vector).Ok? && Answer(p, b, keyword).Ok?
  {
    if b.keyword.None? then map["vector" := Answer(p, b, vector).value]
    else Router.Hybrid(Answer(p, b, vector).value, Answer(p, b, keyword).value)
  }

  lemma StreamsAre(p: Params, b: Backends, table: seq<Chunk>, vector: seq<VectorMatch>, keyword: seq<VectorMatch>)
    requires AnswersFrom(b.rows, table) && Finds(p, b, vector, keyword)
    ensures Answer(p, b, vector).Ok? && Answer(p, b, keyword).Ok? && FanOut.AllOk(Subs(p, b))
    ensures FanOut.Answers(Subs(p, b)) == Streams(p, b, vector, keyword)
  {
    if b.keyword.None? {
      VectorOnly(p, b, table, vector);
    } else {
      BothStreams(p, b, table, vector, keyword);
      AnswersOfTwo(Answer(p, b, vector).value, Answer(p, b, keyword).value, Subs(p, b));
    }
  }

  /** A fusion of the streams has this many documents. */
  lemma FusedCount(p: Params, b: Backends, table: seq<Chunk>, vector: seq<VectorMatch>, keyword: seq<VectorMatch>,
                   docs: seq<Document>)
    requires AnswersFrom(b.rows, table) && Answer(p, b, vector).Ok? && Answer(p, b, keyword).Ok?
    requires FanOut.Fusion(Router.HYBRID_WEIGHTS, Streams(p, b, vector, keyword), docs)
    ensures |docs| == Count(p, b, table, vector, keyword)
  {
    AnswerGives(p, b, table, vector);
    AnswerGives(p, b, table, keyword);
    var v, w := Answer(p, b, vector).value, Answer(p, b, keyword).value;
    if b.keyword.None? {
      OneStream(Router.HYBRID_WEIGHTS, RRF_K, "vector", v, docs);
    } else {
      TwoStreams(Router.HYBRID_WEIGHTS, RRF_K, v, w, docs);
    }
  }

  /** Whatever the interleaving, the walk through the maps and the way ties are broken. */
  lemma ReturnedCount(p: Params, b: Backends, table: seq<Chunk>, vector: seq<VectorMatch>, keyword: seq<VectorMatch>,
                      docs: seq<Document>)
    requires AnswersFrom(b.rows, table) && Finds(p, b, vector, keyword) && Returns(p, b, docs)
    ensures |docs| == Count(p, b, table, vector, keyword)
  {
    var moves, s :| ReturnsBy(p, b, moves, s, docs);
    FanOut.MergedMeans(Subs(p, b), moves, s);
    StreamsAre(p, b, table, vector, keyword);
    FusedCount(p, b, table, vector, keyword, docs);
  }

  lemma SetOfCount(ids: seq<string>)
    ensures |SetOf(ids)| <= |ids|
  {
    if ids != [] {
      SetOfCount(ids[..|ids| - 1]);
      assert SetOf(ids) == SetOf(ids[..|ids| - 1]) + {ids[|ids| - 1]};
    }
  }

  /** One stream keeps the limit, and two never exceed it more than twofold. */
  lemma CountIsBounded(p: Params, b: Backends, table: seq<Chunk>, vector: seq<VectorMatch>, keyword: seq<VectorMatch>)
    ensures Count(p, b, table, vector, keyword) <= if b.keyword.None? then p.Limit() else 2 * p.Limit()
  {
    SetOfCount(Given(p, table, vector));
    SetOfCount(Given(p, table, keyword));
  }

  // ---------- runs and fusions exist ----------

  lemma {:induction false} LastWith(docs: seq<Document>, id: string, score: real) returns (doc: Document)
    requires id in DocIds(docs)
    ensures doc.id == id && doc.score == score && Router.LastWithId(docs, doc)
  {
    var front, last := docs[..|docs| - 1], docs[|docs| - 1];
    assert docs == front + [last];
    if last.id == id {
      doc := last.(score := score);
      assert Router.IsLastAt(docs, doc, |front|);
    } else {
      DocIdsAppend(front, last);
      doc := LastWith(front, id, score);
      Router.OtherStaysLast(front, doc, last);
    }
  }

  lemma SomeDocument(streams: Router.Streams, scores: Scores, id: string) returns (doc: Document)
    requires id in Router.IdsOf(streams, streams.Keys) && id in scores
    ensures doc.id == id && Router.IsRescored(doc, scores, streams)
  {
    var name, i :| name in streams && 0 <= i < |streams[name]| && streams[name][i].id == id;
    assert DocIds(streams[name])[i] == id;
    doc := LastWith(streams[name], id, scores[id]);
  }

  lemma {:induction false} SomeDocuments(streams: Router.Streams, scores: Scores, ids: seq<string>)
    returns (docs: seq<Document>)
    requires SetOf(ids) <= Router.IdsOf(streams, streams.Keys) && SetOf(ids) <= scores.Keys
    ensures DocIds(docs) == ids && forall k :: 0 <= k < |docs| ==> Router.IsRescored(docs[k], scores, streams)
  {
    if ids == [] {
      docs := [];
    } else {
      var front, last := ids[..|ids| - 1], ids[|ids| - 1];
      assert last in SetOf(ids) && forall id :: id in SetOf(front) ==> id in SetOf(ids);
      var before := SomeDocuments(streams, scores, front);
      var doc := SomeDocument(streams, scores, last);
      docs := before + [doc];
      DocIdsAppend(before, doc);
    }
  }

  lemma SomeFusion(weights: map<string, real>, k: real, streams: Router.Streams) returns (docs: seq<Document>)
    requires streams != map[]
    ensures Router.IsFused(weights, k, streams, Ok(docs))
  {
    if |streams| == 1 {
      var name :| name in streams;
      docs := streams[name];
    } else {
      var scores := Router.Totals(weights, k, streams);
      var ids := FullPages.LeastTop(scores, {}, |scores|);
      docs := SomeDocuments(streams, scores, ids);
    }
  }

  /** A run to its end returns any fusion of the answers. */
  lemma RunReturns(p: Params, b: Backends, moves: seq<FanOut.Move>, s: FanOut.State, docs: seq<Document>)
    requires b.store.Some? && Text.TrimSpace(p.query) != "" && FanOut.AllOk(Subs(p, b))
    requires FanOut.Run(Subs(p, b), FanOut.Start(Subs(p, b)), moves) == Some(s) && FanOut.Finished(Subs(p, b), s)
    requires FanOut.Fusion(Router.HYBRID_WEIGHTS, FanOut.Answers(Subs(p, b)), docs)
    ensures Returns(p, b, docs)
  {
    FanOut.EveryInterleaving(Subs(p, b), moves, s);
    assert ReturnsBy(p, b, moves, s, docs);
  }

  lemma SomeStream(p: Params, b: Backends, vector: seq<VectorMatch>, keyword: seq<VectorMatch>)
    requires Answer(p, b, vector).Ok? && Answer(p, b, keyword).Ok?
    ensures Streams(p, b, vector, keyword) != map[]
  {
    assert "vector" in Streams(p, b, vector, keyword);
  }

  lemma SomethingReturns(p: Params, b: Backends, table: seq<Chunk>, vector: seq<VectorMatch>, keyword: seq<VectorMatch>)
    returns (docs: seq<Document>)
    requires AnswersFrom(b.rows, table) && Finds(p, b, vector, keyword)
    ensures Returns(p, b, docs)
  {
    StreamsAre(p, b, table, vector, keyword);
    SomeStream(p, b, vector, keyword);
    var moves, s := FanOut.SomeRunEnds(Subs(p, b));
    docs := SomeFusion(Router.HYBRID_WEIGHTS, RRF_K, Streams(p, b, vector, keyword));
    RunReturns(p, b, moves, s, docs);
  }

  lemma OkMeansHits(p: Params, b: Backends)
    requires b.store.Some? && FanOut.AllOk(Subs(p, b))
    ensures b.embedding.Ok? && b.embedding.value != [] && b.embedding.value[0] != []
    ensures b.store.value(p.Candidates()).Ok? && (b.keyword.Some? ==> b.keyword.value(p.Candidates()).Ok?)
  {
    assert "vector" in Subs(p, b) && Subs(p, b)["vector"] == VectorAnswer(p, b, b.store.value);
    if b.keyword.Some? {
      assert "keyword" in Subs(p, b) && Subs(p, b)["keyword"] == KeywordAnswer(p, b, b.keyword.value);
    }
  }

  /** Only a search that gets its hits returns documents. */
  lemma OnlyFindsReturn(p: Params, b: Backends, docs: seq<Document>)
    returns (vector: seq<VectorMatch>, keyword: seq<VectorMatch>)
    requires b.store.Some? && Returns(p, b, docs)
    ensures Finds(p, b, vector, keyword)
  {
    var moves, s :| ReturnsBy(p, b, moves, s, docs);
    FanOut.MergedMeans(Subs(p, b), moves, s);
    OkMeansHits(p, b);
    vector := VectorHits(p, b.store.value(p.Candidates()).value);
    keyword := if b.keyword.None? then [] else KeywordHits(p, b.keyword.value(p.Candidates()).value);
  }

  // ---------- at most TopK? ----------

  ghost predicate AtMostTopK(p: Params, b: Backends)
    requires b.store.Some?
  {
    forall docs :: Returns(p, b, docs) ==> |docs| <= p.Limit()
  }

  /**
   * A search returns at most the requested number of documents exactly when there is no keyword index or the first
   * `limit` hits of both kinds that have a chunk have at most `limit` different ids together.
   */
  lemma AtMostTopKIff(p: Params, b: Backends, table: seq<Chunk>, vector: seq<VectorMatch>, keyword: seq<VectorMatch>)
    requires AnswersFrom(b.rows, table) && Finds(p, b, vector, keyword)
    ensures AtMostTopK(p, b)
      <==> b.keyword.None? || |SetOf(Given(p, table, vector)) + SetOf(Given(p, table, keyword))| <= p.Limit()
  {
    CountIsBounded(p, b, table, vector, keyword);
    forall docs | Returns(p, b, docs) ensures |docs| == Count(p, b, table, vector, keyword) {
      ReturnedCount(p, b, table, vector, keyword, docs);
    }
    var docs := SomethingReturns(p, b, table, vector, keyword);
  }

  // ---------- twice TopK ----------

  /** One row per hit. */
  function RowsFor(hits: seq<VectorMatch>): (rows: seq<Chunk>)
    ensures |rows| == |hits| && forall k :: 0 <= k < |rows| ==> rows[k].id == hits[k].id
  {
    seq(|hits|, k requires 0 <= k < |hits| => Chunk(hits[k].id, "", "", "", 0, "", ""))
  }

  lemma {:induction false} AllSurvive(ids: seq<string>, byID: map<string, Chunk>)
    requires forall id :: id in ids ==> id in byID
    ensures Survivors(ids, byID, []) == ids
  {
    if ids != [] {
      assert ids == ids[..|ids| - 1] + [ids[|ids| - 1]];
      AllSurvive(ids[..|ids| - 1], byID);
    }
  }

  lemma RowsForSurvive(hits: seq<VectorMatch>, some: seq<VectorMatch>)
    requires forall m :: m in some ==> m in hits
    ensures Survivors(Ids(some), RowsById(RowsFor(hits)), []) == Ids(some)
  {
    forall id | id in Ids(some) ensures id in RowsById(RowsFor(hits)) {
      var i :| 0 <= i < |some| && Ids(some)[i] == id;
      assert some[i] in some;
      var j :| 0 <= j < |hits| && hits[j] == some[i];
      RowsByIdKeys(RowsFor(hits), RowsFor(hits)[j]);
    }
    AllSurvive(Ids(some), RowsById(RowsFor(hits)));
  }

  lemma SomeGive(p: Params, hits: seq<VectorMatch>, some: seq<VectorMatch>)
    requires |some| <= p.Limit() && forall m :: m in some ==> m in hits
    ensures Given(p, RowsFor(hits), some) == Ids(some)
  {
    RowsForSurvive(hits, some);
  }

  lemma HalvesDiffer(hits: seq<VectorMatch>, n: nat)
    requires Distinct(Ids(hits)) && n <= |hits|
    ensures |SetOf(Ids(hits[..n])) + SetOf(Ids(hits[n..]))| == |hits|
  {
    assert Ids(hits[..n]) + Ids(hits[n..]) == Ids(hits);
    SetOfDistinct(Ids(hits));
    HalvesCover(Ids(hits[..n]), Ids(hits[n..]));
  }

  lemma HalvesCover(a: seq<string>, b: seq<string>)
    ensures SetOf(a + b) == SetOf(a) + SetOf(b)
  {
  }

  /** Half of the hits by vector, the other half by keyword. */
  lemma HalvesCount(p: Params, b: Backends, hits: seq<VectorMatch>)
    requires Distinct(Ids(hits)) && |hits| == 2 * p.Limit() && b.keyword.Some?
    ensures Count(p, b, RowsFor(hits), hits[..p.Limit()], hits[p.Limit()..]) == 2 * p.Limit()
  {
    SomeGive(p, hits, hits[..p.Limit()]);
    SomeGive(p, hits, hits[p.Limit()..]);
    HalvesDiffer(hits, p.Limit());
  }

  lemma PlainFinds(limit: nat, vector: seq<VectorMatch>, keyword: seq<VectorMatch>, table: seq<Chunk>)
    requires forall k :: 0 <= k < |vector| ==> vector[k].similarity == 1.0
    requires forall k :: 0 <= k < |keyword| ==> keyword[k].similarity == 1.0
    ensures Finds(FullPages.Plain(limit), FullPages.Indexed(vector, keyword, table), vector, keyword)
  {
    var p, b := FullPages.Plain(limit), FullPages.Indexed(vector, keyword, table);
    Text.TrimmedIsFixed("q");
    FullPages.CertainPass(vector, p.VectorThreshold());
    FullPages.CertainPass(keyword, p.KeywordThreshold());
    assert b.store.value(p.Candidates()) == Ok(vector);
    assert b.keyword.value(p.Candidates()) == Ok(keyword);
  }

  /** For every limit there is a search that returns documents, and always twice as many as were requested. */
  lemma TwiceTopK(limit: nat) returns (p: Params, b: Backends)
    requires limit > 0
    ensures p.Limit() == limit && b.store.Some?
    ensures exists docs :: Returns(p, b, docs)
    ensures forall docs :: Returns(p, b, docs) ==> |docs| == 2 * limit
  {
    var hits := FullPages.Hits(2 * limit);
    var table := RowsFor(hits);
    p, b := FullPages.Plain(limit), FullPages.Indexed(hits[..limit], hits[limit..], table);
    FullPages.IndexedAnswers(hits[..limit], hits[limit..], table);
    PlainFinds(limit, hits[..limit], hits[limit..], table);
    HalvesCount(p, b, hits);
    forall docs | Returns(p, b, docs) ensures |docs| == 2 * limit {
      ReturnedCount(p, b, table, hits[..limit], hits[limit..], docs);
    }
    var docs := SomethingReturns(p, b, table, hits[..limit], hits[limit..]);
  }
}
