/** The router's weighted fusion. */
module Router {
  // Named streams of documents are fused (`eino_retriever_router.go`); for two streams this agrees with `fuseRRF`.

  import opened Wrappers
  import opened Sorting
  import opened RankFusion
  import opened Searcher
  import opened Hydration

  type Streams = map<string, seq<Document>>

  datatype Error = NoDocuments

  /** How a stream counts: without a weight, or with weight zero, it counts once. */
  function Weight(weights: map<string, real>, name: string): real {
    if name in weights && weights[name] != 0.0 then weights[name] else 1.0
  }

  function Smoothing(k: real): (r: real)
    ensures r > 0.0
  {
    if k <= 0.0 then RRF_K else k
  }

  // ---------- sums over streams ----------

  /** What the stream `name` adds to the score of `id`. */
  function StreamShare(weights: map<string, real>, k: real, result: Streams, name: string, id: string): real {
    if name in result then Contribution(DocIds(result[name]), id, Weight(weights, name), Smoothing(k)) else 0.0
  }

  /** The sum of the shares of `names`, taken in some order. */
  ghost function Total(weights: map<string, real>, k: real, result: Streams, names: set<string>, id: string): real {
    if names == {} then 0.0
    else
      var name :| name in names;
      StreamShare(weights, k, result, name, id) + Total(weights, k, result, names - {name}, id)
  }

  /** The order of the summands is irrelevant: any stream may be taken out first. */
  lemma {:induction false} TotalWithout(weights: map<string, real>, k: real, result: Streams, names: set<string>,
                                        name: string, id: string)
    requires name in names
    ensures Total(weights, k, result, names, id)
      == StreamShare(weights, k, result, name, id) + Total(weights, k, result, names - {name}, id)
    decreases names
  {
    var first :| first in names && Total(weights, k, result, names, id)
      == StreamShare(weights, k, result, first, id) + Total(weights, k, result, names - {first}, id);
    if first != name {
      TotalWithout(weights, k, result, names - {first}, name, id);
      TotalWithout(weights, k, result, names - {name}, first, id);
      assert names - {first} - {name} == names - {name} - {first};
    }
  }

  function IdsOf(result: Streams, names: set<string>): set<string> {
    set name, i | name in names && name in result && 0 <= i < |result[name]| :: result[name][i].id
  }

  ghost function Totals(weights: map<string, real>, k: real, result: Streams): Scores {
    map id | id in IdsOf(result, result.Keys) :: Total(weights, k, result, result.Keys, id)
  }

  // ---------- the fusion ----------

  /** Some stream has this as its last document under this id, whatever the score there. */
  ghost predicate Holds(result: Streams, names: set<string>, doc: Document) {
    exists name :: name in names && name in result && LastWithId(result[name], doc)
  }

  ghost predicate LastWithId(docs: seq<Document>, doc: Document) {
    exists i :: IsLastAt(docs, doc, i)
  }

  predicate IsLastAt(docs: seq<Document>, doc: Document, i: int) {
    0 <= i < |docs| && docs[i].(score := doc.score) == doc && forall j :: i < j < |docs| ==> docs[j].id != doc.id
  }

  /** A document of every id, best total first, each under its total. */
  ghost predicate IsWeighted(out: seq<Document>, scores: Scores, result: Streams) {
    && IsTop(DocIds(out), scores, |scores|)
    && forall k :: 0 <= k < |out| ==> IsRescored(out[k], scores, result)
  }

  ghost predicate IsRescored(doc: Document, scores: Scores, result: Streams) {
    doc.id in scores && doc.score == scores[doc.id] && Holds(result, result.Keys, doc)
  }

  ghost predicate IsFused(weights: map<string, real>, k: real, result: Streams, out: Result<seq<Document>, Error>) {
    if result == map[] then out == Err(NoDocuments)
    else if |result| == 1 then out.Ok? && exists name :: name in result && out.value == result[name]
    else out.Ok? && IsWeighted(out.value, Totals(weights, k, result), result)
  }

  /** The scores so far: whole streams, and the first documents of one more. */
  ghost predicate ScoresSoFar(scores: Scores, weights: map<string, real>, k: real, result: Streams,
                              names: set<string>, docs: seq<Document>, w: real) {
    && scores.Keys == IdsOf(result, names) + SetOf(DocIds(docs))
    && forall id :: id in scores ==>
        scores[id] == Total(weights, k, result, names, id) + Contribution(DocIds(docs), id, w, Smoothing(k))
  }

  /** The documents so far: of the unfinished stream where it has the id, else of a whole one. */
  ghost predicate DocsSoFar(byID: map<string, Document>, keys: set<string>, result: Streams, names: set<string>,
                            docs: seq<Document>) {
    && byID.Keys == keys
    && forall id :: id in byID ==> byID[id].id == id && IsSource(byID[id], result, names, docs)
  }

  ghost predicate IsSource(doc: Document, result: Streams, names: set<string>, docs: seq<Document>) {
    if doc.id in DocIds(docs) then LastWithId(docs, doc) else Holds(result, names, doc)
  }

  lemma NewestIsLast(docs: seq<Document>, doc: Document)
    ensures LastWithId(docs + [doc], doc) && doc.id in DocIds(docs + [doc])
  {
    DocIdsAppend(docs, doc);
    assert IsLastAt(docs + [doc], doc, |docs|);
  }

  lemma OtherStaysLast(docs: seq<Document>, doc: Document, next: Document)
    requires LastWithId(docs, doc) && next.id != doc.id
    ensures LastWithId(docs + [next], doc)
  {
    var i :| IsLastAt(docs, doc, i);
    assert IsLastAt(docs + [next], doc, i);
  }

  lemma SourceStays(doc: Document, result: Streams, names: set<string>, docs: seq<Document>, next: Document)
    requires IsSource(doc, result, names, docs) && next.id != doc.id
    ensures IsSource(doc, result, names, docs + [next])
  {
    DocIdsAppend(docs, next);
    if doc.id in DocIds(docs) {
      OtherStaysLast(docs, doc, next);
    }
  }

  lemma DocStep(byID: map<string, Document>, keys: set<string>, result: Streams, names: set<string>,
                docs: seq<Document>, doc: Document)
    requires DocsSoFar(byID, keys, result, names, docs)
    ensures DocsSoFar(byID[doc.id := doc], keys + {doc.id}, result, names, docs + [doc])
  {
    NewestIsLast(docs, doc);
    forall id | id in byID && id != doc.id ensures IsSource(byID[id], result, names, docs + [doc]) {
      SourceStays(byID[id], result, names, docs, doc);
    }
  }

  lemma DocsDone(byID: map<string, Document>, keys: set<string>, result: Streams, names: set<string>, name: string)
    requires name in result && DocsSoFar(byID, keys, result, names, result[name])
    ensures DocsSoFar(byID, keys, result, names + {name}, [])
  {
    forall id | id in byID ensures Holds(result, names + {name}, byID[id]) {
      assert IsSource(byID[id], result, names, result[name]);
      if id in DocIds(result[name]) {
        assert LastWithId(result[name], byID[id]);
      } else {
        var other :| other in names && other in result && LastWithId(result[other], byID[id]);
        assert other in names + {name};
      }
    }
  }

  lemma ForeignStream(weights: map<string, real>, k: real, result: Streams, name: string, id: string)
    requires id !in IdsOf(result, {name})
    ensures StreamShare(weights, k, result, name, id) == 0.0
  {
    if name in result {
      var ids := DocIds(result[name]);
      forall i | 0 <= i < |ids| ensures ids[i] != id {
        assert result[name][i].id in IdsOf(result, {name});
      }
      AbsentContributes(ids, id, Weight(weights, name), Smoothing(k));
    }
  }

  /** An id that occurs in none of the streams totals zero. */
  lemma {:induction false} ForeignTotal(weights: map<string, real>, k: real, result: Streams, names: set<string>,
                                        id: string)
    requires id !in IdsOf(result, names)
    ensures Total(weights, k, result, names, id) == 0.0
    decreases names
  {
    if names != {} {
      var name :| name in names;
      TotalWithout(weights, k, result, names, name, id);
      ForeignStream(weights, k, result, name, id);
      ForeignTotal(weights, k, result, names - {name}, id);
    }
  }

  function AddScore(scores: Scores, id: string, share: real): Scores {
    scores[id := ScoreIn(scores, id) + share]
  }

  /** The share of one more document of a stream, for one id. */
  lemma ScoreStepAt(scores: Scores, weights: map<string, real>, k: real, result: Streams, names: set<string>,
                    docs: seq<Document>, doc: Document, w: real, id: string)
    requires ScoresSoFar(scores, weights, k, result, names, docs, w) && (id in scores || id == doc.id)
    ensures ScoreIn(scores, id) + (if doc.id == id then w / (Smoothing(k) + (|docs| + 1) as real) else 0.0)
      == Total(weights, k, result, names, id) + Contribution(DocIds(docs + [doc]), id, w, Smoothing(k))
  {
    DocIdsAppend(docs, doc);
    ContributionAppend(DocIds(docs), doc.id, id, w, Smoothing(k));
    if id !in scores {
      ForeignTotal(weights, k, result, names, id);
      AbsentContributes(DocIds(docs), id, w, Smoothing(k));
    }
  }

  lemma ScoreStep(scores: Scores, weights: map<string, real>, k: real, result: Streams, names: set<string>,
                  docs: seq<Document>, doc: Document, w: real, share: real)
    requires ScoresSoFar(scores, weights, k, result, names, docs, w) &&
      share == w / (Smoothing(k) + (|docs| + 1) as real)
    ensures ScoresSoFar(AddScore(scores, doc.id, share), weights, k, result, names, docs + [doc], w)
  {
    var after := AddScore(scores, doc.id, share);
    DocIdsAppend(docs, doc);
    assert SetOf(DocIds(docs) + [doc.id]) == SetOf(DocIds(docs)) + {doc.id};
    forall id | id in after
      ensures after[id]
        == Total(weights, k, result, names, id) + Contribution(DocIds(docs + [doc]), id, w, Smoothing(k))
    {
      ScoreStepAt(scores, weights, k, result, names, docs, doc, w, id);
    }
  }

  lemma StreamDone(scores: Scores, weights: map<string, real>, k: real, result: Streams, names: set<string>,
                   name: string)
    requires name in result && name !in names
    requires ScoresSoFar(scores, weights, k, result, names, result[name], Weight(weights, name))
    ensures ScoresSoFar(scores, weights, k, result, names + {name}, [], 0.0)
  {
    var ids := DocIds(result[name]);
    assert names + {name} - {name} == names;
    assert IdsOf(result, names + {name}) == IdsOf(result, names) + SetOf(ids) by {
      assert forall i :: 0 <= i < |ids| ==> ids[i] == result[name][i].id;
      assert forall id :: id in SetOf(ids) ==> exists i :: 0 <= i < |ids| && ids[i] == id;
    }
    forall id | id in scores ensures scores[id] == Total(weights, k, result, names + {name}, id) + 0.0 {
      TotalWithout(weights, k, result, names + {name}, name, id);
    }
  }

  lemma NewStream(scores: Scores, weights: map<string, real>, k: real, result: Streams, names: set<string>, w: real,
                  w': real)
    requires ScoresSoFar(scores, weights, k, result, names, [], w)
    ensures ScoresSoFar(scores, weights, k, result, names, [], w')
  {
  }

  method AddDocument(scores: Scores, byID: map<string, Document>, ghost weights: map<string, real>, k: real,
                     ghost result: Streams, ghost names: set<string>, docs: seq<Document>, i: nat, w: real)
    returns (scores': Scores, byID': map<string, Document>)
    requires i < |docs|
    requires ScoresSoFar(scores, weights, k, result, names, docs[..i], w)
    requires DocsSoFar(byID, scores.Keys, result, names, docs[..i])
    ensures ScoresSoFar(scores', weights, k, result, names, docs[..i] + [docs[i]], w)
    ensures DocsSoFar(byID', scores'.Keys, result, names, docs[..i] + [docs[i]])
  {
    var doc, share := docs[i], w / (Smoothing(k) + (i + 1) as real);
    ScoreStep(scores, weights, k, result, names, docs[..i], doc, w, share);
    DocStep(byID, scores.Keys, result, names, docs[..i], doc);
    byID' := byID[doc.id := doc];
    scores' := Add(scores, doc.id, share);
    assert scores'.Keys == scores.Keys + {doc.id};
  }

  method Add(scores: Scores, id: string, share: real) returns (scores': Scores)
    ensures scores' == AddScore(scores, id, share)
  {
    if id !in scores {
      scores' := scores[id := share];
    } else {
      scores' := scores[id := scores[id] + share];
    }
  }

  method AddStream(scores: Scores, byID: map<string, Document>, ghost weights: map<string, real>, k: real,
                   ghost result: Streams, ghost names: set<string>, ghost name: string, docs: seq<Document>, w: real)
    returns (scores': Scores, byID': map<string, Document>)
    requires name in result && result[name] == docs && name !in names && w == Weight(weights, name)
    requires ScoresSoFar(scores, weights, k, result, names, [], 0.0) && DocsSoFar(byID, scores.Keys, result, names, [])
    ensures ScoresSoFar(scores', weights, k, result, names + {name}, [], 0.0)
    ensures DocsSoFar(byID', scores'.Keys, result, names + {name}, [])
  {
    scores', byID' := scores, byID;
    NewStream(scores, weights, k, result, names, 0.0, w);
    for i := 0 to |docs|
      invariant ScoresSoFar(scores', weights, k, result, names, docs[..i], w)
      invariant DocsSoFar(byID', scores'.Keys, result, names, docs[..i])
    {
      assert docs[..i + 1] == docs[..i] + [docs[i]];
      scores', byID' := AddDocument(scores', byID', weights, k, result, names, docs, i, w);
    }
    assert docs[..|docs|] == docs;
    StreamDone(scores', weights, k, result, names, name);
    DocsDone(byID', scores'.Keys, result, names, name);
  }

  /** The ids of `scores`, best first; the pairs of document and score that are sorted stand for their ids. */
  method RankIds(scores: Scores) returns (ranked: seq<string>)
    ensures IsTop(ranked, scores, |scores|)
  {
    var list: seq<string> := [];
    var unseen := scores.Keys;
    while unseen != {}
      invariant unseen <= scores.Keys && Distinct(list) && SetOf(list) == scores.Keys - unseen
    {
      var id :| id in unseen;
      assert SetOf(list + [id]) == SetOf(list) + {id};
      list := list + [id];
      unseen := unseen - {id};
    }
    ranked := Sort(list, HigherFirst(scores));
    SortedIsTop(list, scores);
  }

  function HigherFirst(scores: Scores): (string, string) -> bool {
    (a: string, b: string) => ScoreIn(scores, a) >= ScoreIn(scores, b)
  }

  lemma SortedIsTop(list: seq<string>, scores: Scores)
    requires Distinct(list) && SetOf(list) == scores.Keys
    ensures IsTop(Sort(list, HigherFirst(scores)), scores, |scores|)
  {
    var ranked := Sort(list, HigherFirst(scores));
    SortKeeps(list, HigherFirst(scores));
    SameMembers(list, ranked);
    DistinctPermutation(list, ranked);
    assert SetOf(ranked) == scores.Keys;
    SetOfDistinct(ranked);
    assert |scores.Keys| == |scores|;
    forall i, j | 0 <= i < j < |ranked| ensures scores[ranked[i]] >= scores[ranked[j]] {
      assert HigherFirst(scores)(ranked[i], ranked[j]);
      assert ranked[i] in SetOf(ranked) && ranked[j] in SetOf(ranked);
    }
  }

  method SumStreams(weights: map<string, real>, k: real, result: Streams)
    returns (docScore: Scores, docMap: map<string, Document>)
    ensures docScore == Totals(weights, k, result) && DocsSoFar(docMap, docScore.Keys, result, result.Keys, [])
  {
    docScore, docMap := map[], map[];
    var unseen := result.Keys;
    while unseen != {}
      invariant unseen <= result.Keys
      invariant ScoresSoFar(docScore, weights, k, result, result.Keys - unseen, [], 0.0)
      invariant DocsSoFar(docMap, docScore.Keys, result, result.Keys - unseen, [])
    {
      var name :| name in unseen;
      assert result.Keys - (unseen - {name}) == result.Keys - unseen + {name};
      docScore, docMap := AddStream(docScore, docMap, weights, k, result, result.Keys - unseen, name, result[name],
                                    Weight(weights, name));
      unseen := unseen - {name};
    }
    assert result.Keys - unseen == result.Keys;
    assert docScore == Totals(weights, k, result);
  }

  method WeightedRRFFusion(weights: map<string, real>, k: real, result: Streams)
    returns (out: Result<seq<Document>, Error>)
    ensures IsFused(weights, k, result, out)
  {
    if |result| == 0 {
      return Err(NoDocuments);
    }
    if |result| == 1 {
      var name :| name in result;
      return Ok(result[name]);
    }
    var docScore, docMap := SumStreams(weights, k, result);
    var ranked := RankIds(docScore);
    var docs := Rescored(ranked, docScore, docMap, result);
    out := Ok(docs);
  }

  method Rescored(ranked: seq<string>, docScore: Scores, docMap: map<string, Document>, ghost result: Streams)
    returns (docs: seq<Document>)
    requires SetOf(ranked) <= docScore.Keys && DocsSoFar(docMap, docScore.Keys, result, result.Keys, [])
    ensures DocIds(docs) == ranked
    ensures forall k :: 0 <= k < |docs| ==> IsRescored(docs[k], docScore, result)
  {
    docs := [];
    for i := 0 to |ranked|
      invariant DocIds(docs) == ranked[..i]
      invariant forall k :: 0 <= k < |docs| ==> IsRescored(docs[k], docScore, result)
    {
      var id := ranked[i];
      assert id in SetOf(ranked);
      HoldsRescored(result, docMap[id], docScore[id]);
      DocIdsAppend(docs, docMap[id].(score := docScore[id]));
      docs := docs + [docMap[id].(score := docScore[id])];
    }
    assert ranked[..|ranked|] == ranked;
  }

  lemma HoldsRescored(result: Streams, doc: Document, score: real)
    requires Holds(result, result.Keys, doc)
    ensures Holds(result, result.Keys, doc.(score := score))
  {
    var name :| name in result && LastWithId(result[name], doc);
    var i :| IsLastAt(result[name], doc, i);
    assert result[name][i].(score := score) == doc.(score := score);
    assert IsLastAt(result[name], doc.(score := score), i);
    assert LastWithId(result[name], doc.(score := score));
  }

  predicate SameScoreLists(a: seq<Document>, b: seq<Document>) {
    |a| == |b| && SetOf(DocIds(a)) == SetOf(DocIds(b)) && forall i :: 0 <= i < |a| ==> a[i].score == b[i].score
  }

  lemma RankedAlike(scores: Scores, result: Streams, a: seq<Document>, b: seq<Document>)
    requires IsWeighted(a, scores, result) && IsWeighted(b, scores, result)
    ensures SameScoreLists(a, b) && SetOf(DocIds(a)) == scores.Keys
  {
    FullTop(DocIds(a), scores, |scores|);
    FullTop(DocIds(b), scores, |scores|);
    forall i | 0 <= i < |a| ensures a[i].score == b[i].score {
      RankingsAgree(DocIds(a), DocIds(b), scores, i);
      assert IsRescored(a[i], scores, result) && IsRescored(b[i], scores, result);
    }
  }

  lemma OnlyOne(result: Streams, a: string, b: string)
    requires |result| == 1 && a in result && b in result
    ensures a == b
  {
    assert |result.Keys| == 1;
    SubsetCount({a}, result.Keys);
  }

  /** Two fusions of the same streams differ in the order of ties only, whatever order the maps are walked in. */
  lemma WalksAgree(weights: map<string, real>, k: real, result: Streams, a: seq<Document>, b: seq<Document>)
    requires IsFused(weights, k, result, Ok(a)) && IsFused(weights, k, result, Ok(b))
    ensures SameScoreLists(a, b)
    ensures |result| == 1 ==> a == b
    ensures |result| != 1 ==> SetOf(DocIds(a)) == IdsOf(result, result.Keys)
  {
    if |result| == 1 {
      var m :| m in result && a == result[m];
      var n :| n in result && b == result[n];
      OnlyOne(result, m, n);
    } else {
      RankedAlike(Totals(weights, k, result), result, a, b);
    }
  }

  // ---------- weights ----------

  /** In a stream without repetitions an id earns the stream's weight, divided by its rank plus K. */
  lemma ShareIs(weights: map<string, real>, k: real, result: Streams, name: string, id: string)
    requires name in result && Distinct(DocIds(result[name]))
    ensures
      var weight := if name in weights && weights[name] != 0.0 then weights[name] else 1.0;
      var smoothing := if k <= 0.0 then 60.0 else k;
      var rank := Rank(DocIds(result[name]), id);
      StreamShare(weights, k, result, name, id) == if rank.None? then 0.0 else weight / (smoothing + rank.value as real)
  {
    ContributionIsShare(DocIds(result[name]), id, Weight(weights, name), Smoothing(k));
  }

  lemma {:induction false} SameTotal(a: map<string, real>, b: map<string, real>, k: real, l: real, result: Streams,
                                     names: set<string>, id: string)
    requires Smoothing(k) == Smoothing(l) && forall name :: name in names ==> Weight(a, name) == Weight(b, name)
    ensures Total(a, k, result, names, id) == Total(b, l, result, names, id)
    decreases names
  {
    if names != {} {
      var name :| name in names;
      TotalWithout(a, k, result, names, name, id);
      TotalWithout(b, l, result, names, name, id);
      SameTotal(a, b, k, l, result, names - {name}, id);
    }
  }

  lemma SameTotals(a: map<string, real>, b: map<string, real>, k: real, l: real, result: Streams)
    requires Smoothing(k) == Smoothing(l) && forall name :: name in result ==> Weight(a, name) == Weight(b, name)
    ensures Totals(a, k, result) == Totals(b, l, result)
  {
    forall id | id in IdsOf(result, result.Keys)
      ensures Total(a, k, result, result.Keys, id) == Total(b, l, result, result.Keys, id)
    {
      SameTotal(a, b, k, l, result, result.Keys, id);
    }
  }

  /** A stream without a weight, or with weight zero, counts as with weight one; without a positive K it is 60. */
  lemma DefaultWeights(weights: map<string, real>, k: real, result: Streams, name: string)
    ensures Totals(weights - {name}, k, result) == Totals(weights[name := 1.0], k, result)
    ensures Totals(weights[name := 0.0], k, result) == Totals(weights[name := 1.0], k, result)
    ensures k <= 0.0 ==> Totals(weights, k, result) == Totals(weights, 60.0, result)
  {
    SameTotals(weights - {name}, weights[name := 1.0], k, k, result);
    SameTotals(weights[name := 0.0], weights[name := 1.0], k, k, result);
    if k <= 0.0 {
      SameTotals(weights, weights, k, 60.0, result);
    }
  }

  // ---------- the two fusions agree ----------

  const HYBRID_WEIGHTS: map<string, real> := map["vector" := VECTOR_WEIGHT, "keyword" := KEYWORD_WEIGHT]

  function Hybrid(vector: seq<Document>, keyword: seq<Document>): Streams {
    map["vector" := vector, "keyword" := keyword]
  }

  lemma HybridTotal(vector: seq<Document>, keyword: seq<Document>, id: string)
    ensures Total(HYBRID_WEIGHTS, RRF_K, Hybrid(vector, keyword), {"vector", "keyword"}, id)
      == Score(DocIds(vector), DocIds(keyword), id)
  {
    var result := Hybrid(vector, keyword);
    TotalWithout(HYBRID_WEIGHTS, RRF_K, result, {"vector", "keyword"}, "vector", id);
    assert {"vector", "keyword"} - {"vector"} == {"keyword"};
    TotalWithout(HYBRID_WEIGHTS, RRF_K, result, {"keyword"}, "keyword", id);
    assert {"keyword"} - {"keyword"} == {};
  }

  lemma HybridIds(vector: seq<Document>, keyword: seq<Document>)
    ensures Hybrid(vector, keyword).Keys == {"vector", "keyword"}
    ensures IdsOf(Hybrid(vector, keyword), {"vector", "keyword"}) == SetOf(DocIds(vector)) + SetOf(DocIds(keyword))
  {
    var result := Hybrid(vector, keyword);
    var all := IdsOf(result, {"vector", "keyword"});
    forall id | id in SetOf(DocIds(vector)) ensures id in all {
      var i :| 0 <= i < |vector| && DocIds(vector)[i] == id;
      assert result["vector"][i].id == id;
    }
    forall id | id in SetOf(DocIds(keyword)) ensures id in all {
      var i :| 0 <= i < |keyword| && DocIds(keyword)[i] == id;
      assert result["keyword"][i].id == id;
    }
    forall id | id in all ensures id in SetOf(DocIds(vector)) + SetOf(DocIds(keyword)) {
      var name, i :| name in {"vector", "keyword"} && 0 <= i < |result[name]| && result[name][i].id == id;
      assert DocIds(result[name])[i] == id;
    }
  }

  /** On the same two rankings the router and the searcher give every id the same score. */
  lemma SameScores(vector: seq<VectorMatch>, keyword: seq<VectorMatch>, vectorDocs: seq<Document>,
                   keywordDocs: seq<Document>)
    requires DocIds(vectorDocs) == Ids(vector) && DocIds(keywordDocs) == Ids(keyword)
    ensures Totals(HYBRID_WEIGHTS, RRF_K, Hybrid(vectorDocs, keywordDocs)) == ScoresOf(Fuse(vector, keyword))
  {
    HybridIds(vectorDocs, keywordDocs);
    FuseScores(vector, keyword);
    forall id | id in ScoresOf(Fuse(vector, keyword))
      ensures Total(HYBRID_WEIGHTS, RRF_K, Hybrid(vectorDocs, keywordDocs), {"vector", "keyword"}, id)
        == ScoresOf(Fuse(vector, keyword))[id]
    {
      HybridTotal(vectorDocs, keywordDocs, id);
    }
  }

  /**
   * Whatever order the maps are walked in and the ties are broken in, the two fusions return equally many results
   * with equal scores position by position.
   */
  lemma FusionsAgree(vector: seq<VectorMatch>, keyword: seq<VectorMatch>, vectorDocs: seq<Document>,
                     keywordDocs: seq<Document>,
                     matches: seq<VectorMatch>, docs: seq<Document>)
    requires DocIds(vectorDocs) == Ids(vector) && DocIds(keywordDocs) == Ids(keyword)
    requires IsFusion(matches, Fuse(vector, keyword), |Fuse(vector, keyword)|)
    requires IsFused(HYBRID_WEIGHTS, RRF_K, Hybrid(vectorDocs, keywordDocs), Ok(docs))
    ensures |docs| == |matches| && SetOf(DocIds(docs)) == SetOf(Ids(matches))
    ensures forall i :: 0 <= i < |docs| ==> docs[i].score == matches[i].similarity
  {
    var scores := ScoresOf(Fuse(vector, keyword));
    SameScores(vector, keyword, vectorDocs, keywordDocs);
    HybridIds(vectorDocs, keywordDocs);
    assert |Hybrid(vectorDocs, keywordDocs).Keys| == 2;
    assert |scores.Keys| == |scores| && |Fuse(vector, keyword).Keys| == |Fuse(vector, keyword)|;
    FullTop(DocIds(docs), scores, |scores|);
    FullTop(Ids(matches), scores, |scores|);
    forall i | 0 <= i < |docs| ensures docs[i].score == matches[i].similarity {
      RankingsAgree(DocIds(docs), Ids(matches), scores, i);
    }
  }
}
