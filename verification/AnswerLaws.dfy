/** What an answer shows. */
module AnswerLaws {
  // Every returned document shows a row of the chunk table, field by field, and was found by an index; errors come in
  // the order in which they are detected.

  import opened Wrappers
  import opened RankFusion
  import opened Searcher
  import opened Hydration
  import opened HybridSearch
  import Text
  import TopK
  import Router
  import FanOut

  // ---------- documents show rows ----------

  /** The document shows the row: the text is the content, everything else is under its own key, if it is there. */
  predicate ShowsRow(doc: Document, row: Chunk, names: Names) {
    && doc.id == row.id && doc.content == row.text && doc.meta.index == row.index
    && doc.meta.raw == (if row.metadata == "" then None else Some(row.metadata))
    && doc.meta.kind == (if row.kind == "" then None else Some(row.kind))
    && doc.meta.parentID == (if row.parentID == "" then None else Some(row.parentID))
    && doc.meta.fileID == (if row.fileID == "" then None else Some(row.fileID))
    && doc.meta.fileName == if row.fileID == "" || names(row.fileID) == "" then None else Some(names(row.fileID))
  }

  /** The document shows the last row of the table with its id. */
  ghost predicate FromTable(doc: Document, table: seq<Chunk>, names: Names) {
    exists i :: IsLastRow(table, i, doc.id) && ShowsRow(doc, table[i], names)
  }

  predicate IsLastRow(table: seq<Chunk>, i: int, id: string) {
    0 <= i < |table| && table[i].id == id && forall j :: i < j < |table| ==> table[j].id != id
  }

  lemma {:induction false} LastRowOf(table: seq<Chunk>, id: string) returns (i: nat)
    requires id in RowsById(table)
    ensures IsLastRow(table, i, id) && RowsById(table)[id] == table[i]
  {
    var n := |table| - 1;
    if table[n].id == id {
      i := n;
    } else {
      i := LastRowOf(table[..n], id);
    }
  }

  lemma {:induction false} InOrderFrom(ids: seq<string>, byID: map<string, Chunk>, chunk: Chunk)
    requires OwnIds(byID) && chunk in InOrder(ids, byID)
    ensures chunk.id in byID && byID[chunk.id] == chunk
  {
    var last := ids[|ids| - 1];
    if chunk in InOrder(ids[..|ids| - 1], byID) {
      InOrderFrom(ids[..|ids| - 1], byID, chunk);
    }
  }

  lemma {:induction false} DocumentFrom(chunks: seq<Chunk>, files: seq<string>, names: Names, sim: Similarity, k: nat)
    returns (chunk: Chunk)
    requires k < |Documents(chunks, files, names, sim)|
    ensures chunk in chunks && ShowsRow(Documents(chunks, files, names, sim)[k], chunk, names)
  {
    var front, last := chunks[..|chunks| - 1], chunks[|chunks| - 1];
    if k < |Documents(front, files, names, sim)| {
      chunk := DocumentFrom(front, files, names, sim, k);
    } else {
      chunk := last;
    }
  }

  lemma HydratedShows(matches: seq<VectorMatch>, table: seq<Chunk>, files: seq<string>, names: Names, k: nat)
    requires k < |Hydrated(matches, RowsById(table), files, names)|
    ensures FromTable(Hydrated(matches, RowsById(table), files, names)[k], table, names)
  {
    var chunks := InOrder(Ids(matches), RowsById(table));
    var chunk := DocumentFrom(chunks, files, names, Similarities(matches), k);
    InOrderFrom(Ids(matches), RowsById(table), chunk);
    var i := LastRowOf(table, chunk.id);
  }

  ghost predicate AllFromTable(docs: seq<Document>, table: seq<Chunk>, names: Names) {
    forall k :: 0 <= k < |docs| ==> FromTable(docs[k], table, names)
  }

  lemma PageShows(matches: seq<VectorMatch>, table: seq<Chunk>, files: seq<string>, names: Names, n: nat)
    ensures AllFromTable(Take(Hydrated(matches, RowsById(table), files, names), n), table, names)
  {
    var all := Hydrated(matches, RowsById(table), files, names);
    var docs := Take(all, n);
    forall k | 0 <= k < |docs| ensures FromTable(docs[k], table, names) {
      HydratedShows(matches, table, files, names, k);
    }
  }

  lemma OkPageShows(p: Params, b: Backends, table: seq<Chunk>, matches: seq<VectorMatch>, docs: seq<Document>)
    requires AnswersFrom(b.rows, table) && Page(p, b, matches) == Ok(docs)
    ensures AllFromTable(docs, table, b.names)
  {
    TablePage(p, b, table, matches);
    PageShows(matches, table, p.fileIDs, b.names, p.Limit());
  }

  lemma HybridShows(p: Params, b: Backends, table: seq<Chunk>, vector: seq<VectorMatch>, keyword: seq<VectorMatch>,
                    docs: seq<Document>)
    requires AnswersFrom(b.rows, table) && IsHybridAnswer(p, b, vector, keyword, Ok(docs))
    ensures AllFromTable(docs, table, b.names)
  {
    var matches :| IsFusedPage(p, b, Fuse(vector, keyword), matches, Ok(docs));
    OkPageShows(p, b, table, matches, docs);
  }

  /** Over a table every document of every answer, hybrid or not, shows its row. */
  lemma AnswerShows(p: Params, b: Backends, table: seq<Chunk>, docs: seq<Document>)
    requires AnswersFrom(b.rows, table) && IsAnswer(p, b, Ok(docs))
    ensures AllFromTable(docs, table, b.names)
  {
    var found := b.store.value(p.Candidates()).value;
    if b.keyword.None? {
      OkPageShows(p, b, table, VectorHits(p, found), docs);
    } else {
      var words := b.keyword.value(p.Candidates()).value;
      HybridShows(p, b, table, VectorHits(p, found), KeywordHits(p, words), docs);
    }
  }

  // ---------- the hybrid retriever ----------

  /** Every document of a sub-retriever's stream shows its row; there are no file names. */
  lemma StreamShows(p: Params, b: Backends, table: seq<Chunk>, hits: seq<VectorMatch>)
    requires AnswersFrom(b.rows, table)
    ensures TopK.Answer(p, b, hits).Ok? && AllFromTable(TopK.Answer(p, b, hits).value, table, NO_NAMES)
  {
    TopK.AnswerGives(p, b, table, hits);
    if hits != [] {
      assert Answers(b.rows(Ids(hits)), table, Ids(hits));
      AskedInOrder(table, Ids(hits));
      PageShows(hits, table, [], NO_NAMES, p.Limit());
    }
  }

  lemma RescoredShows(doc: Document, other: Document, table: seq<Chunk>, names: Names)
    requires other.(score := doc.score) == doc && FromTable(other, table, names)
    ensures FromTable(doc, table, names)
  {
    var i :| IsLastRow(table, i, other.id) && ShowsRow(other, table[i], names);
    assert IsLastRow(table, i, doc.id) && ShowsRow(doc, table[i], names);
  }

  ghost predicate StreamsFromTable(streams: Router.Streams, table: seq<Chunk>) {
    forall name :: name in streams ==> AllFromTable(streams[name], table, NO_NAMES)
  }

  lemma HeldShows(streams: Router.Streams, table: seq<Chunk>, doc: Document)
    requires StreamsFromTable(streams, table) && Router.Holds(streams, streams.Keys, doc)
    ensures FromTable(doc, table, NO_NAMES)
  {
    var name :| name in streams && Router.LastWithId(streams[name], doc);
    var i :| Router.IsLastAt(streams[name], doc, i);
    RescoredShows(doc, streams[name][i], table, NO_NAMES);
  }

  lemma FusionShows(weights: map<string, real>, streams: Router.Streams, table: seq<Chunk>, docs: seq<Document>)
    requires StreamsFromTable(streams, table) && FanOut.Fusion(weights, streams, docs)
    ensures AllFromTable(docs, table, NO_NAMES)
  {
    if |streams| != 1 {
      forall k | 0 <= k < |docs| ensures FromTable(docs[k], table, NO_NAMES) {
        assert Router.IsRescored(docs[k], Router.Totals(weights, RRF_K, streams), streams);
        HeldShows(streams, table, docs[k]);
      }
    }
  }

  /** Whatever the interleaving, every document that the hybrid retriever returns shows its row. */
  lemma ReturnedShows(p: Params, b: Backends, table: seq<Chunk>, vector: seq<VectorMatch>, keyword: seq<VectorMatch>,
                      docs: seq<Document>)
    requires AnswersFrom(b.rows, table) && TopK.Finds(p, b, vector, keyword) && TopK.Returns(p, b, docs)
    ensures AllFromTable(docs, table, NO_NAMES)
  {
    var moves, s :| TopK.ReturnsBy(p, b, moves, s, docs);
    FanOut.MergedMeans(TopK.Subs(p, b), moves, s);
    TopK.StreamsAre(p, b, table, vector, keyword);
    StreamShows(p, b, table, vector);
    StreamShows(p, b, table, keyword);
    FusionShows(Router.HYBRID_WEIGHTS, TopK.Streams(p, b, vector, keyword), table, docs);
  }

  // ---------- what was found ----------

  /** Some match with this id is similar enough. */
  ghost predicate Passes(found: seq<VectorMatch>, id: string, threshold: real) {
    exists m :: m in found && m.id == id && m.similarity >= threshold
  }

  lemma FilteredPasses(found: seq<VectorMatch>, threshold: real, id: string)
    requires id in Ids(Filter(found, threshold))
    ensures Passes(found, id, threshold)
  {
    var hits := Filter(found, threshold);
    var i :| 0 <= i < |hits| && Ids(hits)[i] == id;
    FilterKeeps(found, threshold, hits[i]);
    assert hits[i] in multiset(hits);
    assert hits[i] in found by {
      assert multiset(found)[hits[i]] > 0;
    }
  }

  /** The thresholds, the limit and the number of candidates, given or by default. */
  lemma Defaults(p: Params)
    ensures p.Limit() == if p.limit <= 0 then 30 else p.limit
    ensures p.Candidates() == if 5 * p.Limit() < 50 then 50 else 5 * p.Limit()
    ensures p.VectorThreshold() == if p.vectorThreshold <= 0.0 then 0.15 else p.vectorThreshold
    ensures p.KeywordThreshold() == if p.keywordThreshold <= 0.0 then 0.3 else p.keywordThreshold
  {
  }

  /** Every document was found by an index, at or above its threshold. */
  lemma AnswerWasFound(p: Params, b: Backends, docs: seq<Document>, k: nat)
    requires IsAnswer(p, b, Ok(docs)) && k < |docs|
    ensures
      var limit := if p.limit <= 0 then 30 else p.limit;
      var candidates := if 5 * limit < 50 then 50 else 5 * limit;
      var found := b.store.value(candidates);
      && |docs| <= limit && found.Ok?
      && (Passes(found.value, docs[k].id, if p.vectorThreshold <= 0.0 then 0.15 else p.vectorThreshold) ||
          (b.keyword.Some? && b.keyword.value(candidates).Ok? &&
           Passes(b.keyword.value(candidates).value, docs[k].id,
                  if p.keywordThreshold <= 0.0 then 0.3 else p.keywordThreshold)))
  {
    Defaults(p);
    var found := b.store.value(p.Candidates()).value;
    var vector := VectorHits(p, found);
    if b.keyword.None? {
      PageIsCut(p, b, vector, docs);
      HydratedIsFound(vector, RowsById(RowsBehind(b, vector)), p.fileIDs, b.names, k);
      FilteredPasses(found, p.VectorThreshold(), docs[k].id);
    } else {
      var words := b.keyword.value(p.Candidates()).value;
      var keyword := KeywordHits(p, words);
      var c := HybridAnswer(p, b, vector, keyword, docs);
      PlaceInRanking(c, k);
      FuseScores(vector, keyword);
      if docs[k].id in Ids(vector) {
        FilteredPasses(found, p.VectorThreshold(), docs[k].id);
      } else {
        FilteredPasses(words, p.KeywordThreshold(), docs[k].id);
      }
    }
  }

  lemma HydratedIsFound(matches: seq<VectorMatch>, byID: map<string, Chunk>, files: seq<string>, names: Names, k: nat)
    requires OwnIds(byID) && k < |Hydrated(matches, byID, files, names)|
    ensures Hydrated(matches, byID, files, names)[k].id in Ids(matches)
  {
    HydrationKeepsOrder(Ids(matches), byID, files, names, Similarities(matches));
    var ids := DocIds(Hydrated(matches, byID, files, names));
    SurvivorsAre(Ids(matches), byID, files, ids[k]);
  }

  /** Hits that are not fused score what their last match does. */
  lemma HitScores(matches: seq<VectorMatch>, byID: map<string, Chunk>, files: seq<string>, names: Names, k: nat, i: nat)
    requires OwnIds(byID) && k < |Hydrated(matches, byID, files, names)| && i < |matches|
    requires matches[i].id == Hydrated(matches, byID, files, names)[k].id
    requires forall j :: i < j < |matches| ==> matches[j].id != matches[i].id
    ensures Hydrated(matches, byID, files, names)[k].score == matches[i].similarity
  {
    DocumentsScored(InOrder(Ids(matches), byID), files, names, Similarities(matches), k);
    LastSimilarity(matches, i);
  }

  // ---------- errors ----------

  /** The query is not blank and has a usable embedding. */
  predicate Embedded(p: Params, b: Backends) {
    Text.TrimSpace(p.query) != "" && b.embedding.Ok? && b.embedding.value != [] && b.embedding.value[0] != []
  }

  /** Each error is returned exactly when everything checked before it is in order. */
  lemma ErrorsIff(p: Params, b: Backends, out: Result<seq<Document>, Error>, cause: Cause)
    requires IsAnswer(p, b, out)
    ensures out == Err(EmptyQuery) <==> Text.TrimSpace(p.query) == ""
    ensures out == Err(EmbedQuery(cause)) <==> Text.TrimSpace(p.query) != "" && b.embedding == Err(cause)
    ensures out == Err(EmptyEmbedding) <==> Text.TrimSpace(p.query) != "" && b.embedding.Ok? && !Embedded(p, b)
    ensures out == Err(NoVectorStore) <==> Embedded(p, b) && b.store.None?
    ensures out == Err(VectorSearch(cause)) <==>
      Embedded(p, b) && b.store.Some? && b.store.value(p.Candidates()) == Err(cause)
    ensures out == Err(KeywordSearch(cause)) <==>
      Embedded(p, b) && b.store.Some? && b.store.value(p.Candidates()).Ok? &&
      b.keyword.Some? && b.keyword.value(p.Candidates()) == Err(cause)
  {
    if Embedded(p, b) && b.store.Some? && b.store.value(p.Candidates()).Ok? && b.keyword.Some? &&
       b.keyword.value(p.Candidates()).Ok? {
      var vector := VectorHits(p, b.store.value(p.Candidates()).value);
      var keyword := KeywordHits(p, b.keyword.value(p.Candidates()).value);
      var matches :| IsFusedPage(p, b, Fuse(vector, keyword), matches, out);
    }
  }
}
