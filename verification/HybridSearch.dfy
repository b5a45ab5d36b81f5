/** Hybrid search. */
module HybridSearch {
  // `SemanticSearch` of `rag_searcher.go`, from the embedded query to the documents.

  import opened Wrappers
  import opened Sorting
  import opened RankFusion
  import opened Searcher
  import opened Hydration
  import Text

  type Cause = string

  datatype Error =
    | EmptyQuery
    | EmbedQuery(cause: Cause)
    | EmptyEmbedding
    | NoVectorStore
    | VectorSearch(cause: Cause)
    | KeywordSearch(cause: Cause)
    | HydrateChunks(cause: Cause)

  datatype Params = Params(query: string, fileIDs: seq<string>, limit: int, vectorThreshold: real,
                           keywordThreshold: real) {

    function Limit(): (limit: nat)
      ensures limit > 0
    {
      if limit <= 0 then 30 else limit
    }

    function VectorThreshold(): real {
      if vectorThreshold <= 0.0 then 0.15 else vectorThreshold
    }

    function KeywordThreshold(): real {
      if keywordThreshold <= 0.0 then 0.3 else keywordThreshold
    }

    /** How many candidates a store is asked for. */
    function Candidates(): nat {
      if Limit() * 5 < 50 then 50 else Limit() * 5
    }
  }

  type Search = nat -> Result<seq<VectorMatch>, Cause>

  /** What the parts around the search answer: the embedder, the two indexes and the chunk store. */
  datatype Backends = Backends(
    embedding: Result<seq<seq<real>>, Cause>,
    store: Option<Search>,
    keyword: Option<Search>,
    rows: seq<string> -> Result<seq<Chunk>, Cause>,
    names: Names)

  // ---------- the specification ----------

  function VectorHits(p: Params, found: seq<VectorMatch>): seq<VectorMatch> {
    Filter(found, p.VectorThreshold())
  }

  function KeywordHits(p: Params, found: seq<VectorMatch>): seq<VectorMatch> {
    Filter(found, p.KeywordThreshold())
  }

  /** The first `limit` documents of a ranking. */
  function Page(p: Params, b: Backends, matches: seq<VectorMatch>): Result<seq<Document>, Error> {
    if matches == [] then Ok([])
    else
      match b.rows(Ids(matches))
      case Err(cause) => Err(Error.HydrateChunks(cause))
      case Ok(rows) => Ok(Take(Hydrated(matches, RowsById(rows), p.fileIDs, b.names), p.Limit()))
  }

  /** The answer to the vector hits alone, or to a fusion of both rankings. */
  ghost predicate IsRankedAnswer(p: Params, b: Backends, found: seq<VectorMatch>, out: Result<seq<Document>, Error>) {
    match b.keyword
    case None => out == Page(p, b, VectorHits(p, found))
    case Some(search) =>
      match search(p.Candidates())
      case Err(cause) => out == Err(KeywordSearch(cause))
      case Ok(words) => IsHybridAnswer(p, b, VectorHits(p, found), KeywordHits(p, words), out)
  }

  /** The page of some fusion that is cut at twice the limit. */
  ghost predicate IsHybridAnswer(p: Params, b: Backends, vector: seq<VectorMatch>, keyword: seq<VectorMatch>,
                                 out: Result<seq<Document>, Error>) {
    exists matches :: IsFusedPage(p, b, Fuse(vector, keyword), matches, out)
  }

  ghost predicate IsFusedPage(p: Params, b: Backends, fused: Fused, matches: seq<VectorMatch>,
                              out: Result<seq<Document>, Error>) {
    IsFusion(matches, fused, 2 * p.Limit()) && out == Page(p, b, matches)
  }

  ghost predicate IsAnswer(p: Params, b: Backends, out: Result<seq<Document>, Error>) {
    if Text.TrimSpace(p.query) == "" then out == Err(EmptyQuery)
    else
      match b.embedding
      case Err(cause) => out == Err(EmbedQuery(cause))
      case Ok(vectors) =>
        if vectors == [] || vectors[0] == [] then out == Err(EmptyEmbedding)
        else
          match b.store
          case None => out == Err(NoVectorStore)
          case Some(search) =>
            match search(p.Candidates())
            case Err(cause) => out == Err(VectorSearch(cause))
            case Ok(found) => IsRankedAnswer(p, b, found, out)
  }

  // ---------- the search ----------

  method SemanticSearch(p: Params, b: Backends) returns (out: Result<seq<Document>, Error>)
    ensures IsAnswer(p, b, out)
  {
    if Text.TrimSpace(p.query) == "" {
      return Err(EmptyQuery);
    }
    if b.embedding.Err? {
      return Err(EmbedQuery(b.embedding.error));
    }
    if b.embedding.value == [] || b.embedding.value[0] == [] {
      return Err(EmptyEmbedding);
    }
    if b.store.None? {
      return Err(NoVectorStore);
    }
    var candidateLimit := p.Limit() * 5;
    if candidateLimit < 50 {
      candidateLimit := 50;
    }
    var found := b.store.value(candidateLimit);
    if found.Err? {
      return Err(VectorSearch(found.error));
    }
    out := AnswerRanked(p, b, found.value);
  }

  /** The search once the vector index has answered. */
  method AnswerRanked(p: Params, b: Backends, found: seq<VectorMatch>) returns (out: Result<seq<Document>, Error>)
    ensures IsRankedAnswer(p, b, found, out)
  {
    var matches := FilterMatchesByScore(found, p.VectorThreshold());
    if b.keyword.None? {
      out := FetchPage(p, b, matches);
    } else {
      var words := b.keyword.value(p.Candidates());
      if words.Err? {
        return Err(KeywordSearch(words.error));
      }
      var keywordMatches := FilterMatchesByScore(words.value, p.KeywordThreshold());
      out := AnswerHybrid(p, b, matches, keywordMatches);
    }
  }

  method AnswerHybrid(p: Params, b: Backends, vector: seq<VectorMatch>, keyword: seq<VectorMatch>)
    returns (out: Result<seq<Document>, Error>)
    ensures IsHybridAnswer(p, b, vector, keyword, out)
  {
    var matches := FuseRRF(vector, keyword, p.Limit() * 2);
    out := FetchPage(p, b, matches);
    assert IsFusedPage(p, b, Fuse(vector, keyword), matches, out);
  }

  /** The second half of the search: fetch the chunks and build the documents. */
  method FetchPage(p: Params, b: Backends, matches: seq<VectorMatch>) returns (out: Result<seq<Document>, Error>)
    ensures out == Page(p, b, matches)
  {
    if matches == [] {
      return Ok([]);
    }
    var ids, sim := IdsAndSimilarities(matches);
    var chunks := GetChunksByIDs(ids, b.rows(ids));
    if chunks.Err? {
      return Err(Error.HydrateChunks(chunks.error));
    }
    var results := CollectDocuments(chunks.value, p.fileIDs, b.names, sim, p.Limit());
    out := Ok(results);
  }

  // ---------- what a page of a fusion is ----------

  /** A fusion, rows of the store that hold every chunk of it, and the page cut from it. */
  datatype Cut = Cut(vector: seq<VectorMatch>, keyword: seq<VectorMatch>, matches: seq<VectorMatch>, rows: seq<Chunk>,
                     files: seq<string>, names: Names, limit: nat) {

    function Fusion(): Fused {
      Fuse(vector, keyword)
    }

    function Full(): seq<Document> {
      Hydrated(matches, RowsById(rows), files, names)
    }

    function Docs(): seq<Document> {
      Take(Full(), limit)
    }

    function Score(id: string): real {
      RankFusion.Score(Ids(vector), Ids(keyword), id)
    }

    /** There is a row for the id, and it is of a wanted file. */
    predicate Keeps(id: string) {
      Survives(id, RowsById(rows), files)
    }

    ghost predicate Valid() {
      IsFusion(matches, Fusion(), 2 * limit)
    }
  }

  /** The full list of documents: the surviving ids of the ranking, each under its fused score. */
  lemma FullList(c: Cut)
    requires c.Valid()
    ensures Distinct(Ids(c.matches))
    ensures DocIds(c.Full()) == Survivors(Ids(c.matches), RowsById(c.rows), c.files)
  {
    HydrationKeepsOrder(Ids(c.matches), RowsById(c.rows), c.files, c.names, Similarities(c.matches));
  }

  /** The document at `k` has this place in the ranking, and carries that match's fused score. */
  lemma PlaceInRanking(c: Cut, k: nat)
    requires c.Valid() && k < |c.Full()|
    ensures c.Full()[k].id in Ids(c.matches) && c.Keeps(c.Full()[k].id) && c.Full()[k].id in c.Fusion()
    ensures c.Full()[k].score == c.Score(c.Full()[k].id)
  {
    var ids, id := Ids(c.matches), c.Full()[k].id;
    FullList(c);
    assert DocIds(c.Full())[k] == id;
    SurvivorsAre(ids, RowsById(c.rows), c.files, id);
    DocumentsScored(InOrder(ids, RowsById(c.rows)), c.files, c.names, Similarities(c.matches), k);
    var i :| 0 <= i < |ids| && ids[i] == id;
    SimilarityOf(c.matches, i);
    FuseScores(c.vector, c.keyword);
  }

  /** Different ids, in the order of falling scores. */
  predicate BestFirstOnce(docs: seq<Document>) {
    forall i, j :: 0 <= i < j < |docs| ==> docs[i].id != docs[j].id && docs[i].score >= docs[j].score
  }

  /** Documents come in the order of the ranking: different ids, scores that never rise. */
  lemma PageDescends(c: Cut)
    requires c.Valid()
    ensures BestFirstOnce(c.Full())
  {
    var ids, docs := Ids(c.matches), c.Full();
    FullList(c);
    FuseScores(c.vector, c.keyword);
    forall i, j | 0 <= i < j < |docs| ensures docs[i].id != docs[j].id && docs[i].score >= docs[j].score {
      PlaceInRanking(c, i);
      PlaceInRanking(c, j);
      assert DocIds(docs)[i] == docs[i].id && DocIds(docs)[j] == docs[j].id;
      SurvivorsAscend(ids, RowsById(c.rows), c.files, i, j);
      var ri, rj := Rank(ids, docs[i].id).value, Rank(ids, docs[j].id).value;
      assert ScoresOf(c.Fusion())[ids[ri - 1]] >= ScoresOf(c.Fusion())[ids[rj - 1]];
    }
  }

  /** The rows behind a page. */
  function RowsBehind(b: Backends, matches: seq<VectorMatch>): seq<Chunk> {
    if matches == [] || b.rows(Ids(matches)).Err? then [] else b.rows(Ids(matches)).value
  }

  lemma PageIsCut(p: Params, b: Backends, matches: seq<VectorMatch>, docs: seq<Document>)
    requires Page(p, b, matches) == Ok(docs)
    ensures docs == Take(Hydrated(matches, RowsById(RowsBehind(b, matches)), p.fileIDs, b.names), p.Limit())
  {
    if matches == [] {
      assert Ids(matches) == [];
    }
  }

  /** An answer to a search over both indexes. */
  lemma HybridAnswer(p: Params, b: Backends, vector: seq<VectorMatch>, keyword: seq<VectorMatch>,
                     docs: seq<Document>) returns (c: Cut)
    requires IsHybridAnswer(p, b, vector, keyword, Ok(docs))
    ensures c.Valid() && c.Docs() == docs
    ensures c == Cut(vector, keyword, c.matches, RowsBehind(b, c.matches), p.fileIDs, b.names, p.Limit())
  {
    var matches :| IsFusedPage(p, b, Fuse(vector, keyword), matches, Ok(docs));
    PageIsCut(p, b, matches, docs);
    c := Cut(vector, keyword, matches, RowsBehind(b, matches), p.fileIDs, b.names, p.Limit());
  }

  predicate FromWantedFile(doc: Document, files: seq<string>) {
    files == [] || (if doc.meta.fileID.Some? then doc.meta.fileID.value in files else "" in files)
  }

  lemma {:induction false} DocumentsWanted(chunks: seq<Chunk>, files: seq<string>, names: Names, sim: Similarity,
                                           k: nat)
    requires k < |Documents(chunks, files, names, sim)|
    ensures FromWantedFile(Documents(chunks, files, names, sim)[k], files)
  {
    if k < |Documents(chunks[..|chunks| - 1], files, names, sim)| {
      DocumentsWanted(chunks[..|chunks| - 1], files, names, sim, k);
    }
  }

  /** Documents of the requested files, at most `limit`, all different, best first, under their exact fused scores. */
  lemma HybridAnswerIsRanked(p: Params, b: Backends, vector: seq<VectorMatch>, keyword: seq<VectorMatch>,
                             docs: seq<Document>)
    requires IsHybridAnswer(p, b, vector, keyword, Ok(docs))
    ensures |docs| <= p.Limit() && BestFirstOnce(docs)
    ensures forall k :: 0 <= k < |docs| ==> FromWantedFile(docs[k], p.fileIDs)
    ensures forall k :: 0 <= k < |docs| ==> docs[k].score == Score(Ids(vector), Ids(keyword), docs[k].id)
  {
    var c := HybridAnswer(p, b, vector, keyword, docs);
    PageDescends(c);
    forall k | 0 <= k < |docs| ensures FromWantedFile(docs[k], p.fileIDs) && docs[k].score == c.Score(docs[k].id) {
      PlaceInRanking(c, k);
      DocumentsWanted(InOrder(Ids(c.matches), RowsById(c.rows)), c.files, c.names, Similarities(c.matches), k);
    }
  }

  // ---------- searches over a table of chunks ----------

  /** A store with a table never fails, and pages are cut from its chunks. */
  lemma TablePage(p: Params, b: Backends, table: seq<Chunk>, matches: seq<VectorMatch>)
    requires AnswersFrom(b.rows, table)
    ensures Page(p, b, matches) == Ok(Take(Hydrated(matches, RowsById(table), p.fileIDs, b.names), p.Limit()))
  {
    if matches != [] {
      assert Answers(b.rows(Ids(matches)), table, Ids(matches));
      AskedInOrder(table, Ids(matches));
    } else {
      assert Ids(matches) == [];
    }
  }

  /** A hybrid answer over a table, as a page cut from it. */
  lemma TableAnswer(p: Params, b: Backends, table: seq<Chunk>, vector: seq<VectorMatch>, keyword: seq<VectorMatch>,
                    out: Result<seq<Document>, Error>)
    returns (c: Cut)
    requires AnswersFrom(b.rows, table) && IsHybridAnswer(p, b, vector, keyword, out)
    ensures c.Valid() && out == Ok(c.Docs())
    ensures c == Cut(vector, keyword, c.matches, table, p.fileIDs, b.names, p.Limit())
  {
    var matches :| IsFusedPage(p, b, Fuse(vector, keyword), matches, out);
    TablePage(p, b, table, matches);
    c := Cut(vector, keyword, matches, table, p.fileIDs, b.names, p.Limit());
  }

  /** An id that fusion cut off does not outscore a document. */
  lemma CutOffIsNoBetter(c: Cut, id: string, j: nat)
    requires c.Valid() && id in c.Fusion() && id !in Ids(c.matches) && j < |c.Full()|
    ensures c.Score(id) <= c.Full()[j].score
  {
    var ids := Ids(c.matches);
    FuseScores(c.vector, c.keyword);
    PlaceInRanking(c, j);
    var at := Rank(ids, c.Full()[j].id).value - 1;
    assert ScoresOf(c.Fusion())[id] <= ScoresOf(c.Fusion())[ids[at]];
  }

  lemma FullDocument(c: Cut, id: string) returns (k: nat)
    requires c.Valid() && id in Ids(c.matches) && c.Keeps(id)
    ensures k < |c.Full()| && c.Full()[k].id == id && c.Full()[k].score == c.Score(id)
  {
    FullList(c);
    SurvivorsAre(Ids(c.matches), RowsById(c.rows), c.files, id);
    k :| 0 <= k < |DocIds(c.Full())| && DocIds(c.Full())[k] == id;
    PlaceInRanking(c, k);
  }

  /** No fused id with a wanted chunk outscores a document of the cut without being one. */
  lemma NothingBetterCut(c: Cut, id: string, j: nat)
    requires c.Valid() && id in c.Fusion() && c.Keeps(id) && id !in DocIds(c.Docs()) && j < |c.Docs()|
    ensures c.Score(id) <= c.Docs()[j].score
  {
    if id !in Ids(c.matches) {
      CutOffIsNoBetter(c, id, j);
    } else {
      var k := FullDocument(c, id);
      assert forall n :: 0 <= n < |c.Docs()| ==> DocIds(c.Docs())[n] == c.Full()[n].id;
      PageDescends(c);
    }
  }

  /**
   * No candidate with a chunk of a wanted file in the table outscores a returned document without being returned
   * itself.
   */
  lemma NothingBetterOmitted(p: Params, b: Backends, table: seq<Chunk>, vector: seq<VectorMatch>,
                             keyword: seq<VectorMatch>,
                             docs: seq<Document>, id: string, j: nat)
    requires AnswersFrom(b.rows, table) && IsHybridAnswer(p, b, vector, keyword, Ok(docs))
    requires id in Ids(vector) + Ids(keyword) && Survives(id, RowsById(table), p.fileIDs)
    requires id !in DocIds(docs) && j < |docs|
    ensures Score(Ids(vector), Ids(keyword), id) <= docs[j].score
  {
    var c := TableAnswer(p, b, table, vector, keyword, Ok(docs));
    FuseScores(vector, keyword);
    NothingBetterCut(c, id, j);
  }
}
