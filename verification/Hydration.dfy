/**
 * From ranked ids to documents: the chunk store's reordering and the loops that build documents.
 */
module Hydration {
  import opened Wrappers
  import opened Sorting
  import opened RankFusion
  import opened Searcher

  datatype Chunk = Chunk(id: string, text: string, fileID: string, kind: string, index: int, parentID: string,
                         metadata: string)

  // ---------- the chunk store ----------

  /** The rows by id; of several rows for one id the last stays. */
  function RowsById(rows: seq<Chunk>): (byID: map<string, Chunk>)
    ensures forall id :: id in byID ==> byID[id].id == id && byID[id] in rows
  {
    if rows == [] then map[] else RowsById(rows[..|rows| - 1])[rows[|rows| - 1].id := rows[|rows| - 1]]
  }

  function InOrder(ids: seq<string>, byID: map<string, Chunk>): seq<Chunk> {
    if ids == [] then []
    else
      var last := ids[|ids| - 1];
      InOrder(ids[..|ids| - 1], byID) + if last in byID then [byID[last]] else []
  }

  /** What the store answers to `ids` when its query yields `rows`. */
  function Fetched<E>(ids: seq<string>, rows: Result<seq<Chunk>, E>): Result<seq<Chunk>, E> {
    if ids == [] then Ok([])
    else if rows.Err? then rows
    else Ok(InOrder(ids, RowsById(rows.value)))
  }

  method GetChunksByIDs<E>(ids: seq<string>, rows: Result<seq<Chunk>, E>) returns (chunks: Result<seq<Chunk>, E>)
    ensures chunks == Fetched(ids, rows)
  {
    if ids == [] {
      return Ok([]);
    }
    if rows.Err? {
      return rows;
    }
    var byID: map<string, Chunk> := map[];
    for i := 0 to |rows.value|
      invariant byID == RowsById(rows.value[..i])
    {
      assert rows.value[..i + 1][..i] == rows.value[..i];
      byID := byID[rows.value[i].id := rows.value[i]];
    }
    assert rows.value[..|rows.value|] == rows.value;
    var out: seq<Chunk> := [];
    for i := 0 to |ids|
      invariant out == InOrder(ids[..i], byID)
    {
      assert ids[..i + 1][..i] == ids[..i];
      if ids[i] in byID {
        out := out + [byID[ids[i]]];
      }
    }
    assert ids[..|ids|] == ids;
    chunks := Ok(out);
  }

  lemma {:induction false} RowsByIdKeys(rows: seq<Chunk>, row: Chunk)
    requires row in rows
    ensures row.id in RowsById(rows)
  {
    if row != rows[|rows| - 1] {
      assert row in rows[..|rows| - 1];
      RowsByIdKeys(rows[..|rows| - 1], row);
    }
  }

  /** One row per id, save for repeated rows. */
  predicate OneRowPerId(rows: seq<Chunk>) {
    forall a, b :: a in rows && b in rows && a.id == b.id ==> a == b
  }

  ghost predicate OrderIrrelevant(rows: seq<Chunk>) {
    forall others: seq<Chunk> :: multiset(others) == multiset(rows) ==> RowsById(others) == RowsById(rows)
  }

  lemma SameRows(rows: seq<Chunk>, others: seq<Chunk>)
    requires OneRowPerId(rows) && multiset(others) == multiset(rows)
    ensures RowsById(others) == RowsById(rows)
  {
    SameMembers(others, rows);
    forall id ensures id in RowsById(others) <==> id in RowsById(rows) {
      if id in RowsById(others) {
        RowsByIdKeys(rows, RowsById(others)[id]);
      }
      if id in RowsById(rows) {
        RowsByIdKeys(others, RowsById(rows)[id]);
      }
    }
  }

  /** The same rows with the one at `i` last. */
  function WithLast(rows: seq<Chunk>, i: nat): (r: seq<Chunk>)
    requires i < |rows|
    ensures multiset(r) == multiset(rows) && rows[i].id in RowsById(r) && RowsById(r)[rows[i].id] == rows[i]
  {
    assert rows == rows[..i] + [rows[i]] + rows[i + 1..];
    var r := rows[..i] + rows[i + 1..] + [rows[i]];
    assert r[|r| - 1] == rows[i];
    r
  }

  /** The order in which the database yields the rows is irrelevant exactly when no id has two different rows. */
  lemma RowOrderIrrelevantIff(rows: seq<Chunk>)
    ensures OrderIrrelevant(rows) <==> OneRowPerId(rows)
  {
    if OneRowPerId(rows) {
      forall others: seq<Chunk> | multiset(others) == multiset(rows) ensures RowsById(others) == RowsById(rows) {
        SameRows(rows, others);
      }
    }
    if OrderIrrelevant(rows) {
      forall a, b | a in rows && b in rows && a.id == b.id ensures a == b {
        var i :| 0 <= i < |rows| && rows[i] == a;
        var j :| 0 <= j < |rows| && rows[j] == b;
        assert RowsById(WithLast(rows, i)) == RowsById(rows) == RowsById(WithLast(rows, j));
      }
    }
  }

  // ---------- a table behind the query ----------

  /** The rows of a table that have one of these ids. */
  function Asked(table: seq<Chunk>, ids: seq<string>): (rows: seq<Chunk>)
    ensures forall row :: row in rows <==> row in table && row.id in ids
  {
    if table == [] then []
    else
      var front, last := table[..|table| - 1], table[|table| - 1];
      assert table == front + [last];
      Asked(front, ids) + if last.id in ids then [last] else []
  }

  /** The query answers with exactly these rows; of several rows for one id the same one comes last. */
  ghost predicate Answers<E>(answer: Result<seq<Chunk>, E>, table: seq<Chunk>, ids: seq<string>) {
    && answer.Ok?
    && multiset(answer.value) == multiset(Asked(table, ids))
    && RowsById(answer.value) == RowsById(Asked(table, ids))
  }

  /** Every query is answered from this table. */
  ghost predicate AnswersFrom<E(!new)>(rows: seq<string> -> Result<seq<Chunk>, E>, table: seq<Chunk>) {
    forall ids :: Answers(rows(ids), table, ids)
  }

  /** With one row per id the rows may come in any order. */
  lemma AnyOrderAnswers<E>(answer: Result<seq<Chunk>, E>, table: seq<Chunk>, ids: seq<string>)
    requires OneRowPerId(table) && answer.Ok? && multiset(answer.value) == multiset(Asked(table, ids))
    ensures Answers(answer, table, ids)
  {
    SameRows(Asked(table, ids), answer.value);
  }

  lemma AppendById(rows: seq<Chunk>, last: Chunk)
    ensures RowsById(rows + [last]) == RowsById(rows)[last.id := last]
  {
    assert (rows + [last])[..|rows|] == rows;
  }

  /** A row that was asked for is found as in the whole table. */
  lemma {:induction false} AskedById(table: seq<Chunk>, ids: seq<string>, id: string)
    requires id in ids
    ensures id in RowsById(Asked(table, ids)) <==> id in RowsById(table)
    ensures id in RowsById(table) ==> RowsById(Asked(table, ids))[id] == RowsById(table)[id]
  {
    if table != [] {
      var front, last := table[..|table| - 1], table[|table| - 1];
      AskedById(front, ids, id);
      if last.id in ids {
        AppendById(Asked(front, ids), last);
      } else {
        assert Asked(front, ids) + [] == Asked(front, ids);
      }
    }
  }

  lemma {:induction false} InOrderAgree(ids: seq<string>, a: map<string, Chunk>, b: map<string, Chunk>)
    requires forall id :: id in ids ==> (id in a <==> id in b) && (id in b ==> a[id] == b[id])
    ensures InOrder(ids, a) == InOrder(ids, b)
  {
    if ids != [] {
      assert ids[|ids| - 1] in ids;
      InOrderAgree(ids[..|ids| - 1], a, b);
    }
  }

  /** Asking for the ids of a ranking finds the chunks that the whole table has for it. */
  lemma AskedInOrder(table: seq<Chunk>, ids: seq<string>)
    ensures InOrder(ids, RowsById(Asked(table, ids))) == InOrder(ids, RowsById(table))
  {
    forall id | id in ids
      ensures id in RowsById(Asked(table, ids)) <==> id in RowsById(table)
      ensures id in RowsById(table) ==> RowsById(Asked(table, ids))[id] == RowsById(table)[id]
    {
      AskedById(table, ids, id);
    }
    InOrderAgree(ids, RowsById(Asked(table, ids)), RowsById(table));
  }

  // ---------- documents ----------

  datatype Meta = Meta(raw: Option<string>, fileID: Option<string>, fileName: Option<string>, kind: Option<string>,
                       index: int, parentID: Option<string>)

  datatype Document = Document(id: string, content: string, meta: Meta, score: real)

  function Present(s: string): Option<string> {
    if s == "" then None else Some(s)
  }

  type Similarity = map<string, real>

  /** The last match of an id decides its similarity. */
  function Similarities(matches: seq<VectorMatch>): (sim: Similarity)
    ensures sim.Keys == SetOf(Ids(matches))
  {
    if matches == [] then map[]
    else
      var last := matches[|matches| - 1];
      assert Ids(matches) == Ids(matches[..|matches| - 1]) + [last.id];
      Similarities(matches[..|matches| - 1])[last.id := last.similarity]
  }

  function ScoreIn(sim: Similarity, id: string): real {
    if id in sim then sim[id] else 0.0
  }

  /** File names by file id, empty where the store has none or cannot say. */
  type Names = string -> string

  const NO_NAMES: Names := (fileID: string) => ""

  function ToDocument(ch: Chunk, names: Names, sim: Similarity): Document {
    Document(
      ch.id, ch.text,
      Meta(Present(ch.metadata), Present(ch.fileID), if ch.fileID == "" then None else Present(names(ch.fileID)),
           Present(ch.kind), ch.index, Present(ch.parentID)),
      ScoreIn(sim, ch.id))
  }

  /** No files asked for means every file. */
  predicate Wants(files: seq<string>, fileID: string) {
    files == [] || fileID in files
  }

  /** All wanted chunks as documents. */
  function Documents(chunks: seq<Chunk>, files: seq<string>, names: Names, sim: Similarity): seq<Document> {
    if chunks == [] then []
    else
      var last := chunks[|chunks| - 1];
      Documents(chunks[..|chunks| - 1], files, names, sim) + if Wants(files, last.fileID) then
          [ToDocument(last, names, sim)] else []
  }

  function Take<T>(s: seq<T>, n: int): (r: seq<T>)
    ensures r <= s
  {
    if n < 0 then [] else if n <= |s| then s[..n] else s
  }

  lemma TakeWhole<T>(s: seq<T>, all: seq<T>, n: nat)
    requires s <= all && |s| == n
    ensures Take(all, n) == s
  {
  }

  function AtLeastOne(limit: int): nat {
    if limit < 1 then 1 else limit
  }

  lemma {:induction false} DocumentsPrefix(chunks: seq<Chunk>, n: nat, files: seq<string>, names: Names,
                                           sim: Similarity)
    requires n <= |chunks|
    ensures Documents(chunks[..n], files, names, sim) <= Documents(chunks, files, names, sim)
  {
    if n == |chunks| {
      assert chunks[..n] == chunks;
    } else {
      assert chunks[..|chunks| - 1][..n] == chunks[..n];
      DocumentsPrefix(chunks[..|chunks| - 1], n, files, names, sim);
    }
  }

  /** The loop that turns chunks into documents and stops at the limit, which it notices after the first document. */
  method CollectDocuments(chunks: seq<Chunk>, files: seq<string>, names: Names, sim: Similarity, limit: int)
    returns (results: seq<Document>)
    ensures results == Take(Documents(chunks, files, names, sim), AtLeastOne(limit))
  {
    results := [];
    for i := 0 to |chunks|
      invariant results == Documents(chunks[..i], files, names, sim) && |results| < AtLeastOne(limit)
    {
      assert chunks[..i + 1][..i] == chunks[..i];
      if Wants(files, chunks[i].fileID) {
        results := results + [ToDocument(chunks[i], names, sim)];
        if |results| >= limit {
          DocumentsPrefix(chunks, i + 1, files, names, sim);
          TakeWhole(results, Documents(chunks, files, names, sim), AtLeastOne(limit));
          return;
        }
      }
    }
    assert chunks[..|chunks|] == chunks;
  }

  method IdsAndSimilarities(matches: seq<VectorMatch>) returns (ids: seq<string>, sim: Similarity)
    ensures ids == Ids(matches) && sim == Similarities(matches)
  {
    ids, sim := [], map[];
    for i := 0 to |matches|
      invariant ids == Ids(matches[..i]) && sim == Similarities(matches[..i])
    {
      assert matches[..i + 1][..i] == matches[..i];
      ids := ids + [matches[i].id];
      sim := sim[matches[i].id := matches[i].similarity];
    }
    assert matches[..|matches|] == matches;
  }

  /** The documents of a ranking, best first, before they are cut off. */
  function Hydrated(matches: seq<VectorMatch>, byID: map<string, Chunk>, files: seq<string>,
                    names: Names): seq<Document> {
    Documents(InOrder(Ids(matches), byID), files, names, Similarities(matches))
  }

  /** The router's hydration: no file filter and no file names. */
  method HydrateChunks<E>(matches: seq<VectorMatch>, rows: seq<string> -> Result<seq<Chunk>, E>, limit: int)
    returns (out: Result<seq<Document>, E>)
    ensures matches == [] ==> out == Ok([])
    ensures matches != [] && rows(Ids(matches)).Err? ==> out == Err(rows(Ids(matches)).error)
    ensures matches != [] && rows(Ids(matches)).Ok? ==>
      out == Ok(Take(Hydrated(matches, RowsById(rows(Ids(matches)).value), [], NO_NAMES), AtLeastOne(limit)))
  {
    if matches == [] {
      return Ok([]);
    }
    var ids, sim := IdsAndSimilarities(matches);
    var chunks := GetChunksByIDs(ids, rows(ids));
    if chunks.Err? {
      return Err(chunks.error);
    }
    var results := CollectDocuments(chunks.value, [], NO_NAMES, sim, limit);
    out := Ok(results);
  }

  // ---------- what hydration keeps ----------

  function DocIds(docs: seq<Document>): (r: seq<string>)
    ensures |r| == |docs| && forall k :: 0 <= k < |r| ==> r[k] == docs[k].id
  {
    seq(|docs|, k requires 0 <= k < |docs| => docs[k].id)
  }

  /** The chunk of `id` is there and from a wanted file. */
  predicate Survives(id: string, byID: map<string, Chunk>, files: seq<string>) {
    id in byID && Wants(files, byID[id].fileID)
  }

  predicate OwnIds(byID: map<string, Chunk>) {
    forall id :: id in byID ==> byID[id].id == id
  }

  function Survivors(ids: seq<string>, byID: map<string, Chunk>, files: seq<string>): seq<string> {
    if ids == [] then []
    else
      var last := ids[|ids| - 1];
      Survivors(ids[..|ids| - 1], byID, files) + if Survives(last, byID, files) then [last] else []
  }

  lemma DocIdsAppend(docs: seq<Document>, doc: Document)
    ensures DocIds(docs + [doc]) == DocIds(docs) + [doc.id]
  {
  }

  /** Fetching and filtering by file in two passes keeps exactly the ids that survive both, in order. */
  lemma {:induction false} HydrationKeepsOrder(ids: seq<string>, byID: map<string, Chunk>, files: seq<string>,
                                               names: Names, sim: Similarity)
    requires OwnIds(byID)
    ensures DocIds(Documents(InOrder(ids, byID), files, names, sim)) == Survivors(ids, byID, files)
  {
    if ids != [] {
      var front, last := ids[..|ids| - 1], ids[|ids| - 1];
      HydrationKeepsOrder(front, byID, files, names, sim);
      var before := InOrder(front, byID);
      if last in byID {
        assert (before + [byID[last]])[..|before|] == before;
        if Wants(files, byID[last].fileID) {
          DocIdsAppend(Documents(before, files, names, sim), ToDocument(byID[last], names, sim));
        }
      } else {
        assert before + [] == before;
      }
    }
  }

  lemma {:induction false} SurvivorsAre(ids: seq<string>, byID: map<string, Chunk>, files: seq<string>, id: string)
    ensures id in Survivors(ids, byID, files) <==> id in ids && Survives(id, byID, files)
  {
    if ids != [] {
      assert ids == ids[..|ids| - 1] + [ids[|ids| - 1]];
      SurvivorsAre(ids[..|ids| - 1], byID, files, id);
    }
  }

  /** The survivors of distinct ids stand in the order of their ranks. */
  lemma {:induction false} SurvivorsAscend(ids: seq<string>, byID: map<string, Chunk>, files: seq<string>, i: nat,
                                           j: nat)
    requires Distinct(ids) && i < j < |Survivors(ids, byID, files)|
    ensures Survivors(ids, byID, files)[i] in ids && Survivors(ids, byID, files)[j] in ids
    ensures Rank(ids, Survivors(ids, byID, files)[i]).value < Rank(ids, Survivors(ids, byID, files)[j]).value
  {
    var front, last := ids[..|ids| - 1], ids[|ids| - 1];
    var kept := Survivors(front, byID, files);
    SurvivorsAre(front, byID, files, kept[i]);
    assert kept[i] in front && kept[i] != last;
    if j < |kept| {
      SurvivorsAscend(front, byID, files, i, j);
      SurvivorsAre(front, byID, files, kept[j]);
    }
  }

  lemma {:induction false} DocumentsScored(chunks: seq<Chunk>, files: seq<string>, names: Names, sim: Similarity,
                                           k: nat)
    requires k < |Documents(chunks, files, names, sim)|
    ensures Documents(chunks, files, names, sim)[k].score == ScoreIn(sim, Documents(chunks, files, names, sim)[k].id)
  {
    if k < |Documents(chunks[..|chunks| - 1], files, names, sim)| {
      DocumentsScored(chunks[..|chunks| - 1], files, names, sim, k);
    }
  }

  /** The last match of an id decides its similarity. */
  lemma {:induction false} LastSimilarity(matches: seq<VectorMatch>, i: nat)
    requires i < |matches| && forall j :: i < j < |matches| ==> matches[j].id != matches[i].id
    ensures ScoreIn(Similarities(matches), matches[i].id) == matches[i].similarity
  {
    var last := |matches| - 1;
    if i < last {
      LastSimilarity(matches[..last], i);
    }
  }

  lemma SimilarityOf(matches: seq<VectorMatch>, i: nat)
    requires Distinct(Ids(matches)) && i < |matches|
    ensures ScoreIn(Similarities(matches), matches[i].id) == matches[i].similarity
  {
    assert forall j :: i < j < |matches| ==> Ids(matches)[j] != Ids(matches)[i];
    LastSimilarity(matches, i);
  }
}
