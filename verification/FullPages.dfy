/** When a hybrid page is full. */
module FullPages {
  // Fusion cuts to twice the limit before hydration drops what has no chunk or is of an unwanted file.

  import opened Wrappers
  import opened Sorting
  import opened RankFusion
  import opened Searcher
  import opened Hydration
  import opened HybridSearch
  import Text

  // ---------- what every top holds, and what some top holds ----------

  function Above(scores: Scores, id: string): set<string>
    requires id in scores
  {
    set x | x in scores && scores[x] > scores[id]
  }

  function AtLeast(scores: Scores, id: string): set<string>
    requires id in scores
  {
    set x | x in scores && scores[x] >= scores[id]
  }

  /** The ids that fewer than `n` others outscore. */
  function Reachable(scores: Scores, n: nat): set<string> {
    set id | id in scores && |Above(scores, id)| < n
  }

  /** The ids that, with all their equals and betters, are at most `n`. */
  function Certain(scores: Scores, n: nat): set<string> {
    set id | id in scores && |AtLeast(scores, id)| <= n
  }

  lemma TopIsReachable(ids: seq<string>, scores: Scores, limit: nat, id: string)
    requires IsTop(ids, scores, limit) && id in ids
    ensures id in Reachable(scores, |ids|)
  {
    var j :| 0 <= j < |ids| && ids[j] == id;
    assert id in SetOf(ids);
    SetOfDistinct(ids);
    SubsetCount(Above(scores, id), SetOf(ids) - {id});
  }

  lemma CertainIsTop(ids: seq<string>, scores: Scores, limit: nat, id: string)
    requires IsTop(ids, scores, limit) && id in Certain(scores, |ids|)
    ensures id in ids
  {
    if id !in ids {
      forall x | x in SetOf(ids) ensures x in AtLeast(scores, id) {
        var j :| 0 <= j < |ids| && ids[j] == x;
      }
      SetOfDistinct(ids);
      SubsetCount(SetOf(ids) + {id}, AtLeast(scores, id));
    }
  }

  // ---------- the top that keeps least ----------

  /** Best first, and among equals what is not kept first. */
  function WorstFirst(scores: Scores, keep: set<string>): (string, string) -> bool {
    (a: string, b: string) =>
      ScoreIn(scores, a) > ScoreIn(scores, b) || (ScoreIn(scores, a) == ScoreIn(scores, b) && (a !in keep || b in keep))
  }

  lemma {:induction false} Listed(ids: set<string>) returns (list: seq<string>)
    ensures Distinct(list) && SetOf(list) == ids
  {
    if ids == {} {
      list := [];
    } else {
      var id :| id in ids;
      var rest := Listed(ids - {id});
      list := rest + [id];
      assert id !in SetOf(rest);
      assert SetOf(list) == SetOf(rest) + {id};
    }
  }

  lemma SortedList(scores: Scores, keep: set<string>) returns (sorted: seq<string>)
    ensures Distinct(sorted) && SetOf(sorted) == scores.Keys && |sorted| == |scores| &&
      SortedBy(sorted, WorstFirst(scores, keep))
  {
    var list := Listed(scores.Keys);
    var le := WorstFirst(scores, keep);
    sorted := Sort(list, le);
    SortKeeps(list, le);
    SameMembers(list, sorted);
    DistinctPermutation(list, sorted);
    assert SetOf(sorted) == SetOf(list);
    SetOfDistinct(sorted);
    assert |scores.Keys| == |scores|;
  }

  /** Kept ids of this top strictly outscore every omitted id that is not kept. */
  ghost predicate KeepsLeast(ids: seq<string>, scores: Scores, keep: set<string>)
    requires SetOf(ids) <= scores.Keys
  {
    forall k, y :: 0 <= k < |ids| && ids[k] in keep && y in scores && y !in ids && y !in keep ==>
        scores[ids[k]] > scores[y]
  }

  lemma BehindPrefix(sorted: seq<string>, n: nat, y: string) returns (j: nat)
    requires n <= |sorted| && y in sorted && y !in sorted[..n]
    ensures n <= j < |sorted| && sorted[j] == y
  {
    assert forall k :: 0 <= k < n ==> sorted[..n][k] == sorted[k];
    j :| 0 <= j < |sorted| && sorted[j] == y;
  }

  lemma OmittedIsBehind(sorted: seq<string>, scores: Scores, keep: set<string>, n: nat, k: nat, y: string)
    requires SetOf(sorted) == scores.Keys && SortedBy(sorted, WorstFirst(scores, keep)) && k < n <= |sorted|
    requires y in scores && y !in sorted[..n]
    ensures sorted[k] in scores && scores[sorted[k]] >= scores[y]
    ensures sorted[k] in keep && y !in keep ==> scores[sorted[k]] > scores[y]
  {
    assert y in SetOf(sorted);
    var j := BehindPrefix(sorted, n, y);
    assert WorstFirst(scores, keep)(sorted[k], sorted[j]);
    assert sorted[k] in SetOf(sorted);
  }

  lemma PrefixIsTop(sorted: seq<string>, scores: Scores, keep: set<string>, limit: nat, n: nat)
    requires Distinct(sorted) && SetOf(sorted) == scores.Keys && |sorted| == |scores| &&
      SortedBy(sorted, WorstFirst(scores, keep))
    requires n == if limit <= |scores| then limit else |scores|
    ensures IsTop(sorted[..n], scores, limit) && KeepsLeast(sorted[..n], scores, keep)
  {
    var ids := sorted[..n];
    forall id | id in SetOf(ids) ensures id in scores {
      assert id in SetOf(sorted);
    }
    forall i, j | 0 <= i < j < n ensures scores[ids[i]] >= scores[ids[j]] {
      assert WorstFirst(scores, keep)(sorted[i], sorted[j]);
      assert ids[i] in SetOf(ids) && ids[j] in SetOf(ids);
    }
    forall y, k | y in scores && y !in ids && 0 <= k < n
      ensures scores[y] <= scores[ids[k]] && (ids[k] in keep && y !in keep ==> scores[ids[k]] > scores[y])
    {
      OmittedIsBehind(sorted, scores, keep, n, k, y);
    }
  }

  lemma LeastTop(scores: Scores, keep: set<string>, limit: nat) returns (ids: seq<string>)
    ensures IsTop(ids, scores, limit) && KeepsLeast(ids, scores, keep)
  {
    var sorted := SortedList(scores, keep);
    var n := if limit <= |scores| then limit else |scores|;
    PrefixIsTop(sorted, scores, keep, limit, n);
    ids := sorted[..n];
  }

  // ---------- the exact condition ----------

  /** Enough of whatever can be in a top is kept, or enough of what must be in it is. */
  predicate KeepsEnough(scores: Scores, keep: set<string>, limit: nat, wanted: nat) {
    var n := if limit <= |scores| then limit else |scores|;
    |Reachable(scores, n) - keep| + wanted <= n || |Certain(scores, n) * keep| >= wanted
  }

  ghost predicate EveryTopKeeps(scores: Scores, keep: set<string>, limit: nat, wanted: nat) {
    forall ids :: IsTop(ids, scores, limit) ==> |SetOf(ids) * keep| >= wanted
  }

  lemma Divide(all: set<string>, keep: set<string>)
    ensures |all| == |all * keep| + |all - keep|
  {
    assert all == all * keep + (all - keep);
  }

  lemma TopKeepsEnough(ids: seq<string>, scores: Scores, keep: set<string>, limit: nat, wanted: nat)
    requires IsTop(ids, scores, limit) && KeepsEnough(scores, keep, limit, wanted)
    ensures |SetOf(ids) * keep| >= wanted
  {
    SetOfDistinct(ids);
    Divide(SetOf(ids), keep);
    forall id | id in SetOf(ids) ensures id in Reachable(scores, |ids|) {
      TopIsReachable(ids, scores, limit, id);
    }
    SubsetCount(SetOf(ids) - keep, Reachable(scores, |ids|) - keep);
    forall id | id in Certain(scores, |ids|) ensures id in SetOf(ids) {
      CertainIsTop(ids, scores, limit, id);
    }
    SubsetCount(Certain(scores, |ids|) * keep, SetOf(ids) * keep);
  }

  /** When the top that keeps least omits a reachable id that is not kept, all it keeps is certain. */
  lemma KeptIsCertain(ids: seq<string>, scores: Scores, keep: set<string>, limit: nat, id: string, omitted: string)
    requires IsTop(ids, scores, limit) && KeepsLeast(ids, scores, keep) && id in ids && id in keep
    requires omitted in Reachable(scores, |ids|) && omitted !in keep && omitted !in ids
    ensures id in Certain(scores, |ids|)
  {
    var k :| 0 <= k < |ids| && ids[k] == id;
    assert scores[id] > scores[omitted];
    SubsetCount(AtLeast(scores, id), Above(scores, omitted));
  }

  lemma LeastTopTells(ids: seq<string>, scores: Scores, keep: set<string>, limit: nat, wanted: nat)
    requires IsTop(ids, scores, limit) && KeepsLeast(ids, scores, keep) && |SetOf(ids) * keep| >= wanted
    ensures KeepsEnough(scores, keep, limit, wanted)
  {
    SetOfDistinct(ids);
    Divide(SetOf(ids), keep);
    if omitted :| omitted in Reachable(scores, |ids|) - keep && omitted !in ids {
      forall id | id in SetOf(ids) * keep ensures id in Certain(scores, |ids|) * keep {
        KeptIsCertain(ids, scores, keep, limit, id, omitted);
      }
      SubsetCount(SetOf(ids) * keep, Certain(scores, |ids|) * keep);
    } else {
      SubsetCount(Reachable(scores, |ids|) - keep, SetOf(ids) - keep);
    }
  }

  /** Every top keeps enough exactly when the scores alone say so. */
  lemma EveryTopKeepsIff(scores: Scores, keep: set<string>, limit: nat, wanted: nat)
    ensures EveryTopKeeps(scores, keep, limit, wanted) <==> KeepsEnough(scores, keep, limit, wanted)
  {
    if KeepsEnough(scores, keep, limit, wanted) {
      forall ids | IsTop(ids, scores, limit) ensures |SetOf(ids) * keep| >= wanted {
        TopKeepsEnough(ids, scores, keep, limit, wanted);
      }
    }
    if EveryTopKeeps(scores, keep, limit, wanted) {
      var ids := LeastTop(scores, keep, limit);
      LeastTopTells(ids, scores, keep, limit, wanted);
    }
  }

  // ---------- pages ----------

  /** The candidates with a chunk of a wanted file in the table. */
  function Kept(fused: Fused, table: seq<Chunk>, files: seq<string>): set<string> {
    set id | id in fused && Survives(id, RowsById(table), files)
  }

  lemma SurvivorCount(ids: seq<string>, byID: map<string, Chunk>, files: seq<string>, keep: set<string>)
    requires Distinct(ids) && forall id :: id in ids ==> (id in keep <==> Survives(id, byID, files))
    ensures |Survivors(ids, byID, files)| == |SetOf(ids) * keep|
  {
    var kept := Survivors(ids, byID, files);
    forall i, j | 0 <= i < j < |kept| ensures kept[i] != kept[j] {
      SurvivorsAscend(ids, byID, files, i, j);
    }
    forall id ensures id in SetOf(kept) <==> id in SetOf(ids) * keep {
      SurvivorsAre(ids, byID, files, id);
    }
    assert SetOf(kept) == SetOf(ids) * keep;
    SetOfDistinct(kept);
  }

  lemma FullLength(c: Cut)
    requires c.Valid()
    ensures |c.Full()| == |SetOf(Ids(c.matches)) * Kept(c.Fusion(), c.rows, c.files)|
  {
    var ids, kept := Ids(c.matches), Kept(c.Fusion(), c.rows, c.files);
    FullList(c);
    assert |DocIds(c.Full())| == |c.Full()|;
    forall id | id in ids ensures id in kept <==> Survives(id, RowsById(c.rows), c.files) {
      assert id in SetOf(ids);
    }
    SurvivorCount(ids, RowsById(c.rows), c.files, kept);
  }

  /** The matches of some ids. */
  function MatchesOf(fused: Fused, ids: seq<string>): (r: seq<VectorMatch>)
    requires SetOf(ids) <= fused.Keys && WellKeyed(fused)
    ensures Ids(r) == ids && forall k :: 0 <= k < |r| ==> r[k].id in fused && r[k] == fused[r[k].id]
  {
    assert forall k :: 0 <= k < |ids| ==> ids[k] in SetOf(ids);
    seq(|ids|, k requires 0 <= k < |ids| => fused[ids[k]])
  }

  predicate IsFull(p: Params, out: Result<seq<Document>, Error>) {
    out.Ok? && |out.value| == p.Limit()
  }

  /** Whatever way ties are broken, the hybrid answer has as many documents as the limit allows. */
  ghost predicate EveryPageIsFull(p: Params, b: Backends, vector: seq<VectorMatch>, keyword: seq<VectorMatch>) {
    forall out :: IsHybridAnswer(p, b, vector, keyword, out) ==> IsFull(p, out)
  }

  lemma CutIsFull(p: Params, c: Cut)
    requires c.Valid() && c.limit == p.Limit()
    ensures IsFull(p, Ok(c.Docs())) <==> |SetOf(Ids(c.matches)) * Kept(c.Fusion(), c.rows, c.files)| >= p.Limit()
  {
    FullLength(c);
  }

  /** Every best-first selection of ids is the ranking behind some answer. */
  lemma AnswerOf(p: Params, b: Backends, table: seq<Chunk>, vector: seq<VectorMatch>, keyword: seq<VectorMatch>,
                 ids: seq<string>)
    returns (c: Cut)
    requires AnswersFrom(b.rows, table) && IsTop(ids, ScoresOf(Fuse(vector, keyword)), 2 * p.Limit())
    ensures c.Valid() && Ids(c.matches) == ids && IsHybridAnswer(p, b, vector, keyword, Ok(c.Docs()))
    ensures c == Cut(vector, keyword, c.matches, table, p.fileIDs, b.names, p.Limit())
  {
    FuseScores(vector, keyword);
    c := Cut(vector, keyword, MatchesOf(Fuse(vector, keyword), ids), table, p.fileIDs, b.names, p.Limit());
    TablePage(p, b, table, c.matches);
    assert IsFusedPage(p, b, c.Fusion(), c.matches, Ok(c.Docs()));
  }

  lemma AnswersAreFull(p: Params, b: Backends, table: seq<Chunk>, vector: seq<VectorMatch>, keyword: seq<VectorMatch>)
    requires AnswersFrom(b.rows, table)
    requires EveryTopKeeps(
      ScoresOf(Fuse(vector, keyword)), Kept(Fuse(vector, keyword), table, p.fileIDs), 2 * p.Limit(), p.Limit())
    ensures EveryPageIsFull(p, b, vector, keyword)
  {
    forall out | IsHybridAnswer(p, b, vector, keyword, out) ensures IsFull(p, out) {
      var c := TableAnswer(p, b, table, vector, keyword, out);
      CutIsFull(p, c);
    }
  }

  lemma AnswersTell(p: Params, b: Backends, table: seq<Chunk>, vector: seq<VectorMatch>, keyword: seq<VectorMatch>)
    requires AnswersFrom(b.rows, table) && EveryPageIsFull(p, b, vector, keyword)
    ensures EveryTopKeeps(
      ScoresOf(Fuse(vector, keyword)), Kept(Fuse(vector, keyword), table, p.fileIDs), 2 * p.Limit(), p.Limit())
  {
    var fused := Fuse(vector, keyword);
    forall ids | IsTop(ids, ScoresOf(fused), 2 * p.Limit())
      ensures |SetOf(ids) * Kept(fused, table, p.fileIDs)| >= p.Limit()
    {
      var c := AnswerOf(p, b, table, vector, keyword, ids);
      CutIsFull(p, c);
    }
  }

  /**
   * Whatever way ties are broken the answer is full, exactly when the fused scores, the table and the wanted files
   * say so: of the ids that can be among the first `2 * limit`, few enough are lost, or of those that must be, enough
   * are kept.
   */
  lemma EveryPageIsFullIff(p: Params, b: Backends, table: seq<Chunk>, vector: seq<VectorMatch>,
                           keyword: seq<VectorMatch>)
    requires AnswersFrom(b.rows, table)
    ensures EveryPageIsFull(p, b, vector, keyword) <==> KeepsEnough(
      ScoresOf(Fuse(vector, keyword)), Kept(Fuse(vector, keyword), table, p.fileIDs), 2 * p.Limit(), p.Limit())
  {
    var scores, keep := ScoresOf(Fuse(vector, keyword)), Kept(Fuse(vector, keyword), table, p.fileIDs);
    EveryTopKeepsIff(scores, keep, 2 * p.Limit(), p.Limit());
    if EveryTopKeeps(scores, keep, 2 * p.Limit(), p.Limit()) {
      AnswersAreFull(p, b, table, vector, keyword);
    }
    if EveryPageIsFull(p, b, vector, keyword) {
      AnswersTell(p, b, table, vector, keyword);
    }
  }

  // ---------- pages that stay empty ----------

  function Name(k: nat): string {
    Text.Repeat('a', k)
  }

  function Hits(n: nat): (hits: seq<VectorMatch>)
    ensures |hits| == n && forall k :: 0 <= k < n ==> hits[k].id == Name(k) && hits[k].similarity == 1.0
    ensures Distinct(Ids(hits))
  {
    var hits := seq(n, k requires 0 <= k < n => VectorMatch(Name(k), "", 1.0));
    assert forall i, j :: 0 <= i < j < n ==> |Ids(hits)[i]| != |Ids(hits)[j]|;
    hits
  }

  /** A hit scores strictly more than every hit behind it. */
  lemma EarlierScoresMore(n: nat, i: nat, j: nat)
    requires i < j < n
    ensures Score(Ids(Hits(n)), [], Name(i)) > Score(Ids(Hits(n)), [], Name(j))
  {
    var ids := Ids(Hits(n));
    assert ids[i] == Name(i) && ids[j] == Name(j);
    assert Rank(ids, Name(i)) == Some(i + 1) && Rank(ids, Name(j)) == Some(j + 1);
    FusionIsMonotone(ids, [], Name(i), Name(j));
  }

  lemma HitScores(n: nat)
    ensures
      var scores := ScoresOf(Fuse(Hits(n), []));
      && scores.Keys == SetOf(Ids(Hits(n))) && |scores| == n
      && forall id :: id in scores ==> scores[id] == Score(Ids(Hits(n)), [], id)
  {
    var scores, all := ScoresOf(Fuse(Hits(n), [])), Ids(Hits(n));
    FuseScores(Hits(n), []);
    assert SetOf(Ids([])) == {};
    SetOfDistinct(all);
    assert |scores| == |scores.Keys|;
  }

  /** A top that is shorter than the ranking omits some hit. */
  lemma SomeHitOmitted(ids: seq<string>, n: nat) returns (i: nat)
    requires |ids| < n && Distinct(ids)
    ensures i < n && Name(i) !in ids
  {
    var all := Ids(Hits(n));
    SetOfDistinct(all);
    SetOfDistinct(ids);
    if SetOf(all) <= SetOf(ids) {
      SubsetCount(SetOf(all), SetOf(ids));
    }
    var x :| x in SetOf(all) && x !in ids;
    i :| 0 <= i < n && all[i] == x;
  }

  /** The last of `n` hits is in no top that is shorter. */
  lemma LastIsOmitted(ids: seq<string>, n: nat, limit: nat)
    requires limit < n && IsTop(ids, ScoresOf(Fuse(Hits(n), [])), limit)
    ensures Name(n - 1) !in ids
  {
    HitScores(n);
    var i := SomeHitOmitted(ids, n);
    assert Ids(Hits(n))[i] == Name(i) && Ids(Hits(n))[n - 1] == Name(n - 1);
    assert Name(i) in SetOf(Ids(Hits(n))) && Name(n - 1) in SetOf(Ids(Hits(n)));
    if i < n - 1 {
      EarlierScoresMore(n, i, n - 1);
    }
    assert forall j :: 0 <= j < |ids| ==> ScoresOf(Fuse(Hits(n), []))[Name(i)] <= ScoresOf(Fuse(Hits(n), []))[ids[j]];
  }

  function LastRow(n: nat): Chunk
    requires n > 0
  {
    Chunk(Name(n - 1), "", "", "", 0, "", "")
  }

  lemma OneRowById(row: Chunk)
    ensures RowsById([row]) == map[row.id := row]
  {
    assert [row][..0] == [];
  }

  /** With a row for the last hit only, that hit alone is kept. */
  lemma LastIsKept(n: nat)
    requires n > 0
    ensures Survives(Name(n - 1), RowsById([LastRow(n)]), []) && Name(n - 1) in Ids(Hits(n))
    ensures Kept(Fuse(Hits(n), []), [LastRow(n)], []) == {Name(n - 1)}
  {
    OneRowById(LastRow(n));
    FuseScores(Hits(n), []);
    assert Ids(Hits(n))[n - 1] == Name(n - 1);
    assert Name(n - 1) in SetOf(Ids(Hits(n)));
  }

  /** Indexes that find these hits, and a store with this table. */
  function Indexed(vector: seq<VectorMatch>, keyword: seq<VectorMatch>, table: seq<Chunk>): Backends {
    Backends(Ok([[1.0]]), Some((n: nat) => Ok(vector)), Some((n: nat) => Ok(keyword)),
             (ids: seq<string>) => Ok(Asked(table, ids)), NO_NAMES)
  }

  function Plain(limit: int): Params {
    Params("q", [], limit, 0.0, 0.0)
  }

  lemma IndexedAnswers(vector: seq<VectorMatch>, keyword: seq<VectorMatch>, table: seq<Chunk>)
    ensures AnswersFrom(Indexed(vector, keyword, table).rows, table)
  {
    var rows := Indexed(vector, keyword, table).rows;
    forall ids ensures Answers(rows(ids), table, ids) {
      assert rows(ids) == Ok(Asked(table, ids));
    }
  }

  lemma {:induction false} CertainPass(matches: seq<VectorMatch>, threshold: real)
    requires threshold <= 1.0 && forall k :: 0 <= k < |matches| ==> matches[k].similarity == 1.0
    ensures Filter(matches, threshold) == matches
  {
    if matches != [] {
      CertainPass(matches[..|matches| - 1], threshold);
    }
  }

  /** A search with certain hits is answered by their fusion. */
  lemma PlainSearch(limit: int, vector: seq<VectorMatch>, keyword: seq<VectorMatch>, table: seq<Chunk>,
                    out: Result<seq<Document>, Error>)
    requires forall k :: 0 <= k < |vector| ==> vector[k].similarity == 1.0
    requires forall k :: 0 <= k < |keyword| ==> keyword[k].similarity == 1.0
    ensures IsAnswer(Plain(limit), Indexed(vector, keyword, table), out)
      <==> IsHybridAnswer(Plain(limit), Indexed(vector, keyword, table), vector, keyword, out)
  {
    var p, b := Plain(limit), Indexed(vector, keyword, table);
    Text.TrimmedIsFixed("q");
    CertainPass(vector, p.VectorThreshold());
    CertainPass(keyword, p.KeywordThreshold());
    assert b.store.value(p.Candidates()) == Ok(vector);
    assert b.keyword.value(p.Candidates()) == Ok(keyword);
  }

  lemma NothingKept(c: Cut)
    requires c.Valid() && SetOf(Ids(c.matches)) * Kept(c.Fusion(), c.rows, c.files) == {}
    ensures c.Docs() == []
  {
    FullLength(c);
  }

  lemma LastIsNotAmong(ids: seq<string>, limit: nat)
    requires IsTop(ids, ScoresOf(Fuse(Hits(2 * limit + 1), [])), 2 * limit)
    ensures SetOf(ids) * Kept(Fuse(Hits(2 * limit + 1), []), [LastRow(2 * limit + 1)], []) == {}
  {
    LastIsOmitted(ids, 2 * limit + 1, 2 * limit);
    LastIsKept(2 * limit + 1);
    NotAmong(ids, Name(2 * limit));
  }

  lemma EmptyPage(limit: nat, c: Cut)
    requires limit > 0 && c.Valid() && c.limit == limit
    requires c.vector == Hits(2 * limit + 1) && c.keyword == [] && c.rows == [LastRow(2 * limit + 1)] && c.files == []
    ensures c.Docs() == []
  {
    LastIsNotAmong(Ids(c.matches), limit);
    NothingKept(c);
  }

  lemma NotAmong(ids: seq<string>, id: string)
    requires id !in ids
    ensures SetOf(ids) * {id} == {}
  {
  }

  /** The store answers from a table in which some candidate has a chunk, but every answer to the search is empty. */
  ghost predicate StaysEmpty(p: Params, b: Backends, table: seq<Chunk>, vector: seq<VectorMatch>, id: string) {
    && AnswersFrom(b.rows, table)
    && b.store.Some? && b.store.value(p.Candidates()) == Ok(vector) && |vector| <= p.Candidates()
    && id in Ids(VectorHits(p, vector)) && Survives(id, RowsById(table), p.fileIDs)
    && forall out :: IsAnswer(p, b, out) <==> out == Ok([])
  }

  lemma LastIsCandidate(limit: nat)
    requires limit > 0
    ensures
      var p, hits := Plain(limit), Hits(2 * limit + 1);
      |hits| <= p.Candidates() && Name(2 * limit) in Ids(VectorHits(p, hits)) &&
          Survives(Name(2 * limit), RowsById([LastRow(2 * limit + 1)]), [])
  {
    LastIsKept(2 * limit + 1);
    CertainPass(Hits(2 * limit + 1), Plain(limit).VectorThreshold());
  }

  /** For every limit there is a search that finds nothing although a candidate has a chunk of a wanted file. */
  lemma PagesCanStayEmpty(limit: nat)
    requires limit > 0
    ensures
      var hits, table := Hits(2 * limit + 1), [LastRow(2 * limit + 1)];
      StaysEmpty(Plain(limit), Indexed(hits, [], table), table, hits, Name(2 * limit))
  {
    var hits, table := Hits(2 * limit + 1), [LastRow(2 * limit + 1)];
    var p, b := Plain(limit), Indexed(hits, [], table);
    IndexedAnswers(hits, [], table);
    LastIsCandidate(limit);
    assert b.store.value(p.Candidates()) == Ok(hits);
    forall out ensures IsAnswer(p, b, out) <==> out == Ok([]) {
      PlainSearch(limit, hits, [], table, out);
      OnlyEmptyPages(limit, out);
    }
  }

  lemma OnlyEmptyPages(limit: nat, out: Result<seq<Document>, Error>)
    requires limit > 0
    ensures IsHybridAnswer(Plain(limit), Indexed(Hits(2 * limit + 1), [], [LastRow(2 * limit + 1)]),
                           Hits(2 * limit + 1), [], out)
      <==> out == Ok([])
  {
    var hits, table := Hits(2 * limit + 1), [LastRow(2 * limit + 1)];
    var p, b := Plain(limit), Indexed(hits, [], table);
    IndexedAnswers(hits, [], table);
    if IsHybridAnswer(p, b, hits, [], out) {
      var c := TableAnswer(p, b, table, hits, [], out);
      EmptyPage(limit, c);
    }
    if out == Ok([]) {
      var ids := LeastTop(ScoresOf(Fuse(hits, [])), {}, 2 * limit);
      var c := AnswerOf(p, b, table, hits, [], ids);
      EmptyPage(limit, c);
    }
  }
}
