/**
 * The fusion of `rag_searcher.go`: thresholds, and reciprocal-rank fusion of the vector and the keyword ranking.
 */
module Searcher {
  import opened Sorting
  import opened RankFusion

  datatype VectorMatch = VectorMatch(id: string, fileID: string, similarity: real)

  function Ids(matches: seq<VectorMatch>): (r: seq<string>)
    ensures |r| == |matches| && forall k :: 0 <= k < |r| ==> r[k] == matches[k].id
  {
    seq(|matches|, k requires 0 <= k < |matches| => matches[k].id)
  }

  // ---------- thresholds ----------

  function Filter(matches: seq<VectorMatch>, threshold: real): seq<VectorMatch> {
    if matches == [] then []
    else
      var front, last := matches[..|matches| - 1], matches[|matches| - 1];
      if last.similarity >= threshold then Filter(front, threshold) + [last] else Filter(front, threshold)
  }

  method FilterMatchesByScore(matches: seq<VectorMatch>, threshold: real) returns (filtered: seq<VectorMatch>)
    ensures filtered == Filter(matches, threshold)
  {
    filtered := [];
    for i := 0 to |matches|
      invariant filtered == Filter(matches[..i], threshold)
    {
      assert matches[..i + 1][..i] == matches[..i];
      if matches[i].similarity >= threshold {
        filtered := filtered + [matches[i]];
      }
    }
    assert matches[..|matches|] == matches;
  }

  /** Filtering keeps exactly the matches at or above the threshold, with their multiplicity, in order. */
  lemma {:induction false} FilterKeeps(matches: seq<VectorMatch>, threshold: real, m: VectorMatch)
    ensures multiset(Filter(matches, threshold))[m] == if m.similarity >= threshold then multiset(matches)[m] else 0
  {
    if matches != [] {
      assert matches == matches[..|matches| - 1] + [matches[|matches| - 1]];
      FilterKeeps(matches[..|matches| - 1], threshold, m);
    }
  }

  // ---------- fusion ----------

  type Fused = map<string, VectorMatch>

  /** A vector hit at a 1-based rank. */
  function AddVector(fused: Fused, m: VectorMatch, rank: nat): Fused {
    var entry := if m.id in fused then fused[m.id] else m.(similarity := 0.0);
    fused[m.id := entry.(similarity := entry.similarity + VECTOR_WEIGHT / (RRF_K + rank as real))]
  }

  /** A keyword hit at a 1-based rank; it may fill in a missing file. */
  function AddKeyword(fused: Fused, m: VectorMatch, rank: nat): Fused {
    var entry := if m.id in fused then fused[m.id] else m.(similarity := 0.0);
    var filed := if entry.fileID == "" then entry.(fileID := m.fileID) else entry;
    fused[m.id := filed.(similarity := filed.similarity + KEYWORD_WEIGHT / (RRF_K + rank as real))]
  }

  function FuseVector(vector: seq<VectorMatch>): Fused {
    if vector == [] then map[]
    else AddVector(FuseVector(vector[..|vector| - 1]), vector[|vector| - 1], |vector|)
  }

  /** The fused matches by id; their similarity is the fused score. */
  function Fuse(vector: seq<VectorMatch>, keyword: seq<VectorMatch>): Fused {
    if keyword == [] then FuseVector(vector)
    else AddKeyword(Fuse(vector, keyword[..|keyword| - 1]), keyword[|keyword| - 1], |keyword|)
  }

  function ScoresOf(fused: Fused): (scores: Scores)
    ensures scores.Keys == fused.Keys && forall id :: id in fused ==> scores[id] == fused[id].similarity
  {
    map id | id in fused :: fused[id].similarity
  }

  /** Every entry stands under its own id with this score. */
  ghost predicate Scored(fused: Fused, vector: seq<string>, keyword: seq<string>) {
    && fused.Keys == SetOf(vector) + SetOf(keyword)
    && forall id :: id in fused ==> fused[id].id == id && fused[id].similarity == Score(vector, keyword, id)
  }

  lemma ContributionAppend(ids: seq<string>, last: string, id: string, weight: real, k: real)
    requires k > 0.0
    ensures Contribution(ids + [last], id, weight, k)
      == Contribution(ids, id, weight, k) + if last == id then weight / (k + (|ids| + 1) as real) else 0.0
  {
    assert (ids + [last])[..|ids|] == ids;
  }

  lemma AddVectorScores(fused: Fused, vector: seq<string>, m: VectorMatch)
    requires Scored(fused, vector, [])
    ensures Scored(AddVector(fused, m, |vector| + 1), vector + [m.id], [])
  {
    var after := AddVector(fused, m, |vector| + 1);
    assert SetOf(vector + [m.id]) == SetOf(vector) + {m.id};
    forall id | id in after ensures after[id].id == id && after[id].similarity == Score(vector + [m.id], [], id) {
      ContributionAppend(vector, m.id, id, VECTOR_WEIGHT, RRF_K);
      if id !in vector {
        AbsentContributes(vector, id, VECTOR_WEIGHT, RRF_K);
      }
    }
  }

  lemma AddKeywordScores(fused: Fused, vector: seq<string>, keyword: seq<string>, m: VectorMatch)
    requires Scored(fused, vector, keyword)
    ensures Scored(AddKeyword(fused, m, |keyword| + 1), vector, keyword + [m.id])
  {
    var after := AddKeyword(fused, m, |keyword| + 1);
    assert SetOf(keyword + [m.id]) == SetOf(keyword) + {m.id};
    forall id | id in after ensures after[id].id == id && after[id].similarity == Score(vector, keyword + [m.id], id) {
      ContributionAppend(keyword, m.id, id, KEYWORD_WEIGHT, RRF_K);
      if id !in fused {
        AbsentContributes(vector, id, VECTOR_WEIGHT, RRF_K);
        AbsentContributes(keyword, id, KEYWORD_WEIGHT, RRF_K);
      }
    }
  }

  lemma IdsAppend(matches: seq<VectorMatch>)
    requires matches != []
    ensures Ids(matches) == Ids(matches[..|matches| - 1]) + [matches[|matches| - 1].id]
  {
  }

  lemma {:induction false} FuseVectorScores(vector: seq<VectorMatch>)
    ensures Scored(FuseVector(vector), Ids(vector), [])
  {
    if vector != [] {
      FuseVectorScores(vector[..|vector| - 1]);
      IdsAppend(vector);
      AddVectorScores(FuseVector(vector[..|vector| - 1]), Ids(vector[..|vector| - 1]), vector[|vector| - 1]);
    }
  }

  /** Fusing adds up what the two rankings contribute, for every id in either. */
  lemma {:induction false} FuseScores(vector: seq<VectorMatch>, keyword: seq<VectorMatch>)
    ensures Scored(Fuse(vector, keyword), Ids(vector), Ids(keyword))
  {
    if keyword == [] {
      FuseVectorScores(vector);
    } else {
      FuseScores(vector, keyword[..|keyword| - 1]);
      IdsAppend(keyword);
      AddKeywordScores(Fuse(vector, keyword[..|keyword| - 1]), Ids(vector), Ids(keyword[..|keyword| - 1]),
                       keyword[|keyword| - 1]);
    }
  }

  /** The file ids of the matches with this id, in order. */
  function FilesOf(matches: seq<VectorMatch>, id: string): seq<string> {
    if matches == [] then []
    else
      FilesOf(matches[..|matches| - 1], id)
      + if matches[|matches| - 1].id == id then [matches[|matches| - 1].fileID] else []
  }

  function FirstNonEmpty(files: seq<string>): string {
    if files == [] then "" else if files[0] != "" then files[0] else FirstNonEmpty(files[1..])
  }

  lemma {:induction false} FirstNonEmptyAppend(files: seq<string>, last: string)
    ensures FirstNonEmpty(files + [last]) == if FirstNonEmpty(files) != "" then FirstNonEmpty(files) else last
  {
    if files == [] {
      assert files + [last] == [last] && FirstNonEmpty([last][1..]) == "";
    } else {
      assert (files + [last])[1..] == files[1..] + [last];
      FirstNonEmptyAppend(files[1..], last);
    }
  }

  lemma {:induction false} VectorFile(vector: seq<VectorMatch>, id: string)
    ensures id in FuseVector(vector) <==> FilesOf(vector, id) != []
    ensures id in FuseVector(vector) ==> FuseVector(vector)[id].fileID == FilesOf(vector, id)[0]
  {
    if vector != [] {
      VectorFile(vector[..|vector| - 1], id);
    }
  }

  /** A fused match has the file of its first vector hit, or the first file that a keyword hit has if that is none. */
  lemma {:induction false} FusedFile(vector: seq<VectorMatch>, keyword: seq<VectorMatch>, id: string)
    ensures id in Fuse(vector, keyword) <==> FilesOf(vector, id) + FilesOf(keyword, id) != []
    ensures id in Fuse(vector, keyword) ==>
      Fuse(vector, keyword)[id].fileID
      == FirstNonEmpty((if FilesOf(vector, id) == [] then [] else [FilesOf(vector, id)[0]]) + FilesOf(keyword, id))
  {
    var first := if FilesOf(vector, id) == [] then [] else [FilesOf(vector, id)[0]];
    if keyword == [] {
      VectorFile(vector, id);
      assert first + [] == first && (first != [] ==> FirstNonEmpty(first[1..]) == "");
    } else {
      var front, last := keyword[..|keyword| - 1], keyword[|keyword| - 1];
      FusedFile(vector, front, id);
      if last.id == id {
        Assoc3(first, FilesOf(front, id), [last.fileID]);
        FirstNonEmptyAppend(first + FilesOf(front, id), last.fileID);
      } else {
        assert FilesOf(front, id) + [] == FilesOf(front, id);
      }
    }
  }

  lemma Assoc3(a: seq<string>, b: seq<string>, c: seq<string>)
    ensures a + (b + c) == a + b + c
  {
  }

  const BETTER_FIRST: (VectorMatch, VectorMatch) -> bool :=
    (a: VectorMatch, b: VectorMatch) => a.similarity >= b.similarity

  /** The matches of `fused`, each once, in any order. */
  ghost predicate Lists(matches: seq<VectorMatch>, keys: set<string>, fused: Fused) {
    && Distinct(matches)
    && keys <= fused.Keys
    && (forall m :: m in matches ==> m.id in keys && fused[m.id] == m)
    && (forall id :: id in keys ==> fused[id] in matches)
  }

  predicate WellKeyed(fused: Fused) {
    forall id :: id in fused ==> fused[id].id == id
  }

  method ListMatches(fused: Fused) returns (matches: seq<VectorMatch>)
    requires WellKeyed(fused)
    ensures Lists(matches, fused.Keys, fused)
  {
    matches := [];
    var unseen := fused.Keys;
    while unseen != {}
      invariant unseen <= fused.Keys && Lists(matches, fused.Keys - unseen, fused)
    {
      var id :| id in unseen;
      matches := matches + [fused[id]];
      unseen := unseen - {id};
    }
    assert fused.Keys - unseen == fused.Keys;
  }

  /** `out` is a best-first selection of the fused matches. */
  ghost predicate IsFusion(out: seq<VectorMatch>, fused: Fused, limit: nat) {
    && IsTop(Ids(out), ScoresOf(fused), limit)
    && forall k :: 0 <= k < |out| ==> out[k].id in fused && out[k] == fused[out[k].id]
  }

  lemma ListedOnce(sorted: seq<VectorMatch>, fused: Fused, i: nat, j: nat)
    requires Lists(sorted, fused.Keys, fused) && i < |sorted| && j < |sorted| && sorted[i].id == sorted[j].id
    ensures i == j
  {
    assert sorted[i] in sorted && sorted[j] in sorted;
  }

  lemma ListCount(sorted: seq<VectorMatch>, fused: Fused)
    requires Lists(sorted, fused.Keys, fused) && WellKeyed(fused)
    ensures Distinct(Ids(sorted)) && SetOf(Ids(sorted)) == fused.Keys && |sorted| == |fused|
  {
    var ids := Ids(sorted);
    forall i, j | 0 <= i < j < |ids| ensures ids[i] != ids[j] {
      if ids[i] == ids[j] {
        ListedOnce(sorted, fused, i, j);
      }
    }
    forall id | id in fused ensures id in SetOf(ids) {
      var k :| 0 <= k < |sorted| && sorted[k] == fused[id];
      assert ids[k] == id;
    }
    forall id | id in SetOf(ids) ensures id in fused {
      var k :| 0 <= k < |ids| && ids[k] == id;
      assert sorted[k] in sorted;
    }
    SetOfDistinct(ids);
    assert |fused.Keys| == |fused|;
  }

  lemma SortedTop(sorted: seq<VectorMatch>, fused: Fused, n: nat)
    requires Lists(sorted, fused.Keys, fused) && SortedBy(sorted, BETTER_FIRST) && n <= |sorted|
    requires WellKeyed(fused)
    ensures forall k :: 0 <= k < n ==> sorted[k].id in fused && sorted[k] == fused[sorted[k].id]
    ensures SetOf(Ids(sorted[..n])) <= fused.Keys && Distinct(Ids(sorted[..n]))
  {
    ListCount(sorted, fused);
    forall k | 0 <= k < n ensures sorted[k].id in fused && sorted[k] == fused[sorted[k].id] {
      assert sorted[k] in sorted;
    }
    var ids := Ids(sorted[..n]);
    forall id | id in SetOf(ids) ensures id in fused {
      var k :| 0 <= k < |ids| && ids[k] == id;
    }
    assert forall k :: 0 <= k < n ==> ids[k] == Ids(sorted)[k];
  }

  lemma OmittedIsWorse(sorted: seq<VectorMatch>, fused: Fused, n: nat, id: string, j: nat)
    requires Lists(sorted, fused.Keys, fused) && SortedBy(sorted, BETTER_FIRST) && j < n <= |sorted|
    requires id in fused && fused[id].id == id && id !in Ids(sorted[..n])
    ensures fused[id].similarity <= sorted[j].similarity
  {
    var k :| 0 <= k < |sorted| && sorted[k] == fused[id];
    assert k >= n;
    assert BETTER_FIRST(sorted[j], sorted[k]);
  }

  lemma SortedLists(matches: seq<VectorMatch>, fused: Fused)
    requires Lists(matches, fused.Keys, fused)
    ensures Lists(Sort(matches, BETTER_FIRST), fused.Keys, fused) && SortedBy(Sort(matches, BETTER_FIRST), BETTER_FIRST)
  {
    SortKeeps(matches, BETTER_FIRST);
    SameMembers(matches, Sort(matches, BETTER_FIRST));
    DistinctPermutation(matches, Sort(matches, BETTER_FIRST));
  }

  lemma PrefixDescends(sorted: seq<VectorMatch>, fused: Fused, n: nat)
    requires Lists(sorted, fused.Keys, fused) && SortedBy(sorted, BETTER_FIRST) && WellKeyed(fused) && n <= |sorted|
    ensures SetOf(Ids(sorted[..n])) <= fused.Keys && Descending(Ids(sorted[..n]), ScoresOf(fused))
  {
    SortedTop(sorted, fused, n);
    var ids, scores := Ids(sorted[..n]), ScoresOf(fused);
    forall i, j | 0 <= i < j < n ensures scores[ids[i]] >= scores[ids[j]] {
      assert BETTER_FIRST(sorted[i], sorted[j]);
    }
  }

  lemma PrefixIsTop(sorted: seq<VectorMatch>, fused: Fused, n: nat)
    requires Lists(sorted, fused.Keys, fused) && SortedBy(sorted, BETTER_FIRST) && WellKeyed(fused) &&
      n <= |sorted| == |fused|
    ensures IsTop(Ids(sorted[..n]), ScoresOf(fused), n)
  {
    SortedTop(sorted, fused, n);
    PrefixDescends(sorted, fused, n);
    var ids, scores := Ids(sorted[..n]), ScoresOf(fused);
    assert |scores.Keys| == |scores| && |fused.Keys| == |fused|;
    forall id, j | id in scores && id !in ids && 0 <= j < n ensures scores[id] <= scores[ids[j]] {
      OmittedIsWorse(sorted, fused, n, id, j);
    }
  }

  lemma ShorterTop(ids: seq<string>, scores: Scores, limit: nat)
    requires |ids| <= |scores| && IsTop(ids, scores, |ids|)
    requires |ids| == if limit > |scores| then |scores| else limit
    ensures IsTop(ids, scores, limit)
  {
  }

  lemma ScoresCount(fused: Fused)
    ensures |ScoresOf(fused)| == |fused|
  {
    assert |ScoresOf(fused).Keys| == |ScoresOf(fused)| && |fused.Keys| == |fused|;
  }

  /** The first matches of a best-first list are a best-first selection. */
  lemma PrefixIsFusion(sorted: seq<VectorMatch>, fused: Fused, limit: nat, n: nat)
    requires Lists(sorted, fused.Keys, fused) && SortedBy(sorted, BETTER_FIRST) && WellKeyed(fused)
    requires n == if limit > |sorted| then |sorted| else limit
    ensures IsFusion(sorted[..n], fused, limit)
  {
    ListCount(sorted, fused);
    SortedTop(sorted, fused, n);
    PrefixIsTop(sorted, fused, n);
    ScoresCount(fused);
    ShorterTop(Ids(sorted[..n]), ScoresOf(fused), limit);
  }

  /** The matches in any order, sorted and cut at the limit. */
  method Best(fused: Fused, limit: nat) returns (out: seq<VectorMatch>)
    requires WellKeyed(fused)
    ensures IsFusion(out, fused, limit)
  {
    var results := ListMatches(fused);
    SortedLists(results, fused);
    results := Sort(results, BETTER_FIRST);
    var n := limit;
    if n > |results| {
      n := |results|;
    }
    PrefixIsFusion(results, fused, limit, n);
    out := results[..n];
  }

  method FuseRRF(vectorMatches: seq<VectorMatch>, keywordMatches: seq<VectorMatch>, limit: nat)
    returns (out: seq<VectorMatch>)
    ensures IsFusion(out, Fuse(vectorMatches, keywordMatches), limit)
  {
    var byID: Fused := map[];
    for rank := 0 to |vectorMatches|
      invariant byID == FuseVector(vectorMatches[..rank])
    {
      assert vectorMatches[..rank + 1][..rank] == vectorMatches[..rank];
      var m := vectorMatches[rank];
      if m.id !in byID {
        byID := byID[m.id := m.(similarity := 0.0)];
      }
      var entry := byID[m.id];
      byID := byID[m.id := entry.(similarity := entry.similarity + VECTOR_WEIGHT / (RRF_K + (rank + 1) as real))];
    }
    assert vectorMatches[..|vectorMatches|] == vectorMatches;
    for rank := 0 to |keywordMatches|
      invariant byID == Fuse(vectorMatches, keywordMatches[..rank])
    {
      assert keywordMatches[..rank + 1][..rank] == keywordMatches[..rank];
      var m := keywordMatches[rank];
      if m.id !in byID {
        byID := byID[m.id := m.(similarity := 0.0)];
      }
      var entry := byID[m.id];
      if entry.fileID == "" {
        entry := entry.(fileID := m.fileID);
      }
      byID := byID[m.id := entry.(similarity := entry.similarity + KEYWORD_WEIGHT / (RRF_K + (rank + 1) as real))];
    }
    assert keywordMatches[..|keywordMatches|] == keywordMatches;
    FuseScores(vectorMatches, keywordMatches);
    out := Best(byID, limit);
  }
}
