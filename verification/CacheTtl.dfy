/** Time to live. */
module CacheTtl {
  // What the cache saves: a second call for the same texts, in time and within the maximum, asks for nothing.

  import opened Wrappers
  import opened RagCache

  /** A call that started at `from` with `before` and ended at `to` with `after`. */
  datatype Call = Call(texts: seq<string>, fails: bool, before: Cache, from: int, after: Cache, to: int,
                       r: Result<seq<Vector>, Error>, t: Trace)

  ghost predicate Happened(c: EmbeddingCache, call: Call) {
    && c.Called(call.texts, call.fails, call.before, call.from, call.after, call.to, call.r, call.t)
    && call.from <= call.to
  }

  /** Nothing goes when there is room. */
  lemma RoomKeepsAll(before: Cache, count: int, after: Cache)
    requires EvictedOldest(before, count, after) && count <= 0
    ensures after == before
  {
    assert |after.Keys| == |after| && |before.Keys| == |before|;
    var gone := before.Keys - after.Keys;
    assert before.Keys == after.Keys + gone;
  }

  /** Eviction stops at the maximum. */
  lemma EvictsNoMore(before: Cache, maxSize: nat, after: Cache)
    requires EvictedOldest(before, |before| - maxSize, after)
    ensures |after| == if |before| <= maxSize then |before| else maxSize
  {
  }

  /** The entries that a call with these texts needs. */
  function Needed(c: EmbeddingCache, before: Cache, texts: seq<string>): set<string> {
    before.Keys + set text | text in texts :: c.hash(text)
  }

  lemma StoredKeys(c: EmbeddingCache, call: Call)
    requires Happened(c, call) && call.r.Ok? && call.t.asked != []
    ensures call.t.stored.Keys <= Needed(c, call.before, call.texts)
  {
    forall h | h in call.t.stored ensures h in Needed(c, call.before, call.texts) {
      if h !in call.before {
        assert h in c.HashesOf(call.t.asked);
        var text :| text in call.t.asked && c.hash(text) == h;
        AskedIsAText(c, call, text);
      }
    }
  }

  lemma AskedIsAText(c: EmbeddingCache, call: Call, text: string)
    requires Happened(c, call) && text in call.t.asked
    ensures text in call.texts
  {
    var j :| 0 <= j < |call.t.asked| && call.t.asked[j] == text;
    assert call.texts[Holes(call.t.found)[j]] == text;
  }

  lemma SubsetSize(a: set<string>, b: set<string>)
    requires a <= b
    ensures |a| <= |b|
  {
    assert b == a + (b - a);
  }

  /** Within the maximum a call leaves what it stored. */
  lemma LeavesStored(c: EmbeddingCache, call: Call)
    requires Happened(c, call) && call.r.Ok? && call.t.asked != [] && |Needed(c, call.before, call.texts)| <= c.maxSize
    ensures call.after == call.t.stored
  {
    StoredKeys(c, call);
    SubsetSize(call.t.stored.Keys, Needed(c, call.before, call.texts));
    assert |call.t.stored.Keys| == |call.t.stored|;
    RoomKeepsAll(call.t.stored, |call.t.stored| - c.maxSize, call.after);
  }

  /** After a call that fits, each of its texts has an entry: a new one when it was asked for, else the one it had. */
  lemma EntryAfter(c: EmbeddingCache, call: Call, text: string)
    requires Happened(c, call) && call.r.Ok? && text in call.texts
    requires |Needed(c, call.before, call.texts)| <= c.maxSize
    ensures c.hash(text) in call.after
    ensures text in call.t.asked ==> call.after[c.hash(text)].createdAt >= call.from
    ensures text !in call.t.asked && Injective(c.hash) ==>
      c.hash(text) in call.before && call.after[c.hash(text)].createdAt == call.before[c.hash(text)].createdAt
  {
    if text !in call.t.asked && c.hash(text) !in call.before {
      c.StaleIsAsked(call.texts, call.fails, call.before, call.from, call.after, call.to, call.r, call.t, text);
    }
    if call.t.asked != [] {
      LeavesStored(c, call);
      if text !in call.t.asked && Injective(c.hash) {
        InjectiveMeans(c.hash);
        assert c.hash(text) !in c.HashesOf(call.t.asked);
      }
    }
  }

  /** What `text` had or gets in a call that starts at `from` lives until a second call ends at `to`. */
  predicate InTime(c: EmbeddingCache, before: Cache, from: int, to: int, text: string) {
    c.ttl == 0 ||
    (to < from + c.ttl && (c.hash(text) in before ==>
      to < before[c.hash(text)].createdAt + c.ttl || from >= before[c.hash(text)].createdAt + c.ttl))
  }

  lemma SecondFindsIt(c: EmbeddingCache, first: Call, second: Call, text: string)
    requires Injective(c.hash) && Happened(c, first) && first.r.Ok? && Happened(c, second)
    requires second.before == first.after && text in first.texts && text in second.texts
    requires |Needed(c, first.before, first.texts)| <= c.maxSize && InTime(c, first.before, first.from, second.to, text)
    ensures text !in second.t.asked
  {
    EntryAfter(c, first, text);
    if text !in first.t.asked && c.ttl != 0 && first.from >= first.before[c.hash(text)].createdAt + c.ttl {
      c.StaleIsAsked(first.texts, first.fails, first.before, first.from, first.after, first.to, first.r, first.t, text);
    }
    c.FreshIsNotAsked(second.texts, second.fails, second.before, second.from, second.after, second.to, second.r,
                      second.t, text);
  }

  /**
   * Right after a successful call, in time and when all its texts fit beside what was there, a second call for the
   * same texts asks the wrapped embedder for nothing, so it returns the vectors even when that would fail.
   */
  lemma SecondCallIsFree(c: EmbeddingCache, first: Call, second: Call)
    requires Injective(c.hash) && Happened(c, first) && first.r.Ok? && Happened(c, second)
    requires second.before == first.after && second.texts == first.texts
    requires |Needed(c, first.before, first.texts)| <= c.maxSize
    requires forall text :: text in first.texts ==> InTime(c, first.before, first.from, second.to, text)
    ensures second.t.asked == [] && second.r == Ok(c.Vectors(second.texts))
  {
    if second.t.asked != [] {
      var text := second.t.asked[0];
      AskedIsAText(c, second, text);
      SecondFindsIt(c, first, second, text);
    }
  }
}
