/**
 * The embedding cache of `rag_cache.go`, called by one client at a time.
 */
module RagCache {
  import opened Wrappers
  import opened Sorting

  type Vector = seq<real>

  datatype Entry = Entry(embedding: Vector, createdAt: int, hitCount: nat)

  datatype Stats = Stats(hits: nat, misses: nat, size: nat, totalSaved: int)

  datatype Error = EmbedderFailed

  type Cache = map<string, Entry>

  // ---------- eviction ----------

  /** How many of `size` entries go when `count` are to go. */
  function Removed(size: nat, count: int): (n: nat)
    ensures n <= size
  {
    if count <= 0 then 0 else if count <= size then count else size
  }

  /** `after` is `before` without `count` entries (all, if there are fewer), none younger than one that stays. */
  ghost predicate EvictedOldest(before: Cache, count: int, after: Cache) {
    && after.Keys <= before.Keys
    && (forall h :: h in after ==> after[h] == before[h])
    && |after| == |before| - Removed(|before|, count)
    && forall gone, stays :: gone in before && gone !in after && stays in after ==>
        before[gone].createdAt <= before[stays].createdAt
  }

  datatype Stamp = Stamp(hash: string, createdAt: int)

  const OLDER_FIRST: (Stamp, Stamp) -> bool := (s: Stamp, t: Stamp) => s.createdAt <= t.createdAt

  /** The stamps list every entry once. */
  ghost predicate StampsOf(stamps: seq<Stamp>, keys: set<string>, cache: Cache) {
    && Distinct(stamps)
    && keys <= cache.Keys
    && (forall s :: s in stamps ==> s.hash in keys && s.createdAt == cache[s.hash].createdAt)
    && (forall h :: h in keys ==> Stamp(h, cache[h].createdAt) in stamps)
  }

  function Hashes(stamps: seq<Stamp>): set<string> {
    set s | s in stamps :: s.hash
  }

  lemma StampsSorted(stamps: seq<Stamp>, cache: Cache)
    requires StampsOf(stamps, cache.Keys, cache)
    ensures StampsOf(Sort(stamps, OLDER_FIRST), cache.Keys, cache) && SortedBy(Sort(stamps, OLDER_FIRST), OLDER_FIRST)
    ensures |Sort(stamps, OLDER_FIRST)| == |stamps|
  {
    var sorted := Sort(stamps, OLDER_FIRST);
    SortKeeps(stamps, OLDER_FIRST);
    SameMembers(stamps, sorted);
    DistinctPermutation(stamps, sorted);
  }

  /** The cache without the entries of the first `n` stamps. */
  function Without(cache: Cache, stamps: seq<Stamp>, n: nat): Cache
    requires n <= |stamps|
  {
    cache - Hashes(stamps[..n])
  }

  lemma GoneIsOlder(sorted: seq<Stamp>, cache: Cache, n: nat, gone: string, stays: string)
    requires StampsOf(sorted, cache.Keys, cache) && SortedBy(sorted, OLDER_FIRST) && n <= |sorted|
    requires gone in cache && gone !in Without(cache, sorted, n) && stays in Without(cache, sorted, n)
    ensures cache[gone].createdAt <= cache[stays].createdAt
  {
    var s :| s in sorted[..n] && s.hash == gone;
    var i :| 0 <= i < n && sorted[i] == s;
    var t := Stamp(stays, cache[stays].createdAt);
    var j :| 0 <= j < |sorted| && sorted[j] == t;
    assert j >= n;
    assert OLDER_FIRST(sorted[i], sorted[j]);
    assert sorted[i] in sorted;
  }

  /** Taking the first stamps of an age-sorted list away removes oldest entries. */
  lemma PrefixIsOldest(sorted: seq<Stamp>, cache: Cache, count: int, n: nat)
    requires StampsOf(sorted, cache.Keys, cache) && SortedBy(sorted, OLDER_FIRST) && n <= |sorted|
    requires |Without(cache, sorted, n)| == |cache| - n && n == Removed(|cache|, count)
    ensures EvictedOldest(cache, count, Without(cache, sorted, n))
  {
    forall gone, stays | gone in cache && gone !in Without(cache, sorted, n) && stays in Without(cache, sorted, n)
      ensures cache[gone].createdAt <= cache[stays].createdAt
    {
      GoneIsOlder(sorted, cache, n, gone, stays);
    }
  }

  lemma HashesGrow(stamps: seq<Stamp>, i: nat)
    requires i < |stamps|
    ensures Hashes(stamps[..i + 1]) == Hashes(stamps[..i]) + {stamps[i].hash}
  {
    assert stamps[..i + 1] == stamps[..i] + [stamps[i]];
  }

  lemma HashIsNew(stamps: seq<Stamp>, cache: Cache, i: nat)
    requires StampsOf(stamps, cache.Keys, cache) && i < |stamps|
    ensures stamps[i].hash in cache && stamps[i].hash !in Hashes(stamps[..i])
  {
    assert stamps[i] in stamps;
    forall s | s in stamps[..i] ensures s.hash != stamps[i].hash {
      var j :| 0 <= j < i && stamps[j] == s;
      assert stamps[j] in stamps;
    }
  }

  lemma OneMoreHash(stamps: seq<Stamp>, cache: Cache, i: nat)
    requires StampsOf(stamps, cache.Keys, cache) && i < |stamps|
    ensures stamps[i].hash in Without(cache, stamps, i)
    ensures Without(cache, stamps, i + 1) == Without(cache, stamps, i) - {stamps[i].hash}
    ensures |Without(cache, stamps, i + 1)| == |Without(cache, stamps, i)| - 1
  {
    HashesGrow(stamps, i);
    HashIsNew(stamps, cache, i);
    DeleteOne(cache, Hashes(stamps[..i]), stamps[i].hash);
  }

  /** Deleting one more entry. */
  lemma DeleteOne(cache: Cache, gone: set<string>, h: string)
    requires h in cache && h !in gone
    ensures |cache - (gone + {h})| == |cache - gone| - 1 && cache - (gone + {h}) == (cache - gone) - {h}
  {
    assert (cache - (gone + {h})).Keys == (cache - gone).Keys - {h};
    assert |(cache - (gone + {h})).Keys| == |cache - (gone + {h})| && |(cache - gone).Keys| == |cache - gone|;
  }

  /** Removes the `count` entries with the oldest creation times. */
  method EvictOldest(cache: Cache, count: int) returns (left: Cache)
    ensures EvictedOldest(cache, count, left)
  {
    left := cache;
    if count <= 0 || |cache| == 0 {
      return;
    }
    var entries := Stamps(cache);
    StampsSorted(entries, cache);
    StampCount(Sort(entries, OLDER_FIRST), cache);
    left := DeleteFirst(cache, Sort(entries, OLDER_FIRST), count);
  }

  /** The first `i` entries are deleted. */
  ghost predicate Deleting(cache: Cache, entries: seq<Stamp>, i: nat, left: Cache) {
    i <= |entries| && left == Without(cache, entries, i) && |left| == |cache| - i
  }

  lemma DeleteStep(cache: Cache, entries: seq<Stamp>, i: nat, left: Cache)
    requires StampsOf(entries, cache.Keys, cache) && Deleting(cache, entries, i, left) && i < |entries|
    ensures Deleting(cache, entries, i + 1, left - {entries[i].hash})
  {
    OneMoreHash(entries, cache, i);
  }

  lemma DeleteDone(cache: Cache, entries: seq<Stamp>, count: int, i: nat, left: Cache)
    requires StampsOf(entries, cache.Keys, cache) && SortedBy(entries, OLDER_FIRST) && |entries| == |cache|
    requires Deleting(cache, entries, i, left) && i == Removed(|cache|, count)
    ensures EvictedOldest(cache, count, left)
  {
    PrefixIsOldest(entries, cache, count, i);
  }

  /** Deletes the entries of the first `count` stamps. */
  method DeleteFirst(cache: Cache, entries: seq<Stamp>, count: int) returns (left: Cache)
    requires StampsOf(entries, cache.Keys, cache) && SortedBy(entries, OLDER_FIRST) && |entries| == |cache| && count > 0
    ensures EvictedOldest(cache, count, left)
  {
    left := cache;
    NoneGone(cache, entries);
    var n := if count < |entries| then count else |entries|;
    for i := 0 to n
      invariant Deleting(cache, entries, i, left)
    {
      DeleteStep(cache, entries, i, left);
      left := left - {entries[i].hash};
    }
    DeleteDone(cache, entries, count, n, left);
  }

  /** Lists the entries, in any order. */
  method Stamps(cache: Cache) returns (entries: seq<Stamp>)
    ensures StampsOf(entries, cache.Keys, cache)
  {
    entries := [];
    var unseen := cache.Keys;
    while unseen != {}
      invariant unseen <= cache.Keys && StampsOf(entries, cache.Keys - unseen, cache)
    {
      var hash :| hash in unseen;
      entries := entries + [Stamp(hash, cache[hash].createdAt)];
      unseen := unseen - {hash};
    }
    assert cache.Keys - unseen == cache.Keys;
  }

  lemma {:induction false} WithoutCount(stamps: seq<Stamp>, cache: Cache, n: nat)
    requires StampsOf(stamps, cache.Keys, cache) && n <= |stamps|
    ensures |Without(cache, stamps, n)| == |cache| - n
  {
    if n == 0 {
      NoneGone(cache, stamps);
    } else {
      WithoutCount(stamps, cache, n - 1);
      OneMoreHash(stamps, cache, n - 1);
    }
  }

  lemma NoneGone(cache: Cache, stamps: seq<Stamp>)
    ensures Without(cache, stamps, 0) == cache
  {
  }

  lemma StampCount(stamps: seq<Stamp>, cache: Cache)
    requires StampsOf(stamps, cache.Keys, cache)
    ensures |stamps| == |cache|
  {
    WithoutCount(stamps, cache, |stamps|);
    forall h | h in cache ensures h in Hashes(stamps[..|stamps|]) {
      assert Stamp(h, cache[h].createdAt) in stamps[..|stamps|];
    }
    assert Without(cache, stamps, |stamps|) == map[];
  }

  lemma {:induction false} StampsExist(keys: set<string>, cache: Cache) returns (stamps: seq<Stamp>)
    requires keys <= cache.Keys
    ensures StampsOf(stamps, keys, cache)
  {
    if keys == {} {
      stamps := [];
    } else {
      var h :| h in keys;
      var rest := StampsExist(keys - {h}, cache);
      stamps := rest + [Stamp(h, cache[h].createdAt)];
    }
  }

  /** It is always possible to evict. */
  lemma EvictionExists(cache: Cache, count: int) returns (after: Cache)
    ensures EvictedOldest(cache, count, after)
  {
    var stamps := StampsExist(cache.Keys, cache);
    var sorted := Sort(stamps, OLDER_FIRST);
    StampsSorted(stamps, cache);
    StampCount(sorted, cache);
    WithoutCount(sorted, cache, Removed(|cache|, count));
    PrefixIsOldest(sorted, cache, count, Removed(|cache|, count));
    after := Without(cache, sorted, Removed(|cache|, count));
  }

  // ---------- the cache ----------

  predicate Alive(e: Entry, ttl: int, now: int) {
    ttl == 0 || now - e.createdAt < ttl
  }

  /** The same entries, except that their hits were counted. */
  predicate SameButHits(a: Cache, b: Cache) {
    a.Keys == b.Keys && forall h :: h in a ==> a[h].embedding == b[h].embedding && a[h].createdAt == b[h].createdAt
  }

  /** The positions, in order, that are still without a vector. */
  function Holes(results: seq<Option<Vector>>): (holes: seq<nat>)
    ensures |holes| <= |results| && forall k :: 0 <= k < |holes| ==> holes[k] < |results|
  {
    if results == [] then []
    else
      var front := results[..|results| - 1];
      if results[|results| - 1].None? then Holes(front) + [|front|] else Holes(front)
  }

  lemma HolesAppend(results: seq<Option<Vector>>, last: Option<Vector>)
    ensures Holes(results + [last]) == if last.None? then Holes(results) + [|results|] else Holes(results)
  {
    assert (results + [last])[..|results|] == results;
  }

  function Pick(texts: seq<string>, missed: seq<nat>): (r: seq<string>)
    requires forall k :: 0 <= k < |missed| ==> missed[k] < |texts|
    ensures |r| == |missed|
  {
    seq(|missed|, k requires 0 <= k < |missed| => texts[missed[k]])
  }

  /** Filling the first hole leaves the others. */
  lemma {:induction false} FillFirstHole(results: seq<Option<Vector>>, v: Vector)
    requires Holes(results) != []
    ensures
      var h := Holes(results)[0];
      results[h].None? && Holes(results[h := Some(v)]) == Holes(results)[1..]
    decreases |results|
  {
    var n := |results| - 1;
    var front, h := results[..n], Holes(results)[0];
    if h < n {
      FillFirstHole(front, v);
      assert results[h := Some(v)][..n] == front[h := Some(v)];
    } else {
      assert Holes(front) == [] by { HolesBound(front); }
      assert results[n := Some(v)][..n] == front;
    }
  }

  lemma {:induction false} HolesBound(results: seq<Option<Vector>>)
    ensures forall k :: 0 <= k < |Holes(results)| ==> Holes(results)[k] < |results|
  {
  }

  lemma {:induction false} NoHoles(results: seq<Option<Vector>>)
    requires Holes(results) == []
    ensures forall k :: 0 <= k < |results| ==> results[k].Some?
    decreases |results|
  {
    if results != [] {
      NoHoles(results[..|results| - 1]);
    }
  }

  /** What a call did: its lookups, what it asked the wrapped embedder, and the cache in between. */
  datatype Trace = Trace(found: seq<Option<Vector>>, asked: seq<string>, looked: Cache, stored: Cache)

  ghost function Preimage(hash: string -> string, h: string): string {
    if exists t :: hash(t) == h then var t :| hash(t) == h; t else ""
  }

  /** No two texts have the same hash; stated through the text that a hash stands for. */
  ghost predicate Injective(hash: string -> string) {
    forall t :: Preimage(hash, hash(t)) == t
  }

  lemma InjectiveMeans(hash: string -> string)
    ensures Injective(hash) <==> forall s, t :: hash(s) == hash(t) ==> s == t
  {
    if Injective(hash) {
      forall s, t | hash(s) == hash(t) ensures s == t {
        assert Preimage(hash, hash(s)) == s && Preimage(hash, hash(t)) == t;
      }
    }
  }

  class EmbeddingCache {
    /** The wrapped embedder: one vector per text, in order, a function of the text. */
    const inner: string -> Vector
    const hash: string -> string
    const maxSize: int
    const ttl: int
    const avgEmbedMs: int
    var cache: Cache
    var stats: Stats
    var clock: int

    function Capacity(): nat {
      if maxSize < 0 then 0 else maxSize
    }

    /** What the cache holds under the hash of a text is the vector of that text. */
    ghost predicate Sound(c: Cache) {
      forall t :: hash(t) in c ==> c[hash(t)].embedding == inner(t)
    }

    ghost predicate Valid()
      reads this
    {
      && Injective(hash)
      && Sound(cache)
      && Past(cache, clock)
      && |cache| <= Capacity()
    }

    constructor (inner: string -> Vector, hash: string -> string, maxSize: int, ttl: int, avgEmbedMs: int, now: int)
      requires Injective(hash)
      ensures Valid() && cache == map[] && stats == Stats(0, 0, 0, 0)
      ensures this.inner == inner && this.hash == hash && this.maxSize == maxSize && this.ttl == ttl &&
        this.avgEmbedMs == avgEmbedMs
    {
      this.inner, this.hash, this.maxSize, this.ttl, this.avgEmbedMs := inner, hash, maxSize, ttl, avgEmbedMs;
      cache, stats, clock := map[], Stats(0, 0, 0, 0), now;
    }

    /** The wall clock never goes back. */
    method Now() returns (now: int)
      modifies this`clock
      ensures clock == now >= old(clock)
    {
      now :| now >= clock;
      clock := now;
    }

    method RecordHit()
      modifies this`stats
      ensures stats == old(stats).(hits := old(stats).hits + 1, totalSaved := old(stats).totalSaved + avgEmbedMs)
    {
      stats := stats.(hits := stats.hits + 1, totalSaved := stats.totalSaved + avgEmbedMs);
    }

    method RecordMiss()
      modifies this`stats
      ensures stats == old(stats).(misses := old(stats).misses + 1)
    {
      stats := stats.(misses := stats.misses + 1);
    }

    /** The vectors the wrapped embedder owes for these texts. */
    function Vectors(texts: seq<string>): (r: seq<Vector>)
      ensures |r| == |texts| && forall k :: 0 <= k < |texts| ==> r[k] == inner(texts[k])
    {
      seq(|texts|, k requires 0 <= k < |texts| => inner(texts[k]))
    }

    /** The entry answers for `text` at time `now`. */
    predicate Answers(c: Cache, text: string, now: int) {
      hash(text) in c && Alive(c[hash(text)], ttl, now)
    }

    /** Counts `hits` hits and `misses` misses. */
    predicate Counted(before: Stats, after: Stats, hits: nat, misses: nat) {
      && after.hits == before.hits + hits && after.misses == before.misses + misses && after.size == before.size
      && after.totalSaved == before.totalSaved + hits * avgEmbedMs
    }

    lemma CountMore(before: Stats, mid: Stats, after: Stats, hits: nat, misses: nat, hit: bool)
      requires Counted(before, mid, hits, misses)
      requires if hit then Counted(mid, after, 1, 0) else Counted(mid, after, 0, 1)
      ensures if hit then Counted(before, after, hits + 1, misses) else Counted(before, after, hits, misses + 1)
    {
      assert (hits + 1) * avgEmbedMs == hits * avgEmbedMs + avgEmbedMs;
    }

    /** One step of the lookup loop: the entry may expire while the clock is read. */
    method LookUpOne(text: string) returns (found: Option<Vector>)
      requires Valid()
      modifies this
      ensures Valid() && clock >= old(clock) && SameButHits(old(cache), cache)
      ensures Found(old(cache), text, old(clock), clock, found)
      ensures if found.Some? then Counted(old(stats), stats, 1, 0) else Counted(old(stats), stats, 0, 1)
    {
      var h := hash(text);
      if h in cache {
        var entry := cache[h];
        var alive := ttl == 0;
        if !alive {
          var now := Now();
          alive := now - entry.createdAt < ttl;
        }
        if alive {
          HitKeepsCache(cache, h);
          cache := cache[h := entry.(hitCount := entry.hitCount + 1)];
          RecordHit();
          return Some(entry.embedding);
        }
      }
      RecordMiss();
      return None;
    }

    lemma HitKeepsCache(c: Cache, h: string)
      requires h in c
      ensures
        var c' := c[h := c[h].(hitCount := c[h].hitCount + 1)];
        c'.Keys == c.Keys && |c'| == |c| && SameButHits(c, c')
    {
      var c' := c[h := c[h].(hitCount := c[h].hitCount + 1)];
      assert c'.Keys == c.Keys;
      assert |c'.Keys| == |c'| && |c.Keys| == |c|;
    }

    /** `results` holds the vectors of the texts the cache answered, and a hole for each of the others. */
    ghost predicate LookedUp(texts: seq<string>, results: seq<Option<Vector>>, c: Cache, from: int, to: int) {
      && |results| <= |texts|
      && forall k :: 0 <= k < |results| ==>
        if results[k].Some? then results[k].value == inner(texts[k]) && Answers(c, texts[k], from)
        else !Answers(c, texts[k], to)
    }

    lemma LookedUpMore(texts: seq<string>, results: seq<Option<Vector>>, c: Cache, from: int, mid: int, to: int,
                       found: Option<Vector>)
      requires LookedUp(texts, results, c, from, mid) && from <= mid <= to && |results| < |texts|
      requires if found.Some? then found.value == inner(texts[|results|]) && Answers(c, texts[|results|], mid)
               else !Answers(c, texts[|results|], to)
      ensures LookedUp(texts, results + [found], c, from, to)
    {
      var more := results + [found];
      forall k | 0 <= k < |more|
        ensures if more[k].Some? then more[k].value == inner(texts[k]) && Answers(c, texts[k], from)
        else !Answers(c, texts[k], to)
      {
        if k < |results| {
          assert more[k] == results[k];
        }
      }
    }

    /** The variables of the lookup loop after some texts. */
    ghost predicate Looking(texts: seq<string>, results: seq<Option<Vector>>, toEmbed: seq<string>,
                            toEmbedIdx: seq<nat>,
                            c: Cache, from: int, to: int, before: Stats, after: Stats) {
      && LookedUp(texts, results, c, from, to)
      && toEmbedIdx == Holes(results) && toEmbed == Pick(texts, toEmbedIdx)
      && Counted(before, after, |results| - |toEmbed|, |toEmbed|)
    }

    /** What one lookup found in cache `c`. */
    ghost predicate Found(c: Cache, text: string, from: int, to: int, found: Option<Vector>) {
      if found.Some? then found.value == inner(text) && Answers(c, text, from) else !Answers(c, text, to)
    }

    lemma LookStep(texts: seq<string>, results: seq<Option<Vector>>, toEmbed: seq<string>, toEmbedIdx: seq<nat>,
                   c: Cache, now: Cache, from: int, mid: int, to: int, before: Stats, between: Stats, after: Stats,
                       found: Option<Vector>)
      requires Looking(texts, results, toEmbed, toEmbedIdx, c, from, mid, before, between) && |results| < |texts|
      requires SameButHits(c, now) && from <= mid <= to && Found(now, texts[|results|], mid, to, found)
      requires if found.Some? then Counted(between, after, 1, 0) else Counted(between, after, 0, 1)
      ensures Looking(texts, results + [found],
        if found.Some? then toEmbed else toEmbed + [texts[|results|]],
        if found.Some? then toEmbedIdx else toEmbedIdx + [|results|], c, from, to, before, after)
    {
      CountMore(before, between, after, |results| - |toEmbed|, |toEmbed|, found.Some?);
      LookedUpMore(texts, results, c, from, mid, to, found);
      HolesAppend(results, found);
      PickAppend(texts, toEmbedIdx, |results|);
    }

    lemma PickAppend(texts: seq<string>, idx: seq<nat>, i: nat)
      requires (forall k :: 0 <= k < |idx| ==> idx[k] < |texts|) && i < |texts|
      ensures Pick(texts, idx + [i]) == Pick(texts, idx) + [texts[i]]
    {
    }

    /** The first loop of a call: answers what it can and notes the rest. */
    method LookUp(texts: seq<string>) returns (results: seq<Option<Vector>>, toEmbed: seq<string>, toEmbedIdx: seq<nat>)
      requires Valid()
      modifies this
      ensures Valid() && clock >= old(clock) && SameButHits(old(cache), cache)
      ensures |results| == |texts|
      ensures Looking(texts, results, toEmbed, toEmbedIdx, old(cache), old(clock), clock, old(stats), stats)
      ensures forall k :: 0 <= k < |texts| && hash(texts[k]) !in old(cache) ==> results[k].None?
      ensures forall k :: 0 <= k < |texts| && hash(texts[k]) in old(cache) ==>
        var created := old(cache)[hash(texts[k])].createdAt;
        && ((ttl == 0 || clock < created + ttl) ==> results[k].Some?)
        && ((ttl != 0 && old(clock) >= created + ttl) ==> results[k].None?)
    {
      results, toEmbed, toEmbedIdx := [], [], [];
      for i := 0 to |texts|
        invariant Valid() && clock >= old(clock) && SameButHits(old(cache), cache)
        invariant |results| == i
        invariant Looking(texts, results, toEmbed, toEmbedIdx, old(cache), old(clock), clock, old(stats), stats)
      {
        ghost var before, time, held := stats, clock, cache;
        var found := LookUpOne(texts[i]);
        LookStep(texts, results, toEmbed, toEmbedIdx, old(cache), held, old(clock), time, clock, old(stats), before,
                 stats, found);
        if found.None? {
          toEmbed := toEmbed + [texts[i]];
          toEmbedIdx := toEmbedIdx + [i];
        }
        results := results + [found];
      }
    }

    ghost predicate Filled(texts: seq<string>, results: seq<Option<Vector>>) {
      |results| == |texts| && forall k :: 0 <= k < |results| && results[k].Some? ==> results[k].value == inner(texts[k])
    }

    function HashesOf(texts: seq<string>): set<string> {
      set t | t in texts :: hash(t)
    }

    /** `after` is `before` with an entry made at `from` or later for every one of these texts. */
    ghost predicate Stored(before: Cache, texts: seq<string>, from: int, after: Cache) {
      && after.Keys == before.Keys + HashesOf(texts)
      && (forall h :: h in before && h !in HashesOf(texts) ==> after[h] == before[h])
      && (forall t :: t in texts ==>
          hash(t) in after && after[hash(t)].embedding == inner(t) && after[hash(t)].createdAt >= from)
    }

    lemma HashesAppend(texts: seq<string>, text: string)
      ensures HashesOf(texts + [text]) == HashesOf(texts) + {hash(text)}
    {
    }

    lemma StoreMore(before: Cache, texts: seq<string>, from: int, after: Cache, text: string, now: int)
      requires Injective(hash)
      requires Stored(before, texts, from, after) && now >= from
      ensures Stored(before, texts + [text], from, after[hash(text) := Entry(inner(text), now, 0)])
    {
      HashesAppend(texts, text);
    }

    lemma EvictedIsSound(before: Cache, count: int, after: Cache)
      requires Sound(before) && EvictedOldest(before, count, after)
      ensures Sound(after)
    {
    }

    ghost predicate Past(c: Cache, now: int) {
      forall h :: h in c ==> c[h].createdAt <= now
    }

    /** The variables of the storing loop while the vectors for `left` are still to be taken over. */
    ghost predicate Storing(texts: seq<string>, filled: seq<Option<Vector>>, left: seq<nat>, before: Cache,
                            from: int, done: seq<string>,
                            after: Cache, now: int) {
      && Filled(texts, filled) && Holes(filled) == left
      && Sound(after) && Past(after, now) && Stored(before, done, from, after)
    }

    lemma StoreStep(texts: seq<string>, filled: seq<Option<Vector>>, left: seq<nat>, before: Cache, from: int,
                    done: seq<string>,
                    after: Cache, mid: int, now: int)
      requires Injective(hash) && Storing(texts, filled, left, before, from, done, after, mid) && left != [] &&
        from <= mid <= now
      ensures
        var text := texts[left[0]];
        Storing(texts, filled[left[0] := Some(inner(text))], left[1..], before, from, done + [text],
                after[hash(text) := Entry(inner(text), now, 0)], now)
    {
      var text := texts[left[0]];
      FillFirstHole(filled, inner(text));
      StoreMore(before, done, from, after, text, now);
      StoreSound(after, text, now);
    }

    lemma StoreSound(c: Cache, text: string, now: int)
      requires Injective(hash) && Sound(c)
      ensures Sound(c[hash(text) := Entry(inner(text), now, 0)])
    {
      InjectiveMeans(hash);
    }

    lemma PickDrop(texts: seq<string>, idx: seq<nat>, j: nat)
      requires (forall k :: 0 <= k < |idx| ==> idx[k] < |texts|) && j < |idx|
      ensures Pick(texts, idx)[..j + 1] == Pick(texts, idx)[..j] + [texts[idx[j]]]
    {
    }

    /** Takes over the new vectors, into the results and into the cache. */
    method StoreAll(texts: seq<string>, results: seq<Option<Vector>>, toEmbed: seq<string>, toEmbedIdx: seq<nat>,
                    embeddings: seq<Vector>)
      returns (filled: seq<Option<Vector>>)
      requires Valid() && Filled(texts, results) && toEmbedIdx == Holes(results) && toEmbed == Pick(texts, toEmbedIdx)
      requires embeddings == Vectors(toEmbed)
      modifies this`cache, this`clock
      ensures clock >= old(clock) && Storing(texts, filled, [], old(cache), old(clock), toEmbed, cache, clock)
    {
      filled := results;
      for j := 0 to |embeddings|
        invariant clock >= old(clock)
        invariant Storing(texts, filled, toEmbedIdx[j..], old(cache), old(clock), toEmbed[..j], cache, clock)
      {
        var idx, emb := toEmbedIdx[j], embeddings[j];
        ghost var time := clock;
        var now := Now();
        assert toEmbedIdx[j..][0] == idx && toEmbedIdx[j..][1..] == toEmbedIdx[j + 1..];
        StoreStep(texts, filled, toEmbedIdx[j..], old(cache), old(clock), toEmbed[..j], cache, time, now);
        PickDrop(texts, toEmbedIdx, j);
        filled := filled[idx := Some(emb)];
        cache := cache[hash(texts[idx]) := Entry(emb, now, 0)];
      }
      assert toEmbed[..|embeddings|] == toEmbed;
    }

    /** The second half of a call: takes over the new vectors and evicts what is too much. */
    method Store(texts: seq<string>, results: seq<Option<Vector>>, toEmbed: seq<string>, toEmbedIdx: seq<nat>,
                 embeddings: seq<Vector>)
      returns (filled: seq<Option<Vector>>, ghost stored: Cache)
      requires Valid() && Filled(texts, results) && toEmbedIdx == Holes(results) && toEmbed == Pick(texts, toEmbedIdx)
      requires embeddings == Vectors(toEmbed)
      modifies this`cache, this`clock
      ensures Valid() && clock >= old(clock)
      ensures Filled(texts, filled) && Holes(filled) == []
      ensures Stored(old(cache), toEmbed, old(clock), stored)
      ensures EvictedOldest(stored, |stored| - maxSize, cache)
    {
      filled := StoreAll(texts, results, toEmbed, toEmbedIdx, embeddings);
      stored := cache;
      if |cache| > maxSize {
        var left := EvictOldest(cache, |cache| - maxSize);
        EvictedIsSound(cache, |cache| - maxSize, left);
        cache := left;
      }
    }

    /** The effect of a call on the cache and on its caller. */
    ghost predicate Called(texts: seq<string>, fails: bool, before: Cache, from: int, after: Cache, to: int,
                           r: Result<seq<Vector>, Error>, t: Trace) {
      && (r.Ok? ==> r.value == Vectors(texts))
      && (r.Err? <==> fails && t.asked != [])
      && |t.found| == |texts| && LookedUp(texts, t.found, before, from, to)
      && t.asked == Pick(texts, Holes(t.found))
      && SameButHits(before, t.looked)
      && if t.asked == [] || r.Err? then after == t.looked
         else Stored(t.looked, t.asked, from, t.stored) && EvictedOldest(t.stored, |t.stored| - maxSize, after)
    }

    /** Where the cache answered, nothing is left to ask; where it did not, the text is asked for. */
    lemma {:induction false} AskedAt(texts: seq<string>, found: seq<Option<Vector>>, k: nat)
      requires |found| <= |texts| && k < |found| && found[k].None?
      ensures texts[k] in Pick(texts, Holes(found))
      decreases |found|
    {
      var front := found[..|found| - 1];
      assert found == front + [found[|found| - 1]];
      HolesAppend(front, found[|found| - 1]);
      if k < |front| {
        AskedAt(texts, front, k);
        PickMore(texts, Holes(front), |front|, texts[k]);
      } else {
        assert Pick(texts, Holes(front) + [|front|])[|Holes(front)|] == texts[k];
      }
    }

    lemma PickMore(texts: seq<string>, idx: seq<nat>, i: nat, text: string)
      requires (forall k :: 0 <= k < |idx| ==> idx[k] < |texts|) && i < |texts| && text in Pick(texts, idx)
      ensures text in Pick(texts, idx + [i])
    {
      PickAppend(texts, idx, i);
    }

    lemma {:induction false} HolesAreEmpty(found: seq<Option<Vector>>, j: nat)
      requires j < |Holes(found)|
      ensures found[Holes(found)[j]].None?
      decreases |found|
    {
      var front := found[..|found| - 1];
      if j < |Holes(front)| {
        HolesAreEmpty(front, j);
      }
    }

    /** The holes in ascending order are all positions without a vector. */
    lemma {:induction false} HolesAscend(found: seq<Option<Vector>>)
      ensures forall i, j :: 0 <= i < j < |Holes(found)| ==> Holes(found)[i] < Holes(found)[j]
      ensures forall k :: 0 <= k < |found| ==> (found[k].None? <==> k in Holes(found))
      decreases |found|
    {
      if found != [] {
        var front := found[..|found| - 1];
        HolesAscend(front);
        assert forall k :: 0 <= k < |front| ==> found[k] == front[k];
        assert forall j :: 0 <= j < |Holes(front)| ==> Holes(front)[j] < |front|;
      }
    }

    /** The texts asked for are those without an answer, each as often as it occurs, in their order. */
    lemma AsksInOrder(texts: seq<string>, fails: bool, before: Cache, from: int, after: Cache, to: int,
                      r: Result<seq<Vector>, Error>, t: Trace)
      returns (at: seq<nat>)
      requires Called(texts, fails, before, from, after, to, r, t)
      ensures |at| == |t.asked| && forall j :: 0 <= j < |at| ==> at[j] < |texts| && t.asked[j] == texts[at[j]]
      ensures forall i, j :: 0 <= i < j < |at| ==> at[i] < at[j]
      ensures forall k :: 0 <= k < |texts| ==> (k in at <==> t.found[k].None?)
    {
      at := Holes(t.found);
      HolesAscend(t.found);
    }

    /** A text whose entry is within its time to live until the call ends is not asked for. */
    lemma FreshIsNotAsked(texts: seq<string>, fails: bool, before: Cache, from: int, after: Cache, to: int,
                          r: Result<seq<Vector>, Error>, t: Trace, text: string)
      requires Called(texts, fails, before, from, after, to, r, t)
      requires hash(text) in before && (ttl == 0 || to < before[hash(text)].createdAt + ttl)
      ensures text !in t.asked
    {
      forall j | 0 <= j < |t.asked| ensures t.asked[j] != text {
        var k := Holes(t.found)[j];
        HolesAreEmpty(t.found, j);
        assert t.asked[j] == texts[k] && !Answers(before, texts[k], to);
      }
    }

    /** A text without an entry, or whose entry has expired when the call starts, is asked for. */
    lemma StaleIsAsked(texts: seq<string>, fails: bool, before: Cache, from: int, after: Cache, to: int,
                       r: Result<seq<Vector>, Error>, t: Trace, text: string)
      requires Called(texts, fails, before, from, after, to, r, t) && text in texts
      requires hash(text) !in before || (ttl != 0 && from >= before[hash(text)].createdAt + ttl)
      ensures text in t.asked
    {
      var k :| 0 <= k < |texts| && texts[k] == text;
      AskedAt(texts, t.found, k);
    }

    lemma AllFound(texts: seq<string>, results: seq<Option<Vector>>)
      requires Filled(texts, results) && Holes(results) == []
      ensures forall k :: 0 <= k < |results| ==> results[k].Some?
      ensures Values(results) == Vectors(texts)
    {
      NoHoles(results);
    }

    /** The second half of a call with misses, from the answer of the wrapped embedder on. */
    method Finish(texts: seq<string>, results: seq<Option<Vector>>, toEmbed: seq<string>, toEmbedIdx: seq<nat>,
                  ghost before: Cache, ghost from: int)
      returns (r: Result<seq<Vector>, Error>, ghost t: Trace)
      requires Valid() && Filled(texts, results) && toEmbedIdx == Holes(results) && toEmbed == Pick(texts, toEmbedIdx)
      requires toEmbed != [] && from <= clock && LookedUp(texts, results, before, from, clock) &&
        SameButHits(before, cache)
      modifies this`cache, this`clock
      ensures Valid() && clock >= old(clock)
      ensures Called(texts, false, before, from, cache, clock, r, t) && t.asked == toEmbed
    {
      ghost var time, looked := clock, cache;
      var embeddings := Vectors(toEmbed);
      var filled, stored := Store(texts, results, toEmbed, toEmbedIdx, embeddings);
      LaterLookUp(texts, results, before, from, time, clock);
      LaterStore(looked, toEmbed, from, time, stored);
      AllFound(texts, filled);
      return Ok(Values(filled)), Trace(results, toEmbed, looked, stored);
    }

    /** Cache hits skip the wrapped embedder; misses go to it in one call, in order. */
    method Embed(texts: seq<string>, innerFails: bool) returns (r: Result<seq<Vector>, Error>, ghost t: Trace)
      requires Valid()
      modifies this
      ensures Valid() && clock >= old(clock)
      ensures Called(texts, innerFails, old(cache), old(clock), cache, clock, r, t)
      ensures |t.asked| <= |texts|
      ensures stats.hits == old(stats.hits) + |texts| - |t.asked| && stats.misses == old(stats.misses) + |t.asked|
      ensures stats.totalSaved == old(stats.totalSaved) + (|texts| - |t.asked|) * avgEmbedMs
      ensures forall text :: text in texts && hash(text) !in old(cache) ==> text in t.asked
      ensures forall text :: text in texts && hash(text) in old(cache) ==>
        var created := old(cache)[hash(text)].createdAt;
        && ((ttl == 0 || clock < created + ttl) ==> text !in t.asked)
        && ((ttl != 0 && old(clock) >= created + ttl) ==> text in t.asked)
    {
      r, t := Answer(texts, innerFails);
      AsksWhatItMust(texts, innerFails, old(cache), old(clock), cache, clock, r, t);
    }

    lemma AsksWhatItMust(texts: seq<string>, fails: bool, before: Cache, from: int, after: Cache, to: int,
                         r: Result<seq<Vector>, Error>, t: Trace)
      requires Called(texts, fails, before, from, after, to, r, t)
      ensures forall text :: text in texts && hash(text) !in before ==> text in t.asked
      ensures forall text :: text in texts && hash(text) in before ==>
        var created := before[hash(text)].createdAt;
        && ((ttl == 0 || to < created + ttl) ==> text !in t.asked)
        && ((ttl != 0 && from >= created + ttl) ==> text in t.asked)
    {
      forall text | text in texts && hash(text) !in before ensures text in t.asked {
        StaleIsAsked(texts, fails, before, from, after, to, r, t, text);
      }
      forall text | text in texts && hash(text) in before
        ensures (ttl == 0 || to < before[hash(text)].createdAt + ttl) ==> text !in t.asked
        ensures (ttl != 0 && from >= before[hash(text)].createdAt + ttl) ==> text in t.asked
      {
        if ttl == 0 || to < before[hash(text)].createdAt + ttl {
          FreshIsNotAsked(texts, fails, before, from, after, to, r, t, text);
        } else if from >= before[hash(text)].createdAt + ttl {
          StaleIsAsked(texts, fails, before, from, after, to, r, t, text);
        }
      }
    }

    /** The steps of a call. */
    method Answer(texts: seq<string>, innerFails: bool) returns (r: Result<seq<Vector>, Error>, ghost t: Trace)
      requires Valid()
      modifies this
      ensures Valid() && clock >= old(clock)
      ensures Called(texts, innerFails, old(cache), old(clock), cache, clock, r, t)
      ensures Counted(old(stats), stats, |texts| - |t.asked|, |t.asked|)
    {
      if |texts| == 0 {
        return Ok([]), Trace([], [], cache, cache);
      }
      var results, toEmbed, toEmbedIdx := LookUp(texts);
      if |toEmbed| == 0 {
        AllFound(texts, results);
        return Ok(Values(results)), Trace(results, toEmbed, cache, cache);
      }
      if innerFails {
        return Err(EmbedderFailed), Trace(results, toEmbed, cache, cache);
      }
      r, t := Finish(texts, results, toEmbed, toEmbedIdx, old(cache), old(clock));
    }

    lemma LaterLookUp(texts: seq<string>, results: seq<Option<Vector>>, c: Cache, from: int, to: int, later: int)
      requires LookedUp(texts, results, c, from, to) && to <= later
      ensures LookedUp(texts, results, c, from, later)
    {
    }

    lemma LaterStore(before: Cache, texts: seq<string>, from: int, later: int, after: Cache)
      requires Stored(before, texts, later, after) && from <= later
      ensures Stored(before, texts, from, after)
    {
    }

    /** A snapshot of the statistics. */
    method GetStats() returns (snapshot: Stats)
      requires Valid()
      modifies this`stats
      ensures stats == old(stats).(size := |cache|) && snapshot == stats
    {
      stats := stats.(size := |cache|);
      snapshot := stats;
    }

    /** The share of hits, or zero before any traffic. */
    method HitRate() returns (rate: real)
      ensures 0.0 <= rate <= 1.0 && (stats.hits + stats.misses == 0 ==> rate == 0.0)
      ensures rate * (stats.hits + stats.misses) as real == stats.hits as real
    {
      var total := stats.hits + stats.misses;
      if total == 0 {
        return 0.0;
      }
      rate := stats.hits as real / total as real;
    }

    /** Empties the cache and resets the statistics. */
    method Clear()
      requires Valid()
      modifies this`cache, this`stats
      ensures Valid() && cache == map[] && stats == Stats(0, 0, 0, 0)
    {
      cache := map[];
      stats := Stats(0, 0, 0, 0);
    }
  }

  function Values(results: seq<Option<Vector>>): (r: seq<Vector>)
    requires forall k :: 0 <= k < |results| ==> results[k].Some?
    ensures |r| == |results|
  {
    seq(|results|, k requires 0 <= k < |results| => results[k].value)
  }
}
