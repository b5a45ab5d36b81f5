/** Eviction by age. */
module CacheAge {
  // When it is eviction of the least recently used, and runs in which it is not: an entry that was just hit
  // is evicted when it is the oldest, although every other entry was used before.

  import opened Wrappers
  import opened RagCache
  import opened CacheRuns

  // ---------- age and recency of use ----------

  /** Nothing that went was used later than something that stays: what an LRU cache promises. */
  ghost predicate KeepsRecentlyUsed(before: Cache, after: Cache, used: string -> int) {
    forall gone, stays :: gone in before && gone !in after && stays in after ==> used(gone) <= used(stays)
  }

  /** Entries that were not created later were not used later. */
  ghost predicate UsedInOrderOfAge(cache: Cache, used: string -> int) {
    forall g, s :: g in cache && s in cache && g != s && cache[g].createdAt <= cache[s].createdAt ==> used(g) <= used(s)
  }

  ghost predicate AlwaysKeepsRecentlyUsed(cache: Cache, used: string -> int) {
    forall count, after :: EvictedOldest(cache, count, after) ==> KeepsRecentlyUsed(cache, after, used)
  }

  /** An eviction of `g` that leaves `s`, when `g` was not created later. */
  lemma EvictionBetween(cache: Cache, g: string, s: string) returns (count: int, after: Cache)
    requires g in cache && s in cache && g != s && cache[g].createdAt <= cache[s].createdAt
    ensures EvictedOldest(cache, count, after) && g !in after && s in after
  {
    var keep := set h | h in cache && (h == s || cache[h].createdAt > cache[s].createdAt);
    after := map h | h in keep :: cache[h];
    count := |cache| - |keep|;
    var gone := cache.Keys - keep;
    assert cache.Keys == keep + gone && |cache.Keys| == |cache| && |after.Keys| == |after| && after.Keys == keep;
  }

  /**
   * Eviction by age is eviction of the least recently used exactly when the entries were used in the order of their
   * age.
   */
  lemma EvictsLeastRecentlyUsedIff(cache: Cache, used: string -> int)
    ensures AlwaysKeepsRecentlyUsed(cache, used) <==> UsedInOrderOfAge(cache, used)
  {
    if AlwaysKeepsRecentlyUsed(cache, used) {
      forall g, s | g in cache && s in cache && g != s && cache[g].createdAt <= cache[s].createdAt
        ensures used(g) <= used(s) {
        var count, after := EvictionBetween(cache, g, s);
      }
    }
  }

  // ---------- runs ----------

  lemma {:induction false} RunAppend(m: Setup, s: State, first: seq<(nat, Step)>, second: seq<(nat, Step)>)
    requires Run(m, s, first).Some?
    ensures Run(m, s, first + second) == Run(m, Run(m, s, first).value, second)
    decreases |first|
  {
    if first == [] {
      assert first + second == second;
    } else {
      assert (first + second)[1..] == first[1..] + second;
      RunAppend(m, Next(m, s, first[0].0, first[0].1).value, first[1..], second);
    }
  }

  lemma RunStep(m: Setup, s: State, c: nat, step: Step, rest: seq<(nat, Step)>)
    requires Next(m, s, c, step).Some?
    ensures Run(m, s, [(c, step)] + rest) == Run(m, Next(m, s, c, step).value, rest)
  {
    assert ([(c, step)] + rest)[1..] == rest;
  }

  predicate Free(s: State, c: nat) {
    c in s.clients && (s.clients[c].Idle? || s.clients[c].Done?)
  }

  /** `s` with client `c` in this phase. */
  function At(s: State, c: nat, client: Client): State {
    s.(clients := s.clients[c := client])
  }

  lemma AtTwice(s: State, c: nat, first: Client, second: Client)
    ensures At(At(s, c, first), c, second) == At(s, c, second)
  {
    assert s.clients[c := first][c := second] == s.clients[c := second];
  }

  const MISSED: seq<Option<Vector>> := [None]

  lemma OneHole()
    ensures Holes(MISSED) == [0]
  {
    HolesAppend([], None);
    assert [] + MISSED == MISSED;
  }

  lemma NoHole(v: Vector)
    ensures Holes([Some(v)]) == [] && [Some(v)][0].Some? && Values([Some(v)]) == [v]
  {
    HolesAppend([], Some(v));
    assert [] + [Some(v)] == [Some(v)];
  }

  // ---------- the steps of a call with one text ----------

  function Counted(cache: Cache, h: string): Cache
    requires h in cache
  {
    cache[h := cache[h].(hitCount := cache[h].hitCount + 1)]
  }

  lemma StartOne(m: Setup, s: State, c: nat, text: string)
    requires Free(s, c)
    ensures Next(m, s, c, Start([text])) == Some(At(s, c, Looking([text], [])))
  {
  }

  lemma HitOne(m: Setup, s: State, c: nat, text: string)
    requires c in s.clients && m.hash(text) in s.cache && Alive(s.cache[m.hash(text)], m.ttl, s.clock)
    ensures Next(m, At(s, c, Looking([text], [])), c, Hit)
      == Some(At(s.(cache := Counted(s.cache, m.hash(text))), c,
                 Looking([text], [Some(s.cache[m.hash(text)].embedding)])))
  {
    var v := s.cache[m.hash(text)].embedding;
    AtTwice(s, c, Looking([text], []), Looking([text], [Some(v)]));
    assert [] + [Some(v)] == [Some(v)];
  }

  lemma MissOne(m: Setup, s: State, c: nat, text: string)
    requires c in s.clients && m.hash(text) !in s.cache
    ensures Next(m, At(s, c, Looking([text], [])), c, Miss) == Some(At(s, c, Looking([text], MISSED)))
  {
    AtTwice(s, c, Looking([text], []), Looking([text], MISSED));
    assert [] + MISSED == MISSED;
  }

  lemma EndHit(m: Setup, s: State, c: nat, text: string, v: Vector)
    requires c in s.clients
    ensures Next(m, At(s, c, Looking([text], [Some(v)])), c, EndLookUp) == Some(At(s, c, Done([text], Ok([v]))))
  {
    NoHole(v);
    AtTwice(s, c, Looking([text], [Some(v)]), Done([text], Ok([v])));
  }

  lemma EndMiss(m: Setup, s: State, c: nat, text: string)
    requires c in s.clients
    ensures Next(m, At(s, c, Looking([text], MISSED)), c, EndLookUp) == Some(At(s, c, Asking([text], MISSED)))
  {
    OneHole();
    AtTwice(s, c, Looking([text], MISSED), Asking([text], MISSED));
  }

  lemma AnswerOne(m: Setup, s: State, c: nat, text: string)
    requires c in s.clients
    ensures Next(m, At(s, c, Asking([text], MISSED)), c, InnerAnswers)
      == Some(At(s, c, Storing([text], MISSED, [m.inner(text)])))
  {
    OneHole();
    AtTwice(s, c, Asking([text], MISSED), Storing([text], MISSED, [m.inner(text)]));
    assert m.Vectors(Pick([text], Holes(MISSED))) == [m.inner(text)];
  }

  function WithNew(m: Setup, s: State, text: string): Cache {
    s.cache[m.hash(text) := Entry(m.inner(text), s.clock, 0)]
  }

  lemma StoreOnly(m: Setup, s: State, c: nat, text: string)
    requires c in s.clients
    ensures Next(m, At(s, c, Storing([text], MISSED, [m.inner(text)])), c, StoreOne)
      == Some(At(s.(cache := WithNew(m, s, text)), c, Storing([text], [Some(m.inner(text))], [])))
  {
    OneHole();
    AtTwice(s, c, Storing([text], MISSED, [m.inner(text)]), Storing([text], [Some(m.inner(text))], []));
    assert MISSED[0 := Some(m.inner(text))] == [Some(m.inner(text))] && [m.inner(text)][1..] == [];
  }

  lemma EvictOnly(m: Setup, s: State, c: nat, text: string, v: Vector, after: Cache)
    requires c in s.clients && EvictedOldest(s.cache, |s.cache| - m.maxSize, after)
    ensures Next(m, At(s, c, Storing([text], [Some(v)], [])), c, EvictAndReturn(after))
      == Some(At(s.(cache := after), c, Done([text], Ok([v]))))
  {
    NoHole(v);
    AtTwice(s, c, Storing([text], [Some(v)], []), Done([text], Ok([v])));
  }

  // ---------- whole calls ----------

  function HitSchedule(c: nat, text: string): seq<(nat, Step)> {
    [(c, Start([text]))] + ([(c, Hit)] + ([(c, EndLookUp)] + []))
  }

  lemma HitCall(m: Setup, s: State, c: nat, text: string)
    requires Free(s, c) && m.hash(text) in s.cache && Alive(s.cache[m.hash(text)], m.ttl, s.clock)
    ensures Run(m, s, HitSchedule(c, text))
      == Some(At(s.(cache := Counted(s.cache, m.hash(text))), c, Done([text], Ok([s.cache[m.hash(text)].embedding]))))
  {
    var v, counted := s.cache[m.hash(text)].embedding, s.(cache := Counted(s.cache, m.hash(text)));
    StartOne(m, s, c, text);
    RunStep(m, s, c, Start([text]), [(c, Hit)] + ([(c, EndLookUp)] + []));
    HitOne(m, s, c, text);
    RunStep(m, At(s, c, Looking([text], [])), c, Hit, [(c, EndLookUp)] + []);
    EndHit(m, counted, c, text, v);
    RunStep(m, At(counted, c, Looking([text], [Some(v)])), c, EndLookUp, []);
  }

  function MissSchedule(c: nat, text: string, after: Cache): seq<(nat, Step)> {
    [(c, Start([text]))] + ([(c, Miss)] + ([(c, EndLookUp)] + StoreSchedule(c, after)))
  }

  function StoreSchedule(c: nat, after: Cache): seq<(nat, Step)> {
    [(c, InnerAnswers)] + ([(c, StoreOne)] + ([(c, EvictAndReturn(after))] + []))
  }

  lemma StoreCall(m: Setup, s: State, c: nat, text: string, after: Cache)
    requires c in s.clients && EvictedOldest(WithNew(m, s, text), |WithNew(m, s, text)| - m.maxSize, after)
    ensures Run(m, At(s, c, Asking([text], MISSED)), StoreSchedule(c, after))
      == Some(At(s.(cache := after), c, Done([text], Ok([m.inner(text)]))))
  {
    var v, stored := m.inner(text), s.(cache := WithNew(m, s, text));
    AnswerOne(m, s, c, text);
    RunStep(m, At(s, c, Asking([text], MISSED)), c, InnerAnswers,
            [(c, StoreOne)] + ([(c, EvictAndReturn(after))] + []));
    StoreOnly(m, s, c, text);
    RunStep(m, At(s, c, Storing([text], MISSED, [v])), c, StoreOne, [(c, EvictAndReturn(after))] + []);
    EvictOnly(m, stored, c, text, v, after);
    RunStep(m, At(stored, c, Storing([text], [Some(v)], [])), c, EvictAndReturn(after), []);
  }

  lemma MissCall(m: Setup, s: State, c: nat, text: string, after: Cache)
    requires Free(s, c) && m.hash(text) !in s.cache
    requires EvictedOldest(WithNew(m, s, text), |WithNew(m, s, text)| - m.maxSize, after)
    ensures Run(m, s, MissSchedule(c, text, after))
      == Some(At(s.(cache := after), c, Done([text], Ok([m.inner(text)]))))
  {
    StartOne(m, s, c, text);
    RunStep(m, s, c, Start([text]), [(c, Miss)] + ([(c, EndLookUp)] + StoreSchedule(c, after)));
    MissOne(m, s, c, text);
    RunStep(m, At(s, c, Looking([text], [])), c, Miss, [(c, EndLookUp)] + StoreSchedule(c, after));
    EndMiss(m, s, c, text);
    RunStep(m, At(s, c, Looking([text], MISSED)), c, EndLookUp, StoreSchedule(c, after));
    StoreCall(m, s, c, text, after);
  }

  // ---------- the just-hit entry goes ----------

  /** Every other entry is younger. */
  predicate Oldest(cache: Cache, h: string) {
    h in cache && forall x :: x in cache && x != h ==> cache[h].createdAt < cache[x].createdAt
  }

  lemma OneGoes(all: set<string>, left: set<string>) returns (gone: string)
    requires left <= all && |left| == |all| - 1
    ensures gone in all && left == all - {gone}
  {
    var rest := all - left;
    assert all == left + rest;
    gone :| gone in rest;
    assert rest == {gone} + (rest - {gone});
  }

  lemma OldestGoes(cache: Cache, h: string, after: Cache)
    requires Oldest(cache, h) && EvictedOldest(cache, 1, after)
    ensures after.Keys == cache.Keys - {h}
  {
    assert |cache.Keys| == |cache| && |after.Keys| == |after|;
    assert cache.Keys != {};
    var gone := OneGoes(cache.Keys, after.Keys);
    assert gone == h;
  }

  /** The cache between the two calls' last steps: the hit is counted and the new text is stored. */
  function Overfull(m: Setup, s: State, hit: string, text: string): Cache
    requires m.hash(hit) in s.cache
  {
    Counted(s.cache, m.hash(hit))[m.hash(text) := Entry(m.inner(text), s.clock, 0)]
  }

  lemma OverfullIs(m: Setup, s: State, hit: string, text: string)
    requires m.hash(text) !in s.cache && Oldest(s.cache, m.hash(hit)) && s.cache[m.hash(hit)].createdAt < s.clock
    ensures Oldest(Overfull(m, s, hit, text), m.hash(hit)) && |Overfull(m, s, hit, text)| == |s.cache| + 1
    ensures Overfull(m, s, hit, text).Keys == s.cache.Keys + {m.hash(text)}
  {
    var full := Overfull(m, s, hit, text);
    assert full.Keys == s.cache.Keys + {m.hash(text)};
    assert |full.Keys| == |full| && |s.cache.Keys| == |s.cache|;
  }

  /**
   * In every full cache with a single oldest entry, a hit on that entry followed by one new text evicts it
   * and keeps all the others, which were used before it.
   */
  lemma JustHitIsEvicted(m: Setup, s: State, c: nat, hit: string, text: string, after: Cache)
    requires Free(s, c) && |s.cache| == m.maxSize && m.hash(text) !in s.cache
    requires Oldest(s.cache, m.hash(hit)) && s.cache[m.hash(hit)].createdAt < s.clock
    requires Alive(s.cache[m.hash(hit)], m.ttl, s.clock)
    requires EvictedOldest(Overfull(m, s, hit, text), 1, after)
    ensures Run(m, s, HitSchedule(c, hit) + MissSchedule(c, text, after))
      == Some(At(s.(cache := after), c, Done([text], Ok([m.inner(text)]))))
    ensures after.Keys == s.cache.Keys - {m.hash(hit)} + {m.hash(text)}
  {
    OverfullIs(m, s, hit, text);
    OldestGoes(Overfull(m, s, hit, text), m.hash(hit), after);
    HitCall(m, s, c, hit);
    var done := Done([hit], Ok([s.cache[m.hash(hit)].embedding]));
    var mid := At(s.(cache := Counted(s.cache, m.hash(hit))), c, done);
    RunAppend(m, s, HitSchedule(c, hit), MissSchedule(c, text, after));
    MissCall(m, mid, c, text, after);
    AtTwice(s.(cache := after), c, done, Done([text], Ok([m.inner(text)])));
  }

  // ---------- such a run from an empty cache ----------

  /** A new text while there is room. */
  lemma RoomyCall(m: Setup, s: State, c: nat, text: string, now: int)
    requires Free(s, c) && m.hash(text) !in s.cache && |s.cache| < m.maxSize && now >= s.clock
    ensures Run(m, s, MissSchedule(c, text, WithNew(m, s, text)) + [(c, Tick(now))])
      == Some(At(s.(cache := WithNew(m, s, text), clock := now), c, Done([text], Ok([m.inner(text)]))))
  {
    var full := WithNew(m, s, text);
    assert full.Keys == s.cache.Keys + {m.hash(text)} && |full.Keys| == |full| && |s.cache.Keys| == |s.cache|;
    MissCall(m, s, c, text, full);
    RunAppend(m, s, MissSchedule(c, text, full), [(c, Tick(now))]);
    RunStep(m, At(s.(cache := full), c, Done([text], Ok([m.inner(text)]))), c, Tick(now), []);
    assert [(c, Tick(now))] + [] == [(c, Tick(now))];
  }

  /** A cache of two entries, the first older than the second and both older than now. */
  predicate TwoEntries(m: Setup, s: State, a: string, b: string) {
    && s.cache.Keys == {m.hash(a), m.hash(b)} && |s.cache| == 2
    && s.cache[m.hash(a)].createdAt < s.cache[m.hash(b)].createdAt
    && s.cache[m.hash(a)].createdAt < s.clock
  }

  lemma FirstEntry(m: Setup, s: State, c: nat, a: string) returns (schedule: seq<(nat, Step)>, end: State)
    requires Init(s) && c in s.clients && m.maxSize == 2
    ensures Run(m, s, schedule) == Some(end) && Free(end, c) && end.clock == s.clock + 1
    ensures end.cache == map[m.hash(a) := Entry(m.inner(a), s.clock, 0)]
  {
    schedule := MissSchedule(c, a, WithNew(m, s, a)) + [(c, Tick(s.clock + 1))];
    RoomyCall(m, s, c, a, s.clock + 1);
    end := At(s.(cache := WithNew(m, s, a), clock := s.clock + 1), c, Done([a], Ok([m.inner(a)])));
  }

  lemma SecondEntry(m: Setup, s: State, c: nat, a: string, b: string) returns (schedule: seq<(nat, Step)>, end: State)
    requires Free(s, c) && m.maxSize == 2 && m.hash(a) != m.hash(b)
    requires s.cache == map[m.hash(a) := Entry(m.inner(a), s.clock - 1, 0)]
    ensures Run(m, s, schedule) == Some(end) && Free(end, c) && TwoEntries(m, end, a, b)
  {
    schedule := MissSchedule(c, b, WithNew(m, s, b)) + [(c, Tick(s.clock + 1))];
    assert s.cache.Keys == {m.hash(a)} && |s.cache.Keys| == |s.cache|;
    RoomyCall(m, s, c, b, s.clock + 1);
    end := At(s.(cache := WithNew(m, s, b), clock := s.clock + 1), c, Done([b], Ok([m.inner(b)])));
    assert end.cache.Keys == {m.hash(a), m.hash(b)} && |end.cache.Keys| == |end.cache|;
  }

  lemma ThirdEntry(m: Setup, s: State, c: nat, a: string, b: string, d: string) returns (after: Cache, end: State)
    requires Free(s, c) && TwoEntries(m, s, a, b) && m.maxSize == 2 && m.ttl == 0
    requires m.hash(a) != m.hash(b) && m.hash(a) != m.hash(d) && m.hash(b) != m.hash(d)
    ensures Run(m, s, HitSchedule(c, a) + MissSchedule(c, d, after)) == Some(end) &&
      end.cache.Keys == {m.hash(b), m.hash(d)}
  {
    after := EvictionExists(Overfull(m, s, a, d), 1);
    JustHitIsEvicted(m, s, c, a, d, after);
    end := At(s.(cache := after), c, Done([d], Ok([m.inner(d)])));
  }

  /** The schedule ends with a hit on `hit` and a call for the new text `text`. */
  ghost predicate EndsInHitAndMiss(schedule: seq<(nat, Step)>, c: nat, hit: string, text: string) {
    exists before, after :: schedule == before + (HitSchedule(c, hit) + MissSchedule(c, text, after))
  }

  /**
   * Two texts fill the cache; the first is hit, a third arrives, and the first is gone while the second, never hit,
   * stays.
   */
  lemma UsedEntryGoesFirst(m: Setup, s: State, c: nat, a: string, b: string, d: string)
    returns (schedule: seq<(nat, Step)>, end: State)
    requires Init(s) && c in s.clients && m.maxSize == 2 && m.ttl == 0
    requires m.hash(a) != m.hash(b) && m.hash(a) != m.hash(d) && m.hash(b) != m.hash(d)
    ensures Run(m, s, schedule) == Some(end) && end.cache.Keys == {m.hash(b), m.hash(d)}
    ensures EndsInHitAndMiss(schedule, c, a, d)
  {
    var first, s1 := FirstEntry(m, s, c, a);
    var second, s2 := SecondEntry(m, s1, c, a, b);
    RunAppend(m, s, first, second);
    var after, last := ThirdEntry(m, s2, c, a, b, d);
    RunAppend(m, s, first + second, HitSchedule(c, a) + MissSchedule(c, d, after));
    schedule, end := first + second + (HitSchedule(c, a) + MissSchedule(c, d, after)), last;
  }
}
