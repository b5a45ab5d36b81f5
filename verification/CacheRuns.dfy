/** Many clients of `rag_cache.go`. */
module CacheRuns {
  // The steps are finer than what the locks let interleave: single lookups, the call of the wrapped embedder,
  // single stores, evictions, clearing and the clock, in any order.

  import opened Wrappers
  import opened RagCache

  /** The wrapped embedder and the configuration, which no step changes. */
  datatype Setup = Setup(inner: string -> Vector, hash: string -> string, maxSize: int, ttl: int) {

    function Vectors(texts: seq<string>): (r: seq<Vector>)
      ensures |r| == |texts|
    {
      seq(|texts|, k requires 0 <= k < |texts| => inner(texts[k]))
    }

    function Capacity(): nat {
      if maxSize < 0 then 0 else maxSize
    }
  }

  /** Where a client is in its call. */
  datatype Client =
    | Idle
    | Looking(texts: seq<string>, results: seq<Option<Vector>>)
    | Asking(texts: seq<string>, results: seq<Option<Vector>>)
    | Storing(texts: seq<string>, results: seq<Option<Vector>>, left: seq<Vector>)
    | Done(texts: seq<string>, outcome: Result<seq<Vector>, Error>)

  datatype State = State(cache: Cache, clock: int, clients: map<nat, Client>)

  predicate Init(s: State) {
    s.cache == map[] && forall c :: c in s.clients ==> s.clients[c] == Idle
  }

  datatype Step =
    | Start(texts: seq<string>)
    | Hit
    | Miss
    | EndLookUp
    | InnerFails
    | InnerAnswers
    | StoreOne
    | EvictAndReturn(after: Cache)
    | Clear
    | Tick(now: int)

  /** The state after `step` by client `c`, or none when the step is not possible. */
  ghost function Next(m: Setup, s: State, c: nat, step: Step): Option<State> {
    if c !in s.clients then None
    else
      match step
      case Start(texts) =>
        if s.clients[c].Idle? || s.clients[c].Done? then Some(s.(clients := s.clients[c := Looking(texts, [])]))
        else None
      case Hit => (
        match s.clients[c]
        case Looking(texts, results) =>
          if |results| < |texts| && m.hash(texts[|results|]) in s.cache &&
              Alive(s.cache[m.hash(texts[|results|])], m.ttl, s.clock)
          then
            var h := m.hash(texts[|results|]);
            var e := s.cache[h];
            Some(s.(cache := s.cache[h := e.(hitCount := e.hitCount + 1)],
                    clients := s.clients[c := Looking(texts, results + [Some(e.embedding)])]))
          else None
        case _ => None)
      case Miss => (
        match s.clients[c]
        case Looking(texts, results) =>
          if |results| < |texts| &&
              !(m.hash(texts[|results|]) in s.cache && Alive(s.cache[m.hash(texts[|results|])], m.ttl, s.clock))
          then Some(s.(clients := s.clients[c := Looking(texts, results + [None])]))
          else None
        case _ => None)
      case EndLookUp => (
        match s.clients[c]
        case Looking(texts, results) =>
          if |results| != |texts| then None
          else if Holes(results) == [] then
            NoHoles(results);
            Some(s.(clients := s.clients[c := Done(texts, Ok(Values(results)))]))
          else Some(s.(clients := s.clients[c := Asking(texts, results)]))
        case _ => None)
      case InnerFails => (
        match s.clients[c]
        case Asking(texts, _) => Some(s.(clients := s.clients[c := Done(texts, Err(EmbedderFailed))]))
        case _ => None)
      case InnerAnswers => (
        match s.clients[c]
        case Asking(texts, results) =>
          if |results| != |texts| then None
          else Some(s.(clients := s.clients[c := Storing(texts, results, m.Vectors(Pick(texts, Holes(results))))]))
        case _ => None)
      case StoreOne => (
        match s.clients[c]
        case Storing(texts, results, left) =>
          if left == [] || Holes(results) == [] || |results| != |texts| then None
          else
            var at := Holes(results)[0];
            Some(s.(cache := s.cache[m.hash(texts[at]) := Entry(left[0], s.clock, 0)],
                    clients := s.clients[c := Storing(texts, results[at := Some(left[0])], left[1..])]))
        case _ => None)
      case EvictAndReturn(after) => (
        match s.clients[c]
        case Storing(texts, results, left) =>
          if left == [] && Holes(results) == [] && EvictedOldest(s.cache, |s.cache| - m.maxSize, after) then
            NoHoles(results);
            Some(s.(cache := after, clients := s.clients[c := Done(texts, Ok(Values(results)))]))
          else None
        case _ => None)
      case Clear => Some(s.(cache := map[]))
      case Tick(now) => if now >= s.clock then Some(s.(clock := now)) else None
  }

  // ---------- the invariant ----------

  ghost predicate SoundCache(m: Setup, c: Cache) {
    forall t :: m.hash(t) in c ==> c[m.hash(t)].embedding == m.inner(t)
  }

  predicate SoundResults(m: Setup, texts: seq<string>, results: seq<Option<Vector>>) {
    |results| <= |texts| && forall k :: 0 <= k < |results| && results[k].Some? ==> results[k].value == m.inner(texts[k])
  }

  /** What a client holds is right, and what it still has to store are the vectors of its holes. */
  predicate SoundClient(m: Setup, client: Client) {
    match client
    case Idle => true
    case Looking(texts, results) => SoundResults(m, texts, results)
    case Asking(texts, results) => SoundResults(m, texts, results) && |results| == |texts|
    case Storing(texts, results, left) =>
      SoundResults(m, texts, results) && |results| == |texts| && left == m.Vectors(Pick(texts, Holes(results)))
    case Done(texts, outcome) => outcome.Ok? ==> outcome.value == m.Vectors(texts)
  }

  ghost predicate Inv(m: Setup, s: State) {
    && SoundCache(m, s.cache)
    && (forall c :: c in s.clients ==> SoundClient(m, s.clients[c]))
    && ((forall c :: c in s.clients ==> !s.clients[c].Storing?) ==> |s.cache| <= m.Capacity())
  }

  lemma InitInv(m: Setup, s: State)
    requires Init(s)
    ensures Inv(m, s)
  {
  }

  lemma HitSound(m: Setup, cache: Cache, h: string)
    requires SoundCache(m, cache) && h in cache
    ensures
      var after := cache[h := cache[h].(hitCount := cache[h].hitCount + 1)];
      SoundCache(m, after) && |after| == |cache|
  {
    var after := cache[h := cache[h].(hitCount := cache[h].hitCount + 1)];
    assert after.Keys == cache.Keys && |after.Keys| == |after| && |cache.Keys| == |cache|;
  }

  lemma StoreSound(m: Setup, cache: Cache, text: string, clock: int)
    requires Injective(m.hash) && SoundCache(m, cache)
    ensures SoundCache(m, cache[m.hash(text) := Entry(m.inner(text), clock, 0)])
  {
    InjectiveMeans(m.hash);
  }

  lemma StoreClient(m: Setup, texts: seq<string>, results: seq<Option<Vector>>, left: seq<Vector>)
    requires SoundClient(m, Storing(texts, results, left)) && left != [] && Holes(results) != []
    ensures
      var at := Holes(results)[0];
      && left[0] == m.inner(texts[at])
      && SoundClient(m, Storing(texts, results[at := Some(left[0])], left[1..]))
  {
    var holes := Holes(results);
    FillFirstHole(results, left[0]);
    assert Pick(texts, holes)[1..] == Pick(texts, holes[1..]);
    assert Pick(texts, holes)[0] == texts[holes[0]];
  }

  lemma ReturnSound(m: Setup, texts: seq<string>, results: seq<Option<Vector>>)
    requires SoundResults(m, texts, results) && |results| == |texts| && Holes(results) == []
    ensures (forall k :: 0 <= k < |results| ==> results[k].Some?) && Values(results) == m.Vectors(texts)
  {
    NoHoles(results);
  }

  lemma EvictSound(m: Setup, cache: Cache, after: Cache)
    requires SoundCache(m, cache) && EvictedOldest(cache, |cache| - m.maxSize, after)
    ensures SoundCache(m, after) && |after| <= m.Capacity()
  {
  }

  // ---------- every step and every run ----------

  /** A step that stores nothing and moves one client to a sound phase. */
  lemma MoveClient(m: Setup, s: State, c: nat, cache: Cache, client: Client)
    requires Inv(m, s) && c in s.clients && SoundCache(m, cache) && SoundClient(m, client)
    requires client.Storing? || |cache| <= m.Capacity() || (|cache| <= |s.cache| && !s.clients[c].Storing?)
    ensures Inv(m, s.(cache := cache, clients := s.clients[c := client]))
  {
    var next := s.(cache := cache, clients := s.clients[c := client]);
    assert next.clients[c] == client;
    if forall d :: d in next.clients ==> !next.clients[d].Storing? {
      assert |cache| <= m.Capacity() || forall d :: d in s.clients ==> d == c || s.clients[d] == next.clients[d];
    }
  }

  lemma LookStep(m: Setup, s: State, c: nat, step: Step)
    requires Inv(m, s) && Next(m, s, c, step).Some? && (step.Hit? || step.Miss?)
    ensures Inv(m, Next(m, s, c, step).value)
  {
    var Looking(texts, results) := s.clients[c];
    var h := m.hash(texts[|results|]);
    if step.Hit? {
      var e := s.cache[h];
      HitSound(m, s.cache, h);
      MoveClient(m, s, c, s.cache[h := e.(hitCount := e.hitCount + 1)], Looking(texts, results + [Some(e.embedding)]));
    } else {
      MoveClient(m, s, c, s.cache, Looking(texts, results + [None]));
    }
  }

  lemma AskStep(m: Setup, s: State, c: nat, step: Step)
    requires Inv(m, s) && Next(m, s, c, step).Some? &&
      (step.Start? || step.EndLookUp? || step.InnerFails? || step.InnerAnswers?)
    ensures Inv(m, Next(m, s, c, step).value)
  {
    var client := Next(m, s, c, step).value.clients[c];
    if step.EndLookUp? && client.Done? {
      ReturnSound(m, s.clients[c].texts, s.clients[c].results);
    }
    MoveClient(m, s, c, s.cache, client);
  }

  lemma StoreStep(m: Setup, s: State, c: nat, step: Step)
    requires Injective(m.hash) && Inv(m, s) && Next(m, s, c, step).Some? && (step.StoreOne? || step.EvictAndReturn?)
    ensures Inv(m, Next(m, s, c, step).value)
  {
    var Storing(texts, results, left) := s.clients[c];
    var next := Next(m, s, c, step).value;
    if step.StoreOne? {
      StoreClient(m, texts, results, left);
      StoreSound(m, s.cache, texts[Holes(results)[0]], s.clock);
    } else {
      ReturnSound(m, texts, results);
      EvictSound(m, s.cache, step.after);
    }
    MoveClient(m, s, c, next.cache, next.clients[c]);
  }

  /** Every possible step of every client keeps the invariant. */
  lemma StepInv(m: Setup, s: State, c: nat, step: Step)
    requires Injective(m.hash) && Inv(m, s) && Next(m, s, c, step).Some?
    ensures Inv(m, Next(m, s, c, step).value)
  {
    match step
    case Hit => LookStep(m, s, c, step);
    case Miss => LookStep(m, s, c, step);
    case Start(_) => AskStep(m, s, c, step);
    case EndLookUp => AskStep(m, s, c, step);
    case InnerFails => AskStep(m, s, c, step);
    case InnerAnswers => AskStep(m, s, c, step);
    case StoreOne => StoreStep(m, s, c, step);
    case EvictAndReturn(_) => StoreStep(m, s, c, step);
    case Clear =>
    case Tick(_) =>
  }

  /** The state after a schedule, or none when one of its steps is not possible. */
  ghost function Run(m: Setup, s: State, schedule: seq<(nat, Step)>): Option<State>
    decreases |schedule|
  {
    if schedule == [] then Some(s)
    else
      match Next(m, s, schedule[0].0, schedule[0].1)
      case None => None
      case Some(next) => Run(m, next, schedule[1..])
  }

  lemma {:induction false} RunInv(m: Setup, s: State, schedule: seq<(nat, Step)>)
    requires Injective(m.hash) && Inv(m, s) && Run(m, s, schedule).Some?
    ensures Inv(m, Run(m, s, schedule).value)
    decreases |schedule|
  {
    if schedule != [] {
      StepInv(m, s, schedule[0].0, schedule[0].1);
      RunInv(m, Next(m, s, schedule[0].0, schedule[0].1).value, schedule[1..]);
    }
  }

  /**
   * Whatever the clients' steps are interleaved with, a call that returns vectors returns exactly those the
   * wrapped embedder gives for its texts, in order, and the cache is within its capacity whenever nobody stores.
   */
  lemma EveryCallIsRight(m: Setup, s: State, schedule: seq<(nat, Step)>)
    requires Injective(m.hash) && Init(s) && Run(m, s, schedule).Some?
    ensures
      var end := Run(m, s, schedule).value;
      && (forall c :: c in end.clients && end.clients[c].Done? && end.clients[c].outcome.Ok? ==>
            end.clients[c].outcome.value == m.Vectors(end.clients[c].texts))
      && ((forall c :: c in end.clients ==> !end.clients[c].Storing?) ==> |end.cache| <= m.Capacity())
  {
    InitInv(m, s);
    RunInv(m, s, schedule);
    var end := Run(m, s, schedule).value;
    forall c | c in end.clients && end.clients[c].Done? && end.clients[c].outcome.Ok?
      ensures end.clients[c].outcome.value == m.Vectors(end.clients[c].texts)
    {
      assert SoundClient(m, end.clients[c]);
    }
  }

  /** Some step of the call itself is possible. */
  ghost predicate CanStep(m: Setup, s: State, c: nat) {
    exists step: Step :: !step.Clear? && !step.Tick? && Next(m, s, c, step).Some?
  }

  lemma LookingSteps(m: Setup, s: State, c: nat)
    requires Inv(m, s) && c in s.clients && s.clients[c].Looking?
    ensures CanStep(m, s, c)
  {
    var texts, results := s.clients[c].texts, s.clients[c].results;
    if |results| == |texts| {
      assert Next(m, s, c, EndLookUp).Some?;
    } else if m.hash(texts[|results|]) in s.cache && Alive(s.cache[m.hash(texts[|results|])], m.ttl, s.clock) {
      assert Next(m, s, c, Hit).Some?;
    } else {
      assert Next(m, s, c, Miss).Some?;
    }
  }

  lemma StoringSteps(m: Setup, s: State, c: nat)
    requires Inv(m, s) && c in s.clients && s.clients[c].Storing?
    ensures CanStep(m, s, c)
  {
    assert |s.clients[c].left| == |Holes(s.clients[c].results)|;
    if s.clients[c].left == [] {
      var after := EvictionExists(s.cache, |s.cache| - m.maxSize);
      assert Next(m, s, c, EvictAndReturn(after)).Some?;
    } else {
      assert Next(m, s, c, StoreOne).Some?;
    }
  }

  /** In the lookup loop the next text is a hit exactly when it has an entry within its time to live, else a miss. */
  lemma HitIff(m: Setup, s: State, c: nat, texts: seq<string>, results: seq<Option<Vector>>)
    requires c in s.clients && s.clients[c] == Looking(texts, results) && |results| < |texts|
    ensures
      var h := m.hash(texts[|results|]);
      var live := h in s.cache && (m.ttl == 0 || s.clock < s.cache[h].createdAt + m.ttl);
      (Next(m, s, c, Hit).Some? <==> live) && (Next(m, s, c, Miss).Some? <==> !live)
  {
  }

  /** A call in progress can always take its next step, whatever the other clients did. */
  lemma NeverStuck(m: Setup, s: State, c: nat)
    requires Inv(m, s) && c in s.clients && !s.clients[c].Idle? && !s.clients[c].Done?
    ensures exists step: Step :: !step.Clear? && !step.Tick? && Next(m, s, c, step).Some?
  {
    match s.clients[c]
    case Looking(_, _) => LookingSteps(m, s, c);
    case Asking(_, _) => assert Next(m, s, c, InnerAnswers).Some?;
    case Storing(_, _, _) => StoringSteps(m, s, c);
  }

  ghost predicate NoError(s: State) {
    forall c :: c in s.clients && s.clients[c].Done? ==> s.clients[c].outcome.Ok?
  }

  /** A call fails only because the wrapped embedder failed. */
  lemma {:induction false} OnlyInnerFails(m: Setup, s: State, schedule: seq<(nat, Step)>)
    requires NoError(s) && Run(m, s, schedule).Some?
    requires forall k :: 0 <= k < |schedule| ==> !schedule[k].1.InnerFails?
    ensures NoError(Run(m, s, schedule).value)
    decreases |schedule|
  {
    if schedule != [] {
      var next := Next(m, s, schedule[0].0, schedule[0].1).value;
      assert NoError(next);
      OnlyInnerFails(m, next, schedule[1..]);
    }
  }
}
