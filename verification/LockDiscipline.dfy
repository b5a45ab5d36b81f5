/**
 * The two locks of `rag_cache.go`, and why most calls cannot deadlock.
 */
module LockDiscipline {
  // A reader-writer lock `mu` whose waiting writer keeps new readers out, as Go's does, and a mutex `statsMu`.
  // Calls are lists of lock operations; any number of threads make them.

  import opened Wrappers

  type Thread = nat

  /** Taking `mu` for writing is two operations: announcing, which keeps new readers out, and acquiring. */
  datatype Op = RLock | RUnlock | Announce | Acquire | Unlock | StatsLock | StatsUnlock

  datatype Locks = Locks(readers: set<Thread>, waiting: Option<Thread>, writer: Option<Thread>, stats: Option<Thread>)

  /** What every thread still has to do, and who holds what. */
  datatype State = State(todo: map<Thread, seq<Op>>, locks: Locks)

  // ---------- the calls ----------

  datatype Call = EmbedCall(lookups: nat, stores: bool) | HitRateCall | ClearCall | StatsCall

  /** Every lookup counts a hit or a miss. */
  function Counts(n: nat): seq<Op> {
    if n == 0 then [] else [StatsLock, StatsUnlock] + Counts(n - 1)
  }

  function Program(call: Call): seq<Op> {
    match call
    case EmbedCall(lookups, stores) =>
      [RLock] + Counts(lookups) + [RUnlock] + if stores then [Announce, Acquire, Unlock] else []
    case HitRateCall => [StatsLock, StatsUnlock]
    case ClearCall => [Announce, Acquire, Unlock, StatsLock, StatsUnlock]
    case StatsCall => [StatsLock, RLock, RUnlock, StatsUnlock]
  }

  // ---------- the steps ----------

  predicate CanDo(l: Locks, t: Thread, op: Op) {
    match op
    case RLock => l.waiting.None? && l.writer.None?
    case Announce => l.waiting.None? && l.writer.None?
    case Acquire => l.waiting == Some(t) && l.readers == {}
    case StatsLock => l.stats.None?
    case _ => true
  }

  function Do(l: Locks, t: Thread, op: Op): Locks {
    match op
    case RLock => l.(readers := l.readers + {t})
    case RUnlock => l.(readers := l.readers - {t})
    case Announce => l.(waiting := Some(t))
    case Acquire => l.(waiting := None, writer := Some(t))
    case Unlock => l.(writer := None)
    case StatsLock => l.(stats := Some(t))
    case StatsUnlock => l.(stats := None)
  }

  predicate Busy(s: State, t: Thread) {
    t in s.todo && s.todo[t] != []
  }

  predicate Enabled(s: State, t: Thread) {
    Busy(s, t) && CanDo(s.locks, t, s.todo[t][0])
  }

  /** Somebody is in a call and nobody can go on. */
  ghost predicate Stuck(s: State) {
    (exists t :: Busy(s, t)) && forall t :: !Enabled(s, t)
  }

  /** A thread without work starts a call, or a thread does the next operation of its call. */
  datatype Move = Begin(t: Thread, call: Call) | Go(t: Thread)

  function Next(s: State, move: Move): Option<State> {
    match move
    case Begin(t, call) => if Busy(s, t) then None else Some(s.(todo := s.todo[t := Program(call)]))
    case Go(t) =>
      if Enabled(s, t) then Some(State(s.todo[t := s.todo[t][1..]], Do(s.locks, t, s.todo[t][0]))) else None
  }

  function Run(s: State, moves: seq<Move>): Option<State>
    decreases |moves|
  {
    if moves == [] then Some(s)
    else
      match Next(s, moves[0])
      case None => None
      case Some(next) => Run(next, moves[1..])
  }

  const START: State := State(map[], Locks({}, None, None, None))

  // ---------- discipline ----------

  /** What one thread holds. */
  datatype Held = Held(reading: bool, waiting: bool, writing: bool, counting: bool)

  const NOTHING: Held := Held(false, false, false, false)

  /**
   * The operations take and release locks in matching order, and `statsMu` is never held while waiting for `mu`,
   * except, when `nested` is set, for reading.
   */
  predicate Disciplined(ops: seq<Op>, held: Held, nested: bool) {
    if ops == [] then held == NOTHING
    else
      match ops[0]
      case RLock =>
        && (held == NOTHING || (nested && held == NOTHING.(counting := true)))
        && Disciplined(ops[1..], held.(reading := true), nested)
      case RUnlock =>
        held.reading && !held.waiting && !held.writing && Disciplined(ops[1..], held.(reading := false), nested)
      case Announce => held == NOTHING && Disciplined(ops[1..], held.(waiting := true), nested)
      case Acquire => held == NOTHING.(waiting := true) && Disciplined(ops[1..], NOTHING.(writing := true), nested)
      case Unlock => held == NOTHING.(writing := true) && Disciplined(ops[1..], NOTHING, nested)
      case StatsLock =>
        (held == NOTHING || held == NOTHING.(reading := true)) && Disciplined(ops[1..], held.(counting := true), nested)
      case StatsUnlock =>
        held.counting && !held.waiting && !held.writing && Disciplined(ops[1..], held.(counting := false), nested)
  }

  lemma CountDisciplined(rest: seq<Op>, nested: bool)
    requires Disciplined(rest, NOTHING.(reading := true), nested)
    ensures Disciplined([StatsLock, StatsUnlock] + rest, NOTHING.(reading := true), nested)
  {
    var ops := [StatsLock, StatsUnlock] + rest;
    assert ops[1..][0] == StatsUnlock && ops[1..][1..] == rest;
  }

  lemma {:induction false} CountsDisciplined(n: nat, rest: seq<Op>, nested: bool)
    requires Disciplined(rest, NOTHING.(reading := true), nested)
    ensures Disciplined(Counts(n) + rest, NOTHING.(reading := true), nested)
  {
    if n == 0 {
      assert [] + rest == rest;
    } else {
      CountsDisciplined(n - 1, rest, nested);
      CountDisciplined(Counts(n - 1) + rest, nested);
      assert Counts(n) + rest == [StatsLock, StatsUnlock] + (Counts(n - 1) + rest);
    }
  }

  /** Every call is disciplined; only a statistics snapshot nests. */
  lemma CallDisciplined(call: Call, nested: bool)
    requires call.StatsCall? ==> nested
    ensures Disciplined(Program(call), NOTHING, nested)
  {
    var ops := Program(call);
    match call
    case EmbedCall(lookups, stores) =>
      var store := if stores then [Announce, Acquire, Unlock] else [];
      var rest := [RUnlock] + store;
      assert rest[1..] == store;
      if stores {
        assert store[1..] == [Acquire, Unlock] && store[1..][1..] == [Unlock] && store[1..][1..][1..] == [];
        assert Disciplined([Unlock], NOTHING.(writing := true), nested);
        assert Disciplined([Acquire, Unlock], NOTHING.(waiting := true), nested);
      }
      assert Disciplined(store, NOTHING, nested);
      CountsDisciplined(lookups, rest, nested);
      assert ops[1..] == Counts(lookups) + rest;
    case HitRateCall =>
      assert ops[1..] == [StatsUnlock] && ops[1..][1..] == [];
    case ClearCall =>
      assert ops[1..] == [Acquire, Unlock, StatsLock, StatsUnlock];
      assert ops[1..][1..] == [Unlock, StatsLock, StatsUnlock];
      assert [Unlock, StatsLock, StatsUnlock][1..] == [StatsLock, StatsUnlock];
      assert [StatsLock, StatsUnlock][1..] == [StatsUnlock] && [StatsUnlock][1..] == [];
    case StatsCall =>
      assert ops[1..] == [RLock, RUnlock, StatsUnlock];
      assert ops[1..][1..] == [RUnlock, StatsUnlock];
      assert [RUnlock, StatsUnlock][1..] == [StatsUnlock] && [StatsUnlock][1..] == [];
  }

  function Todo(s: State, t: Thread): seq<Op> {
    if t in s.todo then s.todo[t] else []
  }

  function Holds(s: State, t: Thread): Held {
    Held(t in s.locks.readers, s.locks.waiting == Some(t), s.locks.writer == Some(t), s.locks.stats == Some(t))
  }

  /**
   * Every thread's remaining operations are disciplined from what it holds; a writer keeps writers waiting elsewhere.
   */
  ghost predicate Inv(s: State, nested: bool) {
    && (s.locks.waiting.Some? ==> s.locks.writer.None?)
    && forall t: Thread :: Disciplined(Todo(s, t), Holds(s, t), nested)
  }

  lemma NextInv(s: State, move: Move, nested: bool)
    requires Inv(s, nested) && Next(s, move).Some?
    requires move.Begin? && move.call.StatsCall? ==> nested
    ensures Inv(Next(s, move).value, nested)
  {
    var next := Next(s, move).value;
    forall t: Thread ensures Disciplined(Todo(next, t), Holds(next, t), nested) {
      assert Disciplined(Todo(s, t), Holds(s, t), nested);
      assert Disciplined(Todo(s, move.t), Holds(s, move.t), nested);
      if move.Begin? {
        CallDisciplined(move.call, nested);
      }
    }
  }

  lemma {:induction false} RunInv(s: State, moves: seq<Move>, nested: bool)
    requires Inv(s, nested) && Run(s, moves).Some?
    requires forall k :: 0 <= k < |moves| ==> (moves[k].Begin? && moves[k].call.StatsCall? ==> nested)
    ensures Inv(Run(s, moves).value, nested)
    decreases |moves|
  {
    if moves != [] {
      NextInv(s, moves[0], nested);
      RunInv(Next(s, moves[0]).value, moves[1..], nested);
    }
  }

  // ---------- deadlock ----------

  /** The next operation of a thread that is in a call. */
  function NextOp(s: State, t: Thread): Op
    requires Busy(s, t)
  {
    s.todo[t][0]
  }

  /** A circle of three: a snapshot, a lookup and a waiting writer, each waiting for the next. */
  ghost predicate Circle(s: State, snapshot: Thread, lookup: Thread, writer: Thread) {
    && Busy(s, snapshot) && s.locks.stats == Some(snapshot) && NextOp(s, snapshot) == RLock
    && Busy(s, lookup) && lookup in s.locks.readers && NextOp(s, lookup) == StatsLock
    && Busy(s, writer) && s.locks.waiting == Some(writer) && NextOp(s, writer) == Acquire
  }

  lemma WriterGoesOn(s: State, w: Thread, nested: bool)
    requires Inv(s, nested) && s.locks.writer == Some(w)
    ensures Enabled(s, w)
  {
    assert Disciplined(Todo(s, w), Holds(s, w), nested);
  }

  /** A reader can go on unless it waits for `statsMu`. */
  lemma ReaderGoesOn(s: State, r: Thread, nested: bool)
    requires Inv(s, nested) && r in s.locks.readers
    ensures Busy(s, r) && (Enabled(s, r) || (NextOp(s, r) == StatsLock && s.locks.stats.Some?))
  {
    assert Disciplined(Todo(s, r), Holds(s, r), nested);
  }

  /** A waiting writer can go on unless there are readers. */
  lemma WaiterGoesOn(s: State, w: Thread, nested: bool)
    requires Inv(s, nested) && s.locks.waiting == Some(w)
    ensures Busy(s, w) && NextOp(s, w) == Acquire && (Enabled(s, w) || s.locks.readers != {})
  {
    assert Disciplined(Todo(s, w), Holds(s, w), nested);
  }

  /** The holder of `statsMu` can go on unless it is a snapshot that waits to read. */
  lemma StatsHolderGoesOn(s: State, h: Thread, nested: bool)
    requires Inv(s, nested) && s.locks.stats == Some(h)
    ensures Busy(s, h)
    ensures Enabled(s, h) || (nested && NextOp(s, h) == RLock && (s.locks.waiting.Some? || s.locks.writer.Some?))
  {
    assert Disciplined(Todo(s, h), Holds(s, h), nested);
  }

  /** Without a holder of `statsMu`, somebody can always go on. */
  lemma FreeStatsGoesOn(s: State, t: Thread, nested: bool) returns (u: Thread)
    requires Inv(s, nested) && Busy(s, t) && s.locks.stats.None?
    ensures Enabled(s, u)
  {
    u := t;
    if s.locks.writer.Some? {
      u := s.locks.writer.value;
      WriterGoesOn(s, u, nested);
    } else if s.locks.readers != {} {
      u :| u in s.locks.readers;
      ReaderGoesOn(s, u, nested);
    } else if s.locks.waiting.Some? {
      u := s.locks.waiting.value;
      WaiterGoesOn(s, u, nested);
    } else {
      assert Disciplined(Todo(s, t), Holds(s, t), nested);
    }
  }

  /** Threads can only get stuck in a circle of a snapshot, a lookup and a waiting writer. */
  lemma StuckMeansCircle(s: State)
    requires Inv(s, true) && Stuck(s)
    ensures exists snapshot, lookup, writer :: Circle(s, snapshot, lookup, writer)
  {
    var t :| Busy(s, t);
    if s.locks.stats.None? {
      var u := FreeStatsGoesOn(s, t, true);
    } else if s.locks.writer.Some? {
      WriterGoesOn(s, s.locks.writer.value, true);
    } else {
      var a := s.locks.stats.value;
      StatsHolderGoesOn(s, a, true);
      var c := s.locks.waiting.value;
      WaiterGoesOn(s, c, true);
      var b :| b in s.locks.readers;
      ReaderGoesOn(s, b, true);
      assert Circle(s, a, b, c);
    }
  }

  /** Any number of embeddings, hit rates and clears, in any interleaving, never get stuck. */
  lemma {:induction false} NeverStuck(moves: seq<Move>)
    requires Run(START, moves).Some?
    requires forall k :: 0 <= k < |moves| ==> !(moves[k].Begin? && moves[k].call.StatsCall?)
    ensures !Stuck(Run(START, moves).value)
  {
    var s := Run(START, moves).value;
    RunInv(START, moves, false);
    if t :| Busy(s, t) {
      if s.locks.stats.None? {
        var u := FreeStatsGoesOn(s, t, false);
      } else {
        StatsHolderGoesOn(s, s.locks.stats.value, false);
      }
    }
  }

  /** With snapshots as well, a run can only get stuck in a circle. */
  lemma StuckRunMeansCircle(moves: seq<Move>)
    requires Run(START, moves).Some? && Stuck(Run(START, moves).value)
    ensures exists snapshot, lookup, writer :: Circle(Run(START, moves).value, snapshot, lookup, writer)
  {
    RunInv(START, moves, true);
    StuckMeansCircle(Run(START, moves).value);
  }
}
