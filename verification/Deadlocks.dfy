/** When calls can deadlock. */
module Deadlocks {
  // A deadlock needs a snapshot, a lookup and a writer, and these three always suffice.

  import opened Wrappers
  import opened LockDiscipline

  /** Only calls of `allowed` begin. */
  ghost predicate Allows(allowed: iset<Call>, moves: seq<Move>) {
    forall k :: 0 <= k < |moves| && moves[k].Begin? ==> moves[k].call in allowed
  }

  ghost predicate CanStick(allowed: iset<Call>) {
    exists moves :: Allows(allowed, moves) && Run(START, moves).Some? && Stuck(Run(START, moves).value)
  }

  predicate IsWriter(call: Call) {
    call.ClearCall? || (call.EmbedCall? && call.stores)
  }

  predicate IsLookup(call: Call) {
    call.EmbedCall? && call.lookups > 0
  }

  /** A snapshot, a call that looks something up, and a call that writes. */
  ghost predicate HasCircle(allowed: iset<Call>) {
    && StatsCall in allowed
    && (exists lookup :: lookup in allowed && IsLookup(lookup))
    && (exists writer :: writer in allowed && IsWriter(writer))
  }

  // ---------- where the remaining operations come from ----------

  predicate EndOf(ops: seq<Op>, program: seq<Op>) {
    |ops| <= |program| && ops == program[|program| - |ops|..]
  }

  ghost predicate Begun(ops: seq<Op>, allowed: iset<Call>) {
    ops == [] || exists call :: call in allowed && EndOf(ops, Program(call))
  }

  /** What every thread still has to do is the end of an allowed call. */
  ghost predicate FromCalls(s: State, allowed: iset<Call>) {
    forall t: Thread :: Begun(Todo(s, t), allowed)
  }

  lemma EndLess(ops: seq<Op>, program: seq<Op>)
    requires EndOf(ops, program) && ops != []
    ensures EndOf(ops[1..], program)
  {
    var k := |program| - |ops|;
    assert program[k..][1..] == program[k + 1..];
  }

  lemma BegunLess(ops: seq<Op>, allowed: iset<Call>)
    requires Begun(ops, allowed) && ops != []
    ensures Begun(ops[1..], allowed)
  {
    var call :| call in allowed && EndOf(ops, Program(call));
    EndLess(ops, Program(call));
  }

  lemma NextFromCalls(s: State, move: Move, allowed: iset<Call>)
    requires FromCalls(s, allowed) && Next(s, move).Some? && (move.Begin? ==> move.call in allowed)
    ensures FromCalls(Next(s, move).value, allowed)
  {
    var next := Next(s, move).value;
    forall t: Thread ensures Begun(Todo(next, t), allowed) {
      assert Begun(Todo(s, t), allowed);
      if t == move.t {
        if move.Begin? {
          assert EndOf(Program(move.call), Program(move.call));
        } else {
          BegunLess(Todo(s, t), allowed);
        }
      }
    }
  }

  lemma {:induction false} RunFromCalls(s: State, moves: seq<Move>, allowed: iset<Call>)
    requires FromCalls(s, allowed) && Run(s, moves).Some? && Allows(allowed, moves)
    ensures FromCalls(Run(s, moves).value, allowed)
    decreases |moves|
  {
    if moves != [] {
      NextFromCalls(s, moves[0], allowed);
      RunFromCalls(Next(s, moves[0]).value, moves[1..], allowed);
    }
  }

  // ---------- what the members of a circle are doing ----------

  lemma {:induction false} CountsAreStats(n: nat, k: nat)
    requires k < |Counts(n)|
    ensures Counts(n)[k] == StatsLock || Counts(n)[k] == StatsUnlock
  {
    if k >= 2 {
      assert Counts(n)[k] == Counts(n - 1)[k - 2];
      CountsAreStats(n - 1, k - 2);
    }
  }

  /** Where an embedding reads, counts and acquires. */
  lemma EmbedOps(lookups: nat, stores: bool, k: nat)
    requires k < |Program(EmbedCall(lookups, stores))|
    ensures Program(EmbedCall(lookups, stores))[k] == RLock ==> k == 0
    ensures Program(EmbedCall(lookups, stores))[k] == StatsLock ==> lookups > 0
    ensures Program(EmbedCall(lookups, stores))[k] == Acquire ==> stores
  {
    if 0 < k <= |Counts(lookups)| {
      CountsAreStats(lookups, k - 1);
    }
  }

  /** No embedding can begin with `statsMu` held. */
  lemma EmbedBeginsFree(lookups: nat, stores: bool, held: Held)
    requires held.counting
    ensures !Disciplined(Program(EmbedCall(lookups, stores)), held, true)
  {
    var store := if stores then [Announce, Acquire, Unlock] else [];
    var rest := Counts(lookups) + ([RUnlock] + store);
    assert Program(EmbedCall(lookups, stores)) == [RLock] + rest;
    assert ([RLock] + rest)[1..] == rest;
    if lookups == 0 {
      assert rest == [RUnlock] + store;
      assert rest[1..] == store;
      assert !Disciplined(store, held.(reading := false), true);
    } else {
      assert rest[0] == Counts(lookups)[0] == StatsLock;
    }
    assert !Disciplined(rest, held.(reading := true), true);
  }

  lemma Origin(s: State, t: Thread, allowed: iset<Call>) returns (call: Call, k: nat)
    requires FromCalls(s, allowed) && Busy(s, t)
    ensures call in allowed && k < |Program(call)| && s.todo[t] == Program(call)[k..]
  {
    assert Begun(Todo(s, t), allowed);
    call :| call in allowed && EndOf(Todo(s, t), Program(call));
    k := |Program(call)| - |s.todo[t]|;
  }

  /** Who holds `statsMu` and wants to read is taking a snapshot. */
  lemma SnapshotIs(s: State, t: Thread, allowed: iset<Call>)
    requires FromCalls(s, allowed) && Inv(s, true) && Busy(s, t) && s.locks.stats == Some(t) && NextOp(s, t) == RLock
    ensures StatsCall in allowed
  {
    var call, k := Origin(s, t, allowed);
    assert Program(call)[k] == RLock;
    assert Disciplined(Todo(s, t), Holds(s, t), true);
    if call.EmbedCall? {
      EmbedDoesNotNest(call, k, Holds(s, t));
    }
  }

  /** An `Embed` does not read while it counts. */
  lemma EmbedDoesNotNest(call: Call, k: nat, held: Held)
    requires call.EmbedCall? && k < |Program(call)| && Program(call)[k] == RLock && held.counting
    ensures !Disciplined(Program(call)[k..], held, true)
  {
    EmbedOps(call.lookups, call.stores, k);
    assert Program(call)[0..] == Program(call);
    if Disciplined(Program(call)[k..], held, true) {
      EmbedBeginsFree(call.lookups, call.stores, held);
    }
  }

  /** No other call takes `statsMu` while it reads. */
  lemma OthersCannotFinish(call: Call, k: nat, held: Held)
    requires !call.EmbedCall? && held.reading && k < |Program(call)| && Program(call)[k] == StatsLock
    ensures !Disciplined(Program(call)[k..], held, true)
  {
    var ops := [StatsLock, StatsUnlock];
    assert ops[1..] == [StatsUnlock] && [StatsUnlock][1..] == [];
    assert !Disciplined(ops, held, true);
    assert Program(StatsCall)[1..] == [RLock, RUnlock, StatsUnlock];
    assert call.ClearCall? ==> Program(call)[3..] == ops;
    assert Program(call)[0..] == Program(call);
  }

  /** Who reads and wants `statsMu` is looking something up. */
  lemma LookupIs(s: State, t: Thread, allowed: iset<Call>) returns (call: Call)
    requires FromCalls(s, allowed) && Inv(s, true) && Busy(s, t) && t in s.locks.readers && NextOp(s, t) == StatsLock
    ensures call in allowed && IsLookup(call)
  {
    var k;
    call, k := Origin(s, t, allowed);
    assert Program(call)[k] == StatsLock;
    assert Disciplined(Todo(s, t), Holds(s, t), true);
    if call.EmbedCall? {
      EmbedOps(call.lookups, call.stores, k);
    } else {
      OthersCannotFinish(call, k, Holds(s, t));
    }
  }

  /** Who is about to acquire `mu` is writing. */
  lemma WriterIs(s: State, t: Thread, allowed: iset<Call>) returns (call: Call)
    requires FromCalls(s, allowed) && Busy(s, t) && NextOp(s, t) == Acquire
    ensures call in allowed && IsWriter(call)
  {
    var k;
    call, k := Origin(s, t, allowed);
    assert Program(call)[k] == Acquire;
    if call.EmbedCall? {
      EmbedOps(call.lookups, call.stores, k);
    }
  }

  lemma StuckHasCircle(allowed: iset<Call>, moves: seq<Move>)
    requires Allows(allowed, moves) && Run(START, moves).Some? && Stuck(Run(START, moves).value)
    ensures HasCircle(allowed)
  {
    var s := Run(START, moves).value;
    RunInv(START, moves, true);
    assert FromCalls(START, allowed);
    RunFromCalls(START, moves, allowed);
    StuckMeansCircle(s);
    var snapshot, lookup, writer :| Circle(s, snapshot, lookup, writer);
    SnapshotIs(s, snapshot, allowed);
    var l := LookupIs(s, lookup, allowed);
    var w := WriterIs(s, writer, allowed);
  }

  // ---------- a run into the circle ----------

  lemma {:induction false} RunAppend(s: State, first: seq<Move>, second: seq<Move>)
    requires Run(s, first).Some?
    ensures Run(s, first + second) == Run(Run(s, first).value, second)
    decreases |first|
  {
    if first == [] {
      assert first + second == second;
    } else {
      assert (first + second)[1..] == first[1..] + second;
      RunAppend(Next(s, first[0]).value, first[1..], second);
    }
  }

  lemma RunStep(s: State, move: Move, rest: seq<Move>)
    requires Next(s, move).Some?
    ensures Run(s, [move] + rest) == Run(Next(s, move).value, rest)
  {
    assert ([move] + rest)[1..] == rest;
  }

  ghost predicate OnlyGoes(moves: seq<Move>) {
    forall k :: 0 <= k < |moves| ==> moves[k].Go?
  }

  /** A thread alone. */
  function Alone(t: Thread, ops: seq<Op>, locks: Locks): State {
    State(map[t := ops], locks)
  }

  const FREE: Locks := Locks({}, None, None, None)

  lemma GoAlone(t: Thread, op: Op, rest: seq<Op>, locks: Locks)
    requires CanDo(locks, t, op)
    ensures Next(Alone(t, [op] + rest, locks), Go(t)) == Some(Alone(t, rest, Do(locks, t, op)))
  {
    assert ([op] + rest)[1..] == rest;
    assert map[t := [op] + rest][t := rest] == map[t := rest];
  }

  lemma CountAlone(t: Thread, rest: seq<Op>, locks: Locks, more: seq<Move>)
    requires locks.stats.None?
    ensures Run(Alone(t, [StatsLock] + ([StatsUnlock] + rest), locks), [Go(t)] + ([Go(t)] + more))
      == Run(Alone(t, rest, locks), more)
  {
    var counting := locks.(stats := Some(t));
    GoAlone(t, StatsLock, [StatsUnlock] + rest, locks);
    RunStep(Alone(t, [StatsLock] + ([StatsUnlock] + rest), locks), Go(t), [Go(t)] + more);
    GoAlone(t, StatsUnlock, rest, counting);
    RunStep(Alone(t, [StatsUnlock] + rest, counting), Go(t), more);
  }

  lemma {:induction false} CountsAlone(t: Thread, n: nat, rest: seq<Op>, locks: Locks) returns (moves: seq<Move>)
    requires locks.stats.None?
    ensures OnlyGoes(moves) && Run(Alone(t, Counts(n) + rest, locks), moves) == Some(Alone(t, rest, locks))
  {
    if n == 0 {
      moves := [];
      assert [] + rest == rest;
    } else {
      var more := CountsAlone(t, n - 1, rest, locks);
      moves := [Go(t)] + ([Go(t)] + more);
      assert Counts(n) + rest == [StatsLock] + ([StatsUnlock] + (Counts(n - 1) + rest));
      CountAlone(t, Counts(n - 1) + rest, locks, more);
    }
  }

  /** Any writer can get to where it is about to announce itself, with all locks free. */
  lemma WriterArrives(t: Thread, call: Call) returns (moves: seq<Move>, ops: seq<Op>)
    requires IsWriter(call)
    ensures OnlyGoes(moves) && Run(Alone(t, Program(call), FREE), moves) == Some(Alone(t, ops, FREE))
    ensures |ops| >= 2 && ops[0] == Announce && ops[1] == Acquire
  {
    if call.ClearCall? {
      moves, ops := [], Program(call);
    } else {
      var reading := FREE.(readers := {t});
      ops := [Announce, Acquire, Unlock];
      var counts := CountsAlone(t, call.lookups, [RUnlock] + ops, reading);
      assert Program(call) == [RLock] + (Counts(call.lookups) + ([RUnlock] + ops));
      GoAlone(t, RLock, Counts(call.lookups) + ([RUnlock] + ops), FREE);
      assert {} + {t} == {t} && {t} - {t} == {};
      RunStep(Alone(t, Program(call), FREE), Go(t), counts + [Go(t)]);
      RunAppend(Alone(t, Counts(call.lookups) + ([RUnlock] + ops), reading), counts, [Go(t)]);
      GoAlone(t, RUnlock, ops, reading);
      RunStep(Alone(t, [RUnlock] + ops, reading), Go(t), []);
      assert [Go(t)] + [] == [Go(t)];
      moves := [Go(t)] + (counts + [Go(t)]);
    }
  }

  /** Three threads: a snapshot, a lookup and a writer. */
  function Three(a: seq<Op>, b: seq<Op>, w: seq<Op>, locks: Locks): State {
    State(map[0 := a, 1 := b, 2 := w], locks)
  }

  lemma CallsBegin(lookup: Call, ops: seq<Op>)
    ensures Run(Alone(2, ops, FREE), [Begin(0, StatsCall)] + ([Begin(1, lookup)] + []))
      == Some(Three(Program(StatsCall), Program(lookup), ops, FREE))
  {
    var one := State(map[2 := ops][0 := Program(StatsCall)], FREE);
    RunStep(Alone(2, ops, FREE), Begin(0, StatsCall), [Begin(1, lookup)] + []);
    RunStep(one, Begin(1, lookup), []);
    assert map[2 := ops][0 := Program(StatsCall)][1 := Program(lookup)]
      == map[0 := Program(StatsCall), 1 := Program(lookup), 2 := ops];
  }

  /** One step each: the snapshot takes `statsMu`, the lookup reads, the writer announces itself. */
  lemma CircleCloses(a: seq<Op>, b: seq<Op>, w: seq<Op>)
    requires |a| >= 2 && a[0] == StatsLock && a[1] == RLock
    requires |b| >= 2 && b[0] == RLock && b[1] == StatsLock
    requires |w| >= 2 && w[0] == Announce && w[1] == Acquire
    ensures Run(Three(a, b, w, FREE), [Go(0)] + ([Go(1)] + ([Go(2)] + [])))
      == Some(Three(a[1..], b[1..], w[1..], Locks({1}, Some(2), None, Some(0))))
  {
    var l1, l2 := FREE.(stats := Some(0)), Locks({1}, None, None, Some(0));
    assert map[0 := a, 1 := b, 2 := w][0 := a[1..]] == map[0 := a[1..], 1 := b, 2 := w];
    RunStep(Three(a, b, w, FREE), Go(0), [Go(1)] + ([Go(2)] + []));
    assert map[0 := a[1..], 1 := b, 2 := w][1 := b[1..]] == map[0 := a[1..], 1 := b[1..], 2 := w];
    assert {} + {1} == {1};
    RunStep(Three(a[1..], b, w, l1), Go(1), [Go(2)] + []);
    assert map[0 := a[1..], 1 := b[1..], 2 := w][2 := w[1..]] == map[0 := a[1..], 1 := b[1..], 2 := w[1..]];
    RunStep(Three(a[1..], b[1..], w, l2), Go(2), []);
  }

  lemma CircleSticks(a: seq<Op>, b: seq<Op>, w: seq<Op>)
    requires a != [] && a[0] == RLock && b != [] && b[0] == StatsLock && w != [] && w[0] == Acquire
    ensures Stuck(Three(a, b, w, Locks({1}, Some(2), None, Some(0))))
  {
    var s := Three(a, b, w, Locks({1}, Some(2), None, Some(0)));
    assert Busy(s, 0);
  }

  function Closing(lookup: Call): seq<Move> {
    [Begin(0, StatsCall)] + ([Begin(1, lookup)] + []) + ([Go(0)] + ([Go(1)] + ([Go(2)] + [])))
  }

  /** From a writer that is about to announce itself into the circle. */
  lemma ClosingSticks(lookup: Call, w: seq<Op>)
    requires IsLookup(lookup) && |w| >= 2 && w[0] == Announce && w[1] == Acquire
    ensures Run(Alone(2, w, FREE), Closing(lookup)).Some? && Stuck(Run(Alone(2, w, FREE), Closing(lookup)).value)
  {
    var a, b := Program(StatsCall), Program(lookup);
    CallsBegin(lookup, w);
    RunAppend(Alone(2, w, FREE), [Begin(0, StatsCall)] + ([Begin(1, lookup)] + []),
              [Go(0)] + ([Go(1)] + ([Go(2)] + [])));
    assert b[1] == Counts(lookup.lookups)[0] == StatsLock;
    CircleCloses(a, b, w);
    CircleSticks(a[1..], b[1..], w[1..]);
  }

  lemma ArriveAndClose(lookup: Call, ops: seq<Op>, arrive: seq<Move>, w: seq<Op>)
    requires IsLookup(lookup) && |w| >= 2 && w[0] == Announce && w[1] == Acquire
    requires Run(Alone(2, ops, FREE), arrive) == Some(Alone(2, w, FREE))
    ensures Run(Alone(2, ops, FREE), arrive + Closing(lookup)).Some?
    ensures Stuck(Run(Alone(2, ops, FREE), arrive + Closing(lookup)).value)
  {
    RunAppend(Alone(2, ops, FREE), arrive, Closing(lookup));
    ClosingSticks(lookup, w);
  }

  lemma WriterBegins(writer: Call, moves: seq<Move>)
    ensures Run(START, [Begin(2, writer)] + moves) == Run(Alone(2, Program(writer), FREE), moves)
  {
    assert map[][2 := Program(writer)] == map[2 := Program(writer)];
    RunStep(START, Begin(2, writer), moves);
  }

  /** A snapshot, a lookup and a writer, whichever they are, can get stuck. */
  lemma CircleCanStick(lookup: Call, writer: Call) returns (moves: seq<Move>)
    requires IsLookup(lookup) && IsWriter(writer)
    ensures Run(START, moves).Some? && Stuck(Run(START, moves).value)
    ensures Allows(iset{StatsCall, lookup, writer}, moves)
  {
    var arrive, w := WriterArrives(2, writer);
    moves := [Begin(2, writer)] + (arrive + Closing(lookup));
    WriterBegins(writer, arrive + Closing(lookup));
    ArriveAndClose(lookup, Program(writer), arrive, w);
    CircleAllowed(lookup, writer, arrive);
  }

  lemma CircleAllowed(lookup: Call, writer: Call, arrive: seq<Move>)
    requires OnlyGoes(arrive)
    ensures Allows(iset{StatsCall, lookup, writer}, [Begin(2, writer)] + (arrive + Closing(lookup)))
  {
  }

  /**
   * Calls can deadlock exactly when a snapshot, a call that looks something up and a call that writes are among them.
   */
  lemma CanStickIff(allowed: iset<Call>)
    ensures CanStick(allowed) <==> HasCircle(allowed)
  {
    if CanStick(allowed) {
      var moves :| Allows(allowed, moves) && Run(START, moves).Some? && Stuck(Run(START, moves).value);
      StuckHasCircle(allowed, moves);
    }
    if HasCircle(allowed) {
      var lookup :| lookup in allowed && IsLookup(lookup);
      var writer :| writer in allowed && IsWriter(writer);
      var moves := CircleCanStick(lookup, writer);
      assert Allows(allowed, moves);
    }
  }
}
