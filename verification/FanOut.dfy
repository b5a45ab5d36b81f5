/** The fan-out of `eino_retriever.go`. */
module FanOut {
  // One goroutine per sub-retriever sends its answer on a buffered channel; the caller receives as many answers
  // as there are sub-retrievers, or returns on the first error.

  import opened Wrappers
  import opened RankFusion
  import opened Hydration
  import Router

  type Cause = string

  type Answer = Result<seq<Document>, Cause>

  /** The sub-retrievers by name, and what each of them will answer. */
  type Subs = map<string, Answer>

  datatype Message = Message(name: string, answer: Answer)

  datatype Caller = Receiving | Failed(name: string, cause: Cause) | Merged(streams: Router.Streams)

  /** Goroutines not yet started, goroutines that have not sent, messages sent, and what the caller has. */
  datatype State = State(unstarted: set<string>, pending: set<string>, channel: seq<Message>, received: nat,
                         merged: Router.Streams, caller: Caller)

  datatype Move = Spawn(name: string) | Send(name: string) | Receive | Fuse

  function Start(subs: Subs): State {
    State(subs.Keys, {}, [], 0, map[], Receiving)
  }

  predicate MayReceive(subs: Subs, s: State) {
    s.caller.Receiving? && s.unstarted == {} && s.received < |subs| && s.channel != []
  }

  function Next(subs: Subs, s: State, move: Move): Option<State> {
    match move
    case Spawn(name) =>
      if name in s.unstarted then Some(s.(unstarted := s.unstarted - {name}, pending := s.pending + {name})) else None
    case Send(name) =>
      if name in s.pending && name in subs && |s.channel| < |subs|
      then Some(s.(pending := s.pending - {name}, channel := s.channel + [Message(name, subs[name])]))
      else None
    case Receive =>
      if !MayReceive(subs, s) then None
      else Some(Received(s, s.channel[0]).(channel := s.channel[1..]))
    case Fuse =>
      if s.caller.Receiving? && s.unstarted == {} && s.received == |subs| then Some(s.(caller := Merged(s.merged)))
      else None
  }

  function Received(s: State, message: Message): State {
    match message.answer
    case Err(cause) => s.(caller := Failed(message.name, cause))
    case Ok(docs) => s.(merged := s.merged[message.name := docs], received := s.received + 1)
  }

  function Run(subs: Subs, s: State, moves: seq<Move>): Option<State>
    decreases |moves|
  {
    if moves == [] then Some(s)
    else
      match Next(subs, s, moves[0])
      case None => None
      case Some(next) => Run(subs, next, moves[1..])
  }

  // ---------- the invariant ----------

  function Names(channel: seq<Message>): (r: seq<string>)
    ensures |r| == |channel| && forall k :: 0 <= k < |r| ==> r[k] == channel[k].name
  {
    seq(|channel|, k requires 0 <= k < |channel| => channel[k].name)
  }

  /** Where the sub-retrievers are, each counted as often as it is somewhere. */
  function Everyone(s: State): multiset<string> {
    multiset(s.unstarted) + multiset(s.pending) + multiset(Names(s.channel)) + multiset(s.merged.Keys)
  }

  /** Every sub-retriever is in one place, save one whose failure the caller has taken. */
  ghost predicate Placed(subs: Subs, s: State) {
    if s.caller.Failed? then Everyone(s) <= multiset(subs.Keys) else Everyone(s) == multiset(subs.Keys)
  }

  ghost predicate Truthful(subs: Subs, s: State) {
    && (forall k :: 0 <= k < |s.channel| ==>
        s.channel[k].name in subs && s.channel[k].answer == subs[s.channel[k].name])
    && (forall name :: name in s.merged ==> name in subs && subs[name] == Ok(s.merged[name]))
  }

  ghost predicate CallerRight(subs: Subs, s: State) {
    match s.caller
    case Receiving => true
    case Failed(name, cause) => name in subs && subs[name] == Err(cause)
    case Merged(streams) => streams == s.merged && s.merged.Keys == subs.Keys
  }

  ghost predicate Inv(subs: Subs, s: State) {
    Placed(subs, s) && Truthful(subs, s) && CallerRight(subs, s) && s.received == |s.merged|
  }

  lemma Count(subs: Subs, s: State)
    requires Placed(subs, s)
    ensures |s.unstarted| + |s.pending| + |s.channel| + |s.merged| <= |subs|
    ensures !s.caller.Failed? ==> |s.unstarted| + |s.pending| + |s.channel| + |s.merged| == |subs|
  {
    assert |s.merged.Keys| == |s.merged| && |subs.Keys| == |subs|;
    assert |Everyone(s)| == |s.unstarted| + |s.pending| + |s.channel| + |s.merged|;
    assert multiset(subs.Keys) == Everyone(s) + (multiset(subs.Keys) - Everyone(s));
  }

  lemma OnePlace(subs: Subs, s: State, name: string)
    requires Placed(subs, s)
    ensures Everyone(s)[name] <= 1
    ensures name in s.unstarted ==> name !in s.pending
    ensures name in Names(s.channel) ==> name !in s.merged
    ensures Everyone(s)[name] == 1 ==> name in subs
  {
    assert Everyone(s)[name] <= multiset(subs.Keys)[name] <= 1;
    assert name in Names(s.channel) <==> multiset(Names(s.channel))[name] >= 1;
  }

  lemma TakeOut(all: set<string>, name: string)
    requires name in all
    ensures multiset(all) == multiset(all - {name}) + multiset{name}
  {
    assert all == (all - {name}) + {name};
  }

  lemma PutIn(all: set<string>, name: string)
    requires name !in all
    ensures multiset(all + {name}) == multiset(all) + multiset{name}
  {
  }

  lemma SpawnInv(subs: Subs, s: State, name: string)
    requires Inv(subs, s) && Next(subs, s, Spawn(name)).Some?
    ensures Inv(subs, Next(subs, s, Spawn(name)).value)
  {
    OnePlace(subs, s, name);
    TakeOut(s.unstarted, name);
    PutIn(s.pending, name);
    assert Everyone(Next(subs, s, Spawn(name)).value) == Everyone(s);
  }

  lemma SendInv(subs: Subs, s: State, name: string)
    requires Inv(subs, s) && Next(subs, s, Send(name)).Some?
    ensures Inv(subs, Next(subs, s, Send(name)).value)
  {
    TakeOut(s.pending, name);
    var next := Next(subs, s, Send(name)).value;
    assert Names(next.channel) == Names(s.channel) + [name];
    assert Everyone(next) == Everyone(s);
  }

  lemma FirstName(channel: seq<Message>)
    requires channel != []
    ensures multiset(Names(channel)) == multiset(Names(channel[1..])) + multiset{channel[0].name}
    ensures channel[0].name in Names(channel)
  {
    assert Names(channel) == [channel[0].name] + Names(channel[1..]);
  }

  lemma Merge(merged: Router.Streams, name: string, docs: seq<Document>)
    requires name !in merged
    ensures multiset(merged[name := docs].Keys) == multiset(merged.Keys) + multiset{name}
    ensures |merged[name := docs]| == |merged| + 1
  {
    var more := merged[name := docs];
    assert more.Keys == merged.Keys + {name};
    assert |more.Keys| == |more| && |merged.Keys| == |merged|;
  }

  lemma ReceiveErrorInv(subs: Subs, s: State)
    requires Inv(subs, s) && Next(subs, s, Receive).Some? && s.channel[0].answer.Err?
    ensures Inv(subs, Next(subs, s, Receive).value)
  {
    FirstName(s.channel);
    assert Everyone(Next(subs, s, Receive).value) <= Everyone(s);
  }

  lemma ReceiveDocsInv(subs: Subs, s: State)
    requires Inv(subs, s) && Next(subs, s, Receive).Some? && s.channel[0].answer.Ok?
    ensures Inv(subs, Next(subs, s, Receive).value)
  {
    FirstName(s.channel);
    var next, name := Next(subs, s, Receive).value, s.channel[0].name;
    OnePlace(subs, s, name);
    Merge(s.merged, name, s.channel[0].answer.value);
    assert Everyone(next) == Everyone(s);
  }

  lemma FuseInv(subs: Subs, s: State)
    requires Inv(subs, s) && Next(subs, s, Fuse).Some?
    ensures Inv(subs, Next(subs, s, Fuse).value)
  {
    Count(subs, s);
    assert s.unstarted == {} && s.pending == {} && s.channel == [];
    assert Everyone(s) == multiset(s.merged.Keys);
    forall name ensures name in s.merged <==> name in subs {
      assert multiset(s.merged.Keys)[name] == multiset(subs.Keys)[name];
    }
  }

  lemma NextInv(subs: Subs, s: State, move: Move)
    requires Inv(subs, s) && Next(subs, s, move).Some?
    ensures Inv(subs, Next(subs, s, move).value)
  {
    match move
    case Spawn(name) => SpawnInv(subs, s, name);
    case Send(name) => SendInv(subs, s, name);
    case Receive =>
      if s.channel[0].answer.Err? {
        ReceiveErrorInv(subs, s);
      } else {
        ReceiveDocsInv(subs, s);
      }
    case Fuse => FuseInv(subs, s);
  }

  lemma {:induction false} RunInv(subs: Subs, s: State, moves: seq<Move>)
    requires Inv(subs, s) && Run(subs, s, moves).Some?
    ensures Inv(subs, Run(subs, s, moves).value)
    decreases |moves|
  {
    if moves != [] {
      NextInv(subs, s, moves[0]);
      RunInv(subs, Next(subs, s, moves[0]).value, moves[1..]);
    }
  }

  lemma StartInv(subs: Subs)
    ensures Inv(subs, Start(subs))
  {
  }

  // ---------- the main results ----------

  lemma RoomToSend(subs: Subs, s: State, name: string)
    requires Inv(subs, s) && name in s.pending
    ensures name in subs && |s.channel| < |subs|
  {
    Count(subs, s);
    OnePlace(subs, s, name);
    assert Everyone(s)[name] >= multiset(s.pending)[name] >= 1;
    assert s.pending != {};
  }

  /** The channel has room for every goroutine that still has to send, even after the caller has returned. */
  lemma SendNeverBlocks(subs: Subs, moves: seq<Move>, s: State, name: string)
    requires Run(subs, Start(subs), moves) == Some(s) && name in s.pending
    ensures Next(subs, s, Send(name)).Some?
  {
    StartInv(subs);
    RunInv(subs, Start(subs), moves);
    RoomToSend(subs, s, name);
  }

  ghost predicate Finished(subs: Subs, s: State) {
    forall move :: Next(subs, s, move).None?
  }

  /** Some move is always possible while the caller waits. */
  lemma NeverStuck(subs: Subs, moves: seq<Move>, s: State)
    requires Run(subs, Start(subs), moves) == Some(s) && s.caller.Receiving?
    ensures !Finished(subs, s)
  {
    StartInv(subs);
    RunInv(subs, Start(subs), moves);
    Count(subs, s);
    if name :| name in s.unstarted {
      assert Next(subs, s, Spawn(name)).Some?;
    } else if name :| name in s.pending {
      SendNeverBlocks(subs, moves, s, name);
      assert Next(subs, s, Send(name)).Some?;
    } else if s.received < |subs| {
      assert Next(subs, s, Receive).Some?;
    } else {
      assert Next(subs, s, Fuse).Some?;
    }
  }

  /** How many moves are left at most. */
  function Left(subs: Subs, s: State): nat {
    3 * |s.unstarted| + 2 * |s.pending| + |s.channel| + if s.caller.Receiving? then 1 else 0
  }

  lemma MoveUses(subs: Subs, s: State, move: Move)
    requires Inv(subs, s) && Next(subs, s, move).Some?
    ensures Left(subs, Next(subs, s, move).value) < Left(subs, s)
  {
  }

  /** No run takes more than three moves per sub-retriever and one more. */
  lemma {:induction false} RunsAreBounded(subs: Subs, s: State, moves: seq<Move>)
    requires Inv(subs, s) && Run(subs, s, moves).Some?
    ensures |moves| <= Left(subs, s)
    decreases |moves|
  {
    if moves != [] {
      NextInv(subs, s, moves[0]);
      MoveUses(subs, s, moves[0]);
      RunsAreBounded(subs, Next(subs, s, moves[0]).value, moves[1..]);
    }
  }

  predicate AllOk(subs: Subs) {
    forall name :: name in subs ==> subs[name].Ok?
  }

  function Answers(subs: Subs): Router.Streams
    requires AllOk(subs)
  {
    map name | name in subs :: subs[name].value
  }

  /** A caller that fuses has the answer of every sub-retriever under its name. */
  lemma MergedMeans(subs: Subs, moves: seq<Move>, s: State)
    requires Run(subs, Start(subs), moves) == Some(s) && s.caller.Merged?
    ensures AllOk(subs) && s.caller.streams == Answers(subs)
  {
    StartInv(subs);
    RunInv(subs, Start(subs), moves);
    assert forall name :: name in subs ==> subs[name] == Ok(s.merged[name]);
    assert s.merged == Answers(subs);
  }

  /**
   * In every interleaving that runs to its end, the caller fails exactly when some sub-retriever failed, with the
   * error of one that did; otherwise it fuses every answer under its name, in whatever order they arrived.
   */
  lemma EveryInterleaving(subs: Subs, moves: seq<Move>, s: State)
    requires Run(subs, Start(subs), moves) == Some(s) && Finished(subs, s)
    ensures s.caller.Failed? <==> !AllOk(subs)
    ensures s.caller.Failed? ==> s.caller.name in subs && subs[s.caller.name] == Err(s.caller.cause)
    ensures AllOk(subs) ==> s.caller == Merged(Answers(subs))
  {
    StartInv(subs);
    RunInv(subs, Start(subs), moves);
    if s.caller.Receiving? {
      NeverStuck(subs, moves, s);
    }
    if s.caller.Merged? {
      MergedMeans(subs, moves, s);
    }
  }

  lemma {:induction false} RunFurther(subs: Subs, s: State, moves: seq<Move>, move: Move)
    requires Run(subs, s, moves).Some? && Next(subs, Run(subs, s, moves).value, move).Some?
    ensures Run(subs, s, moves + [move]) == Next(subs, Run(subs, s, moves).value, move)
    decreases |moves|
  {
    if moves == [] {
      assert [] + [move] == [move];
    } else {
      assert (moves + [move])[1..] == moves[1..] + [move];
      RunFurther(subs, Next(subs, s, moves[0]).value, moves[1..], move);
    }
  }

  /** Every run can be continued to its end. */
  lemma {:induction false} RunsEnd(subs: Subs, moves: seq<Move>) returns (all: seq<Move>, s: State)
    requires Run(subs, Start(subs), moves).Some? && Inv(subs, Run(subs, Start(subs), moves).value)
    ensures moves <= all && Run(subs, Start(subs), all) == Some(s) && Finished(subs, s)
    decreases Left(subs, Run(subs, Start(subs), moves).value)
  {
    s := Run(subs, Start(subs), moves).value;
    if move :| Next(subs, s, move).Some? {
      NextInv(subs, s, move);
      MoveUses(subs, s, move);
      RunFurther(subs, Start(subs), moves, move);
      all, s := RunsEnd(subs, moves + [move]);
    } else {
      all := moves;
    }
  }

  /** Some run comes to its end. */
  lemma SomeRunEnds(subs: Subs) returns (moves: seq<Move>, s: State)
    ensures Run(subs, Start(subs), moves) == Some(s) && Finished(subs, s)
  {
    StartInv(subs);
    moves, s := RunsEnd(subs, []);
  }

  ghost predicate Fusion(weights: map<string, real>, streams: Router.Streams, docs: seq<Document>) {
    Router.IsFused(weights, RRF_K, streams, Ok(docs))
  }

  /** Two complete runs without failures end in fusions that differ in the order of ties only. */
  lemma ArrivalOrderIrrelevant(subs: Subs, weights: map<string, real>, first: seq<Move>, s: State, second: seq<Move>,
                               t: State)
    requires AllOk(subs)
    requires Run(subs, Start(subs), first) == Some(s) && Finished(subs, s)
    requires Run(subs, Start(subs), second) == Some(t) && Finished(subs, t)
    ensures s.caller.Merged? && t.caller.Merged?
    ensures forall a, b ::
      Fusion(weights, s.caller.streams, a) && Fusion(weights, t.caller.streams, b) ==> Router.SameScoreLists(a, b)
  {
    EveryInterleaving(subs, first, s);
    EveryInterleaving(subs, second, t);
    forall a, b | Fusion(weights, s.caller.streams, a) && Fusion(weights, t.caller.streams, b)
      ensures Router.SameScoreLists(a, b)
    {
      Router.WalksAgree(weights, RRF_K, Answers(subs), a, b);
    }
  }
}
