/** The producer's loop inside the pipeline: each of its turns is a lookup and at most one tick sent and
    acknowledged, so what holds of every interleaving holds of the loop. */
module PipelinedScan {
  import opened Wrappers
  import opened Retry
  import opened TransactionHandler
  import opened Pipeline
  import TS = TransactionScan
  import P = Plays
  import WT = WorkTrigger

  // What a turn sends.

  /** A scan that found nothing tells the consumer only of chains gone idle. */
  function IdleTick(l: TS.Loop): Option<Tick> {
    var idle := if l.cursor.None? then l.previous else l.previous - l.current;
    if idle == {} then None else Some(Tick([], idle))
  }

  /** The tick a turn sends, if it sends one. */
  function TickOf(l: TS.Loop, r: TS.Round): Option<Tick> {
    match TS.GetPendingTransactions(r.response)
    case LookupFailed => None
    case NoTransactions => IdleTick(l)
    case Rows(requests, next) =>
      if requests != [] then
        var current := (if l.cursor.None? then {} else l.current) + ChainsOf(requests);
        Some(Tick(requests, if next.None? then l.previous - current else {}))
      else if ShouldContinueEmptyDrain(l.cursor, next, l.unproductivePages) then None
      else IdleTick(l)
  }

  /** A turn that sends a tick records it with the outcome acknowledged, and stops without an acknowledgement. */
  ghost predicate Sends(turn: TS.Turn, tick: Option<Tick>, r: TS.Round) {
    (turn.ConsumerGone? <==> tick.Some? && r.ack.None?) &&
    (turn.Turned? ==>
       turn.entry.delivery ==
       if tick.Some? then Some(TS.Delivery(tick.value.batch, tick.value.idle, r.ack.value)) else None)
  }

  lemma RowsSendOnce(l: TS.Loop, e: TS.Entry, requests: seq<Request>, next: Option<Cursor>, r: TS.Round)
    ensures var idle := if next.None? then l.previous - (l.current + ChainsOf(requests)) else {};
            Sends(TS.AfterRows(l, e, requests, next, r), Some(Tick(requests, idle)), r)
  {
  }

  lemma EmptyScanSendsOnce(l: TS.Loop, e: TS.Entry, freshLookup: bool, retryRequired: bool, r: TS.Round)
    requires e.delivery.None?
    ensures var idle := l.previous - l.current;
            Sends(TS.EndEmptyScan(l, e, freshLookup, retryRequired, r),
                  if idle == {} then None else Some(Tick([], idle)), r)
  {
  }

  /** A turn sends at most one tick, and goes on only with its outcome. */
  lemma TurnSendsOnce(l: TS.Loop, r: TS.Round)
    ensures Sends(TS.Step(l, r), TickOf(l, r), r)
  {
    var (l1, e) := TS.LookedUp(l, r);
    assert l1.previous - {} == l1.previous;
    match e.lookup {
      case Rows(requests, next) =>
        if requests != [] {
          RowsSendOnce(l1, e, requests, next, r);
        } else if !ShouldContinueEmptyDrain(l.cursor, next, l.unproductivePages) {
          EmptyScanSendsOnce(l1, e, l.cursor.None?, l.retryRequired || next.Some?, r);
        }
      case NoTransactions =>
        EmptyScanSendsOnce(l1, e, l.cursor.None?, l.retryRequired, r);
      case LookupFailed =>
    }
  }

  // The producer's part of a run.

  predicate IsProducers(action: Action) {
    action.Lookup? || action.Rows? || action.NoRows? || action.Sending? || action.Failing? || action.SeeingAck?
  }

  function OfProducer(actions: seq<Action>): seq<Action> {
    if actions == [] then []
    else
      OfProducer(actions[..|actions| - 1]) +
      if IsProducers(actions[|actions| - 1]) then [actions[|actions| - 1]] else []
  }

  /** The producer's actions from its last lookup on. */
  function LastTurn(actions: seq<Action>): seq<Action> {
    if actions == [] then []
    else
      var last, before := actions[|actions| - 1], LastTurn(actions[..|actions| - 1]);
      if last.Lookup? then [last] else if IsProducers(last) then before + [last] else before
  }

  /** The producer's actions in a turn that hands over `tick`. */
  function TurnActions(tick: Option<Tick>): seq<Action> {
    [Lookup] + if tick.Some? then [Rows(tick.value), Sending, SeeingAck] else [NoRows]
  }

  /** Where in a turn the producer is. */
  ghost predicate InTurn(s: State, turn: seq<Action>) {
    match s.producer
    case AtLoopHead => turn == [] || exists tick :: turn == TurnActions(tick)
    case LookingUp => turn == [Lookup]
    case HasTick(tick) => turn == [Lookup, Rows(tick)]
    case AwaitingAck(_) => exists tick :: turn == [Lookup, Rows(tick), Sending]
    case Stopped =>
      exists tick :: turn == [Lookup, Rows(tick), Failing] || turn == [Lookup, Rows(tick), Sending, SeeingAck]
  }

  lemma StepStaysInTurn(s: State, s': State, action: Action, turn: seq<Action>, turn': seq<Action>)
    requires InTurn(s, turn) && Step(s, s', action)
    requires turn' == if action.Lookup? then [action] else if IsProducers(action) then turn + [action] else turn
    ensures InTurn(s', turn')
  {
    match action {
      case NoRows => assert turn' == TurnActions(None);
      case Sending => assert turn' == [Lookup, Rows(s.producer.tick), Sending];
      case Failing => assert turn' == [Lookup, Rows(s.producer.tick), Failing];
      case SeeingAck =>
        var tick :| turn == [Lookup, Rows(tick), Sending];
        assert turn' == TurnActions(Some(tick)) == [Lookup, Rows(tick), Sending, SeeingAck];
      case _ =>
    }
  }

  /** In every interleaving the producer goes in turns: a lookup, and then nothing found or one tick sent and one
      acknowledgement seen before the next lookup. */
  lemma {:induction false} ProducerGoesInTurns(run: seq<State>, actions: seq<Action>, i: nat)
    requires IsRun(run, actions) && i < |run|
    ensures InTurn(run[i], LastTurn(actions[..i]))
  {
    if i > 0 {
      ProducerGoesInTurns(run, actions, i - 1);
      assert Step(run[i - 1], run[i], actions[i - 1]);
      assert actions[..i][..i - 1] == actions[..i - 1];
      StepStaysInTurn(run[i - 1], run[i], actions[i - 1], LastTurn(actions[..i - 1]), LastTurn(actions[..i]));
    }
  }

  // The loop's plays are runs.

  lemma {:induction false} OfProducerConcat(a: seq<Action>, b: seq<Action>)
    ensures OfProducer(a + b) == OfProducer(a) + OfProducer(b)
  {
    if b == [] {
      assert a + b == a;
    } else {
      assert (a + b)[..|a + b| - 1] == a + b[..|b| - 1];
      OfProducerConcat(a, b[..|b| - 1]);
    }
  }

  lemma Joined(p: seq<State>, a: seq<Action>, q: seq<State>, b: seq<Action>) returns (path: seq<State>)
    requires IsPath(p, a) && IsPath(q, b) && p[|a|] == q[0]
    ensures IsPath(path, a + b) && path[0] == p[0] && path[|a + b|] == q[|b|]
    ensures OfProducer(a + b) == OfProducer(a) + OfProducer(b)
  {
    path := p + q[1..];
    OfProducerConcat(a, b);
    forall i | 0 <= i < |a + b| ensures Step(path[i], path[i + 1], (a + b)[i]) {
      if i >= |a| {
        assert path[i] == q[i - |a|] && path[i + 1] == q[i - |a| + 1];
      }
    }
  }

  /** The producer is about to look up and nothing is on its way. */
  predicate AtRest(s: State) {
    s.producer == AtLoopHead && s.consumer == Receiving && s.channel == [] && s.acks == map[]
  }

  /** The rows of a tick are pending and listed once. */
  predicate Listed(s: State, tick: Tick) {
    DistinctUuids(tick.batch) && BatchUuids(tick.batch) <= s.pending
  }

  /** The pipeline after a whole turn, with the tick handled as the platform answers. */
  function AfterTurn(s: State, tick: Option<Tick>, a: Answers): State {
    if tick.None? then s.(lookups := s.lookups + 1)
    else
      var handled := HandleTick(s.nonces, tick.value, a);
      s.(lookups := s.lookups + 1, nextId := s.nextId + 1, nonces := handled.nonces,
         pending := s.pending - AcceptedUuids(handled.accepted), accepted := s.accepted + handled.accepted)
  }

  function Handing(s: State, tick: Tick): State {
    s.(producer := AwaitingAck(s.nextId), channel := [(s.nextId, tick)], acks := map[s.nextId := Unsent],
       nextId := s.nextId + 1, lookups := s.lookups + 1)
  }

  lemma SendingPath(s: State, tick: Tick) returns (path: seq<State>, actions: seq<Action>)
    requires AtRest(s) && Listed(s, tick)
    ensures IsPath(path, actions) && path[0] == s && path[|actions|] == Handing(s, tick)
    ensures actions == [Lookup, Rows(tick), Sending]
  {
    var looking := s.(producer := LookingUp, lookups := s.lookups + 1);
    var found := looking.(producer := HasTick(tick));
    path, actions := [s, looking, found, Handing(s, tick)], [Lookup, Rows(tick), Sending];
    assert Step(found, Handing(s, tick), Sending);
  }

  lemma HandlingPath(s: State, tick: Tick, a: Answers) returns (path: seq<State>, actions: seq<Action>)
    requires AtRest(s)
    ensures IsPath(path, actions) && path[0] == Handing(s, tick) && path[|actions|] == AfterTurn(s, Some(tick), a)
    ensures actions == [Taking, Handling(a), Acking, SeeingAck]
    ensures path[|actions| - 1].acks == map[s.nextId := Sent(HandleTick(s.nonces, tick, a).outcome)]
  {
    var handled, sent := HandleTick(s.nonces, tick, a), Handing(s, tick);
    var taken := sent.(consumer := Holding(s.nextId, tick), channel := []);
    var done := taken.(consumer := Finished(s.nextId, handled.outcome), nonces := handled.nonces,
                       pending := s.pending - AcceptedUuids(handled.accepted),
                       accepted := s.accepted + handled.accepted);
    var acked := done.(consumer := Receiving, acks := map[s.nextId := Sent(handled.outcome)]);
    var rested := AfterTurn(s, Some(tick), a);
    assert Step(sent, taken, Taking);
    assert Step(taken, done, Handling(a));
    assert Step(done, acked, Acking);
    assert Step(acked, rested, SeeingAck);
    path, actions := [sent, taken, done, acked, rested], [Taking, Handling(a), Acking, SeeingAck];
  }

  lemma LookupPath(s: State) returns (path: seq<State>, actions: seq<Action>)
    requires AtRest(s)
    ensures IsPath(path, actions) && path[0] == s && path[|actions|] == s.(lookups := s.lookups + 1)
    ensures actions == [Lookup, NoRows]
  {
    var looking := s.(producer := LookingUp, lookups := s.lookups + 1);
    path, actions := [s, looking, looking.(producer := AtLoopHead)], [Lookup, NoRows];
  }

  lemma TurnProducers(tick: Tick, a: Answers)
    ensures OfProducer([Lookup, NoRows]) == [Lookup, NoRows]
    ensures OfProducer([Lookup, Rows(tick), Sending]) == [Lookup, Rows(tick), Sending]
    ensures OfProducer([Taking, Handling(a), Acking, SeeingAck]) == [SeeingAck]
  {
    assert [Lookup, NoRows][..1] == [Lookup] && [Lookup, Rows(tick)][..1] == [Lookup];
    assert [Lookup, Rows(tick), Sending][..2] == [Lookup, Rows(tick)];
    assert OfProducer([Lookup]) == [Lookup];
    assert OfProducer([Lookup, Rows(tick)]) == [Lookup, Rows(tick)];
    assert [Taking, Handling(a), Acking, SeeingAck][..3] == [Taking, Handling(a), Acking];
    assert [Taking, Handling(a), Acking][..2] == [Taking, Handling(a)] && [Taking, Handling(a)][..1] == [Taking];
    assert OfProducer([Taking]) == [] && OfProducer([Taking, Handling(a)]) == [];
    assert OfProducer([Taking, Handling(a), Acking]) == [];
  }

  /** Every turn can be taken by the pipeline. */
  lemma TurnPath(s: State, tick: Option<Tick>, a: Answers) returns (path: seq<State>, actions: seq<Action>)
    requires AtRest(s) && (tick.Some? ==> Listed(s, tick.value))
    ensures IsPath(path, actions) && path[0] == s && path[|actions|] == AfterTurn(s, tick, a)
    ensures OfProducer(actions) == TurnActions(tick)
  {
    TurnProducers(if tick.Some? then tick.value else Tick([], {}), a);
    if tick.None? {
      path, actions := LookupPath(s);
    } else {
      var sending, sends := SendingPath(s, tick.value);
      var handling, handles := HandlingPath(s, tick.value, a);
      path := Joined(sending, sends, handling, handles);
      actions := sends + handles;
    }
  }

  function Arrived(s: State, uuids: seq<Uuid>): State {
    s.(pending := s.pending + set u | u in uuids)
  }

  lemma {:induction false} ArrivalPath(s: State, uuids: seq<Uuid>) returns (path: seq<State>, actions: seq<Action>)
    requires forall u :: u in uuids ==> u !in AcceptedUuids(s.accepted)
    ensures IsPath(path, actions) && path[0] == s && path[|actions|] == Arrived(s, uuids)
    ensures OfProducer(actions) == []
  {
    if uuids == [] {
      assert Arrived(s, uuids) == s;
      path, actions := [s], [];
    } else {
      var last := uuids[|uuids| - 1];
      var before, earlier := ArrivalPath(s, uuids[..|uuids| - 1]);
      var next := Arrived(s, uuids);
      assert next == before[|earlier|].(pending := before[|earlier|].pending + {last});
      path := Joined(before, earlier, [before[|earlier|], next], [Arriving(last)]);
      actions := earlier + [Arriving(last)];
    }
  }

  /** What the world does around a turn: rows that arrive before it, and what the platform answers its tick. */
  datatype World = World(arrivals: seq<Uuid>, answers: Answers)

  /** The tick a turn sent. */
  function SentTick(e: TS.Entry): Option<Tick> {
    if e.delivery.None? then None else Some(Tick(e.delivery.value.batch, e.delivery.value.idle))
  }

  /** The pipeline after `n` turns of the loop. */
  function After(start: State, log: seq<TS.Entry>, worlds: seq<World>, n: nat): State
    requires n <= |log| && n <= |worlds|
  {
    if n == 0 then start
    else
      var w := worlds[n - 1];
      AfterTurn(Arrived(After(start, log, worlds, n - 1), w.arrivals), SentTick(log[n - 1]), w.answers)
  }

  /** Rows once accepted do not arrive again, a lookup lists pending rows once, and the outcome acknowledged is the
      one the consumer came to. */
  predicate Consistent(s: State, e: TS.Entry, w: World) {
    (forall u :: u in w.arrivals ==> u !in AcceptedUuids(s.accepted)) &&
    (e.delivery.Some? ==>
       Listed(Arrived(s, w.arrivals), SentTick(e).value) &&
       e.delivery.value.outcome == HandleTick(s.nonces, SentTick(e).value, w.answers).outcome)
  }

  ghost predicate AllConsistent(start: State, log: seq<TS.Entry>, worlds: seq<World>, n: nat) {
    n <= |log| && n <= |worlds| &&
    (n > 0 ==>
       AllConsistent(start, log, worlds, n - 1) &&
       Consistent(After(start, log, worlds, n - 1), log[n - 1], worlds[n - 1]))
  }

  function LogActions(log: seq<TS.Entry>, n: nat): seq<Action>
    requires n <= |log|
  {
    if n == 0 then [] else LogActions(log, n - 1) + TurnActions(SentTick(log[n - 1]))
  }

  lemma WorldTurnPath(s: State, e: TS.Entry, w: World) returns (path: seq<State>, actions: seq<Action>)
    requires AtRest(s) && Consistent(s, e, w)
    ensures IsPath(path, actions) && path[0] == s
    ensures path[|actions|] == AfterTurn(Arrived(s, w.arrivals), SentTick(e), w.answers)
    ensures OfProducer(actions) == TurnActions(SentTick(e))
  {
    var arriving, arrivals := ArrivalPath(s, w.arrivals);
    var turning, turn := TurnPath(Arrived(s, w.arrivals), SentTick(e), w.answers);
    path := Joined(arriving, arrivals, turning, turn);
    actions := arrivals + turn;
  }

  /** A run whose producer is at rest in state `s` after doing `done`. */
  ghost predicate RestsIn(run: seq<State>, actions: seq<Action>, s: State, done: seq<Action>) {
    IsRun(run, actions) && run[|actions|] == s && AtRest(s) && OfProducer(actions) == done
  }

  lemma RunGrows(before: seq<State>, earlier: seq<Action>, s: State, done: seq<Action>, e: TS.Entry, w: World)
    returns (run: seq<State>, actions: seq<Action>)
    requires RestsIn(before, earlier, s, done) && Consistent(s, e, w)
    ensures RestsIn(run, actions, AfterTurn(Arrived(s, w.arrivals), SentTick(e), w.answers),
                    done + TurnActions(SentTick(e)))
  {
    var path, turn := WorldTurnPath(s, e, w);
    run := Joined(before, earlier, path, turn);
    actions := earlier + turn;
  }

  /** What the loop logged, when its lookups listed pending rows and its outcomes were the consumer's, is a run of
      the pipeline in which the producer does, turn by turn, what the log says. */
  lemma {:induction false} LogIsRun(start: State, log: seq<TS.Entry>, worlds: seq<World>, n: nat)
    returns (run: seq<State>, actions: seq<Action>)
    requires Init(start) && AllConsistent(start, log, worlds, n)
    ensures RestsIn(run, actions, After(start, log, worlds, n), LogActions(log, n))
  {
    if n == 0 {
      run, actions := [start], [];
    } else {
      var s, e, w := After(start, log, worlds, n - 1), log[n - 1], worlds[n - 1];
      var before, earlier := LogIsRun(start, log, worlds, n - 1);
      run, actions := RunGrows(before, earlier, s, LogActions(log, n - 1), e, w);
    }
  }

  /** The producer's loop, the consumer and the platform together never have a row accepted twice. */
  lemma LoopNeverAcceptsTwice(trigger: WT.TriggerState, rounds: seq<TS.Round>, start: State, worlds: seq<World>, j: nat,
                              k: nat)
    requires var log := P.Turns(TS.Step, TS.Start(trigger), rounds).log;
             Init(start) && AllConsistent(start, log, worlds, |log|) &&
             j < k < |After(start, log, worlds, |log|).accepted|
    ensures var accepted := After(start, P.Turns(TS.Step, TS.Start(trigger), rounds).log, worlds,
                                  |P.Turns(TS.Step, TS.Start(trigger), rounds).log|).accepted;
            accepted[j].uuid != accepted[k].uuid
  {
    var log := P.Turns(TS.Step, TS.Start(trigger), rounds).log;
    var run, actions := LogIsRun(start, log, worlds, |log|);
    NoRowAcceptedTwice(run, actions, |actions|, j, k);
  }
}
