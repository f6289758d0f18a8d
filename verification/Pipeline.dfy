/** The transaction pipeline as a system of interleaved steps: the producer looks up a page and sends one
    tick, the consumer handles it and acknowledges it, the platform gains and loses pending rows at any
    time, and the consumer may panic while it holds a tick. */
module Pipeline {
  import opened TransactionHandler
  import opened NonceProperties

  type TickId = nat

  datatype Ack = Unsent | Sent(outcome: BatchOutcome) | Dropped

  datatype Producer =
    | AtLoopHead
    | LookingUp
    | HasTick(tick: Tick)
    | AwaitingAck(id: TickId)
    | Stopped

  datatype Consumer =
    | Receiving
    | Holding(id: TickId, tick: Tick)
    | Finished(id: TickId, outcome: BatchOutcome)
    | Panicked

  datatype State = State(
    producer: Producer,
    channel: seq<(TickId, Tick)>,
    consumer: Consumer,
    acks: map<TickId, Ack>,
    nonces: Nonces,
    pending: set<Uuid>,
    accepted: seq<Input>,
    nextId: TickId,
    lookups: nat)

  /** The channel's capacity. */
  const CAPACITY := 1

  predicate Init(s: State) {
    s.producer == AtLoopHead && s.channel == [] && s.consumer == Receiving && s.acks == map[] &&
    s.nonces == map[] && s.accepted == [] && s.nextId == 0 && s.lookups == 0
  }

  function AcceptedUuids(accepted: seq<Input>): set<Uuid> {
    set input | input in accepted :: input.uuid
  }

  function BatchUuids(batch: seq<Request>): set<Uuid> {
    set r | r in batch :: r.uuid
  }

  predicate DistinctUuids(batch: seq<Request>) {
    forall i, j :: 0 <= i < j < |batch| ==> batch[i].uuid != batch[j].uuid
  }

  // The producer's steps.

  predicate StartLookup(s: State, s': State) {
    s.producer == AtLoopHead && s' == s.(producer := LookingUp, lookups := s.lookups + 1)
  }

  /** The platform lists distinct pending rows; the producer makes a tick of them. */
  predicate LookupReturnsRows(s: State, s': State, tick: Tick) {
    s.producer == LookingUp && DistinctUuids(tick.batch) && BatchUuids(tick.batch) <= s.pending &&
    s' == s.(producer := HasTick(tick))
  }

  predicate LookupReturnsNothing(s: State, s': State) {
    s.producer == LookingUp && s' == s.(producer := AtLoopHead)
  }

  predicate Send(s: State, s': State) {
    s.producer.HasTick? && s.consumer != Panicked && |s.channel| < CAPACITY &&
    s' == s.(producer := AwaitingAck(s.nextId),
             channel := s.channel + [(s.nextId, s.producer.tick)],
             acks := s.acks[s.nextId := Unsent],
             nextId := s.nextId + 1)
  }

  predicate SendFails(s: State, s': State) {
    s.producer.HasTick? && s.consumer == Panicked && s' == s.(producer := Stopped)
  }

  predicate SeeAck(s: State, s': State) {
    s.producer.AwaitingAck? && s.producer.id in s.acks &&
    match s.acks[s.producer.id]
    case Unsent => false
    case Sent(_) => s' == s.(producer := AtLoopHead, acks := s.acks - {s.producer.id})
    case Dropped => s' == s.(producer := Stopped, acks := s.acks - {s.producer.id})
  }

  // The consumer's steps.

  predicate Receive(s: State, s': State) {
    s.consumer == Receiving && s.channel != [] &&
    s' == s.(consumer := Holding(s.channel[0].0, s.channel[0].1), channel := s.channel[1..])
  }

  /** Sign and submit; rows the platform accepts are no longer pending. */
  predicate HandleHeld(s: State, s': State, a: Answers) {
    s.consumer.Holding? &&
    var handled := HandleTick(s.nonces, s.consumer.tick, a);
    s' == s.(consumer := Finished(s.consumer.id, handled.outcome),
             nonces := handled.nonces,
             pending := s.pending - AcceptedUuids(handled.accepted),
             accepted := s.accepted + handled.accepted)
  }

  predicate SendAck(s: State, s': State) {
    s.consumer.Finished? &&
    s' == s.(consumer := Receiving, acks := s.acks[s.consumer.id := Sent(s.consumer.outcome)])
  }

  /** A panic while a tick is held drops its acknowledgement and everything still queued. */
  predicate Panic(s: State, s': State) {
    (s.consumer.Holding? || s.consumer.Finished?) &&
    s' == s.(consumer := Panicked, channel := [],
             acks := map id | id in s.acks :: if s.acks[id] == Unsent then Dropped else s.acks[id])
  }

  // The platform's steps.

  predicate RowArrives(s: State, s': State, uuid: Uuid) {
    uuid !in AcceptedUuids(s.accepted) && s' == s.(pending := s.pending + {uuid})
  }

  predicate RowWithdrawn(s: State, s': State, uuid: Uuid) {
    s' == s.(pending := s.pending - {uuid})
  }

  datatype Action =
    | Lookup
    | Rows(tick: Tick)
    | NoRows
    | Sending
    | Failing
    | SeeingAck
    | Taking
    | Handling(answers: Answers)
    | Acking
    | Panicking
    | Arriving(uuid: Uuid)
    | Withdrawing(uuid: Uuid)

  predicate Step(s: State, s': State, action: Action) {
    match action
    case Lookup => StartLookup(s, s')
    case Rows(tick) => LookupReturnsRows(s, s', tick)
    case NoRows => LookupReturnsNothing(s, s')
    case Sending => Send(s, s')
    case Failing => SendFails(s, s')
    case SeeingAck => SeeAck(s, s')
    case Taking => Receive(s, s')
    case Handling(answers) => HandleHeld(s, s', answers)
    case Acking => SendAck(s, s')
    case Panicking => Panic(s, s')
    case Arriving(uuid) => RowArrives(s, s', uuid)
    case Withdrawing(uuid) => RowWithdrawn(s, s', uuid)
  }

  /** States, and the step taken from each to the next. */
  ghost predicate IsPath(path: seq<State>, actions: seq<Action>) {
    |path| == |actions| + 1 && forall i :: 0 <= i < |actions| ==> Step(path[i], path[i + 1], actions[i])
  }

  ghost predicate IsRun(run: seq<State>, actions: seq<Action>) {
    IsPath(run, actions) && Init(run[0])
  }

  // One tick at a time.

  /** Ticks queued, held, or not yet acknowledged to the producer. */
  function Outstanding(s: State): set<TickId> {
    (set t | t in s.channel :: t.0) +
    (if s.consumer.Holding? || s.consumer.Finished? then {s.consumer.id} else {}) +
    s.acks.Keys
  }

  /** Where the one outstanding tick is. */
  ghost predicate InFlight(s: State, id: TickId) {
    s.acks.Keys == {id} && id < s.nextId &&
    match s.acks[id]
    case Unsent =>
      (s.consumer == Receiving && |s.channel| == 1 && s.channel[0].0 == id) ||
      (s.channel == [] && (s.consumer.Holding? || s.consumer.Finished?) && s.consumer.id == id)
    case Sent(_) => s.channel == [] && s.consumer == Receiving
    case Dropped => s.channel == [] && s.consumer == Panicked
  }

  ghost predicate OneTick(s: State) {
    if s.producer.AwaitingAck? then InFlight(s, s.producer.id)
    else
      s.channel == [] && s.acks == map[] &&
      s.consumer == if s.producer == Stopped then Panicked else Receiving
  }

  lemma StepKeepsOneTick(s: State, s': State, action: Action)
    requires OneTick(s) && Step(s, s', action)
    ensures OneTick(s')
  {
  }

  // Each row accepted once.

  ghost predicate FreshBatch(s: State, batch: seq<Request>) {
    DistinctUuids(batch) && BatchUuids(batch) !! AcceptedUuids(s.accepted)
  }

  ghost predicate RowsOnce(s: State) {
    (forall i, j :: 0 <= i < j < |s.accepted| ==> s.accepted[i].uuid != s.accepted[j].uuid) &&
    s.pending !! AcceptedUuids(s.accepted) &&
    (s.producer.HasTick? ==> FreshBatch(s, s.producer.tick.batch)) &&
    (forall i :: 0 <= i < |s.channel| ==> FreshBatch(s, s.channel[i].1.batch)) &&
    (s.consumer.Holding? ==> FreshBatch(s, s.consumer.tick.batch))
  }

  /** Rows picked in order are picked at most once. */
  lemma PickedOnce(batch: seq<Request>, indices: seq<nat>, picked: seq<Input>)
    requires DistinctUuids(batch) && |picked| == |indices| && (forall j :: 0 <= j < |indices| ==> indices[j] < |batch|)
    requires forall i, j :: 0 <= i < j < |indices| ==> indices[i] < indices[j]
    requires forall j :: 0 <= j < |indices| ==> picked[j].uuid == batch[indices[j]].uuid
    ensures AcceptedUuids(picked) <= BatchUuids(batch)
    ensures forall i, j :: 0 <= i < j < |picked| ==> picked[i].uuid != picked[j].uuid
  {
  }

  /** What a tick gets accepted comes from its batch, each row at most once. */
  lemma AcceptedFromBatch(nonces: Nonces, tick: Tick, a: Answers)
    requires DistinctUuids(tick.batch)
    ensures var accepted := HandleTick(nonces, tick, a).accepted;
            AcceptedUuids(accepted) <= BatchUuids(tick.batch) &&
            forall i, j :: 0 <= i < j < |accepted| ==> accepted[i].uuid != accepted[j].uuid
  {
    if tick.batch != [] {
      BatchOutcomeExact(EvictChains(nonces, tick.idle), tick.batch, a);
      PickedOnce(tick.batch, if a.submits then SubmittedIndices(tick.batch, a) else [],
                 HandleTick(nonces, tick, a).accepted);
    }
  }

  lemma HandlingKeepsRowsOnce(s: State, s': State, a: Answers)
    requires OneTick(s) && RowsOnce(s) && HandleHeld(s, s', a)
    ensures RowsOnce(s')
  {
    var accepted := HandleTick(s.nonces, s.consumer.tick, a).accepted;
    AcceptedFromBatch(s.nonces, s.consumer.tick, a);
    assert AcceptedUuids(s'.accepted) == AcceptedUuids(s.accepted) + AcceptedUuids(accepted);
    forall i, j | 0 <= i < j < |s'.accepted|
      ensures s'.accepted[i].uuid != s'.accepted[j].uuid
    {
      if i < |s.accepted| <= j {
        assert s.accepted[i].uuid in AcceptedUuids(s.accepted);
        assert accepted[j - |s.accepted|].uuid in AcceptedUuids(accepted);
      }
    }
  }

  lemma StepKeepsRowsOnce(s: State, s': State, action: Action)
    requires OneTick(s) && RowsOnce(s) && Step(s, s', action)
    ensures RowsOnce(s')
  {
    if action.Handling? {
      HandlingKeepsRowsOnce(s, s', action.answers);
    }
  }

  lemma {:induction false} RunInvariant(run: seq<State>, actions: seq<Action>, i: nat)
    requires IsRun(run, actions) && i < |run|
    ensures OneTick(run[i]) && RowsOnce(run[i])
  {
    if i > 0 {
      RunInvariant(run, actions, i - 1);
      assert Step(run[i - 1], run[i], actions[i - 1]);
      StepKeepsOneTick(run[i - 1], run[i], actions[i - 1]);
      StepKeepsRowsOnce(run[i - 1], run[i], actions[i - 1]);
    }
  }

  lemma OutstandingOne(s: State)
    requires OneTick(s)
    ensures Outstanding(s) == if s.producer.AwaitingAck? then {s.producer.id} else {}
    ensures |Outstanding(s)| <= 1
  {
    assert Outstanding(s) == if s.producer.AwaitingAck? then {s.producer.id} else {};
  }

  /** In every interleaving at most one tick is queued, held or unacknowledged, and none is when a lookup
      is issued, which also means the consumer is alive and idle. */
  lemma OneTickAtATime(run: seq<State>, actions: seq<Action>, i: nat)
    requires IsRun(run, actions) && i < |run|
    ensures |Outstanding(run[i])| <= 1
    ensures i < |actions| && actions[i] == Lookup ==> Outstanding(run[i]) == {} && run[i].consumer == Receiving
  {
    RunInvariant(run, actions, i);
    OutstandingOne(run[i]);
    if i < |actions| && actions[i] == Lookup {
      assert Step(run[i], run[i + 1], actions[i]);
    }
  }

  /** The producer's send never waits for room in the channel: with a tick in hand it either goes in at
      once or finds the receiver gone. */
  lemma SendNeverBlocks(run: seq<State>, actions: seq<Action>, i: nat)
    requires IsRun(run, actions) && i < |run| && run[i].producer.HasTick?
    ensures |run[i].channel| < CAPACITY && run[i].channel == []
  {
    RunInvariant(run, actions, i);
  }

  lemma {:induction false} PanicIsFinal(run: seq<State>, actions: seq<Action>, i: nat, j: nat)
    requires IsRun(run, actions) && i <= j < |run| && run[i].consumer == Panicked
    ensures run[j].consumer == Panicked && run[j].lookups == run[i].lookups
    decreases j - i
  {
    if i < j {
      PanicIsFinal(run, actions, i, j - 1);
      RunInvariant(run, actions, j - 1);
      assert Step(run[j - 1], run[j], actions[j - 1]);
    }
  }

  /** Once the consumer has panicked, no lookup is ever issued again. */
  lemma NoLookupAfterPanic(run: seq<State>, actions: seq<Action>, i: nat, j: nat)
    requires IsRun(run, actions) && i <= j < |actions| && run[i].consumer == Panicked
    ensures actions[j] != Lookup
  {
    PanicIsFinal(run, actions, i, j);
    RunInvariant(run, actions, j);
    assert Step(run[j], run[j + 1], actions[j]);
  }

  /** In every interleaving no row is accepted twice. */
  lemma NoRowAcceptedTwice(run: seq<State>, actions: seq<Action>, i: nat, j: nat, k: nat)
    requires IsRun(run, actions) && i < |run| && j < k < |run[i].accepted|
    ensures run[i].accepted[j].uuid != run[i].accepted[k].uuid
  {
    RunInvariant(run, actions, i);
  }

  // Nonces, in the same interleavings.

  ghost predicate NoncesAgree(start: NonceKey -> nat, s: State) {
    InStep(start, s.accepted, s.nonces) && Consecutive(start, s.accepted)
  }

  /** The platform's promise about `GetAccountNonce`, whenever a tick is handled. */
  ghost predicate PlatformHonest(start: NonceKey -> nat, run: seq<State>, actions: seq<Action>)
    requires IsRun(run, actions)
  {
    forall i :: 0 <= i < |actions| && actions[i].Handling? && run[i].consumer.Holding? ==>
      PlatformNonces(start, run[i].accepted, EvictChains(run[i].nonces, run[i].consumer.tick.idle), actions[i].answers)
  }

  /** In every interleaving the accepted nonces of each signer are consecutive, with no gap and no
      repeat. */
  lemma {:induction false} NoncesStayConsecutive(start: NonceKey -> nat, run: seq<State>, actions: seq<Action>, i: nat)
    requires IsRun(run, actions) && PlatformHonest(start, run, actions) && i < |run|
    ensures NoncesAgree(start, run[i])
  {
    if i > 0 {
      NoncesStayConsecutive(start, run, actions, i - 1);
      var s := run[i - 1];
      assert Step(s, run[i], actions[i - 1]);
      if actions[i - 1].Handling? {
        TickKeepsNonces(start, s.accepted, s.nonces, s.consumer.tick, actions[i - 1].answers);
      }
    }
  }
}
