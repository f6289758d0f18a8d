/** Event counting, debounce and force flags of one worker's trigger. Times are milliseconds. */
module WorkTrigger {
  import opened Wrappers

  type Instant = nat

  const EVENT_TRIGGER_LIMIT := 25
  const EVENT_DEBOUNCE := 500

  /** Generations are 64-bit and wrap. */
  const GENERATIONS := 0x1_0000_0000_0000_0000

  function Min(a: nat, b: nat): nat {
    if a < b then a else b
  }

  datatype TriggerState = TriggerState(
    eventGeneration: nat,
    lookupGeneration: Option<nat>,
    pendingEventCount: nat,
    forced: bool,
    debounceDeadline: Option<Instant>)

  const FRESH := TriggerState(0, None, 0, false, None)

  /** Something that touches the trigger: a notification, a force, or the worker's own calls. */
  datatype Op =
    | Event(at: Instant)
    | Force
    | BeginFresh
    | FinishBatch(scanComplete: bool)
    | FinishEmpty

  predicate IsNotice(op: Op) {
    op.Event? || op.Force?
  }

  /** What other tasks do to the trigger. */
  type Notices = s: seq<Op> | forall i :: 0 <= i < |s| ==> IsNotice(s[i])

  function Apply(s: TriggerState, op: Op): (r: TriggerState) {
    match op
    case Event(at) =>
      s.(eventGeneration := (s.eventGeneration + 1) % GENERATIONS,
         pendingEventCount := Min(s.pendingEventCount + 1, EVENT_TRIGGER_LIMIT),
         debounceDeadline := Some(at + EVENT_DEBOUNCE))
    case Force => s.(forced := true)
    case BeginFresh =>
      s.(lookupGeneration := Some(s.eventGeneration), pendingEventCount := 0, forced := false,
         debounceDeadline := None)
    case FinishBatch(scanComplete) => if scanComplete then s.(lookupGeneration := None) else s
    case FinishEmpty => s.(lookupGeneration := None)
  }

  /** What finishing a batch reports: whether new work arrived since the lookup began. */
  predicate Deferred(s: TriggerState) {
    s.forced || s.pendingEventCount > 0 ||
    (s.lookupGeneration.Some? && s.lookupGeneration.value != s.eventGeneration)
  }

  /** What the idle wait returns on. */
  predicate Ready(s: TriggerState, now: Instant) {
    s.forced || s.pendingEventCount >= EVENT_TRIGGER_LIMIT ||
    (s.debounceDeadline.Some? && s.debounceDeadline.value <= now)
  }

  /** Something is waiting for a fresh lookup. */
  predicate Armed(s: TriggerState) {
    s.forced || s.pendingEventCount > 0
  }

  function ApplyAll(s: TriggerState, ops: seq<Op>): (r: TriggerState) {
    if ops == [] then s else Apply(ApplyAll(s, ops[..|ops| - 1]), ops[|ops| - 1])
  }

  lemma {:induction false} ApplyConcat(s: TriggerState, a: seq<Op>, b: seq<Op>)
    ensures ApplyAll(s, a + b) == ApplyAll(ApplyAll(s, a), b)
  {
    if b == [] {
      assert a + b == a;
    } else {
      var i := |b| - 1;
      assert a + b == (a + b[..i]) + [b[i]];
      assert (a + b)[..|a + b| - 1] == a + b[..i];
      ApplyConcat(s, a, b[..i]);
    }
  }

  lemma ApplySnoc(s: TriggerState, ops: seq<Op>, op: Op)
    ensures ApplyAll(s, ops + [op]) == Apply(ApplyAll(s, ops), op)
  {
    assert (ops + [op])[..|ops|] == ops;
  }

  /** The worker's trigger. Each method holds the lock for its whole body. */
  class WorkTrigger {
    var eventGeneration: nat
    var lookupGeneration: Option<nat>
    var pendingEventCount: nat
    var forced: bool
    var debounceDeadline: Option<Instant>
    /** The permit `Notify` stores. */
    var permit: bool

    ghost function State(): TriggerState
      reads this
    {
      TriggerState(eventGeneration, lookupGeneration, pendingEventCount, forced, debounceDeadline)
    }

    constructor ()
      ensures State() == FRESH && !permit
    {
      eventGeneration, lookupGeneration := 0, None;
      pendingEventCount, forced, debounceDeadline := 0, false, None;
      permit := false;
    }

    method RecordEvent(now: Instant)
      modifies this
      ensures State() == Apply(old(State()), Event(now)) && permit
    {
      eventGeneration := (eventGeneration + 1) % GENERATIONS;
      pendingEventCount := Min(pendingEventCount + 1, EVENT_TRIGGER_LIMIT);
      debounceDeadline := Some(now + EVENT_DEBOUNCE);
      permit := true;
    }

    method ForceLookup()
      modifies this
      ensures State() == Apply(old(State()), Force) && permit
    {
      forced := true;
      permit := true;
    }

    method BeginFreshLookup()
      modifies this
      ensures State() == Apply(old(State()), BeginFresh) && permit == old(permit)
    {
      lookupGeneration := Some(eventGeneration);
      pendingEventCount := 0;
      forced := false;
      debounceDeadline := None;
    }

    method FinishBatchLookup(scanComplete: bool) returns (deferred: bool)
      modifies this
      ensures State() == Apply(old(State()), FinishBatch(scanComplete)) && permit == old(permit)
      ensures deferred == Deferred(old(State()))
    {
      deferred := forced || pendingEventCount > 0 ||
                  (lookupGeneration.Some? && lookupGeneration.value != eventGeneration);
      if scanComplete {
        lookupGeneration := None;
      }
    }

    method FinishEmptyLookup()
      modifies this
      ensures State() == Apply(old(State()), FinishEmpty) && permit == old(permit)
    {
      lookupGeneration := None;
    }

    /** What other tasks do while the worker waits for something. */
    method Receive(notices: Notices)
      modifies this
      ensures State() == ApplyAll(old(State()), notices)
      ensures permit == (old(permit) || notices != [])
    {
      for i := 0 to |notices|
        invariant State() == ApplyAll(old(State()), notices[..i])
        invariant permit == (old(permit) || i > 0)
      {
        assert notices[..i + 1] == notices[..i] + [notices[i]];
        ApplySnoc(old(State()), notices[..i], notices[i]);
        if notices[i].Event? {
          RecordEvent(notices[i].at);
        } else {
          ForceLookup();
        }
      }
      assert notices[..|notices|] == notices;
    }
  }

  // What the state says about its history, whatever the interleaving.

  /** The operations since the last fresh lookup began. */
  function Since(ops: seq<Op>): (r: seq<Op>) {
    if ops == [] then []
    else if ops[|ops| - 1].BeginFresh? then []
    else Since(ops[..|ops| - 1]) + [ops[|ops| - 1]]
  }

  function CountEvents(ops: seq<Op>): nat {
    if ops == [] then 0
    else CountEvents(ops[..|ops| - 1]) + if ops[|ops| - 1].Event? then 1 else 0
  }

  /** When the last event came. */
  function LastEvent(ops: seq<Op>): Option<Instant> {
    if ops == [] then None
    else if ops[|ops| - 1].Event? then Some(ops[|ops| - 1].at)
    else LastEvent(ops[..|ops| - 1])
  }

  predicate HasForce(ops: seq<Op>) {
    exists i :: 0 <= i < |ops| && ops[i].Force?
  }

  predicate HasNotice(ops: seq<Op>) {
    exists i :: 0 <= i < |ops| && IsNotice(ops[i])
  }

  /** The trigger after these operations. */
  function After(ops: seq<Op>): TriggerState {
    ApplyAll(FRESH, ops)
  }

  /** A fresh lookup has begun and its scan is not over. */
  predicate LookupHeld(ops: seq<Op>) {
    if ops == [] then false
    else
      match ops[|ops| - 1]
      case BeginFresh => true
      case FinishEmpty => false
      case FinishBatch(scanComplete) => !scanComplete && LookupHeld(ops[..|ops| - 1])
      case Event(_) => LookupHeld(ops[..|ops| - 1])
      case Force => LookupHeld(ops[..|ops| - 1])
  }

  /** What matters of a history: the events ever and since the last fresh lookup began, whether a force came since
      then, when the last event since then came, and whether a lookup is held. */
  datatype Summary = Summary(all: nat, since: nat, forced: bool, last: Option<Instant>, held: bool)

  function SummaryOf(ops: seq<Op>): Summary {
    var since := Since(ops);
    Summary(CountEvents(ops), CountEvents(since), HasForce(since), LastEvent(since), LookupHeld(ops))
  }

  ghost predicate Fits(s: TriggerState, h: Summary) {
    h.since <= h.all && s.pendingEventCount == Min(h.since, 25) && s.forced == h.forced &&
    s.debounceDeadline == (match h.last case None => None case Some(at) => Some(at + 500)) &&
    s.eventGeneration == h.all % 0x1_0000_0000_0000_0000 && (s.lookupGeneration.Some? <==> h.held) &&
    (s.lookupGeneration.Some? ==> s.lookupGeneration.value == (h.all - h.since) % 0x1_0000_0000_0000_0000)
  }

  /** The count is of the events since the last fresh lookup, the flag is of the forces, the deadline is
      half a second after the last event, and the generation captured while a lookup is held tells events before the
      lookup from events after it, all of them modulo the generations' wrap. */
  ghost predicate Faithful(s: TriggerState, ops: seq<Op>) {
    Fits(s, SummaryOf(ops))
  }

  lemma {:induction false} SinceCount(ops: seq<Op>)
    ensures CountEvents(Since(ops)) <= CountEvents(ops)
  {
    if ops != [] {
      var i := |ops| - 1;
      SinceCount(ops[..i]);
      if !ops[i].BeginFresh? {
        assert (Since(ops[..i]) + [ops[i]])[..|Since(ops[..i])|] == Since(ops[..i]);
      }
    }
  }

  lemma NextGeneration(count: nat)
    ensures (count % GENERATIONS + 1) % GENERATIONS == (count + 1) % GENERATIONS
  {
  }

  /** What one more operation, not a fresh lookup, adds to the history. */
  lemma SinceSnoc(ops: seq<Op>, op: Op)
    ensures CountEvents(ops + [op]) == CountEvents(ops) + if op.Event? then 1 else 0
    ensures HasForce(ops + [op]) <==> HasForce(ops) || op.Force?
    ensures LastEvent(ops + [op]) == if op.Event? then Some(op.at) else LastEvent(ops)
  {
    var more := ops + [op];
    assert more[..|ops|] == ops;
    if HasForce(ops) {
      var j :| 0 <= j < |ops| && ops[j].Force?;
      assert more[j].Force?;
    }
    if op.Force? {
      assert more[|ops|].Force?;
    }
  }

  function Noted(h: Summary, op: Op): Summary {
    match op
    case Event(at) => h.(all := h.all + 1, since := h.since + 1, last := Some(at))
    case Force => h.(forced := true)
    case BeginFresh => Summary(h.all, 0, false, None, true)
    case FinishBatch(scanComplete) => h.(held := h.held && !scanComplete)
    case FinishEmpty => h.(held := false)
  }

  lemma SummarySnoc(ops: seq<Op>, op: Op)
    ensures SummaryOf(ops + [op]) == Noted(SummaryOf(ops), op)
  {
    SinceSnoc(ops, op);
    assert (ops + [op])[..|ops|] == ops;
    if !op.BeginFresh? {
      SinceSnoc(Since(ops), op);
    }
  }

  lemma FitsStep(s: TriggerState, h: Summary, op: Op)
    requires Fits(s, h)
    ensures Fits(Apply(s, op), Noted(h, op))
  {
    NextGeneration(h.all);
    assert (h.all + 1) - (h.since + 1) == h.all - h.since;
  }

  lemma {:induction false} StateIsFaithful(ops: seq<Op>)
    ensures Faithful(After(ops), ops)
  {
    if ops != [] {
      var i := |ops| - 1;
      StateIsFaithful(ops[..i]);
      assert ops == ops[..i] + [ops[i]];
      SummarySnoc(ops[..i], ops[i]);
      FitsStep(After(ops[..i]), SummaryOf(ops[..i]), ops[i]);
    }
  }

  lemma {:induction false} NoticesCounted(ops: seq<Op>)
    ensures HasNotice(ops) <==> CountEvents(ops) > 0 || HasForce(ops)
  {
    if ops != [] {
      var i := |ops| - 1;
      NoticesCounted(ops[..i]);
      if HasNotice(ops[..i]) {
        var j :| 0 <= j < i && IsNotice(ops[..i][j]);
        assert IsNotice(ops[j]);
      }
      if HasForce(ops[..i]) {
        var j :| 0 <= j < i && ops[..i][j].Force?;
        assert ops[j].Force?;
      }
      if HasNotice(ops) {
        var j :| 0 <= j < |ops| && IsNotice(ops[j]);
        if j < i {
          assert IsNotice(ops[..i][j]);
        }
      }
    }
  }

  /** Finishing a batch reports new work exactly when a notification or a force has come since the last
      fresh lookup began, even after the generations have wrapped. */
  lemma DeferredExact(ops: seq<Op>)
    ensures Deferred(After(ops)) <==> HasNotice(Since(ops))
  {
    StateIsFaithful(ops);
    NoticesCounted(Since(ops));
    SinceCount(ops);
  }

  lemma ArmedExact(ops: seq<Op>)
    ensures Armed(After(ops)) <==> HasNotice(Since(ops))
  {
    StateIsFaithful(ops);
    NoticesCounted(Since(ops));
  }

  /** What finishing a batch reports stays armed after it. */
  lemma ArmedStays(history: seq<Op>, ops: seq<Op>, op: Op)
    requires op.FinishBatch? || op.FinishEmpty?
    ensures Deferred(ApplyAll(After(history), ops)) <==> Armed(ApplyAll(After(history), ops + [op]))
  {
    ApplyConcat(FRESH, history, ops);
    DeferredExact(history + ops);
    ArmedExact(history + ops);
    ApplySnoc(After(history), ops, op);
  }

  lemma {:induction false} NoticeStays(ops: seq<Op>, i: nat)
    requires i < |ops| && IsNotice(ops[i])
    requires forall j :: i < j < |ops| ==> !ops[j].BeginFresh?
    ensures HasNotice(Since(ops))
  {
    var last := |ops| - 1;
    if i == last {
      assert IsNotice(Since(ops)[|Since(ops)| - 1]);
    } else {
      NoticeStays(ops[..last], i);
      var k :| 0 <= k < |Since(ops[..last])| && IsNotice(Since(ops[..last])[k]);
      assert IsNotice(Since(ops)[k]);
    }
  }

  /** A pending event has the deadline of the last event since the last fresh lookup. */
  ghost predicate HasDeadline(s: TriggerState, ops: seq<Op>) {
    s.pendingEventCount > 0 ==>
      LastEvent(Since(ops)).Some? && s.debounceDeadline == Some(LastEvent(Since(ops)).value + 500)
  }

  /** No notification is lost: in every interleaving, each event or force is followed by a fresh lookup
      begun after it, or is still armed. A pending event has the deadline of the last event. */
  lemma NoNoticeIsLost(ops: seq<Op>, i: nat)
    requires i < |ops| && IsNotice(ops[i])
    ensures (exists j :: i < j < |ops| && ops[j].BeginFresh?) ||
            var s := After(ops);
            Armed(s) && HasDeadline(s, ops)
  {
    if forall j :: i < j < |ops| ==> !ops[j].BeginFresh? {
      NoticeStays(ops, i);
      ArmedExact(ops);
      StateIsFaithful(ops);
      EventsHaveALast(Since(ops));
    }
  }

  lemma {:induction false} EventsHaveALast(ops: seq<Op>)
    ensures CountEvents(ops) > 0 <==> LastEvent(ops).Some?
  {
    if ops != [] {
      EventsHaveALast(ops[..|ops| - 1]);
    }
  }

  /** The idle wait returns only on a force, 25 events since the last fresh lookup, or a last event half a
      second ago, and whenever it does not return there is none of these. */
  lemma ReadyExact(ops: seq<Op>, now: Instant)
    ensures Ready(After(ops), now) <==>
            var since := Since(ops);
            HasForce(since) || CountEvents(since) >= 25 ||
            (LastEvent(since).Some? && LastEvent(since).value + 500 <= now)
  {
    StateIsFaithful(ops);
  }
}
