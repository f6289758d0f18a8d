/** The waits of a trigger as interleaved steps: a notifier changes the state under the lock and only then
    stores a permit, the worker checks the state under the lock and then sleeps until a permit or its
    deadline, and time passes in between. One worker waits on a trigger, so `Notify` is a single permit. */
module WakeUps {
  import opened Wrappers
  import opened WorkTrigger

  datatype Worker =
    | Busy
    | Checking
    | Asleep(deadline: Option<Instant>)
    | CheckingNew(called: nat, generation: nat, forced: bool)
    | AsleepNew(called: nat, generation: nat, forced: bool)

  /** `ops` is everything done to the trigger so far; `unnotified` counts notifiers that have changed the
      state and not yet stored their permit. */
  datatype State = State(ops: seq<Op>, worker: Worker, permit: bool, unnotified: nat, now: Instant)

  datatype Step =
    | Notice(op: Op)
    | Notify
    | TimePasses(to: Instant)
    | WorkerOp(op: Op)
    | StartWait
    | Check
    | WokenByPermit
    | WokenByDeadline
    | StartNewWait
    | CheckNew
    | WokenNew
    | Cancel

  predicate Init(s: State) {
    s.ops == [] && s.worker == Busy && !s.permit && s.unnotified == 0
  }

  /** Whether something came that the caller of the retry wait did not know about. */
  predicate IsNews(t: TriggerState, generation: nat, forced: bool) {
    t.eventGeneration != generation || (t.forced && !forced)
  }

  predicate Next(s: State, s': State, step: Step) {
    match step
    case Notice(op) =>
      IsNotice(op) && (op.Event? ==> op.at == s.now) &&
      s' == s.(ops := s.ops + [op], unnotified := s.unnotified + 1)
    case Notify => s.unnotified > 0 && s' == s.(unnotified := s.unnotified - 1, permit := true)
    case TimePasses(to) => s.now <= to && s' == s.(now := to)
    case WorkerOp(op) => s.worker == Busy && !IsNotice(op) && s' == s.(ops := s.ops + [op])
    case StartWait => s.worker == Busy && s' == s.(worker := Checking)
    case Check =>
      s.worker == Checking &&
      s' == s.(worker := if Ready(After(s.ops), s.now) then Busy else Asleep(After(s.ops).debounceDeadline))
    case WokenByPermit => s.worker.Asleep? && s.permit && s' == s.(worker := Checking, permit := false)
    case WokenByDeadline =>
      s.worker.Asleep? && s.worker.deadline.Some? && s.worker.deadline.value <= s.now && s' == s.(worker := Checking)
    case StartNewWait =>
      s.worker == Busy &&
      s' == s.(worker := CheckingNew(|s.ops|, After(s.ops).eventGeneration, After(s.ops).forced))
    case CheckNew =>
      s.worker.CheckingNew? &&
      var w := s.worker;
      s' == s.(worker := if IsNews(After(s.ops), w.generation, w.forced) then Busy
                         else AsleepNew(w.called, w.generation, w.forced))
    case WokenNew =>
      s.worker.AsleepNew? && s.permit &&
      s' == s.(worker := CheckingNew(s.worker.called, s.worker.generation, s.worker.forced), permit := false)
    case Cancel => s.worker != Busy && s' == s.(worker := Busy)
  }

  ghost predicate IsRun(run: seq<State>, steps: seq<Step>) {
    |run| == |steps| + 1 && Init(run[0]) &&
    forall i :: 0 <= i < |steps| ==> Next(run[i], run[i + 1], steps[i])
  }

  /** A wake-up is on its way. */
  predicate Coming(s: State) {
    s.permit || s.unnotified > 0
  }

  /** A sleeping worker has nothing to do, will be woken by its own deadline in time, or has a wake-up on
      its way. */
  predicate NotStranded(s: State) {
    var t := After(s.ops);
    match s.worker
    case Asleep(None) => Armed(t) ==> Coming(s)
    case Asleep(Some(deadline)) =>
      (t.forced || t.pendingEventCount >= EVENT_TRIGGER_LIMIT ==> Coming(s)) &&
      t.debounceDeadline.Some? && (t.debounceDeadline.value < deadline ==> Coming(s)) &&
          deadline <= s.now + EVENT_DEBOUNCE
    case AsleepNew(_, generation, forced) => IsNews(t, generation, forced) ==> Coming(s)
    case _ => true
  }

  /** The retry wait remembers the trigger as it was when it was called; no fresh lookup begins during it. */
  ghost predicate Remembers(s: State) {
    (s.worker.CheckingNew? || s.worker.AsleepNew?) ==>
      var w := s.worker;
      w.called <= |s.ops| && w.generation == After(s.ops[..w.called]).eventGeneration &&
      w.forced == After(s.ops[..w.called]).forced &&
      forall i :: w.called <= i < |s.ops| ==> IsNotice(s.ops[i])
  }

  /** No event is dated in the future. */
  ghost predicate EventsInThePast(s: State) {
    forall i :: 0 <= i < |s.ops| && s.ops[i].Event? ==> s.ops[i].at <= s.now
  }

  lemma {:induction false} LastEventIsEvent(ops: seq<Op>)
    ensures LastEvent(ops).Some? ==>
              exists i :: 0 <= i < |ops| && ops[i].Event? && ops[i].at == LastEvent(ops).value
  {
    if ops != [] && !ops[|ops| - 1].Event? {
      LastEventIsEvent(ops[..|ops| - 1]);
      if LastEvent(ops).Some? {
        var i :| 0 <= i < |ops| - 1 && ops[..|ops| - 1][i].Event? && ops[..|ops| - 1][i].at == LastEvent(ops).value;
        assert ops[i].Event?;
      }
    }
  }

  lemma {:induction false} SinceIsSuffix(ops: seq<Op>)
    ensures |Since(ops)| <= |ops| && Since(ops) == ops[|ops| - |Since(ops)|..]
  {
    if ops != [] {
      SinceIsSuffix(ops[..|ops| - 1]);
    }
  }

  /** The debounce deadline is never more than half a second away. */
  lemma DeadlineIsNear(s: State)
    requires EventsInThePast(s)
    ensures var t := After(s.ops); t.debounceDeadline.Some? ==> t.debounceDeadline.value <= s.now + EVENT_DEBOUNCE
  {
    StateIsFaithful(s.ops);
    SinceIsSuffix(s.ops);
    LastEventIsEvent(Since(s.ops));
    if LastEvent(Since(s.ops)).Some? {
      var i :| 0 <= i < |Since(s.ops)| && Since(s.ops)[i].Event? && Since(s.ops)[i].at == LastEvent(Since(s.ops)).value;
      assert s.ops[|s.ops| - |Since(s.ops)| + i].Event?;
    }
  }

  lemma UnarmedHasNoDeadline(ops: seq<Op>)
    ensures After(ops).debounceDeadline.Some? <==> After(ops).pendingEventCount > 0
  {
    StateIsFaithful(ops);
    EventsHaveALast(Since(ops));
  }

  ghost predicate Inv(s: State) {
    NotStranded(s) && Remembers(s) && EventsInThePast(s)
  }

  lemma NoticeKeepsInv(s: State, s': State, op: Op)
    requires Inv(s) && Next(s, s', Notice(op))
    ensures Inv(s')
  {
    ApplySnoc(FRESH, s.ops, op);
    if s.worker.CheckingNew? || s.worker.AsleepNew? {
      assert s'.ops[..s.worker.called] == s.ops[..s.worker.called];
    }
  }

  lemma StepKeepsInv(s: State, s': State, step: Step)
    requires Inv(s) && Next(s, s', step)
    ensures Inv(s')
  {
    if step.Notice? {
      NoticeKeepsInv(s, s', step.op);
    } else if step.Check? {
      DeadlineIsNear(s);
      UnarmedHasNoDeadline(s.ops);
    } else if step.StartNewWait? {
      assert s.ops[..|s.ops|] == s.ops;
    }
  }

  lemma {:induction false} RunInvariant(run: seq<State>, steps: seq<Step>, i: nat)
    requires IsRun(run, steps) && i < |run|
    ensures Inv(run[i])
  {
    if i > 0 {
      RunInvariant(run, steps, i - 1);
      assert Next(run[i - 1], run[i], steps[i - 1]);
      StepKeepsInv(run[i - 1], run[i], steps[i - 1]);
    }
  }

  /** A worker asleep without a deadline, once every notifier has stored its permit, is either unarmed or
      has a permit to wake on. */
  lemma SleepersAreWoken(run: seq<State>, steps: seq<Step>, i: nat)
    requires IsRun(run, steps) && i < |run| && run[i].unnotified == 0
    ensures run[i].worker == Asleep(None) ==> !Armed(After(run[i].ops)) || run[i].permit
    ensures run[i].worker.Asleep? && run[i].worker.deadline.Some? ==>
              run[i].worker.deadline.value <= run[i].now + 500 &&
              (forall now: Instant :: now < run[i].worker.deadline.value && Ready(After(run[i].ops), now) ==>
                  run[i].permit)
    ensures run[i].worker.AsleepNew? ==>
              !IsNews(After(run[i].ops), run[i].worker.generation, run[i].worker.forced) || run[i].permit
  {
    RunInvariant(run, steps, i);
  }

  /** The idle wait returns exactly on a force, on 25 events since the last fresh lookup began, or half a second after
      the last event. */
  lemma IdleWaitReturnsForWork(run: seq<State>, steps: seq<Step>, i: nat)
    requires IsRun(run, steps) && i < |steps| && steps[i] == Check
    ensures var since := Since(run[i].ops);
            run[i + 1].worker == Busy <==>
            HasForce(since) || CountEvents(since) >= 25 ||
            (LastEvent(since).Some? && LastEvent(since).value + 500 <= run[i].now)
  {
    assert Next(run[i], run[i + 1], steps[i]);
    ReadyExact(run[i].ops, run[i].now);
  }

  lemma {:induction false} NoticesAdvance(s: TriggerState, ops: seq<Op>)
    requires (forall i :: 0 <= i < |ops| ==> IsNotice(ops[i])) && s.eventGeneration < GENERATIONS
    ensures ApplyAll(s, ops).eventGeneration == (s.eventGeneration + CountEvents(ops)) % GENERATIONS
    ensures ApplyAll(s, ops).forced <==> s.forced || HasForce(ops)
  {
    if ops != [] {
      var before, op := ops[..|ops| - 1], ops[|ops| - 1];
      NoticesAdvance(s, before);
      assert ops == before + [op];
      SinceSnoc(before, op);
      NextGeneration(s.eventGeneration + CountEvents(before));
    }
  }

  lemma WholeTurns(g: nat, c: nat)
    requires g < GENERATIONS
    ensures (g + c) % GENERATIONS == g <==> c % GENERATIONS == 0
  {
    var q, r := c / GENERATIONS, c % GENERATIONS;
    assert g + c == g + r + q * GENERATIONS;
    assert (g + c) % GENERATIONS == (g + r) % GENERATIONS;
  }

  lemma NewsExact(t: TriggerState, later: seq<Op>)
    requires (forall i :: 0 <= i < |later| ==> IsNotice(later[i])) && t.eventGeneration < GENERATIONS
    ensures IsNews(ApplyAll(t, later), t.eventGeneration, t.forced) <==>
            CountEvents(later) % 0x1_0000_0000_0000_0000 != 0 || (HasForce(later) && !t.forced)
  {
    NoticesAdvance(t, later);
    WholeTurns(t.eventGeneration, CountEvents(later));
  }

  /** The retry wait returns exactly on an event, but for a whole turn of the generations, or on a force when none was
      outstanding, that came after it was called. */
  lemma RetryWaitReturnsForNews(run: seq<State>, steps: seq<Step>, i: nat)
    requires IsRun(run, steps) && i < |steps| && steps[i] == CheckNew && run[i].worker.CheckingNew?
    ensures var called := run[i].worker.called;
            called <= |run[i].ops| &&
            var later := run[i].ops[called..];
            run[i + 1].worker == Busy <==>
            CountEvents(later) % 0x1_0000_0000_0000_0000 != 0 ||
            (HasForce(later) && !After(run[i].ops[..called]).forced)
  {
    RunInvariant(run, steps, i);
    assert Next(run[i], run[i + 1], steps[i]);
    var s := run[i];
    var called := s.worker.called;
    var later := s.ops[called..];
    assert s.ops == s.ops[..called] + later;
    ApplyConcat(FRESH, s.ops[..called], later);
    StateIsFaithful(s.ops[..called]);
    NewsExact(After(s.ops[..called]), later);
  }
}
