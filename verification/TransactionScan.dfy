/** The producer of the transaction pipeline: it walks the pending rows page by page, hands each page to
    the consumer, and decides when to go on, retry or wait. */
module TransactionScan {
  import opened Wrappers
  import opened Retry
  import opened TransactionHandler
  import opened Plays
  import opened PageRows
  import WT = WorkTrigger

  /** What the platform answers to a lookup; a row without a request is one that cannot be converted. */
  datatype Response =
    | NoAnswer
    | NoResult
    | Page(rows: seq<Option<Request>>, nextCursor: Option<Cursor>)

  datatype Lookup = Rows(requests: seq<Request>, next: Option<Cursor>) | NoTransactions | LookupFailed

  function GetPendingTransactions(response: Response): Lookup {
    match response
    case NoAnswer => LookupFailed
    case NoResult => NoTransactions
    case Page(rows, nextCursor) =>
      if rows == [] then NoTransactions
      else Rows(Convertible(rows), if nextCursor == Some("") then None else nextCursor)
  }

  /** One turn of the loop as the world plays it: what is notified meanwhile, the lookup's answer, what the
      consumer acknowledges (nothing when it is gone), and the jitter drawn. */
  datatype Round = Round(
    beforeLookup: WT.Notices,
    response: Response,
    duringLookup: WT.Notices,
    ack: Option<BatchOutcome>,
    duringTick: WT.Notices,
    jitter: Percent,
    duringDelay: WT.Notices)

  datatype BatchStep =
    | Continue(cursor: Option<Cursor>, madeProgress: bool, requiresFreshRetry: bool)
    | RetryFresh

  /** The next step after a page that produced rows. */
  function DecideBatchStep(outcome: BatchOutcome, cursor: Option<Cursor>, next: Option<Cursor>,
                           unproductivePages: nat): BatchStep {
    match outcome
    case Completed => Continue(next, true, false)
    case PartialProgress => Continue(next, true, true)
    case Skipped =>
      if ShouldContinueEmptyDrain(cursor, next, unproductivePages) then Continue(next, false, true) else RetryFresh
    case SubmissionFailed => RetryFresh
  }

  /** The loop's variables at its head. */
  datatype Loop = Loop(
    previous: set<ChainKey>,
    current: set<ChainKey>,
    cursor: Option<Cursor>,
    fetchNow: bool,
    failureCount: U32,
    retryRequired: bool,
    unproductivePages: nat,
    trigger: WT.TriggerState)

  function Start(trigger: WT.TriggerState): Loop {
    Loop({}, {}, None, true, 0, false, 0, trigger)
  }

  datatype Delivery = Delivery(batch: seq<Request>, idle: set<ChainKey>, outcome: BatchOutcome)

  /** Whether a page leaves its scan going, ends it, or drops it. */
  datatype Verdict = Continued | Ended | DroppedScan

  /** What one turn did. */
  datatype Entry = Entry(
    parked: bool,
    cursor: Option<Cursor>,
    lookup: Lookup,
    delivery: Option<Delivery>,
    verdict: Verdict,
    delay: Option<nat>,
    failuresAtEnd: U32,
    ops: seq<WT.Op>)

  type Turn = Plays.Turn<Loop, Entry>

  /** End the scan: wait if it owes a retry, or else start over at once only for new work. */
  function FinishScanRetry(l: Loop, e: Entry, retryRequired: bool, deferred: bool, r: Round): Turn {
    if !retryRequired then
      Turned(l.(fetchNow := deferred, failureCount := 0, retryRequired := false), e.(failuresAtEnd := 0))
    else DelayThenFetch(l.(retryRequired := false), e, r)
  }

  /** Wait out a failure, then look up again. */
  function DelayThenFetch(l: Loop, e: Entry, r: Round): Turn {
    var failures := SaturatingIncrement(l.failureCount);
    Turned(l.(fetchNow := true, failureCount := failures, trigger := WT.ApplyAll(l.trigger, r.duringDelay)),
           e.(delay := Some(JitteredExponentialDelay(l.failureCount, r.jitter)), failuresAtEnd := failures,
              ops := e.ops + r.duringDelay))
  }

  function Do(l: Loop, op: WT.Op): Loop {
    l.(trigger := WT.Apply(l.trigger, op))
  }

  function During(l: Loop, ops: seq<WT.Op>): Loop {
    l.(trigger := WT.ApplyAll(l.trigger, ops))
  }

  /** A lookup that found no rows ends the scan; chains gone since the last one are reported as idle. */
  function EndEmptyScan(l: Loop, e: Entry, freshLookup: bool, retryRequired: bool, r: Round): Turn {
    var idle := l.previous - l.current;
    var l1 := l.(previous := l.current, current := {}, cursor := None, unproductivePages := 0);
    if idle == {} then ReleaseEmpty(l1, e.(verdict := Ended), freshLookup, retryRequired, r)
    else if r.ack.None? then ConsumerGone
    else
      ReleaseEmpty(During(l1, r.duringTick),
                   e.(verdict := Ended, delivery := Some(Delivery([], idle, r.ack.value)), ops := e.ops + r.duringTick),
                   freshLookup, retryRequired, r)
  }

  /** Release the trigger; only a continuation has kept work for the scan's end. */
  function ReleaseEmpty(l: Loop, e: Entry, freshLookup: bool, retryRequired: bool, r: Round): Turn {
    var op := if freshLookup then WT.FinishEmpty else WT.FinishBatch(true);
    FinishScanRetry(Do(l, op), e.(ops := e.ops + [op]), retryRequired, !freshLookup && WT.Deferred(l.trigger), r)
  }

  /** Go on to the next page, or end the scan after its last one. */
  function GoOn(l: Loop, e: Entry, step: BatchStep, deferred: bool, r: Round): Turn
    requires step.Continue?
  {
    var failures: U32 := if step.madeProgress && !l.retryRequired then 0 else l.failureCount;
    var required := l.retryRequired || step.requiresFreshRetry;
    var l1 := l.(unproductivePages := if step.madeProgress then 0 else l.unproductivePages + 1,
                 failureCount := failures, cursor := step.cursor);
    if step.cursor.None? then FinishScanRetry(l1, e.(verdict := Ended), required, deferred, r)
    else Turned(l1.(retryRequired := required, fetchNow := true), e.(failuresAtEnd := failures))
  }

  /** Start over from a fresh lookup, after a wait. */
  function StartOver(l: Loop, e: Entry, verdict: Verdict, r: Round): Turn {
    DelayThenFetch(l.(cursor := None, current := {}, retryRequired := false, unproductivePages := 0),
                   e.(verdict := verdict), r)
  }

  /** A page with rows is handed over and the consumer's outcome decides. */
  function AfterRows(l: Loop, e: Entry, requests: seq<Request>, next: Option<Cursor>, r: Round): Turn {
    var current := l.current + ChainsOf(requests);
    var complete := next.None?;
    var idle := if complete then l.previous - current else {};
    if r.ack.None? then ConsumerGone
    else
      var l1 := if complete then l.(previous := current, current := {}) else l.(current := current);
      var l2 := During(l1, r.duringTick);
      var l3 := Do(l2, WT.FinishBatch(complete));
      var e3 := e.(delivery := Some(Delivery(requests, idle, r.ack.value)),
                   ops := e.ops + r.duringTick + [WT.FinishBatch(complete)]);
      var step := DecideBatchStep(r.ack.value, l.cursor, next, l.unproductivePages);
      if step.Continue? then GoOn(l3, e3, step, WT.Deferred(l2.trigger), r)
      else StartOver(l3, e3, if complete then Ended else DroppedScan, r)
  }

  /** One turn of the loop. */
  function Step(l: Loop, r: Round): Turn {
    var (l1, e) := LookedUp(l, r);
    AfterLookup(l1, e, r)
  }

  function LookupOps(freshLookup: bool, r: Round): seq<WT.Op> {
    r.beforeLookup + (if freshLookup then [WT.BeginFresh] else []) + r.duringLookup
  }

  /** The loop's variables and the entry once the lookup of a turn has been answered. */
  function LookedUp(l: Loop, r: Round): (Loop, Entry) {
    var ops := LookupOps(l.cursor.None?, r);
    (During(if l.cursor.None? then l.(current := {}) else l, ops),
     Entry(!l.fetchNow, l.cursor, GetPendingTransactions(r.response), None, Continued, None, l.failureCount, ops))
  }

  /** What a turn does about the answer. */
  function AfterLookup(l: Loop, e: Entry, r: Round): Turn {
    match e.lookup
    case Rows(requests, next) =>
      if requests != [] then AfterRows(l, e, requests, next, r)
      else if ShouldContinueEmptyDrain(l.cursor, next, l.unproductivePages) then
        Turned(l.(unproductivePages := l.unproductivePages + 1, cursor := next, retryRequired := true,
                  fetchNow := true), e)
      else EndEmptyScan(l, e, l.cursor.None?, l.retryRequired || next.Some?, r)
    case NoTransactions => EndEmptyScan(l, e, l.cursor.None?, l.retryRequired, r)
    case LookupFailed =>
      StartOver(Do(l, WT.FinishEmpty), e.(ops := e.ops + [WT.FinishEmpty]), DroppedScan, r)
  }

  /** Whether any page of the current scan left work pending. */
  class ScanRetryState {
    var required: bool

    constructor ()
      ensures !required
    {
      required := false;
    }

    method Require()
      modifies this
      ensures required
    {
      required := true;
    }

    /** Successful work resets the escalation unless an earlier page of the scan already owes a retry. */
    method ResetFailureCountAfterProgress(failureCount: U32) returns (r: U32)
      ensures r == if required then failureCount else 0
    {
      r := failureCount;
      if !required {
        r := 0;
      }
    }

    method Take() returns (was: bool)
      modifies this
      ensures was == old(required) && !required
    {
      was := required;
      required := false;
    }

    method Clear()
      modifies this
      ensures !required
    {
      required := false;
    }
  }

  /** End a scan: chains of the scan that ended before it and not of this one are idle. */
  method CompleteChainScan(previous: set<ChainKey>, current: set<ChainKey>)
    returns (idle: set<ChainKey>, previous': set<ChainKey>, current': set<ChainKey>)
    ensures forall c :: c in idle <==> c in previous && c !in current
    ensures previous' == current && current' == {}
  {
    idle := previous - current;
    previous' := current;
    current' := {};
  }

  class TransactionJob {
    const trigger: WT.WorkTrigger

    constructor (trigger: WT.WorkTrigger)
      ensures this.trigger == trigger
    {
      this.trigger := trigger;
    }

    /** Finish a scan without losing an earlier page that left work pending. */
    method FinishScan(retry: ScanRetryState, deferred: bool, failureCount: U32, r: Round)
      returns (fetchNow: bool, failureCount': U32, delay: Option<nat>)
      modifies retry, trigger
      ensures !retry.required
      ensures if old(retry.required) then
                fetchNow && failureCount' == SaturatingIncrement(failureCount) &&
                delay == Some(JitteredExponentialDelay(failureCount, r.jitter)) &&
                trigger.State() == WT.ApplyAll(old(trigger.State()), r.duringDelay)
              else
                fetchNow == deferred && failureCount' == 0 && delay == None && trigger.State() == old(trigger.State())
    {
      var owed := retry.Take();
      if !owed {
        return deferred, 0, None;
      }
      delay := Some(JitteredExponentialDelay(failureCount, r.jitter));
      failureCount' := SaturatingIncrement(failureCount);
      trigger.Receive(r.duringDelay);
      fetchNow := true;
    }

    /** The endless loop, for as long as the rounds last. */
    method StartPolling(rounds: seq<Round>) returns (log: seq<Entry>, running: bool)
      modifies trigger
      ensures var play := Turns(Step, Start(old(trigger.State())), rounds); log == play.log && running == play.running
    {
      var previous: set<ChainKey> := {};
      var current: set<ChainKey> := {};
      var cursor: Option<Cursor> := None;
      var fetchNow := true;
      var failureCount: U32 := 0;
      var retry := new ScanRetryState();
      var unproductivePages: nat := 0;
      log := [];
      for i := 0 to |rounds|
        invariant fresh(retry)
        invariant Turns(Step, Start(old(trigger.State())), rounds[..i])
                  == Play(Loop(previous, current, cursor, fetchNow, failureCount, retry.required, unproductivePages,
                               trigger.State()), log, true)
      {
        var r := rounds[i];
        TurnsSnoc(Step, Start(old(trigger.State())), rounds, i);
        ghost var l := Loop(previous, current, cursor, fetchNow, failureCount, retry.required, unproductivePages,
                            trigger.State());
        var entry, stopped;
        previous, current, cursor, fetchNow, failureCount, unproductivePages, entry, stopped :=
          TakeTurn(previous, current, cursor, fetchNow, failureCount, retry, unproductivePages, r);
        if stopped {
          TurnsStop(Step, Start(old(trigger.State())), rounds, i + 1);
          return log, false;
        }
        log := log + [entry];
      }
      assert rounds[..|rounds|] == rounds;
      running := true;
    }

    /** A fresh lookup consumes what was notified before it; a continuation keeps it for the scan's end. */
    method BeginLookup(freshLookup: bool, r: Round) returns (ops: seq<WT.Op>)
      modifies trigger
      ensures ops == LookupOps(freshLookup, r)
      ensures trigger.State() == WT.ApplyAll(old(trigger.State()), ops)
    {
      OpsBeforeLookup(trigger.State(), r, freshLookup);
      trigger.Receive(r.beforeLookup);
      if freshLookup {
        trigger.BeginFreshLookup();
      }
      trigger.Receive(r.duringLookup);
      ops := LookupOps(freshLookup, r);
    }

    /** One turn of the loop. */
    method TakeTurn(previous: set<ChainKey>, current: set<ChainKey>, cursor: Option<Cursor>, fetchNow: bool,
                    failureCount: U32,
                retry: ScanRetryState, unproductivePages: nat, r: Round)
      returns (previous': set<ChainKey>, current': set<ChainKey>, cursor': Option<Cursor>, fetchNow': bool,
               failureCount': U32, unproductivePages': nat, entry: Entry, stopped: bool)
      modifies trigger, retry
      ensures var turn := Step(Loop(previous, current, cursor, fetchNow, failureCount, old(retry.required),
                                    unproductivePages, old(trigger.State())), r);
              stopped == turn.ConsumerGone? &&
              (!stopped ==>
                 turn == Turned(Loop(previous', current', cursor', fetchNow', failureCount', retry.required,
                                     unproductivePages', trigger.State()), entry))
    {
      var freshLookup := cursor.None?;
      current' := if freshLookup then {} else current;
      var ops := BeginLookup(freshLookup, r);
      entry := Entry(!fetchNow, cursor, GetPendingTransactions(r.response), None, Continued, None, failureCount, ops);
      previous', current', cursor', fetchNow', failureCount', unproductivePages', entry, stopped :=
        ActOnLookup(previous, current', cursor, fetchNow, failureCount, retry, unproductivePages, entry, r);
    }

    method ActOnLookup(previous: set<ChainKey>, current: set<ChainKey>, cursor: Option<Cursor>, fetchNow: bool,
                       failureCount: U32, retry: ScanRetryState, unproductivePages: nat, e: Entry, r: Round)
      returns (previous': set<ChainKey>, current': set<ChainKey>, cursor': Option<Cursor>, fetchNow': bool,
               failureCount': U32, unproductivePages': nat, entry: Entry, stopped: bool)
      requires e.delay.None?
      modifies trigger, retry
      ensures var turn := AfterLookup(Loop(previous, current, cursor, fetchNow, failureCount, old(retry.required),
                                           unproductivePages, old(trigger.State())), e, r);
              stopped == turn.ConsumerGone? &&
              (!stopped ==>
                 turn == Turned(Loop(previous', current', cursor', fetchNow', failureCount', retry.required,
                                     unproductivePages', trigger.State()), entry))
    {
      previous', current', cursor', fetchNow' := previous, current, cursor, fetchNow;
      failureCount', unproductivePages', entry, stopped := failureCount, unproductivePages, e, false;
      ghost var l := Loop(previous, current, cursor, fetchNow, failureCount, retry.required, unproductivePages,
                          trigger.State());
      match e.lookup {
        case Rows(requests, next) =>
          if requests == [] {
            if ShouldContinueEmptyDrain(cursor, next, unproductivePages) {
              unproductivePages' := unproductivePages + 1;
              cursor' := next;
              retry.Require();
              fetchNow' := true;
            } else {
              if next.Some? {
                retry.Require();
              }
              previous', current', cursor', fetchNow', failureCount', unproductivePages', entry, stopped :=
                EndEmpty(previous, current, failureCount, retry, cursor.None?, e, r, l);
            }
          } else {
            previous', current', cursor', fetchNow', failureCount', unproductivePages', entry, stopped :=
              HandOver(previous, current, cursor, failureCount, retry, unproductivePages, requests, next, e, r, l);
          }
        case NoTransactions =>
          previous', current', cursor', fetchNow', failureCount', unproductivePages', entry, stopped :=
            EndEmpty(previous, current, failureCount, retry, cursor.None?, e, r, l);
        case LookupFailed =>
          trigger.FinishEmptyLookup();
          entry := e.(ops := e.ops + [WT.FinishEmpty]);
          failureCount', entry := RetryFresh(DroppedScan, failureCount, retry, entry, r,
                                             l.(trigger := trigger.State()));
          cursor', current', unproductivePages', fetchNow' := None, {}, 0, true;
      }
    }

    /** A page with rows: send it as one tick, wait for the acknowledgement, and act on the outcome. */
    method HandOver(previous: set<ChainKey>, current: set<ChainKey>, cursor: Option<Cursor>, failureCount: U32,
                    retry: ScanRetryState, unproductivePages: nat, requests: seq<Request>, next: Option<Cursor>,
                    e: Entry, r: Round, ghost l: Loop)
      returns (previous': set<ChainKey>, current': set<ChainKey>, cursor': Option<Cursor>, fetchNow': bool,
               failureCount': U32, unproductivePages': nat, entry: Entry, stopped: bool)
      requires l == Loop(previous, current, cursor, l.fetchNow, failureCount, retry.required, unproductivePages,
                         trigger.State()) && e.delay.None?
      modifies trigger, retry
      ensures var turn := AfterRows(l, e, requests, next, r);
              stopped == turn.ConsumerGone? &&
              (!stopped ==>
                 turn == Turned(Loop(previous', current', cursor', fetchNow', failureCount', retry.required,
                                     unproductivePages', trigger.State()), entry))
    {
      previous', current', cursor', fetchNow' := previous, current + ChainsOf(requests), cursor, true;
      failureCount', unproductivePages', entry, stopped := failureCount, unproductivePages, e, false;
      var complete := next.None?;
      var idle: set<ChainKey> := {};
      if complete {
        idle, previous', current' := CompleteChainScan(previous, current');
        assert idle == previous - (current + ChainsOf(requests));
      }
      if r.ack.None? {
        stopped := true;
        return;
      }
      var outcome := r.ack.value;
      trigger.Receive(r.duringTick);
      var deferred := trigger.FinishBatchLookup(complete);
      entry := e.(delivery := Some(Delivery(requests, idle, outcome)),
                  ops := e.ops + r.duringTick + [WT.FinishBatch(complete)]);
      ghost var l3 := Loop(previous', current', cursor, l.fetchNow, failureCount, retry.required, unproductivePages,
                           trigger.State());
      var step := DecideBatchStep(outcome, cursor, next, unproductivePages);
      assert AfterRows(l, e, requests, next, r)
          == if step.Continue? then GoOn(l3, entry, step, deferred, r)
             else StartOver(l3, entry, if complete then Ended else DroppedScan, r);
      if step.Continue? {
        cursor', fetchNow', failureCount', unproductivePages', entry :=
          GoOnWith(step, deferred, failureCount, retry, unproductivePages, entry, r, l3);
      } else {
        failureCount', entry := RetryFresh(if complete then Ended else DroppedScan, failureCount, retry, entry, r, l3);
        cursor', current', unproductivePages', fetchNow' := None, {}, 0, true;
      }
    }

    method GoOnWith(step: BatchStep, deferred: bool, failureCount: U32, retry: ScanRetryState, unproductivePages: nat,
                    e: Entry, r: Round, ghost l: Loop)
      returns (cursor': Option<Cursor>, fetchNow': bool, failureCount': U32, unproductivePages': nat, entry: Entry)
      requires step.Continue? && e.delay.None?
      requires l == Loop(l.previous, l.current, l.cursor, l.fetchNow, failureCount, retry.required, unproductivePages,
                         trigger.State())
      modifies trigger, retry
      ensures GoOn(l, e, step, deferred, r)
              == Turned(Loop(l.previous, l.current, cursor', fetchNow', failureCount', retry.required,
                             unproductivePages', trigger.State()), entry)
    {
      failureCount', unproductivePages', entry := failureCount, unproductivePages, e;
      if step.madeProgress {
        unproductivePages' := 0;
        failureCount' := retry.ResetFailureCountAfterProgress(failureCount);
      } else {
        unproductivePages' := unproductivePages + 1;
      }
      if step.requiresFreshRetry {
        retry.Require();
      }
      cursor' := step.cursor;
      if cursor'.None? {
        fetchNow', failureCount', entry :=
          EndScan(retry, deferred, failureCount', e.(verdict := Ended), r,
                  l.(unproductivePages := unproductivePages', failureCount := failureCount', cursor := None));
      } else {
        fetchNow' := true;
        entry := entry.(failuresAtEnd := failureCount');
      }
    }

    method RetryFresh(verdict: Verdict, failureCount: U32, retry: ScanRetryState, e: Entry, r: Round, ghost l: Loop)
      returns (failureCount': U32, entry: Entry)
      requires l.failureCount == failureCount && l.trigger == trigger.State()
      modifies trigger, retry
      ensures StartOver(l, e, verdict, r)
              == Turned(Loop(l.previous, {}, None, true, failureCount', retry.required, 0, trigger.State()), entry)
    {
      retry.Clear();
      var delay := JitteredExponentialDelay(failureCount, r.jitter);
      failureCount' := SaturatingIncrement(failureCount);
      trigger.Receive(r.duringDelay);
      entry := e.(verdict := verdict, delay := Some(delay), failuresAtEnd := failureCount',
                  ops := e.ops + r.duringDelay);
    }

    /** A scan ended by a lookup without rows. */
    method EndEmpty(previous: set<ChainKey>, current: set<ChainKey>, failureCount: U32, retry: ScanRetryState,
                    freshLookup: bool, e: Entry, r: Round, ghost l: Loop)
      returns (previous': set<ChainKey>, current': set<ChainKey>, cursor': Option<Cursor>, fetchNow': bool,
               failureCount': U32, unproductivePages': nat, entry: Entry, stopped: bool)
      requires l.previous == previous && l.current == current && l.failureCount == failureCount
      requires l.trigger == trigger.State() && e.delay.None?
      modifies trigger, retry
      ensures var turn := EndEmptyScan(l, e, freshLookup, old(retry.required), r);
              stopped == turn.ConsumerGone? &&
              (!stopped ==>
                 turn == Turned(Loop(previous', current', cursor', fetchNow', failureCount', retry.required,
                                     unproductivePages', trigger.State()), entry))
    {
      cursor', unproductivePages', failureCount', fetchNow', entry, stopped := None, 0, failureCount, true, e, false;
      var idle;
      idle, previous', current' := CompleteChainScan(previous, current);
      assert idle == l.previous - l.current;
      entry := e.(verdict := Ended);
      if idle != {} {
        if r.ack.None? {
          stopped := true;
          return;
        }
        trigger.Receive(r.duringTick);
        entry := entry.(delivery := Some(Delivery([], idle, r.ack.value)), ops := e.ops + r.duringTick);
      }
      ghost var l1 := l.(previous := previous', current := {}, cursor := None, unproductivePages := 0,
                         trigger := trigger.State());
      assert EndEmptyScan(l, e, freshLookup, retry.required, r)
          == ReleaseEmpty(l1, entry, freshLookup, retry.required, r);
      fetchNow', failureCount', entry := Release(freshLookup, failureCount, retry, entry, r, l1);
    }

    method Release(freshLookup: bool, failureCount: U32, retry: ScanRetryState, e: Entry, r: Round, ghost l: Loop)
      returns (fetchNow': bool, failureCount': U32, entry: Entry)
      requires l.failureCount == failureCount && l.trigger == trigger.State() && e.delay.None?
      modifies trigger, retry
      ensures ReleaseEmpty(l, e, freshLookup, old(retry.required), r)
              == Turned(Loop(l.previous, l.current, l.cursor, fetchNow', failureCount', retry.required,
                             l.unproductivePages, trigger.State()), entry)
    {
      var deferred := false;
      if freshLookup {
        trigger.FinishEmptyLookup();
      } else {
        deferred := trigger.FinishBatchLookup(true);
      }
      entry := e.(ops := e.ops + [if freshLookup then WT.FinishEmpty else WT.FinishBatch(true)]);
      fetchNow', failureCount', entry :=
        EndScan(retry, deferred, failureCount, entry, r, l.(trigger := trigger.State()));
    }

    /** Finish the scan and note what that did. */
    method EndScan(retry: ScanRetryState, deferred: bool, failureCount: U32, e: Entry, r: Round, ghost l: Loop)
      returns (fetchNow': bool, failureCount': U32, entry: Entry)
      requires l.failureCount == failureCount && l.trigger == trigger.State() && e.delay.None?
      modifies trigger, retry
      ensures FinishScanRetry(l, e, old(retry.required), deferred, r)
              == Turned(Loop(l.previous, l.current, l.cursor, fetchNow', failureCount', retry.required,
                             l.unproductivePages, trigger.State()), entry)
    {
      var delay;
      fetchNow', failureCount', delay := FinishScan(retry, deferred, failureCount, r);
      entry := e.(failuresAtEnd := failureCount');
      if delay.Some? {
        entry := entry.(delay := delay, ops := e.ops + r.duringDelay);
      }
    }
  }

  lemma OpsBeforeLookup(t: WT.TriggerState, r: Round, freshLookup: bool)
    ensures var begin := if freshLookup then [WT.BeginFresh] else [];
            var t1 := WT.ApplyAll(t, r.beforeLookup);
            var t2 := if freshLookup then WT.Apply(t1, WT.BeginFresh) else t1;
            WT.ApplyAll(t, r.beforeLookup + begin + r.duringLookup) == WT.ApplyAll(t2, r.duringLookup)
  {
    var begin := if freshLookup then [WT.BeginFresh] else [];
    WT.ApplyConcat(t, r.beforeLookup + begin, r.duringLookup);
    WT.ApplyConcat(t, r.beforeLookup, begin);
    assert WT.ApplyAll(WT.ApplyAll(t, r.beforeLookup), []) == WT.ApplyAll(t, r.beforeLookup);
    if freshLookup {
      WT.ApplySnoc(WT.ApplyAll(t, r.beforeLookup), [], WT.BeginFresh);
      assert [] + [WT.BeginFresh] == [WT.BeginFresh];
    }
  }
}
