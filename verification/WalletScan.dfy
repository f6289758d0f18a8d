/** The managed-wallet worker: it walks the wallets to be populated page by page, hands each page over, and
    decides when to go on, wait or start again. */
module WalletScan {
  import opened Wrappers
  import opened Retry
  import opened Plays
  import opened PageRows
  import WT = WorkTrigger

  type ExternalId = string

  datatype BatchOutcome = Completed | SubmissionFailed

  /** What the platform answers to a lookup; a row without an id cannot be converted. */
  datatype Response =
    | NoAnswer
    | NoResult
    | Page(rows: seq<Option<ExternalId>>, nextCursor: Option<Cursor>)

  datatype Wallets = Wallets(requests: seq<ExternalId>, next: Option<Cursor>)

  /** A page without rows is still a page; only a missing result ends the scan outright. */
  function GetPendingWallets(response: Response): Option<Wallets> {
    match response
    case NoAnswer => None
    case NoResult => Some(Wallets([], None))
    case Page(rows, nextCursor) =>
      Some(Wallets(Convertible(rows), if nextCursor == Some("") then None else nextCursor))
  }

  /** What to do after one page of a scan. */
  datatype WalletStep =
    | Continue(cursor: Option<Cursor>, restartAfterScan: bool, resetFailures: bool, fetchNow: bool)
    | DelayThenFetch(cursor: Option<Cursor>, restartAfterScan: bool)

  /** The step after a page that produced wallets. */
  function AfterBatch(outcome: BatchOutcome, next: Option<Cursor>, restartAfterScan: bool, deferred: bool): WalletStep {
    match outcome
    case Completed =>
      if next.None? && restartAfterScan then DelayThenFetch(None, false)
      else Continue(next, restartAfterScan, !restartAfterScan, next.Some? || deferred)
    case SubmissionFailed => DelayThenFetch(next, next.Some?)
  }

  /** The step after a scan that ended with nothing left. */
  function AfterEmptyScan(restartAfterScan: bool, deferred: bool): WalletStep {
    if restartAfterScan then DelayThenFetch(None, false) else Continue(None, false, true, deferred)
  }

  /** One turn of the loop as the world plays it. */
  datatype Round = Round(
    beforeLookup: WT.Notices,
    response: Response,
    duringLookup: WT.Notices,
    ack: Option<BatchOutcome>,
    duringBatch: WT.Notices,
    jitter: Percent,
    duringDelay: WT.Notices)

  /** The loop's variables at its head. */
  datatype Loop = Loop(
    cursor: Option<Cursor>,
    fetchNow: bool,
    failureCount: U32,
    restartAfterScan: bool,
    emptyPages: nat,
    trigger: WT.TriggerState)

  function Start(trigger: WT.TriggerState): Loop {
    Loop(None, true, 0, false, 0, trigger)
  }

  datatype Batch = Batch(requests: seq<ExternalId>, outcome: BatchOutcome)

  /** What one turn did: the lookup's page, if there was one, what was handed over, and the wait. */
  datatype Entry = Entry(
    parked: bool,
    cursor: Option<Cursor>,
    wallets: Option<Wallets>,
    batch: Option<Batch>,
    delay: Option<nat>,
    ops: seq<WT.Op>)

  type Turn = Plays.Turn<Loop, Entry>

  /** Carry out a decided step. */
  function Applied(l: Loop, e: Entry, step: WalletStep, r: Round): Turn {
    match step
    case Continue(cursor, restartAfterScan, resetFailures, fetchNow) =>
      Turned(l.(cursor := cursor, restartAfterScan := restartAfterScan, fetchNow := fetchNow,
                failureCount := if resetFailures then 0 else l.failureCount), e)
    case DelayThenFetch(cursor, restartAfterScan) =>
      Turned(l.(cursor := cursor, restartAfterScan := restartAfterScan, fetchNow := true,
                failureCount := SaturatingIncrement(l.failureCount), trigger := WT.ApplyAll(l.trigger, r.duringDelay)),
             e.(delay := Some(JitteredExponentialDelay(l.failureCount, r.jitter)), ops := e.ops + r.duringDelay))
  }

  function OnEmptyPage(l: Loop, e: Entry, next: Option<Cursor>, r: Round): Turn {
    if ShouldContinueEmptyDrain(l.cursor, next, l.emptyPages) then
      Turned(l.(emptyPages := l.emptyPages + 1, cursor := next, restartAfterScan := true, fetchNow := true), e)
    else
      var freshLookup := l.cursor.None?;
      var op := if freshLookup then WT.FinishEmpty else WT.FinishBatch(true);
      var deferred := !freshLookup && WT.Deferred(l.trigger);
      Applied(l.(emptyPages := 0, trigger := WT.Apply(l.trigger, op)), e.(ops := e.ops + [op]),
              AfterEmptyScan(l.restartAfterScan || next.Some?, deferred), r)
  }

  function OnWallets(l: Loop, e: Entry, requests: seq<ExternalId>, next: Option<Cursor>, r: Round): Turn {
    if r.ack.None? then ConsumerGone
    else
      var t := WT.ApplyAll(l.trigger, r.duringBatch);
      var op := WT.FinishBatch(next.None?);
      Applied(l.(emptyPages := 0, trigger := WT.Apply(t, op)),
              e.(batch := Some(Batch(requests, r.ack.value)), ops := e.ops + r.duringBatch + [op]),
              AfterBatch(r.ack.value, next, l.restartAfterScan, WT.Deferred(t)), r)
  }

  function OnLookupError(l: Loop, e: Entry, r: Round): Turn {
    Applied(l.(emptyPages := 0, trigger := WT.Apply(l.trigger, WT.FinishEmpty)), e.(ops := e.ops + [WT.FinishEmpty]),
            DelayThenFetch(None, false), r)
  }

  function LookupOps(freshLookup: bool, r: Round): seq<WT.Op> {
    r.beforeLookup + (if freshLookup then [WT.BeginFresh] else []) + r.duringLookup
  }

  /** The loop's variables and the entry once the lookup of a turn has been answered. */
  function LookedUp(l: Loop, r: Round): (Loop, Entry) {
    var ops := LookupOps(l.cursor.None?, r);
    (l.(trigger := WT.ApplyAll(l.trigger, ops)),
     Entry(!l.fetchNow, l.cursor, GetPendingWallets(r.response), None, None, ops))
  }

  /** One turn of the loop. */
  function Step(l: Loop, r: Round): Turn {
    var (l1, e) := LookedUp(l, r);
    match e.wallets
    case None => OnLookupError(l1, e, r)
    case Some(w) => if w.requests == [] then OnEmptyPage(l1, e, w.next, r) else OnWallets(l1, e, w.requests, w.next, r)
  }

  class DeriveWalletJob {
    const trigger: WT.WorkTrigger

    constructor (trigger: WT.WorkTrigger)
      ensures this.trigger == trigger
    {
      this.trigger := trigger;
    }

    /** Carry out a decided step, returning the loop's next cursor and flags. */
    method ApplyStep(step: WalletStep, failureCount: U32, r: Round)
      returns (cursor: Option<Cursor>, restartAfterScan: bool, fetchNow: bool, failureCount': U32, delay: Option<nat>)
      modifies trigger
      ensures cursor == step.cursor && restartAfterScan == step.restartAfterScan
      ensures if step.Continue? then
                fetchNow == step.fetchNow && failureCount' == (if step.resetFailures then 0 else failureCount) &&
                delay.None? && trigger.State() == old(trigger.State())
              else
                fetchNow && failureCount' == SaturatingIncrement(failureCount) &&
                delay == Some(JitteredExponentialDelay(failureCount, r.jitter)) &&
                trigger.State() == WT.ApplyAll(old(trigger.State()), r.duringDelay)
    {
      cursor, restartAfterScan, failureCount', delay := step.cursor, step.restartAfterScan, failureCount, None;
      match step {
        case Continue(_, _, resetFailures, fetch) =>
          if resetFailures {
            failureCount' := 0;
          }
          fetchNow := fetch;
        case DelayThenFetch(_, _) =>
          delay := Some(JitteredExponentialDelay(failureCount, r.jitter));
          failureCount' := SaturatingIncrement(failureCount);
          trigger.Receive(r.duringDelay);
          fetchNow := true;
      }
    }

    /** A fresh lookup consumes what was notified before it; a continuation keeps it for the scan's end. */
    method BeginLookup(freshLookup: bool, r: Round) returns (ops: seq<WT.Op>)
      modifies trigger
      ensures ops == LookupOps(freshLookup, r) && trigger.State() == WT.ApplyAll(old(trigger.State()), ops)
    {
      ops := LookupOps(freshLookup, r);
      var begin := if freshLookup then [WT.BeginFresh] else [];
      WT.ApplyConcat(trigger.State(), r.beforeLookup + begin, r.duringLookup);
      WT.ApplyConcat(trigger.State(), r.beforeLookup, begin);
      trigger.Receive(r.beforeLookup);
      if freshLookup {
        WT.ApplySnoc(trigger.State(), [], WT.BeginFresh);
        assert [] + [WT.BeginFresh] == begin;
        trigger.BeginFreshLookup();
      }
      trigger.Receive(r.duringLookup);
    }

    /** One turn of the loop. */
    method TakeTurn(cursor: Option<Cursor>, fetchNow: bool, failureCount: U32, restartAfterScan: bool,
                    emptyPages: nat, r: Round)
      returns (cursor': Option<Cursor>, fetchNow': bool, failureCount': U32, restartAfterScan': bool, emptyPages': nat,
               entry: Entry, stopped: bool)
      modifies trigger
      ensures var turn := Step(Loop(cursor, fetchNow, failureCount, restartAfterScan, emptyPages,
                                    old(trigger.State())), r);
              if stopped then turn.ConsumerGone?
              else turn == Turned(Loop(cursor', fetchNow', failureCount', restartAfterScan', emptyPages',
                                       trigger.State()), entry)
    {
      cursor', fetchNow', failureCount' := cursor, fetchNow, failureCount;
      restartAfterScan', emptyPages' := restartAfterScan, emptyPages;
      stopped := false;
      var freshLookup := cursor.None?;
      var ops := BeginLookup(freshLookup, r);
      ghost var l := Loop(cursor, fetchNow, failureCount, restartAfterScan, emptyPages, trigger.State());
      var wallets := GetPendingWallets(r.response);
      entry := Entry(!fetchNow, cursor, wallets, None, None, ops);
      if wallets.None? {
        emptyPages' := 0;
        trigger.FinishEmptyLookup();
        var delay := JitteredExponentialDelay(failureCount, r.jitter);
        cursor', restartAfterScan', fetchNow', failureCount' := None, false, true, SaturatingIncrement(failureCount);
        trigger.Receive(r.duringDelay);
        entry := entry.(delay := Some(delay), ops := ops + [WT.FinishEmpty] + r.duringDelay);
      } else if wallets.value.requests == [] {
        cursor', fetchNow', failureCount', restartAfterScan', emptyPages', entry :=
          EmptyPage(cursor, failureCount, restartAfterScan, emptyPages, wallets.value.next, entry, r, l);
      } else if r.ack.None? {
        stopped := true;
      } else {
        cursor', fetchNow', failureCount', restartAfterScan', emptyPages', entry :=
          HandOver(failureCount, restartAfterScan, wallets.value, entry, r, l);
      }
    }

    /** A page without convertible rows: drain past it, or end the scan. */
    method EmptyPage(cursor: Option<Cursor>, failureCount: U32, restartAfterScan: bool, emptyPages: nat,
                     next: Option<Cursor>, e: Entry, r: Round, ghost l: Loop)
      returns (cursor': Option<Cursor>, fetchNow': bool, failureCount': U32, restartAfterScan': bool, emptyPages': nat,
               entry: Entry)
      requires l == Loop(cursor, l.fetchNow, failureCount, restartAfterScan, emptyPages, trigger.State()) &&
          e.delay.None?
      modifies trigger
      ensures OnEmptyPage(l, e, next, r)
              == Turned(Loop(cursor', fetchNow', failureCount', restartAfterScan', emptyPages', trigger.State()), entry)
    {
      cursor', fetchNow', failureCount', restartAfterScan', emptyPages', entry :=
        next, true, failureCount, restartAfterScan, emptyPages, e;
      if ShouldContinueEmptyDrain(cursor, next, emptyPages) {
        emptyPages' := emptyPages + 1;
        restartAfterScan' := true;
      } else {
        if next.Some? {
          restartAfterScan' := true;
        }
        emptyPages' := 0;
        var deferred := false;
        if cursor.None? {
          trigger.FinishEmptyLookup();
        } else {
          deferred := trigger.FinishBatchLookup(true);
        }
        entry := entry.(ops := e.ops + [if cursor.None? then WT.FinishEmpty else WT.FinishBatch(true)]);
        var delay;
        cursor', restartAfterScan', fetchNow', failureCount', delay :=
          ApplyStep(AfterEmptyScan(restartAfterScan', deferred), failureCount, r);
        if delay.Some? {
          entry := entry.(delay := delay, ops := entry.ops + r.duringDelay);
        }
      }
    }

    /** A page with wallets: send it as one batch, wait for the acknowledgement, and act on the outcome. */
    method HandOver(failureCount: U32, restartAfterScan: bool, wallets: Wallets, e: Entry, r: Round, ghost l: Loop)
      returns (cursor': Option<Cursor>, fetchNow': bool, failureCount': U32, restartAfterScan': bool, emptyPages': nat,
               entry: Entry)
      requires l.failureCount == failureCount && l.restartAfterScan == restartAfterScan && l.trigger == trigger.State()
      requires r.ack.Some? && e.delay.None?
      modifies trigger
      ensures OnWallets(l, e, wallets.requests, wallets.next, r)
              == Turned(Loop(cursor', fetchNow', failureCount', restartAfterScan', emptyPages', trigger.State()), entry)
    {
      emptyPages' := 0;
      trigger.Receive(r.duringBatch);
      var deferred := trigger.FinishBatchLookup(wallets.next.None?);
      entry := e.(batch := Some(Batch(wallets.requests, r.ack.value)),
                  ops := e.ops + r.duringBatch + [WT.FinishBatch(wallets.next.None?)]);
      var delay;
      cursor', restartAfterScan', fetchNow', failureCount', delay :=
        ApplyStep(AfterBatch(r.ack.value, wallets.next, restartAfterScan, deferred), failureCount, r);
      if delay.Some? {
        entry := entry.(delay := delay, ops := entry.ops + r.duringDelay);
      }
    }

    /** The endless loop, for as long as the rounds last. */
    method StartPolling(rounds: seq<Round>) returns (log: seq<Entry>, running: bool)
      modifies trigger
      ensures var play := Turns(Step, Start(old(trigger.State())), rounds); log == play.log && running == play.running
    {
      var cursor: Option<Cursor> := None;
      var fetchNow := true;
      var failureCount: U32 := 0;
      var restartAfterScan := false;
      var emptyPages: nat := 0;
      log := [];
      for i := 0 to |rounds|
        invariant Turns(Step, Start(old(trigger.State())), rounds[..i])
                  == Play(Loop(cursor, fetchNow, failureCount, restartAfterScan, emptyPages, trigger.State()), log,
                          true)
      {
        TurnsSnoc(Step, Start(old(trigger.State())), rounds, i);
        var entry, stopped;
        cursor, fetchNow, failureCount, restartAfterScan, emptyPages, entry, stopped :=
          TakeTurn(cursor, fetchNow, failureCount, restartAfterScan, emptyPages, rounds[i]);
        if stopped {
          TurnsStop(Step, Start(old(trigger.State())), rounds, i + 1);
          return log, false;
        }
        log := log + [entry];
      }
      assert rounds[..|rounds|] == rounds;
      running := true;
    }
  }
}
