/** What each turn of the transaction loop does to its trigger, in order, and when a scan starts over at once. */
module TransactionTrigger {
  import opened Wrappers
  import opened Retry
  import opened TransactionHandler
  import opened TransactionScan
  import opened TransactionScanProperties
  import P = Plays
  import WT = WorkTrigger

  /** How a turn releases the trigger: a failed lookup as empty, a page with rows as one batch, and the end of a scan
      without rows as the lookup began. */
  function Release(e: Entry): seq<WT.Op> {
    if e.lookup.LookupFailed? then [WT.FinishEmpty]
    else if e.lookup.Rows? && e.lookup.requests != [] then [WT.FinishBatch(e.lookup.next.None?)]
    else if e.verdict.Continued? then []
    else if e.cursor.None? then [WT.FinishEmpty]
    else [WT.FinishBatch(true)]
  }

  /** Everything a turn does to the trigger: what comes before the lookup, the beginning of a fresh one, what comes
      during it and while a tick is out, the release, and what comes during a wait. */
  function AllOf(e: Entry, r: Round): seq<WT.Op> {
    r.beforeLookup + (if e.cursor.None? then [WT.BeginFresh] else []) + r.duringLookup +
    (if e.delivery.Some? then r.duringTick else []) + Release(e) + if e.delay.Some? then r.duringDelay else []
  }

  /** The entry's operations come after those of the lookup. */
  ghost predicate Follows(e: Entry, before: seq<WT.Op>, r: Round) {
    e.ops == before + (if e.delivery.Some? then r.duringTick else []) + Release(e) +
             if e.delay.Some? then r.duringDelay else []
  }

  lemma AfterRowsFollows(l: Loop, e: Entry, requests: seq<Request>, next: Option<Cursor>, r: Round)
    requires e.lookup == Rows(requests, next) && requests != [] && e.delay.None?
    requires AfterRows(l, e, requests, next, r).Turned?
    ensures Follows(AfterRows(l, e, requests, next, r).entry, e.ops, r)
  {
  }

  lemma EmptyScanFollows(l: Loop, e: Entry, retryRequired: bool, r: Round)
    requires e.lookup.NoTransactions? || (e.lookup.Rows? && e.lookup.requests == [])
    requires e.delay.None? && e.delivery.None? && e.cursor == l.cursor
    requires EndEmptyScan(l, e, l.cursor.None?, retryRequired, r).Turned?
    ensures Follows(EndEmptyScan(l, e, l.cursor.None?, retryRequired, r).entry, e.ops, r)
  {
    var idle := l.previous - l.current;
    var l1 := l.(previous := l.current, current := {}, cursor := None, unproductivePages := 0);
    if idle == {} {
      ReleaseFollows(l1, e.(verdict := Ended), retryRequired, r, e.ops);
    } else {
      var delivery := Some(Delivery([], idle, r.ack.value));
      ReleaseFollows(During(l1, r.duringTick),
                     e.(verdict := Ended, delivery := delivery, ops := e.ops + r.duringTick), retryRequired, r, e.ops);
    }
  }

  lemma ReleaseFollows(l: Loop, e: Entry, retryRequired: bool, r: Round, before: seq<WT.Op>)
    requires e.lookup.NoTransactions? || (e.lookup.Rows? && e.lookup.requests == [])
    requires e.delay.None? && e.verdict.Ended?
    requires e.ops == before + if e.delivery.Some? then r.duringTick else []
    ensures Follows(ReleaseEmpty(l, e, e.cursor.None?, retryRequired, r).entry, before, r)
  {
  }

  lemma AfterLookupFollows(l: Loop, e: Entry, r: Round)
    requires e.delay.None? && e.delivery.None? && e.cursor == l.cursor && e.verdict.Continued?
    requires AfterLookup(l, e, r).Turned?
    ensures Follows(AfterLookup(l, e, r).entry, e.ops, r) && AfterLookup(l, e, r).entry.cursor == e.cursor
  {
    match e.lookup {
      case Rows(requests, next) =>
        if requests != [] {
          AfterRowsFollows(l, e, requests, next, r);
        } else if !ShouldContinueEmptyDrain(l.cursor, next, l.unproductivePages) {
          EmptyScanFollows(l, e, l.retryRequired || next.Some?, r);
        }
      case NoTransactions =>
        EmptyScanFollows(l, e, l.retryRequired, r);
      case LookupFailed =>
    }
  }

  /** A turn does to the trigger exactly what is listed above, in that order. */
  lemma OpsExact(l: Loop, r: Round)
    requires Step(l, r).Turned?
    ensures Step(l, r).entry.ops == AllOf(Step(l, r).entry, r)
  {
    var (l1, e) := LookedUp(l, r);
    AfterLookupFollows(l1, e, r);
  }

  // Starting over.

  /** The turn read rows, or went on from an earlier page. */
  predicate ReadSomething(e: Entry) {
    e.cursor.Some? || (e.lookup.Rows? && e.lookup.requests != [])
  }

  /** A scan that ends without a wait starts over at once if the trigger reports deferred work, having read
      something. */
  ghost predicate StartsOver(turn: Turn, t: WT.TriggerState, before: seq<WT.Op>, r: Round) {
    turn.Turned? && turn.entry.verdict.Ended? && turn.entry.delay.None? ==>
      turn.loop.fetchNow ==
      (ReadSomething(turn.entry) &&
       WT.Deferred(WT.ApplyAll(t, before + if turn.entry.delivery.Some? then r.duringTick else [])))
  }

  lemma RowsStartOver(l: Loop, e: Entry, requests: seq<Request>, next: Option<Cursor>, r: Round, t: WT.TriggerState)
    requires e.lookup == Rows(requests, next) && requests != [] && e.delay.None? && e.verdict.Continued?
    requires l.trigger == WT.ApplyAll(t, e.ops)
    ensures StartsOver(AfterRows(l, e, requests, next, r), t, e.ops, r)
  {
    WT.ApplyConcat(t, e.ops, r.duringTick);
    if r.ack.Some? {
      var current := l.current + ChainsOf(requests);
      var complete := next.None?;
      var l2 := During(if complete then l.(previous := current, current := {}) else l.(current := current),
                       r.duringTick);
      var delivery := Delivery(requests, if complete then l.previous - current else {}, r.ack.value);
      var e3 := e.(delivery := Some(delivery), ops := e.ops + r.duringTick + [WT.FinishBatch(complete)]);
      GoOnStartsOver(Do(l2, WT.FinishBatch(complete)), e3,
                     DecideBatchStep(r.ack.value, l.cursor, next, l.unproductivePages), WT.Deferred(l2.trigger), r);
    }
  }

  lemma GoOnStartsOver(l: Loop, e: Entry, step: BatchStep, deferred: bool, r: Round)
    requires e.verdict.Continued? && e.delay.None?
    ensures step.Continue? ==>
              var turn := GoOn(l, e, step, deferred, r);
              turn.Turned? && turn.entry.lookup == e.lookup && turn.entry.delivery == e.delivery &&
              (turn.entry.verdict.Ended? && turn.entry.delay.None? ==> turn.loop.fetchNow == deferred)
  {
  }

  lemma EmptyScanStartsOver(l: Loop, e: Entry, retryRequired: bool, r: Round, t: WT.TriggerState)
    requires e.lookup.NoTransactions? || (e.lookup.Rows? && e.lookup.requests == [])
    requires e.delay.None? && e.delivery.None? && e.cursor == l.cursor && l.trigger == WT.ApplyAll(t, e.ops)
    ensures StartsOver(EndEmptyScan(l, e, l.cursor.None?, retryRequired, r), t, e.ops, r)
  {
    WT.ApplyConcat(t, e.ops, r.duringTick);
    assert e.ops + [] == e.ops;
  }

  lemma AfterLookupStartsOver(l: Loop, e: Entry, r: Round, t: WT.TriggerState)
    requires e.delay.None? && e.delivery.None? && e.cursor == l.cursor && e.verdict.Continued?
    requires l.trigger == WT.ApplyAll(t, e.ops)
    ensures StartsOver(AfterLookup(l, e, r), t, e.ops, r)
  {
    match e.lookup {
      case Rows(requests, next) =>
        if requests != [] {
          RowsStartOver(l, e, requests, next, r, t);
        } else if !ShouldContinueEmptyDrain(l.cursor, next, l.unproductivePages) {
          EmptyScanStartsOver(l, e, l.retryRequired || next.Some?, r, t);
        }
      case NoTransactions =>
        EmptyScanStartsOver(l, e, l.retryRequired, r, t);
      case LookupFailed =>
    }
  }

  lemma TurnStartsOver(l: Loop, r: Round)
    ensures StartsOver(Step(l, r), l.trigger, LookupOps(l.cursor.None?, r), r)
  {
    var (l1, e) := LookedUp(l, r);
    AfterLookupStartsOver(l1, e, r, l.trigger);
  }

  lemma HistoryOf(rounds: seq<Round>, loops: seq<Loop>, log: seq<Entry>, i: nat)
    requires IsPlay(WT.FRESH, rounds, loops, log) && i <= |log|
    ensures loops[i].trigger == WT.After(P.AllOps(OpsOf, log[..i]))
  {
    TurnsRecordOps();
    P.PlayTrigger(Step, TriggerOf, OpsOf, Start(WT.FRESH), rounds, loops, log, i);
  }

  lemma ReleasedAfter(e: Entry, r: Round)
    requires e.verdict.Ended? && e.delay.None? && !e.lookup.LookupFailed?
    ensures |Release(e)| == 1 && (Release(e)[0].FinishBatch? || Release(e)[0].FinishEmpty?)
    ensures AllOf(e, r)
            == LookupOps(e.cursor.None?, r) + (if e.delivery.Some? then r.duringTick else []) + [Release(e)[0]]
  {
  }

  /** In every play, a scan that ends without a wait starts over at once exactly when it read rows or more than one
      page and an event or a force has come since its fresh lookup began. */
  lemma StartsOverExact(rounds: seq<Round>, loops: seq<Loop>, log: seq<Entry>, i: nat)
    requires IsPlay(WT.FRESH, rounds, loops, log) && i < |log| && log[i].verdict.Ended? && log[i].delay.None?
    ensures loops[i + 1].fetchNow <==> ReadSomething(log[i]) && WT.Armed(loops[i + 1].trigger)
    ensures loops[i + 1].fetchNow <==>
            ReadSomething(log[i]) && WT.HasNotice(WT.Since(P.AllOps(OpsOf, log[..i + 1])))
  {
    assert P.IsTurn(Step, rounds, loops, log, i);
    TurnFactsAt(WT.FRESH, rounds, loops, log, i);
    OpsExact(loops[i], rounds[i]);
    TurnStartsOver(loops[i], rounds[i]);
    TurnTrigger(loops[i], rounds[i]);
    HistoryOf(rounds, loops, log, i);
    HistoryOf(rounds, loops, log, i + 1);
    WT.ArmedExact(P.AllOps(OpsOf, log[..i + 1]));
    ReleasedAfter(log[i], rounds[i]);
    var ops := LookupOps(log[i].cursor.None?, rounds[i]) +
               if log[i].delivery.Some? then rounds[i].duringTick else [];
    WT.ArmedStays(P.AllOps(OpsOf, log[..i]), ops, Release(log[i])[0]);
  }
}
