/** What each turn of the wallet loop does to its trigger, in order, and when a scan starts over at once. */
module WalletTrigger {
  import opened Wrappers
  import opened Retry
  import opened WalletScan
  import opened WalletScanProperties
  import P = Plays
  import WT = WorkTrigger

  /** How a turn releases the trigger: a failed lookup as empty, a page with wallets as one batch, and the end of a
      scan without any as the lookup began; a drained page keeps it. */
  function Release(e: Entry, drained: bool): seq<WT.Op> {
    if e.wallets.None? then [WT.FinishEmpty]
    else if e.wallets.value.requests != [] then [WT.FinishBatch(e.wallets.value.next.None?)]
    else if drained then []
    else if e.cursor.None? then [WT.FinishEmpty]
    else [WT.FinishBatch(true)]
  }

  /** Everything a turn does to the trigger: what comes before the lookup, the beginning of a fresh one, what comes
      during it and while a batch is out, the release, and what comes during a wait. */
  function AllOf(e: Entry, drained: bool, r: Round): seq<WT.Op> {
    r.beforeLookup + (if e.cursor.None? then [WT.BeginFresh] else []) + r.duringLookup +
    (if e.batch.Some? then r.duringBatch else []) + Release(e, drained) + if e.delay.Some? then r.duringDelay else []
  }

  /** A turn does to the trigger exactly what is listed above, in that order. */
  lemma OpsExact(l: Loop, r: Round)
    requires Step(l, r).Turned?
    ensures Step(l, r).entry.ops == AllOf(Step(l, r).entry, Step(l, r).loop.cursor.Some?, r)
  {
    var (l1, e) := LookedUp(l, r);
    if e.wallets.Some? {
      if e.wallets.value.requests == [] {
        EmptyPageOps(l1, e, e.wallets.value.next, r);
      } else {
        WalletsOps(l1, e, e.wallets.value.requests, e.wallets.value.next, r);
      }
    }
  }

  /** The entry's operations come after those of the lookup. */
  ghost predicate Follows(turn: Turn, before: seq<WT.Op>, r: Round) {
    turn.Turned? &&
    var e := turn.entry;
    e.ops == before + (if e.batch.Some? then r.duringBatch else []) + Release(e, turn.loop.cursor.Some?) +
             if e.delay.Some? then r.duringDelay else []
  }

  lemma EmptyPageOps(l: Loop, e: Entry, next: Option<Cursor>, r: Round)
    requires e == Entry(!l.fetchNow, l.cursor, Some(Wallets([], next)), None, None, e.ops)
    ensures Follows(OnEmptyPage(l, e, next, r), e.ops, r) && OnEmptyPage(l, e, next, r).entry.cursor == e.cursor
  {
  }

  lemma WalletsOps(l: Loop, e: Entry, requests: seq<ExternalId>, next: Option<Cursor>, r: Round)
    requires e == Entry(!l.fetchNow, l.cursor, Some(Wallets(requests, next)), None, None, e.ops)
    requires requests != [] && r.ack.Some?
    ensures Follows(OnWallets(l, e, requests, next, r), e.ops, r)
    ensures OnWallets(l, e, requests, next, r).entry.cursor == e.cursor
  {
  }

  // Starting over.

  /** The turn read wallets, or went on from an earlier page. */
  predicate ReadSomething(e: Entry) {
    e.cursor.Some? || (e.wallets.Some? && e.wallets.value.requests != [])
  }

  /** A scan that ends without a wait starts over at once if the trigger reports deferred work, having read
      something. */
  ghost predicate StartsOver(turn: Turn, t: WT.TriggerState, before: seq<WT.Op>, r: Round) {
    turn.Turned? && turn.loop.cursor.None? && turn.entry.delay.None? ==>
      turn.loop.fetchNow ==
      (ReadSomething(turn.entry) &&
       WT.Deferred(WT.ApplyAll(t, before + if turn.entry.batch.Some? then r.duringBatch else [])))
  }

  lemma EmptyPageStartsOver(l: Loop, e: Entry, next: Option<Cursor>, r: Round, t: WT.TriggerState)
    requires e == Entry(!l.fetchNow, l.cursor, Some(Wallets([], next)), None, None, e.ops)
    requires l.trigger == WT.ApplyAll(t, e.ops)
    ensures StartsOver(OnEmptyPage(l, e, next, r), t, e.ops, r)
  {
    assert e.ops + [] == e.ops;
  }

  lemma WalletsStartOver(l: Loop, e: Entry, requests: seq<ExternalId>, next: Option<Cursor>, r: Round,
                         t: WT.TriggerState)
    requires e == Entry(!l.fetchNow, l.cursor, Some(Wallets(requests, next)), None, None, e.ops)
    requires requests != [] && l.trigger == WT.ApplyAll(t, e.ops)
    ensures StartsOver(OnWallets(l, e, requests, next, r), t, e.ops, r)
  {
    WT.ApplyConcat(t, e.ops, r.duringBatch);
  }

  lemma TurnStartsOver(l: Loop, r: Round)
    ensures StartsOver(Step(l, r), l.trigger, LookupOps(l.cursor.None?, r), r)
  {
    var (l1, e) := LookedUp(l, r);
    if e.wallets.Some? {
      if e.wallets.value.requests == [] {
        EmptyPageStartsOver(l1, e, e.wallets.value.next, r, l.trigger);
      } else {
        WalletsStartOver(l1, e, e.wallets.value.requests, e.wallets.value.next, r, l.trigger);
      }
    }
  }

  lemma ReleasedAfter(e: Entry, r: Round)
    requires e.delay.None? && e.wallets.Some?
    ensures |Release(e, false)| == 1 && (Release(e, false)[0].FinishBatch? || Release(e, false)[0].FinishEmpty?)
    ensures AllOf(e, false, r)
            == LookupOps(e.cursor.None?, r) + (if e.batch.Some? then r.duringBatch else []) + [Release(e, false)[0]]
  {
  }

  lemma QuietEndWasAnswered(l: Loop, r: Round)
    requires Step(l, r).Turned? && Step(l, r).entry.delay.None?
    ensures Step(l, r).entry.wallets.Some?
  {
  }

  /** In every play, a scan that ends without a wait starts over at once exactly when it read wallets or more than one
      page and an event or a force has come since its fresh lookup began. */
  lemma StartsOverExact(rounds: seq<Round>, loops: seq<Loop>, log: seq<Entry>, i: nat)
    requires IsPlay(WT.FRESH, rounds, loops, log) && i < |log|
    requires loops[i + 1].cursor.None? && log[i].delay.None?
    ensures loops[i + 1].fetchNow <==> ReadSomething(log[i]) && WT.Armed(loops[i + 1].trigger)
    ensures loops[i + 1].fetchNow <==>
            ReadSomething(log[i]) && WT.HasNotice(WT.Since(P.AllOps(OpsOf, log[..i + 1])))
  {
    assert P.IsTurn(Step, rounds, loops, log, i);
    TurnFactsAt(WT.FRESH, rounds, loops, log, i);
    OpsExact(loops[i], rounds[i]);
    TurnStartsOver(loops[i], rounds[i]);
    TurnTrigger(loops[i], rounds[i]);
    WalletTurnsRecordOps(WT.FRESH, rounds, loops, log, i);
    WalletTurnsRecordOps(WT.FRESH, rounds, loops, log, i + 1);
    WT.ArmedExact(P.AllOps(OpsOf, log[..i + 1]));
    QuietEndWasAnswered(loops[i], rounds[i]);
    ReleasedAfter(log[i], rounds[i]);
    var ops := LookupOps(log[i].cursor.None?, rounds[i]) + if log[i].batch.Some? then rounds[i].duringBatch else [];
    WT.ArmedStays(P.AllOps(OpsOf, log[..i]), ops, Release(log[i], false)[0]);
  }
}
