/** What the managed-wallet worker's loop keeps over every play. */
module WalletScanProperties {
  import opened Wrappers
  import opened Retry
  import opened PageRows
  import opened WalletScan
  import PC = PageChain
  import P = Plays
  import WT = WorkTrigger

  // What a log says, without the loop's variables.

  /** The entries of the current scan, from its fresh lookup on. */
  function Scan(log: seq<Entry>): (scan: seq<Entry>) {
    if log == [] then []
    else
      var last := log[|log| - 1];
      if last.cursor.None? then [last] else Scan(log[..|log| - 1]) + [last]
  }

  predicate Accepted(e: Entry) {
    e.batch.Some? && e.batch.value.outcome.Completed?
  }

  /** Whether a page left wallets behind: it failed, or it was skipped with more to come. */
  predicate OwesRetry(e: Entry) {
    (e.wallets.Some? && e.wallets.value.requests == [] && e.wallets.value.next.Some?) ||
    (e.batch.Some? && e.batch.value.outcome.SubmissionFailed?)
  }

  predicate AnyOwesRetry(scan: seq<Entry>) {
    scan != [] && (OwesRetry(scan[|scan| - 1]) || AnyOwesRetry(scan[..|scan| - 1]))
  }

  /** Lookups issued in a row, up to the last one, with neither a wait nor an accepted submission between
      them. */
  function LookupsInARow(log: seq<Entry>): nat
    decreases |log|, 0
  {
    if log == [] then 0
    else 1 + if log[|log| - 1].parked then 0 else StillInARow(log[..|log| - 1])
  }

  /** The same, once the last turn is over. */
  function StillInARow(log: seq<Entry>): nat
    decreases |log|, 1
  {
    if log == [] || log[|log| - 1].delay.Some? || Accepted(log[|log| - 1]) then 0 else LookupsInARow(log)
  }

  // Every turn of every play.

  /** `loops` are the loop's variables at its head before each turn, and after the last. */
  ghost predicate IsPlay(trigger: WT.TriggerState, rounds: seq<Round>, loops: seq<Loop>, log: seq<Entry>) {
    P.IsPlay(Step, Start(trigger), rounds, loops, log)
  }

  /** What a turn does, case by case. */
  ghost predicate TurnFacts(l: Loop, l': Loop, e: Entry, jitter: Percent) {
    e.parked == !l.fetchNow && e.cursor == l.cursor &&
    (e.delay.Some? ==> l'.fetchNow && l'.failureCount == SaturatingIncrement(l.failureCount) &&
                       e.delay == Some(JitteredExponentialDelay(l.failureCount, jitter))) &&
    (e.delay.Some? && Accepted(e) ==> l.restartAfterScan) &&
    (e.batch.Some? ==> e.wallets.Some? && e.wallets.value.requests != []) &&
    (e.delay.None? ==>
       l'.failureCount == if l.restartAfterScan || OwesRetry(e) then l.failureCount else 0) &&
    if l'.cursor.Some? then
      l'.fetchNow && l'.cursor != Some("") && l'.restartAfterScan == (l.restartAfterScan || OwesRetry(e)) &&
      (e.delay.Some? ==> OwesRetry(e)) &&
      (if e.batch.Some? then l'.emptyPages == 0 && (e.delay.None? ==> Accepted(e))
       else l'.emptyPages == l.emptyPages + 1 <= MAX_CONSECUTIVE_EMPTY_PAGES && OwesRetry(e))
    else
      l'.emptyPages == 0 && !l'.restartAfterScan &&
      (e.delay.None? ==> !l.restartAfterScan && !OwesRetry(e) && (l'.fetchNow ==> Accepted(e) || l.cursor.Some?))
  }

  lemma EmptyPageFacts(l: Loop, e: Entry, next: Option<Cursor>, r: Round)
    requires e == Entry(!l.fetchNow, l.cursor, Some(Wallets([], next)), None, None, e.ops)
    ensures var turn := OnEmptyPage(l, e, next, r);
            TurnFacts(l, turn.loop, turn.entry, r.jitter)
  {
  }

  lemma WalletsFacts(l: Loop, e: Entry, requests: seq<ExternalId>, next: Option<Cursor>, r: Round)
    requires e == Entry(!l.fetchNow, l.cursor, Some(Wallets(requests, next)), None, None, e.ops)
    requires requests != [] && next != Some("") && r.ack.Some?
    ensures var turn := OnWallets(l, e, requests, next, r);
            TurnFacts(l, turn.loop, turn.entry, r.jitter)
  {
  }

  lemma TurnHasFacts(l: Loop, r: Round)
    requires Step(l, r).Turned?
    ensures TurnFacts(l, Step(l, r).loop, Step(l, r).entry, r.jitter)
  {
    var (l1, e) := LookedUp(l, r);
    var wallets := e.wallets;
    if wallets.Some? {
      if wallets.value.requests == [] {
        EmptyPageFacts(l1, e, wallets.value.next, r);
      } else {
        WalletsFacts(l1, e, wallets.value.requests, wallets.value.next, r);
      }
    }
  }

  lemma TurnFactsAt(trigger: WT.TriggerState, rounds: seq<Round>, loops: seq<Loop>, log: seq<Entry>, i: nat)
    requires IsPlay(trigger, rounds, loops, log) && i < |log|
    ensures TurnFacts(loops[i], loops[i + 1], log[i], rounds[i].jitter)
  {
    assert P.IsTurn(Step, rounds, loops, log, i);
    TurnHasFacts(loops[i], rounds[i]);
  }

  // The loop's variables say what the log says.

  ghost predicate Inv(l: Loop, log: seq<Entry>) {
    l.emptyPages <= MAX_CONSECUTIVE_EMPTY_PAGES && l.cursor != Some("") &&
    (if l.cursor.None? then l.emptyPages == 0 && !l.restartAfterScan
     else log != [] && l.fetchNow && (l.restartAfterScan <==> AnyOwesRetry(Scan(log)))) &&
    (!l.fetchNow ==> log != [] && log[|log| - 1].delay.None? && !AnyOwesRetry(Scan(log))) &&
    (l.fetchNow ==>
       StillInARow(log) <= l.emptyPages + 1 &&
       (l.cursor.Some? && !l.restartAfterScan ==> StillInARow(log) == 0)) &&
    LookupsInARow(log) <= MAX_CONSECUTIVE_EMPTY_PAGES + 2
  }

  /** The scan the loop is in before a turn: none when the lookup is to be fresh. */
  function ScanSoFar(l: Loop, log: seq<Entry>): seq<Entry> {
    if l.cursor.None? then [] else Scan(log)
  }

  lemma LogSnoc(log: seq<Entry>, e: Entry)
    ensures Scan(log + [e]) == if e.cursor.None? then [e] else Scan(log) + [e]
    ensures LookupsInARow(log + [e]) == 1 + if e.parked then 0 else StillInARow(log)
    ensures StillInARow(log + [e]) == if e.delay.Some? || Accepted(e) then 0 else LookupsInARow(log + [e])
  {
    assert (log + [e])[..|log|] == log;
  }

  lemma ScanSnoc(scan: seq<Entry>, e: Entry)
    ensures AnyOwesRetry(scan + [e]) <==> AnyOwesRetry(scan) || OwesRetry(e)
  {
    assert (scan + [e])[..|scan|] == scan;
  }

  lemma FactsKeepInv(l: Loop, log: seq<Entry>, l': Loop, e: Entry, jitter: Percent)
    requires Inv(l, log) && TurnFacts(l, l', e, jitter)
    ensures Inv(l', log + [e])
    ensures AnyOwesRetry(Scan(log + [e])) <==> l.restartAfterScan || OwesRetry(e)
  {
    LogSnoc(log, e);
    ScanSnoc(ScanSoFar(l, log), e);
    assert [] + [e] == [e];
    assert Scan(log + [e]) == ScanSoFar(l, log) + [e];
    assert l.restartAfterScan == AnyOwesRetry(ScanSoFar(l, log));
  }

  lemma {:induction false} PlayKeepsInv(trigger: WT.TriggerState, rounds: seq<Round>, loops: seq<Loop>,
                                        log: seq<Entry>, i: nat)
    requires IsPlay(trigger, rounds, loops, log) && i <= |log|
    ensures Inv(loops[i], log[..i])
  {
    if i > 0 {
      PlayKeepsInv(trigger, rounds, loops, log, i - 1);
      TurnFactsAt(trigger, rounds, loops, log, i - 1);
      FactsKeepInv(loops[i - 1], log[..i - 1], loops[i], log[i - 1], rounds[i - 1].jitter);
      assert log[..i] == log[..i - 1] + [log[i - 1]];
    }
  }

  /** In every play, no more than 22 lookups are issued in a row without a wait or an accepted submission
      between them, and no more than 20 pages in a row are drained; a fresh lookup starts with nothing
      drained and no restart owed. */
  lemma WalletLookupsArePaced(trigger: WT.TriggerState, rounds: seq<Round>, loops: seq<Loop>, log: seq<Entry>, i: nat)
    requires IsPlay(trigger, rounds, loops, log) && i <= |log|
    ensures LookupsInARow(log[..i]) <= 22 && loops[i].emptyPages <= 20
    ensures loops[i].cursor.None? ==> loops[i].emptyPages == 0 && !loops[i].restartAfterScan
  {
    PlayKeepsInv(trigger, rounds, loops, log, i);
  }

  lemma {:induction false} NoneOwesAt(scan: seq<Entry>, k: nat)
    requires !AnyOwesRetry(scan) && k < |scan|
    ensures !OwesRetry(scan[k])
    decreases |scan|
  {
    if k < |scan| - 1 {
      NoneOwesAt(scan[..|scan| - 1], k);
    }
  }

  /** The worker parks only right after a scan that was read to its end without a wait and every page of
      which was accepted. */
  lemma ParksOnlyWhenNothingIsOwed(trigger: WT.TriggerState, rounds: seq<Round>, loops: seq<Loop>, log: seq<Entry>,
                                   i: nat)
    requires IsPlay(trigger, rounds, loops, log) && i < |log| && log[i].parked
    ensures i > 0 && log[i - 1].delay.None? && log[i].cursor.None?
    ensures forall k :: 0 <= k < |Scan(log[..i])| ==>
              !OwesRetry(Scan(log[..i])[k]) && (Scan(log[..i])[k].batch.Some? ==> Accepted(Scan(log[..i])[k]))
  {
    PlayKeepsInv(trigger, rounds, loops, log, i);
    TurnFactsAt(trigger, rounds, loops, log, i);
    var scan := Scan(log[..i]);
    forall k | 0 <= k < |scan| ensures !OwesRetry(scan[k]) && (scan[k].batch.Some? ==> Accepted(scan[k])) {
      NoneOwesAt(scan, k);
    }
  }

  /** The failures counted: a wait adds one; otherwise a page of a scan that owes a restart leaves the count,
      and any other page clears it. The wait lies within a fifth of the capped exponential. */
  lemma WalletBackoffExact(trigger: WT.TriggerState, rounds: seq<Round>, loops: seq<Loop>, log: seq<Entry>, i: nat)
    requires IsPlay(trigger, rounds, loops, log) && i < |log|
    ensures var failures := loops[i].failureCount;
            loops[i + 1].failureCount == if log[i].delay.Some? then SaturatingIncrement(failures)
                                         else if AnyOwesRetry(Scan(log[..i + 1])) then failures
                                         else 0
    ensures var base := 1000 * Min(Pow2(loops[i].failureCount), 60);
            log[i].delay.Some? ==> 80 * base <= 100 * log[i].delay.value <= 120 * base && log[i].delay.value <= 60_000
  {
    PlayKeepsInv(trigger, rounds, loops, log, i);
    TurnFactsAt(trigger, rounds, loops, log, i);
    assert log[..i + 1] == log[..i] + [log[i]];
    FactsKeepInv(loops[i], log[..i], loops[i + 1], log[i], rounds[i].jitter);
    JitterBounds(loops[i].failureCount, rounds[i].jitter);
  }

  lemma {:induction false} OwedUntil(trigger: WT.TriggerState, rounds: seq<Round>, loops: seq<Loop>, log: seq<Entry>,
                                     i: nat, j: nat)
    requires IsPlay(trigger, rounds, loops, log) && i < j <= |log|
    requires OwesRetry(log[i]) && forall m :: i < m <= j ==> loops[m].cursor.Some?
    ensures loops[j].restartAfterScan && loops[j].failureCount >= loops[i + 1].failureCount
    decreases j
  {
    if i + 1 < j {
      OwedUntil(trigger, rounds, loops, log, i, j - 1);
    }
    TurnFactsAt(trigger, rounds, loops, log, j - 1);
  }

  /** From the first page that leaves wallets behind, the failures counted never fall, and the scan does not
      end without a wait that counts one more. */
  lemma RestartIsPaced(trigger: WT.TriggerState, rounds: seq<Round>, loops: seq<Loop>, log: seq<Entry>, i: nat, j: nat)
    requires IsPlay(trigger, rounds, loops, log) && i < j < |log|
    requires OwesRetry(log[i]) && (forall m :: i < m <= j ==> loops[m].cursor.Some?) && loops[j + 1].cursor.None?
    ensures log[j].delay.Some? && loops[j].failureCount >= loops[i + 1].failureCount
    ensures loops[j + 1].failureCount == SaturatingIncrement(loops[j].failureCount)
  {
    OwedUntil(trigger, rounds, loops, log, i, j);
    TurnFactsAt(trigger, rounds, loops, log, j);
  }

  // The trigger, seen through the loop.

  lemma NoticesBeginNothing(r: Round)
    ensures WT.BeginFresh !in r.beforeLookup && WT.BeginFresh !in r.duringLookup
    ensures WT.BeginFresh !in r.duringBatch && WT.BeginFresh !in r.duringDelay
  {
  }

  lemma AppliedTrigger(l: Loop, e: Entry, step: WalletStep, r: Round, t: WT.TriggerState)
    requires l.trigger == WT.ApplyAll(t, e.ops)
    ensures var turn := Applied(l, e, step, r);
            turn.loop.trigger == WT.ApplyAll(t, turn.entry.ops) &&
            (turn.entry.ops == e.ops || turn.entry.ops == e.ops + r.duringDelay)
  {
    WT.ApplyConcat(t, e.ops, r.duringDelay);
  }

  lemma EmptyPageTrigger(l: Loop, e: Entry, next: Option<Cursor>, r: Round, t: WT.TriggerState)
    requires l.trigger == WT.ApplyAll(t, e.ops)
    ensures var turn := OnEmptyPage(l, e, next, r);
            turn.loop.trigger == WT.ApplyAll(t, turn.entry.ops) &&
            (WT.BeginFresh in e.ops <==> WT.BeginFresh in turn.entry.ops)
  {
    if !ShouldContinueEmptyDrain(l.cursor, next, l.emptyPages) {
      var op := if l.cursor.None? then WT.FinishEmpty else WT.FinishBatch(true);
      WT.ApplySnoc(t, e.ops, op);
      AppliedTrigger(l.(emptyPages := 0, trigger := WT.Apply(l.trigger, op)), e.(ops := e.ops + [op]),
                     AfterEmptyScan(l.restartAfterScan || next.Some?, l.cursor.Some? && WT.Deferred(l.trigger)), r, t);
      NoticesBeginNothing(r);
    }
  }

  lemma WalletsTrigger(l: Loop, e: Entry, requests: seq<ExternalId>, next: Option<Cursor>, r: Round, t: WT.TriggerState)
    requires l.trigger == WT.ApplyAll(t, e.ops) && r.ack.Some?
    ensures var turn := OnWallets(l, e, requests, next, r);
            turn.loop.trigger == WT.ApplyAll(t, turn.entry.ops) &&
            (WT.BeginFresh in e.ops <==> WT.BeginFresh in turn.entry.ops)
  {
    var t' := WT.ApplyAll(l.trigger, r.duringBatch);
    var op := WT.FinishBatch(next.None?);
    WT.ApplyConcat(t, e.ops, r.duringBatch);
    WT.ApplySnoc(t, e.ops + r.duringBatch, op);
    AppliedTrigger(l.(emptyPages := 0, trigger := WT.Apply(t', op)),
                   e.(batch := Some(Batch(requests, r.ack.value)), ops := e.ops + r.duringBatch + [op]),
                   AfterBatch(r.ack.value, next, l.restartAfterScan, WT.Deferred(t')), r, t);
    NoticesBeginNothing(r);
  }

  /** A turn leaves the trigger as its operations make it, and begins a fresh lookup exactly when it looks
      up without a cursor. */
  lemma TurnTrigger(l: Loop, r: Round)
    requires Step(l, r).Turned?
    ensures var turn := Step(l, r);
            turn.loop.trigger == WT.ApplyAll(l.trigger, turn.entry.ops) &&
            (l.cursor.None? <==> WT.BeginFresh in turn.entry.ops)
  {
    var (l1, e) := LookedUp(l, r);
    var wallets := e.wallets;
    NoticesBeginNothing(r);
    if wallets.None? {
      WT.ApplySnoc(l.trigger, e.ops, WT.FinishEmpty);
      AppliedTrigger(l1.(emptyPages := 0, trigger := WT.Apply(l1.trigger, WT.FinishEmpty)),
                     e.(ops := e.ops + [WT.FinishEmpty]), DelayThenFetch(None, false), r, l.trigger);
    } else if wallets.value.requests == [] {
      EmptyPageTrigger(l1, e, wallets.value.next, r, l.trigger);
    } else {
      WalletsTrigger(l1, e, wallets.value.requests, wallets.value.next, r, l.trigger);
    }
  }

  function OpsOf(e: Entry): seq<WT.Op> {
    e.ops
  }

  function TriggerOf(l: Loop): WT.TriggerState {
    l.trigger
  }

  lemma TurnsRecordOps()
    ensures P.RecordsOps(Step, TriggerOf, OpsOf)
  {
    forall l: Loop, r: Round | Step(l, r).Turned?
      ensures TriggerOf(Step(l, r).loop) == WT.ApplyAll(TriggerOf(l), OpsOf(Step(l, r).entry))
    {
      TurnTrigger(l, r);
    }
  }

  /** In every play of the wallet worker the trigger is what the recorded operations make it. */
  lemma WalletTurnsRecordOps(trigger: WT.TriggerState, rounds: seq<Round>, loops: seq<Loop>, log: seq<Entry>, i: nat)
    requires IsPlay(trigger, rounds, loops, log) && i <= |log|
    ensures loops[i].trigger == WT.ApplyAll(trigger, P.AllOps(OpsOf, log[..i]))
  {
    TurnsRecordOps();
    P.PlayTrigger(Step, TriggerOf, OpsOf, Start(trigger), rounds, loops, log, i);
  }

  /** In every play of the wallet worker, at every turn, each event and force so far has been followed by a
      fresh lookup begun after it, or the trigger is still armed for it, with the deadline of the last event. */
  lemma NoWalletWorkIsForgotten(rounds: seq<Round>, loops: seq<Loop>, log: seq<Entry>, i: nat, k: nat)
    requires IsPlay(WT.FRESH, rounds, loops, log) && i <= |log|
    requires k < |P.AllOps(OpsOf, log[..i])| && WT.IsNotice(P.AllOps(OpsOf, log[..i])[k])
    ensures (exists j :: k < j < |P.AllOps(OpsOf, log[..i])| && P.AllOps(OpsOf, log[..i])[j].BeginFresh?) ||
            (WT.Armed(loops[i].trigger) && WT.HasDeadline(loops[i].trigger, P.AllOps(OpsOf, log[..i])))
  {
    TurnsRecordOps();
    P.NoWorkIsForgotten(Step, TriggerOf, OpsOf, Start(WT.FRESH), rounds, loops, log, i, k);
  }

  // Which pages a scan reaches.

  /** A page read without a lookup error, and the next page it names; an empty cursor names none. Its submission
      may fail. */
  ghost predicate IsPage(r: Round, next: Option<Cursor>) {
    r.response.Page? && next == NextOf(r) && r.ack.Some?
  }

  function NextOf(r: Round): Option<Cursor> {
    if !r.response.Page? || r.response.nextCursor == Some("") then None else r.response.nextCursor
  }

  ghost predicate IsPageAt(rounds: seq<Round>, cursors: seq<Cursor>, i: nat)
    requires i < |rounds|
  {
    IsPage(rounds[i], PC.CursorOf(cursors, i + 1))
  }

  ghost predicate IsChain(rounds: seq<Round>, cursors: seq<Cursor>) {
    |cursors| == |rounds| && forall i :: 0 <= i < |rounds| ==> IsPageAt(rounds, cursors, i)
  }

  function RowsOf(r: Round): seq<ExternalId> {
    if r.response.Page? then Convertible(r.response.rows) else []
  }

  /** Only a page without convertible rows counts against the drain, and only such a page stops the scan, by naming
      the cursor it was asked for with. */
  function PageOf(r: Round, cursor: Option<Cursor>): PC.Page<ExternalId> {
    PC.Page(RowsOf(r), RowsOf(r) == [], RowsOf(r) == [] && NextOf(r) == cursor)
  }

  function HeadOf(l: Loop): PC.Head {
    PC.Head(l.cursor, l.emptyPages)
  }

  function VisitOf(e: Entry): PC.Visit<ExternalId> {
    PC.Visit(e.cursor, if e.batch.Some? then e.batch.value.requests else [])
  }

  function Pages(rounds: seq<Round>, cursors: seq<Cursor>): seq<PC.Page<ExternalId>> {
    seq(|rounds|, i requires 0 <= i < |rounds| => PageOf(rounds[i], PC.CursorOf(cursors, i)))
  }

  function Heads(loops: seq<Loop>): seq<PC.Head> {
    seq(|loops|, i requires 0 <= i < |loops| => HeadOf(loops[i]))
  }

  function Visits(log: seq<Entry>): seq<PC.Visit<ExternalId>> {
    seq(|log|, i requires 0 <= i < |log| => VisitOf(log[i]))
  }

  lemma EmptyPageTurn(l: Loop, e: Entry, r: Round, next: Option<Cursor>)
    requires IsPage(r, next) && RowsOf(r) == [] && e.batch.None? && e.cursor == l.cursor
    ensures var turn := OnEmptyPage(l, e, next, r);
            turn.Turned? && PC.PageFacts(HeadOf(l), PageOf(r, l.cursor), next, HeadOf(turn.loop), VisitOf(turn.entry))
  {
  }

  lemma FullPageTurn(l: Loop, e: Entry, r: Round, next: Option<Cursor>)
    requires IsPage(r, next) && RowsOf(r) != [] && e.cursor == l.cursor
    ensures var turn := OnWallets(l, e, RowsOf(r), next, r);
            turn.Turned? && PC.PageFacts(HeadOf(l), PageOf(r, l.cursor), next, HeadOf(turn.loop), VisitOf(turn.entry))
  {
  }

  lemma PageTurn(l: Loop, r: Round, next: Option<Cursor>)
    requires IsPage(r, next)
    ensures var turn := Step(l, r);
            turn.Turned? && PC.PageFacts(HeadOf(l), PageOf(r, l.cursor), next, HeadOf(turn.loop), VisitOf(turn.entry))
  {
    var (l1, e) := LookedUp(l, r);
    if RowsOf(r) == [] {
      EmptyPageTurn(l1, e, r, next);
    } else {
      FullPageTurn(l1, e, r, next);
    }
  }

  /** A chain of pages read by a play from its turn `a` on, where a fresh lookup is due. */
  ghost predicate ReadsChain(trigger: WT.TriggerState, rounds: seq<Round>, loops: seq<Loop>, log: seq<Entry>, a: nat,
                             chain: seq<Round>, cursors: seq<Cursor>)
  {
    IsPlay(trigger, rounds, loops, log) && a + |chain| <= |log| && chain == rounds[a..a + |chain|] &&
    IsChain(chain, cursors) && loops[a].cursor.None?
  }

  lemma ChainTurn(trigger: WT.TriggerState, rounds: seq<Round>, loops: seq<Loop>, log: seq<Entry>, a: nat,
                  chain: seq<Round>, cursors: seq<Cursor>, i: nat)
    requires ReadsChain(trigger, rounds, loops, log, a, chain, cursors) && i < |chain|
    ensures log[a + i].cursor == loops[a + i].cursor
    ensures loops[a + i].cursor == PC.CursorOf(cursors, i) ==>
              PC.PageFacts(HeadOf(loops[a + i]), PageOf(chain[i], loops[a + i].cursor), PC.CursorOf(cursors, i + 1),
                           HeadOf(loops[a + i + 1]), VisitOf(log[a + i]))
  {
    TurnFactsAt(trigger, rounds, loops, log, a + i);
    if loops[a + i].cursor == PC.CursorOf(cursors, i) {
      assert rounds[a + i] == chain[i] && IsPageAt(chain, cursors, i);
      PageTurn(loops[a + i], rounds[a + i], PC.CursorOf(cursors, i + 1));
      assert P.IsTurn(Step, rounds, loops, log, a + i);
    }
  }

  lemma ReadingStep(heads: seq<PC.Head>, visits: seq<PC.Visit<ExternalId>>, pages: seq<PC.Page<ExternalId>>,
                    cursors: seq<Cursor>, i: nat, l: Loop, l': Loop, e: Entry, r: Round)
    requires |heads| == |pages| + 1 && |visits| == |pages| == |cursors| && i < |pages|
    requires heads[i] == HeadOf(l) && heads[i + 1] == HeadOf(l') && visits[i] == VisitOf(e)
    requires pages[i] == PageOf(r, PC.CursorOf(cursors, i))
    requires e.cursor == l.cursor
    requires l.cursor == PC.CursorOf(cursors, i) ==>
               PC.PageFacts(HeadOf(l), PageOf(r, l.cursor), PC.CursorOf(cursors, i + 1), HeadOf(l'), VisitOf(e))
    ensures PC.ReadingAt(heads, visits, pages, cursors, i + 1)
  {
  }

  lemma ChainIsReading(trigger: WT.TriggerState, rounds: seq<Round>, loops: seq<Loop>, log: seq<Entry>, a: nat,
                       chain: seq<Round>, cursors: seq<Cursor>)
    returns (heads: seq<PC.Head>, visits: seq<PC.Visit<ExternalId>>)
    requires ReadsChain(trigger, rounds, loops, log, a, chain, cursors)
    ensures PC.Reading(heads, visits, Pages(chain, cursors), cursors)
    ensures visits == Visits(log[a..a + |chain|]) && heads[|chain|] == HeadOf(loops[a + |chain|])
  {
    WalletLookupsArePaced(trigger, rounds, loops, log, a);
    var pages := Pages(chain, cursors);
    heads, visits := Heads(loops[a..a + |chain| + 1]), Visits(log[a..a + |chain|]);
    forall i | 0 < i <= |chain| ensures PC.ReadingAt(heads, visits, pages, cursors, i) {
      var k := i - 1;
      ChainTurn(trigger, rounds, loops, log, a, chain, cursors, k);
      ReadingStep(heads, visits, pages, cursors, k, loops[a + k], loops[a + k + 1], log[a + k], chain[k]);
    }
  }

  /** Every row the chain's pages list, convertible or not. */
  function ListedRows(chain: seq<Round>): seq<Option<ExternalId>> {
    if chain == [] then []
    else
      var last := chain[|chain| - 1];
      ListedRows(chain[..|chain| - 1]) + if last.response.Page? then last.response.rows else []
  }

  lemma {:induction false} AllRowsExact(chain: seq<Round>, cursors: seq<Cursor>, n: nat)
    requires n <= |chain|
    ensures PC.AllRows(Pages(chain, cursors)[..n]) == Convertible(ListedRows(chain[..n]))
  {
    if n > 0 {
      AllRowsExact(chain, cursors, n - 1);
      PC.PagesSnoc(Pages(chain, cursors), n);
      assert chain[..n][..n - 1] == chain[..n - 1];
      var page := chain[n - 1].response;
      ConvertibleConcat(ListedRows(chain[..n - 1]), if page.Page? then page.rows else []);
    }
  }

  lemma AllRowsConvert(chain: seq<Round>, cursors: seq<Cursor>)
    ensures IsConverted(ListedRows(chain), PC.AllRows(Pages(chain, cursors)))
  {
    AllRowsExact(chain, cursors, |chain|);
    assert Pages(chain, cursors)[..|chain|] == Pages(chain, cursors) && chain[..|chain|] == chain;
    var indices := ConvertibleExact(ListedRows(chain));
  }

  /** Whatever each submission's outcome, a finite chain of pages is read to its end, each page by its own
      cursor, exactly when before the last page no unconvertible page names its own cursor and 21 unconvertible
      pages never come in a row; and then every convertible row has been handed over once and in order, and the
      scan has ended. */
  lemma NoWalletIsStarved(trigger: WT.TriggerState, rounds: seq<Round>, loops: seq<Loop>, log: seq<Entry>, a: nat,
                          chain: seq<Round>, cursors: seq<Cursor>)
    requires ReadsChain(trigger, rounds, loops, log, a, chain, cursors) && chain != []
    ensures PC.AllPagesAsked(Visits(log[a..a + |chain|]), cursors) <==>
            PC.NoLongGap(Pages(chain, cursors), |chain| - 1) && PC.NothingStops(Pages(chain, cursors), |chain| - 1)
    ensures PC.AllPagesAsked(Visits(log[a..a + |chain|]), cursors) ==>
              IsConverted(ListedRows(chain), PC.HandedOver(Visits(log[a..a + |chain|]))) &&
              loops[a + |chain|].cursor == None
  {
    var heads, visits := ChainIsReading(trigger, rounds, loops, log, a, chain, cursors);
    PC.ReadingIsExact(heads, visits, Pages(chain, cursors), cursors);
    AllRowsConvert(chain, cursors);
  }
}
