/** What the producer's loop keeps over every play. */
module TransactionScanProperties {
  import opened Wrappers
  import opened Retry
  import opened TransactionHandler
  import opened TransactionScan
  import P = Plays
  import WT = WorkTrigger

  // What a log says, without the loop's variables.

  /** The entries of the current scan, from its fresh lookup on. */
  function Scan(log: seq<Entry>): (scan: seq<Entry>) {
    if log == [] then []
    else
      var last := log[|log| - 1];
      if last.cursor.None? then [last] else Scan(log[..|log| - 1]) + [last]
  }

  function PageChains(e: Entry): set<ChainKey> {
    if e.lookup.Rows? then set request | request in e.lookup.requests :: request.chain else {}
  }

  function ScanChains(scan: seq<Entry>): set<ChainKey> {
    if scan == [] then {} else ScanChains(scan[..|scan| - 1]) + PageChains(scan[|scan| - 1])
  }

  /** The chains of the last scan that ended. */
  function PreviousChains(log: seq<Entry>): set<ChainKey> {
    if log == [] then {}
    else if log[|log| - 1].verdict.Ended? then ScanChains(Scan(log))
    else PreviousChains(log[..|log| - 1])
  }

  /** Whether a page's rows were submitted and accepted, in part at least. */
  predicate Productive(e: Entry) {
    e.delivery.Some? && e.delivery.value.batch != [] &&
    (e.delivery.value.outcome.Completed? || e.delivery.value.outcome.PartialProgress?)
  }

  /** Whether a page left work pending without failing outright. */
  predicate OwesRetry(e: Entry) {
    (e.lookup.Rows? && e.lookup.requests == [] && e.lookup.next.Some?) ||
    (e.delivery.Some? && (e.delivery.value.outcome.PartialProgress? || e.delivery.value.outcome.Skipped?) &&
     e.delivery.value.batch != [])
  }

  predicate AnyOwesRetry(scan: seq<Entry>) {
    scan != [] && (OwesRetry(scan[|scan| - 1]) || AnyOwesRetry(scan[..|scan| - 1]))
  }

  /** How many pages at the end of a scan submitted nothing. */
  function TrailingUnproductive(scan: seq<Entry>): nat {
    if scan == [] || Productive(scan[|scan| - 1]) then 0
    else 1 + TrailingUnproductive(scan[..|scan| - 1])
  }

  /** Whatever this page delivered was accepted. */
  predicate AcceptedHere(e: Entry) {
    e.delivery.Some? && e.delivery.value.batch != [] ==> e.delivery.value.outcome.Completed?
  }

  /** Every request delivered was accepted. */
  predicate AllAccepted(scan: seq<Entry>) {
    scan != [] ==> AcceptedHere(scan[|scan| - 1]) && AllAccepted(scan[..|scan| - 1])
  }

  /** Lookups issued in a row, up to the last one, with neither a wait nor an accepted submission between
      them. */
  function LookupsInARow(log: seq<Entry>): nat
    decreases |log|, 0
  {
    if log == [] then 0
    else 1 + if log[|log| - 1].parked then 0 else StillInARow(log[..|log| - 1])
  }

  /** The same, once the last turn is over. */
  function StillInARow(log: seq<Entry>): nat
    decreases |log|, 1
  {
    if log == [] || log[|log| - 1].delay.Some? || Productive(log[|log| - 1]) then 0 else LookupsInARow(log)
  }

  // The loop's variables say what the log says.

  ghost predicate ScanVariables(l: Loop, log: seq<Entry>) {
    var scan := Scan(log);
    l.previous == PreviousChains(log) &&
    l.unproductivePages <= MAX_CONSECUTIVE_EMPTY_PAGES &&
    (log != [] ==> l.failureCount == log[|log| - 1].failuresAtEnd) &&
    if l.cursor.None? then
      l.unproductivePages == 0 && !l.retryRequired && l.current == {} &&
      (log != [] ==> !log[|log| - 1].verdict.Continued?)
    else
      l.fetchNow && log != [] && log[|log| - 1].verdict.Continued? && l.cursor != Some("") &&
      l.current == ScanChains(scan) &&
      l.unproductivePages == TrailingUnproductive(scan) &&
      (l.retryRequired <==> AnyOwesRetry(scan)) &&
      (!l.retryRequired ==> AllAccepted(scan))
  }

  ghost predicate Paced(l: Loop, log: seq<Entry>) {
    (!l.fetchNow ==> l.cursor.None? && log != [] && AllAccepted(Scan(log))) &&
    (l.fetchNow ==>
       StillInARow(log) <= l.unproductivePages + 1 &&
       (l.cursor.Some? && !l.retryRequired ==> StillInARow(log) == 0)) &&
    LookupsInARow(log) <= MAX_CONSECUTIVE_EMPTY_PAGES + 2
  }

  ghost predicate Inv(l: Loop, log: seq<Entry>) {
    ScanVariables(l, log) && Paced(l, log)
  }

  lemma LogSnoc(log: seq<Entry>, e: Entry)
    ensures Scan(log + [e]) == if e.cursor.None? then [e] else Scan(log) + [e]
    ensures PreviousChains(log + [e]) == if e.verdict.Ended? then ScanChains(Scan(log + [e])) else PreviousChains(log)
    ensures LookupsInARow(log + [e]) == 1 + if e.parked then 0 else StillInARow(log)
    ensures StillInARow(log + [e]) == if e.delay.Some? || Productive(e) then 0 else LookupsInARow(log + [e])
  {
    assert (log + [e])[..|log|] == log;
  }

  lemma ScanSnoc(scan: seq<Entry>, e: Entry)
    ensures ScanChains(scan + [e]) == ScanChains(scan) + PageChains(e)
    ensures TrailingUnproductive(scan + [e]) == if Productive(e) then 0 else 1 + TrailingUnproductive(scan)
    ensures AnyOwesRetry(scan + [e]) <==> AnyOwesRetry(scan) || OwesRetry(e)
    ensures AllAccepted(scan + [e]) <==> AllAccepted(scan) && AcceptedHere(e)
  {
    assert (scan + [e])[..|scan|] == scan;
  }

  /** The scan the loop is in before a turn: none when the lookup is to be fresh. */
  function ScanSoFar(l: Loop, log: seq<Entry>): seq<Entry> {
    if l.cursor.None? then [] else Scan(log)
  }

  /** The failures counted when a turn ends, before any wait: work done in a scan that owes nothing so far
      clears them. */
  function FailuresBeforeWait(l: Loop, e: Entry): U32 {
    if Productive(e) && !l.retryRequired then 0 else l.failureCount
  }

  /** What a turn does, case by case. */
  ghost predicate TurnFacts(l: Loop, l': Loop, e: Entry, jitter: Percent) {
    var chains := (if l.cursor.None? then {} else l.current) + PageChains(e);
    var failures := FailuresBeforeWait(l, e);
    e.parked == !l.fetchNow && e.cursor == l.cursor && e.failuresAtEnd == l'.failureCount &&
    (e.delivery.Some? ==> e.delivery.value.batch == (if e.lookup.Rows? then e.lookup.requests else [])) &&
    (e.lookup.LookupFailed? ==> e.verdict.DroppedScan?) &&
    (e.delay.Some? ==> l'.fetchNow && l'.failureCount == SaturatingIncrement(failures) &&
                       e.delay == Some(JitteredExponentialDelay(failures, jitter))) &&
    match e.verdict
    case Continued =>
      l'.cursor.Some? && l'.cursor != Some("") && l'.fetchNow && e.delay.None? &&
      l'.previous == l.previous && l'.current == chains &&
      (if Productive(e) then l'.unproductivePages == 0
       else l'.unproductivePages == l.unproductivePages + 1 <= MAX_CONSECUTIVE_EMPTY_PAGES) &&
      l'.retryRequired == (l.retryRequired || OwesRetry(e)) &&
      (!OwesRetry(e) ==> AcceptedHere(e) && Productive(e)) &&
      l'.failureCount == failures &&
      (e.delivery.Some? ==> e.delivery.value.idle == {})
    case Ended =>
      l'.cursor.None? && l'.unproductivePages == 0 && !l'.retryRequired && l'.current == {} &&
      l'.previous == chains &&
      (if e.delivery.Some? then e.delivery.value.idle == l.previous - chains else l.previous - chains == {}) &&
      (e.delay.Some? <==> l.retryRequired || OwesRetry(e) || !AcceptedHere(e)) &&
      (e.delay.None? ==> l'.failureCount == 0 && (l'.fetchNow ==> Productive(e) || l.cursor.Some?))
    case DroppedScan =>
      (e.lookup.LookupFailed? || OwesRetry(e) || !AcceptedHere(e)) &&
      l'.cursor.None? && l'.unproductivePages == 0 && !l'.retryRequired && l'.current == {} &&
      l'.previous == l.previous && e.delay.Some? &&
      (e.delivery.Some? ==> e.delivery.value.idle == {})
  }

  lemma ReleaseFacts(l: Loop, e: Entry, l0: Loop, freshLookup: bool, retryRequired: bool, r: Round)
    requires e.delay.None? && e.verdict.Ended? && PageChains(e) == {} && !Productive(e) && AcceptedHere(e)
    requires retryRequired == (l0.retryRequired || OwesRetry(e))
    requires e.parked == !l0.fetchNow && e.cursor == l0.cursor && freshLookup == l0.cursor.None?
    requires !e.lookup.LookupFailed? && (e.lookup.Rows? ==> e.lookup.requests == [])
    requires l.cursor.None? && l.unproductivePages == 0 && l.current == {} && l.failureCount == l0.failureCount
    requires l.previous == if freshLookup then {} else l0.current
    requires if e.delivery.Some? then e.delivery.value.batch == [] && e.delivery.value.idle == l0.previous - l.previous
             else l0.previous - l.previous == {}
    ensures var turn := ReleaseEmpty(l, e, freshLookup, retryRequired, r);
            turn.Turned? && TurnFacts(l0, turn.loop, turn.entry, r.jitter)
  {
  }

  lemma EmptyScanFacts(l: Loop, e: Entry, retryRequired: bool, r: Round)
    requires e.delivery.None? && e.delay.None? && PageChains(e) == {}
    requires retryRequired == (l.retryRequired || OwesRetry(e))
    requires EndEmptyScan(l, e, l.cursor.None?, retryRequired, r).Turned?
    requires e.parked == !l.fetchNow && e.cursor == l.cursor
    requires !e.lookup.LookupFailed? && (e.lookup.Rows? ==> e.lookup.requests == [])
    requires l.cursor.None? ==> l.current == {}
    ensures var turn := EndEmptyScan(l, e, l.cursor.None?, retryRequired, r);
            TurnFacts(l, turn.loop, turn.entry, r.jitter)
  {
    var idle := l.previous - l.current;
    var l1 := l.(previous := l.current, current := {}, cursor := None, unproductivePages := 0);
    if idle == {} {
      ReleaseFacts(l1, e.(verdict := Ended), l, l.cursor.None?, retryRequired, r);
    } else {
      var delivery := Some(Delivery([], idle, r.ack.value));
      ReleaseFacts(During(l1, r.duringTick),
                   e.(verdict := Ended, delivery := delivery, ops := e.ops + r.duringTick),
                   l, l.cursor.None?, retryRequired, r);
    }
  }

  lemma ContinuedRowsFacts(l: Loop, e: Entry, r: Round)
    requires e.delivery.None? && e.delay.None? && e.lookup.Rows? && e.lookup.requests != []
    requires e.lookup.next != Some("") && e.verdict.Continued?
    requires AfterRows(l, e, e.lookup.requests, e.lookup.next, r).Turned?
    requires e.parked == !l.fetchNow && e.cursor == l.cursor
    requires l.cursor.None? ==> l.current == {}
    requires DecideBatchStep(r.ack.value, l.cursor, e.lookup.next, l.unproductivePages).Continue? && e.lookup.next.Some?
    ensures var turn := AfterRows(l, e, e.lookup.requests, e.lookup.next, r);
            TurnFacts(l, turn.loop, turn.entry, r.jitter)
  {
  }

  lemma OwingFinalRowsFacts(l: Loop, e: Entry, r: Round)
    requires e.delivery.None? && e.delay.None? && e.lookup.Rows? && e.lookup.requests != []
    requires e.lookup.next != Some("") && e.verdict.Continued?
    requires AfterRows(l, e, e.lookup.requests, e.lookup.next, r).Turned?
    requires e.parked == !l.fetchNow && e.cursor == l.cursor
    requires l.cursor.None? ==> l.current == {}
    requires DecideBatchStep(r.ack.value, l.cursor, e.lookup.next, l.unproductivePages).Continue? && e.lookup.next.None?
    requires l.retryRequired || r.ack.value.PartialProgress?
    ensures var turn := AfterRows(l, e, e.lookup.requests, e.lookup.next, r);
            TurnFacts(l, turn.loop, turn.entry, r.jitter)
  {
  }

  lemma FinalRowsFacts(l: Loop, e: Entry, r: Round)
    requires e.delivery.None? && e.delay.None? && e.lookup.Rows? && e.lookup.requests != []
    requires e.lookup.next != Some("") && e.verdict.Continued?
    requires AfterRows(l, e, e.lookup.requests, e.lookup.next, r).Turned?
    requires e.parked == !l.fetchNow && e.cursor == l.cursor
    requires l.cursor.None? ==> l.current == {}
    requires DecideBatchStep(r.ack.value, l.cursor, e.lookup.next, l.unproductivePages).Continue? && e.lookup.next.None?
    ensures var turn := AfterRows(l, e, e.lookup.requests, e.lookup.next, r);
            TurnFacts(l, turn.loop, turn.entry, r.jitter)
  {
    if l.retryRequired || r.ack.value.PartialProgress? {
      OwingFinalRowsFacts(l, e, r);
    }
  }

  lemma RetriedRowsFacts(l: Loop, e: Entry, r: Round)
    requires e.delivery.None? && e.delay.None? && e.lookup.Rows? && e.lookup.requests != []
    requires e.lookup.next != Some("") && e.verdict.Continued?
    requires AfterRows(l, e, e.lookup.requests, e.lookup.next, r).Turned?
    requires e.parked == !l.fetchNow && e.cursor == l.cursor
    requires l.cursor.None? ==> l.current == {}
    requires DecideBatchStep(r.ack.value, l.cursor, e.lookup.next, l.unproductivePages).RetryFresh?
    ensures var turn := AfterRows(l, e, e.lookup.requests, e.lookup.next, r);
            TurnFacts(l, turn.loop, turn.entry, r.jitter)
  {
  }

  lemma RowsFacts(l: Loop, e: Entry, r: Round)
    requires e.delivery.None? && e.delay.None? && e.lookup.Rows? && e.lookup.requests != []
    requires e.lookup.next != Some("") && e.verdict.Continued?
    requires AfterRows(l, e, e.lookup.requests, e.lookup.next, r).Turned?
    requires e.parked == !l.fetchNow && e.cursor == l.cursor
    requires l.cursor.None? ==> l.current == {}
    ensures var turn := AfterRows(l, e, e.lookup.requests, e.lookup.next, r);
            TurnFacts(l, turn.loop, turn.entry, r.jitter)
  {
    if DecideBatchStep(r.ack.value, l.cursor, e.lookup.next, l.unproductivePages).RetryFresh? {
      RetriedRowsFacts(l, e, r);
    } else if e.lookup.next.None? {
      FinalRowsFacts(l, e, r);
    } else {
      ContinuedRowsFacts(l, e, r);
    }
  }

  /** What is known of a turn does not depend on what the lookup does to the trigger. */
  lemma FactsBeforeLookup(l: Loop, r: Round, l': Loop, e: Entry)
    requires TurnFacts(LookedUp(l, r).0, l', e, r.jitter)
    ensures TurnFacts(l, l', e, r.jitter)
  {
  }

  lemma RowsTurnFacts(l: Loop, r: Round)
    requires Step(l, r).Turned?
    requires GetPendingTransactions(r.response).Rows? && GetPendingTransactions(r.response).requests != []
    ensures TurnFacts(LookedUp(l, r).0, Step(l, r).loop, Step(l, r).entry, r.jitter)
  {
    var (l1, e) := LookedUp(l, r);
    RowsFacts(l1, e, r);
  }

  lemma DrainTurnFacts(l: Loop, r: Round)
    requires GetPendingTransactions(r.response).Rows? && GetPendingTransactions(r.response).requests == []
    requires ShouldContinueEmptyDrain(l.cursor, GetPendingTransactions(r.response).next, l.unproductivePages)
    ensures Step(l, r).Turned? && TurnFacts(LookedUp(l, r).0, Step(l, r).loop, Step(l, r).entry, r.jitter)
  {
  }

  lemma EmptyTurnFacts(l: Loop, r: Round)
    requires Step(l, r).Turned?
    requires var lookup := GetPendingTransactions(r.response);
             lookup.NoTransactions? ||
             (lookup.Rows? && lookup.requests == [] &&
              !ShouldContinueEmptyDrain(l.cursor, lookup.next, l.unproductivePages))
    ensures TurnFacts(LookedUp(l, r).0, Step(l, r).loop, Step(l, r).entry, r.jitter)
  {
    var (l1, e) := LookedUp(l, r);
    EmptyScanFacts(l1, e, l.retryRequired || (e.lookup.Rows? && e.lookup.next.Some?), r);
  }

  lemma FailedTurnFacts(l: Loop, r: Round)
    requires GetPendingTransactions(r.response).LookupFailed?
    ensures Step(l, r).Turned? && TurnFacts(LookedUp(l, r).0, Step(l, r).loop, Step(l, r).entry, r.jitter)
  {
  }

  lemma TurnHasFacts(l: Loop, r: Round)
    requires Step(l, r).Turned?
    ensures TurnFacts(l, Step(l, r).loop, Step(l, r).entry, r.jitter)
  {
    var lookup := GetPendingTransactions(r.response);
    if lookup.LookupFailed? {
      FailedTurnFacts(l, r);
    } else if lookup.NoTransactions? {
      EmptyTurnFacts(l, r);
    } else if lookup.requests != [] {
      RowsTurnFacts(l, r);
    } else if ShouldContinueEmptyDrain(l.cursor, lookup.next, l.unproductivePages) {
      DrainTurnFacts(l, r);
    } else {
      EmptyTurnFacts(l, r);
    }
    FactsBeforeLookup(l, r, Step(l, r).loop, Step(l, r).entry);
  }

  /** The loop's variables describe the scan so far, with none when the next lookup is fresh. */
  lemma VariablesOfScan(l: Loop, log: seq<Entry>)
    requires ScanVariables(l, log)
    ensures var scan := ScanSoFar(l, log);
            ScanChains(scan) == (if l.cursor.None? then {} else l.current) &&
            TrailingUnproductive(scan) == l.unproductivePages && AnyOwesRetry(scan) == l.retryRequired &&
            (!l.retryRequired ==> AllAccepted(scan))
  {
  }

  lemma ScanGrows(l: Loop, log: seq<Entry>, e: Entry)
    requires e.cursor == l.cursor
    ensures Scan(log + [e]) == ScanSoFar(l, log) + [e]
  {
    LogSnoc(log, e);
    assert [] + [e] == [e];
  }

  /** The variables of a scan that goes on follow from those of the scan so far. */
  ghost predicate Describes(l: Loop, scan: seq<Entry>) {
    l.current == ScanChains(scan) && l.unproductivePages == TrailingUnproductive(scan) &&
    (l.retryRequired <==> AnyOwesRetry(scan)) && (!l.retryRequired ==> AllAccepted(scan))
  }

  lemma DescribesMore(l: Loop, scan: seq<Entry>, l': Loop, e: Entry, jitter: Percent)
    requires Describes(if l.cursor.None? then l.(current := {}) else l, scan)
    requires TurnFacts(l, l', e, jitter) && e.verdict.Continued?
    ensures Describes(l', scan + [e])
  {
    ScanSnoc(scan, e);
  }

  lemma ContinuedScanVariables(l: Loop, log: seq<Entry>, l': Loop, e: Entry, jitter: Percent)
    requires ScanVariables(l, log) && TurnFacts(l, l', e, jitter) && e.verdict.Continued?
    ensures ScanVariables(l', log + [e])
  {
    VariablesOfScan(l, log);
    ScanGrows(l, log, e);
    DescribesMore(l, ScanSoFar(l, log), l', e, jitter);
    assert PreviousChains(log + [e]) == PreviousChains(log) by {
      LogSnoc(log, e);
    }
    assert (log + [e])[|log|] == e;
  }

  lemma FactsKeepScanVariables(l: Loop, log: seq<Entry>, l': Loop, e: Entry, jitter: Percent)
    requires ScanVariables(l, log) && TurnFacts(l, l', e, jitter)
    ensures ScanVariables(l', log + [e])
  {
    if e.verdict.Continued? {
      ContinuedScanVariables(l, log, l', e, jitter);
    } else {
      LogSnoc(log, e);
      ScanSnoc(ScanSoFar(l, log), e);
      assert [] + [e] == [e];
      assert Scan(log + [e]) == ScanSoFar(l, log) + [e];
    }
  }

  lemma ContinuedKeepsPaced(l: Loop, log: seq<Entry>, l': Loop, e: Entry, jitter: Percent)
    requires Inv(l, log) && TurnFacts(l, l', e, jitter) && e.verdict.Continued?
    ensures Paced(l', log + [e])
  {
    LogSnoc(log, e);
  }

  lemma FactsKeepPaced(l: Loop, log: seq<Entry>, l': Loop, e: Entry, jitter: Percent)
    requires Inv(l, log) && TurnFacts(l, l', e, jitter)
    ensures Paced(l', log + [e])
  {
    if e.verdict.Continued? {
      ContinuedKeepsPaced(l, log, l', e, jitter);
    } else {
      LogSnoc(log, e);
      ScanSnoc(ScanSoFar(l, log), e);
      assert [] + [e] == [e];
    }
  }

  // Every turn of every play.

  /** `loops` are the loop's variables at its head before each turn, and after the last. */
  ghost predicate IsPlay(trigger: WT.TriggerState, rounds: seq<Round>, loops: seq<Loop>, log: seq<Entry>) {
    P.IsPlay(Step, Start(trigger), rounds, loops, log)
  }

  lemma TurnFactsAt(trigger: WT.TriggerState, rounds: seq<Round>, loops: seq<Loop>, log: seq<Entry>, i: nat)
    requires IsPlay(trigger, rounds, loops, log) && i < |log|
    ensures TurnFacts(loops[i], loops[i + 1], log[i], rounds[i].jitter)
  {
    assert P.IsTurn(Step, rounds, loops, log, i);
    TurnHasFacts(loops[i], rounds[i]);
  }

  lemma FactsKeepInv(l: Loop, before: seq<Entry>, l': Loop, e: Entry, jitter: Percent, log: seq<Entry>)
    requires Inv(l, before) && TurnFacts(l, l', e, jitter) && log == before + [e]
    ensures Inv(l', log)
  {
    FactsKeepScanVariables(l, before, l', e, jitter);
    FactsKeepPaced(l, before, l', e, jitter);
  }

  lemma {:induction false} PlayKeepsInv(trigger: WT.TriggerState, rounds: seq<Round>, loops: seq<Loop>,
                                        log: seq<Entry>, i: nat)
    requires IsPlay(trigger, rounds, loops, log) && i <= |log|
    ensures Inv(loops[i], log[..i])
  {
    if i > 0 {
      PlayKeepsInv(trigger, rounds, loops, log, i - 1);
      TurnFactsAt(trigger, rounds, loops, log, i - 1);
      assert log[..i] == log[..i - 1] + [log[i - 1]];
      FactsKeepInv(loops[i - 1], log[..i - 1], loops[i], log[i - 1], rounds[i - 1].jitter, log[..i]);
    }
  }

  lemma EntryFacts(trigger: WT.TriggerState, rounds: seq<Round>, loops: seq<Loop>, log: seq<Entry>, i: nat)
    requires IsPlay(trigger, rounds, loops, log) && i < |log|
    ensures Inv(loops[i], log[..i]) && Inv(loops[i + 1], log[..i + 1])
    ensures TurnFacts(loops[i], loops[i + 1], log[i], rounds[i].jitter)
  {
    PlayKeepsInv(trigger, rounds, loops, log, i);
    PlayKeepsInv(trigger, rounds, loops, log, i + 1);
    TurnFactsAt(trigger, rounds, loops, log, i);
  }

  /** In every play, no more than 22 lookups are issued in a row without a wait or an accepted submission
      between them; no more than 20 pages in a row are drained; and a fresh lookup starts with nothing
      drained and no retry owed. */
  lemma LookupsArePaced(trigger: WT.TriggerState, rounds: seq<Round>, loops: seq<Loop>, log: seq<Entry>, i: nat)
    requires IsPlay(trigger, rounds, loops, log) && i <= |log|
    ensures LookupsInARow(log[..i]) <= 22 && loops[i].unproductivePages <= 20
    ensures loops[i].cursor.None? ==> loops[i].unproductivePages == 0 && !loops[i].retryRequired
  {
    PlayKeepsInv(trigger, rounds, loops, log, i);
  }

  lemma ChainsOfScan(l: Loop, before: seq<Entry>, l': Loop, e: Entry, jitter: Percent)
    requires Inv(l, before) && TurnFacts(l, l', e, jitter)
    ensures ScanChains(Scan(before + [e])) == (if l.cursor.None? then {} else l.current) + PageChains(e)
  {
    LogSnoc(before, e);
    ScanSnoc(ScanSoFar(l, before), e);
    assert [] + [e] == [e];
    assert Scan(before + [e]) == ScanSoFar(l, before) + [e];
  }

  lemma IdleReported(l: Loop, before: seq<Entry>, l': Loop, e: Entry, jitter: Percent)
    requires Inv(l, before) && TurnFacts(l, l', e, jitter)
    ensures var gone := PreviousChains(before) - ScanChains(Scan(before + [e]));
            var reported := if e.delivery.Some? then e.delivery.value.idle else {};
            reported == if e.verdict.Ended? then gone else {}
    ensures e.delivery.Some? ==>
              forall request :: request in e.delivery.value.batch ==> request.chain !in e.delivery.value.idle
  {
    ChainsOfScan(l, before, l', e, jitter);
  }

  /** The chains gathered are those of the current scan's pages. Chains are reported idle exactly when a
      scan ends, and are those of the scan that ended before it and not of this one; so no tick evicts a
      chain of its own batch, and a scan that was dropped changes nothing. */
  lemma IdleChainsExact(trigger: WT.TriggerState, rounds: seq<Round>, loops: seq<Loop>, log: seq<Entry>, i: nat)
    requires IsPlay(trigger, rounds, loops, log) && i < |log|
    ensures log[i].verdict.Continued? ==> loops[i + 1].current == ScanChains(Scan(log[..i + 1]))
    ensures loops[i + 1].previous == PreviousChains(log[..i + 1])
    ensures !log[i].verdict.Ended? ==> loops[i + 1].previous == PreviousChains(log[..i])
    ensures var gone := PreviousChains(log[..i]) - ScanChains(Scan(log[..i + 1]));
            var reported := if log[i].delivery.Some? then log[i].delivery.value.idle else {};
            reported == if log[i].verdict.Ended? then gone else {}
    ensures log[i].delivery.Some? ==>
              forall request :: request in log[i].delivery.value.batch ==> request.chain !in log[i].delivery.value.idle
  {
    EntryFacts(trigger, rounds, loops, log, i);
    assert log[..i + 1] == log[..i] + [log[i]];
    ChainsOfScan(loops[i], log[..i], loops[i + 1], log[i], rounds[i].jitter);
    IdleReported(loops[i], log[..i], loops[i + 1], log[i], rounds[i].jitter);
  }

  lemma {:induction false} AllAcceptedAt(scan: seq<Entry>, k: nat)
    requires AllAccepted(scan) && k < |scan|
    ensures AcceptedHere(scan[k])
    decreases |scan|
  {
    if k < |scan| - 1 {
      AllAcceptedAt(scan[..|scan| - 1], k);
    }
  }

  /** The worker parks only right after a scan that ended with everything it delivered accepted. */
  lemma ParksOnlyWhenAllAccepted(trigger: WT.TriggerState, rounds: seq<Round>, loops: seq<Loop>, log: seq<Entry>,
                                 i: nat)
    requires IsPlay(trigger, rounds, loops, log) && i < |log| && log[i].parked
    ensures i > 0 && log[i - 1].verdict.Ended? && log[i - 1].delay.None?
    ensures forall k :: 0 <= k < |Scan(log[..i])| ==> AcceptedHere(Scan(log[..i])[k])
  {
    EntryFacts(trigger, rounds, loops, log, i);
    EntryFacts(trigger, rounds, loops, log, i - 1);
    forall k | 0 <= k < |Scan(log[..i])| ensures AcceptedHere(Scan(log[..i])[k]) {
      AllAcceptedAt(Scan(log[..i]), k);
    }
  }

  lemma OwedStep(l: Loop, l': Loop, e: Entry, jitter: Percent)
    requires TurnFacts(l, l', e, jitter) && e.verdict.Continued? && (l.retryRequired || OwesRetry(e))
    ensures l'.retryRequired && l'.failureCount == e.failuresAtEnd
    ensures l.retryRequired ==> e.failuresAtEnd == l.failureCount
  {
  }

  lemma {:induction false} OwedUntilTheEnd(trigger: WT.TriggerState, rounds: seq<Round>, loops: seq<Loop>,
                                           log: seq<Entry>, i: nat, k: nat)
    requires IsPlay(trigger, rounds, loops, log) && i <= k < |log|
    requires OwesRetry(log[i]) && forall m :: i <= m <= k ==> log[m].verdict.Continued?
    ensures loops[k + 1].retryRequired && loops[k + 1].failureCount == log[k].failuresAtEnd == log[i].failuresAtEnd
    decreases k
  {
    TurnFactsAt(trigger, rounds, loops, log, k);
    if i < k {
      OwedUntilTheEnd(trigger, rounds, loops, log, i, k - 1);
    }
    OwedStep(loops[k], loops[k + 1], log[k], rounds[k].jitter);
  }

  /** The failures a turn has counted before any wait of its own: an accepted page of a scan that owes nothing
      clears them. */
  function Counted(loops: seq<Loop>, log: seq<Entry>, i: nat): U32
    requires i < |log| && i < |loops|
  {
    if Productive(log[i]) && !AnyOwesRetry(ScanSoFar(loops[i], log[..i])) then 0 else loops[i].failureCount
  }

  lemma CountedIsKept(trigger: WT.TriggerState, rounds: seq<Round>, loops: seq<Loop>, log: seq<Entry>, i: nat)
    requires IsPlay(trigger, rounds, loops, log) && i < |log|
    ensures Counted(loops, log, i) == FailuresBeforeWait(loops[i], log[i])
  {
    PlayKeepsInv(trigger, rounds, loops, log, i);
    VariablesOfScan(loops[i], log[..i]);
  }

  /** Every wait, of whatever cause, counts exactly one failure more and lasts within a fifth of the capped
      exponential of the failures counted before it, and at most a minute. */
  lemma EveryWaitIsPaced(trigger: WT.TriggerState, rounds: seq<Round>, loops: seq<Loop>, log: seq<Entry>, i: nat)
    requires IsPlay(trigger, rounds, loops, log) && i < |log| && log[i].delay.Some?
    ensures log[i].failuresAtEnd == SaturatingIncrement(Counted(loops, log, i))
    ensures var base := 1000 * Min(Pow2(Counted(loops, log, i)), 60);
            80 * base <= 100 * log[i].delay.value <= 120 * base && log[i].delay.value <= 60_000
  {
    CountedIsKept(trigger, rounds, loops, log, i);
    TurnFactsAt(trigger, rounds, loops, log, i);
    JitterBounds(Counted(loops, log, i), rounds[i].jitter);
  }

  lemma OwedKeepsCount(trigger: WT.TriggerState, rounds: seq<Round>, loops: seq<Loop>, log: seq<Entry>, i: nat, j: nat)
    requires IsPlay(trigger, rounds, loops, log) && i <= j < |log|
    requires OwesRetry(log[i]) && forall m :: i <= m < j ==> log[m].verdict.Continued?
    ensures Counted(loops, log, j) == Counted(loops, log, i)
  {
    CountedIsKept(trigger, rounds, loops, log, i);
    CountedIsKept(trigger, rounds, loops, log, j);
    TurnFactsAt(trigger, rounds, loops, log, i);
    if i < j {
      OwedUntilTheEnd(trigger, rounds, loops, log, i, j - 1);
    }
  }

  /** From the first page that owes a retry the failures stay as that page counted them, and when the scan ends
      or is dropped, by that page or a later one, they rise by exactly one, after a delay within a fifth of the
      capped exponential. */
  lemma RetryIsPaced(trigger: WT.TriggerState, rounds: seq<Round>, loops: seq<Loop>, log: seq<Entry>, i: nat, j: nat)
    requires IsPlay(trigger, rounds, loops, log) && i <= j < |log|
    requires OwesRetry(log[i]) && (forall m :: i <= m < j ==> log[m].verdict.Continued?) && !log[j].verdict.Continued?
    ensures forall m :: i <= m < j ==> log[m].failuresAtEnd == Counted(loops, log, i)
    ensures log[j].failuresAtEnd == SaturatingIncrement(Counted(loops, log, i))
    ensures var base := 1000 * Min(Pow2(Counted(loops, log, i)), 60);
            log[j].delay.Some? && 80 * base <= 100 * log[j].delay.value <= 120 * base && log[j].delay.value <= 60_000
  {
    forall m | i <= m < j ensures log[m].failuresAtEnd == Counted(loops, log, i) {
      OwedUntilTheEnd(trigger, rounds, loops, log, i, m);
      CountedIsKept(trigger, rounds, loops, log, i);
      TurnFactsAt(trigger, rounds, loops, log, i);
    }
    OwedScanWaits(trigger, rounds, loops, log, i, j);
    OwedKeepsCount(trigger, rounds, loops, log, i, j);
    EveryWaitIsPaced(trigger, rounds, loops, log, j);
  }

  lemma OwedScanWaits(trigger: WT.TriggerState, rounds: seq<Round>, loops: seq<Loop>, log: seq<Entry>, i: nat, j: nat)
    requires IsPlay(trigger, rounds, loops, log) && i <= j < |log|
    requires OwesRetry(log[i]) && (forall m :: i <= m < j ==> log[m].verdict.Continued?) && !log[j].verdict.Continued?
    ensures log[j].delay.Some?
  {
    TurnFactsAt(trigger, rounds, loops, log, j);
    if i < j {
      OwedUntilTheEnd(trigger, rounds, loops, log, i, j - 1);
    }
  }

  // The trigger, seen through the loop.

  lemma ReleaseTrigger(l: Loop, e: Entry, freshLookup: bool, retryRequired: bool, r: Round, t: WT.TriggerState)
    requires l.trigger == WT.ApplyAll(t, e.ops)
    ensures var turn := ReleaseEmpty(l, e, freshLookup, retryRequired, r);
            turn.Turned? && turn.loop.trigger == WT.ApplyAll(t, turn.entry.ops) &&
            (WT.BeginFresh in e.ops <==> WT.BeginFresh in turn.entry.ops)
  {
    var op := if freshLookup then WT.FinishEmpty else WT.FinishBatch(true);
    WT.ApplySnoc(t, e.ops, op);
    WT.ApplyConcat(t, e.ops + [op], r.duringDelay);
    NoticesBeginNothing(r);
  }

  lemma EmptyScanTrigger(l: Loop, e: Entry, freshLookup: bool, retryRequired: bool, r: Round, t: WT.TriggerState)
    requires l.trigger == WT.ApplyAll(t, e.ops) && EndEmptyScan(l, e, freshLookup, retryRequired, r).Turned?
    ensures var turn := EndEmptyScan(l, e, freshLookup, retryRequired, r);
            turn.loop.trigger == WT.ApplyAll(t, turn.entry.ops) &&
            (WT.BeginFresh in e.ops <==> WT.BeginFresh in turn.entry.ops)
  {
    var idle := l.previous - l.current;
    var l1 := l.(previous := l.current, current := {}, cursor := None, unproductivePages := 0);
    if idle == {} {
      ReleaseTrigger(l1, e.(verdict := Ended), freshLookup, retryRequired, r, t);
    } else {
      WT.ApplyConcat(t, e.ops, r.duringTick);
      NoticesBeginNothing(r);
      var delivery := Some(Delivery([], idle, r.ack.value));
      ReleaseTrigger(During(l1, r.duringTick),
                     e.(verdict := Ended, delivery := delivery, ops := e.ops + r.duringTick),
                     freshLookup, retryRequired, r, t);
    }
  }

  lemma NoticesBeginNothing(r: Round)
    ensures WT.BeginFresh !in r.beforeLookup && WT.BeginFresh !in r.duringLookup
    ensures WT.BeginFresh !in r.duringTick && WT.BeginFresh !in r.duringDelay
  {
  }

  lemma RowsOps(ops: seq<WT.Op>, next: Option<Cursor>, r: Round, t: WT.TriggerState)
    ensures var op := WT.FinishBatch(next.None?);
            var after := WT.Apply(WT.ApplyAll(WT.ApplyAll(t, ops), r.duringTick), op);
            WT.ApplyAll(t, ops + r.duringTick + [op]) == after &&
            WT.ApplyAll(t, ops + r.duringTick + [op] + r.duringDelay) == WT.ApplyAll(after, r.duringDelay)
  {
    var op := WT.FinishBatch(next.None?);
    WT.ApplyConcat(t, ops, r.duringTick);
    WT.ApplySnoc(t, ops + r.duringTick, op);
    WT.ApplyConcat(t, ops + r.duringTick + [op], r.duringDelay);
  }

  /** The end of a turn touches the trigger only through what comes during a wait. */
  ghost predicate Waited(turn: Turn, l: Loop, e: Entry, r: Round) {
    turn.Turned? &&
    ((turn.entry.ops == e.ops && turn.loop.trigger == l.trigger) ||
     (turn.entry.ops == e.ops + r.duringDelay && turn.loop.trigger == WT.ApplyAll(l.trigger, r.duringDelay)))
  }

  lemma GoOnTrigger(l: Loop, e: Entry, step: BatchStep, deferred: bool, r: Round)
    requires step.Continue?
    ensures Waited(GoOn(l, e, step, deferred, r), l, e, r)
  {
  }

  lemma StartOverTrigger(l: Loop, e: Entry, verdict: Verdict, r: Round)
    ensures Waited(StartOver(l, e, verdict, r), l, e, r)
  {
  }

  lemma RowsTrigger(l: Loop, e: Entry, requests: seq<Request>, next: Option<Cursor>, r: Round, t: WT.TriggerState)
    requires l.trigger == WT.ApplyAll(t, e.ops) && AfterRows(l, e, requests, next, r).Turned?
    ensures var turn := AfterRows(l, e, requests, next, r);
            var ops := e.ops + r.duringTick + [WT.FinishBatch(next.None?)];
            turn.loop.trigger == WT.ApplyAll(t, turn.entry.ops) &&
            (turn.entry.ops == ops || turn.entry.ops == ops + r.duringDelay)
  {
    var current := l.current + ChainsOf(requests);
    var complete := next.None?;
    var l2 := During(if complete then l.(previous := current, current := {}) else l.(current := current), r.duringTick);
    var l3 := Do(l2, WT.FinishBatch(complete));
    var e3 := e.(delivery := Some(Delivery(requests, if complete then l.previous - current else {}, r.ack.value)),
                 ops := e.ops + r.duringTick + [WT.FinishBatch(complete)]);
    var step := DecideBatchStep(r.ack.value, l.cursor, next, l.unproductivePages);
    RowsOps(e.ops, next, r, t);
    if step.Continue? {
      GoOnTrigger(l3, e3, step, WT.Deferred(l2.trigger), r);
    } else {
      StartOverTrigger(l3, e3, if complete then Ended else DroppedScan, r);
    }
  }

  lemma LookupFailedTrigger(l: Loop, e: Entry, r: Round, t: WT.TriggerState)
    requires l.trigger == WT.ApplyAll(t, e.ops)
    ensures var turn := StartOver(Do(l, WT.FinishEmpty), e.(ops := e.ops + [WT.FinishEmpty]), DroppedScan, r);
            turn.Turned? && turn.loop.trigger == WT.ApplyAll(t, turn.entry.ops) &&
            (WT.BeginFresh in e.ops <==> WT.BeginFresh in turn.entry.ops)
  {
    WT.ApplySnoc(t, e.ops, WT.FinishEmpty);
    WT.ApplyConcat(t, e.ops + [WT.FinishEmpty], r.duringDelay);
    NoticesBeginNothing(r);
  }

  lemma AfterLookupTrigger(l: Loop, e: Entry, r: Round, t: WT.TriggerState)
    requires l.trigger == WT.ApplyAll(t, e.ops) && AfterLookup(l, e, r).Turned?
    ensures var turn := AfterLookup(l, e, r);
            turn.loop.trigger == WT.ApplyAll(t, turn.entry.ops) &&
            (WT.BeginFresh in e.ops <==> WT.BeginFresh in turn.entry.ops)
  {
    match e.lookup {
      case Rows(requests, next) =>
        if requests != [] {
          RowsTrigger(l, e, requests, next, r, t);
          NoticesBeginNothing(r);
        } else if !ShouldContinueEmptyDrain(l.cursor, next, l.unproductivePages) {
          EmptyScanTrigger(l, e, l.cursor.None?, l.retryRequired || next.Some?, r, t);
        }
      case NoTransactions =>
        EmptyScanTrigger(l, e, l.cursor.None?, l.retryRequired, r, t);
      case LookupFailed =>
        LookupFailedTrigger(l, e, r, t);
    }
  }

  /** A turn leaves the trigger as its operations make it, and begins a fresh lookup exactly when it looks
      up without a cursor. */
  lemma TurnTrigger(l: Loop, r: Round)
    requires Step(l, r).Turned?
    ensures var turn := Step(l, r);
            turn.loop.trigger == WT.ApplyAll(l.trigger, turn.entry.ops) &&
            (l.cursor.None? <==> WT.BeginFresh in turn.entry.ops)
  {
    var (l1, e) := LookedUp(l, r);
    NoticesBeginNothing(r);
    AfterLookupTrigger(l1, e, r, l.trigger);
  }

  function OpsOf(e: Entry): seq<WT.Op> {
    e.ops
  }

  function TriggerOf(l: Loop): WT.TriggerState {
    l.trigger
  }

  lemma TurnsRecordOps()
    ensures P.RecordsOps(Step, TriggerOf, OpsOf)
  {
    forall l: Loop, r: Round | Step(l, r).Turned?
      ensures TriggerOf(Step(l, r).loop) == WT.ApplyAll(TriggerOf(l), OpsOf(Step(l, r).entry))
    {
      TurnTrigger(l, r);
    }
  }

  /** In every play, at every turn, each event and force so far has been followed by a fresh lookup begun
      after it, or the trigger is still armed for it, with the deadline of the last event. */
  lemma NoWorkIsForgotten(rounds: seq<Round>, loops: seq<Loop>, log: seq<Entry>, i: nat, k: nat)
    requires IsPlay(WT.FRESH, rounds, loops, log) && i <= |log|
    requires k < |P.AllOps(OpsOf, log[..i])| && WT.IsNotice(P.AllOps(OpsOf, log[..i])[k])
    ensures (exists j :: k < j < |P.AllOps(OpsOf, log[..i])| && P.AllOps(OpsOf, log[..i])[j].BeginFresh?) ||
            (WT.Armed(loops[i].trigger) && WT.HasDeadline(loops[i].trigger, P.AllOps(OpsOf, log[..i])))
  {
    TurnsRecordOps();
    P.NoWorkIsForgotten(Step, TriggerOf, OpsOf, Start(WT.FRESH), rounds, loops, log, i, k);
  }
}
