/** When the managed-wallet worker's failures escalate, told from what the platform and the consumer answered. */
module WalletPacing {
  import opened Wrappers
  import opened Retry
  import opened PageRows
  import opened WalletScan
  import opened WalletScanProperties
  import P = Plays
  import WT = WorkTrigger

  // What a scan's rounds say.

  predicate HasRows(r: Round) {
    r.response.Page? && Convertible(r.response.rows) != []
  }

  predicate PageAccepted(r: Round) {
    HasRows(r) && r.ack == Some(Completed)
  }

  predicate PageFailed(r: Round) {
    HasRows(r) && r.ack == Some(SubmissionFailed)
  }

  /** A page noticed to leave work behind: it failed, or nothing of it converts and it names another page. */
  predicate PageOwes(r: Round) {
    PageFailed(r) || (r.response.Page? && Convertible(r.response.rows) == [] && NextOf(r).Some?)
  }

  predicate ScanOwes(scan: seq<Round>) {
    exists m :: 0 <= m < |scan| && PageOwes(scan[m])
  }

  /** Whether the scan's last lookup failed or any of its pages was noticed to leave work behind. */
  predicate EndsWithWait(scan: seq<Round>) {
    scan != [] && (scan[|scan| - 1].response.NoAnswer? || ScanOwes(scan))
  }

  function FailedPages(scan: seq<Round>): nat {
    if scan == [] then 0
    else FailedPages(scan[..|scan| - 1]) + if PageFailed(scan[|scan| - 1]) then 1 else 0
  }

  /** The waits of a scan: one after each failed page, and one at its end if that is due and the last page did
      not fail. */
  function WaitsOf(scan: seq<Round>): nat {
    FailedPages(scan) + if EndsWithWait(scan) && !PageFailed(scan[|scan| - 1]) then 1 else 0
  }

  /** Row `k` of the page was not populated: it did not convert, or its page was not accepted. */
  predicate RowLeft(r: Round, k: nat) {
    r.response.Page? && k < |r.response.rows| && (r.response.rows[k].None? || r.ack != Some(Completed))
  }

  lemma OwesSnoc(scan: seq<Round>, r: Round)
    ensures ScanOwes(scan + [r]) <==> ScanOwes(scan) || PageOwes(r)
    ensures FailedPages(scan + [r]) == FailedPages(scan) + if PageFailed(r) then 1 else 0
  {
    assert (scan + [r])[..|scan|] == scan;
    if ScanOwes(scan) {
      var m :| 0 <= m < |scan| && PageOwes(scan[m]);
      assert PageOwes((scan + [r])[m]);
    }
    if PageOwes(r) {
      assert PageOwes((scan + [r])[|scan|]);
    }
  }

  lemma EndSnoc(scan: seq<Round>, r: Round)
    ensures EndsWithWait(scan + [r]) <==> r.response.NoAnswer? || ScanOwes(scan) || PageOwes(r)
    ensures WaitsOf(scan + [r]) == FailedPages(scan) + if EndsWithWait(scan + [r]) then 1 else 0
  {
    OwesSnoc(scan, r);
  }

  // Turn by turn.

  /** How a turn's entry and the loop after it answer to its round. */
  ghost predicate Told(l: Loop, l': Loop, e: Entry, r: Round) {
    TurnFacts(l, l', e, r.jitter) && (HasRows(r) ==> r.ack.Some?) &&
    (Accepted(e) <==> PageAccepted(r)) && (OwesRetry(e) <==> PageOwes(r)) &&
    (e.wallets.None? <==> r.response.NoAnswer?) && (r.response.NoAnswer? ==> l'.cursor.None?) &&
    (e.delay.Some? <==>
       r.response.NoAnswer? || PageFailed(r) || (l'.cursor.None? && (l.restartAfterScan || PageOwes(r))))
  }

  /** The same, whatever the lookup did to the trigger. */
  lemma EmptyPageIsTold(l: Loop, e: Entry, next: Option<Cursor>, r: Round)
    requires e == Entry(!l.fetchNow, l.cursor, Some(Wallets([], next)), None, None, e.ops)
    requires GetPendingWallets(r.response) == Some(Wallets([], next))
    ensures var turn := OnEmptyPage(l, e, next, r);
            turn.Turned? && Told(l, turn.loop, turn.entry, r)
  {
    EmptyPageFacts(l, e, next, r);
  }

  lemma WalletsAreTold(l: Loop, e: Entry, requests: seq<ExternalId>, next: Option<Cursor>, r: Round)
    requires e == Entry(!l.fetchNow, l.cursor, Some(Wallets(requests, next)), None, None, e.ops)
    requires GetPendingWallets(r.response) == Some(Wallets(requests, next)) && requests != [] && r.ack.Some?
    ensures var turn := OnWallets(l, e, requests, next, r);
            turn.Turned? && Told(l, turn.loop, turn.entry, r)
  {
    WalletsFacts(l, e, requests, next, r);
  }

  lemma TurnIsTold(l: Loop, r: Round)
    requires Step(l, r).Turned?
    ensures Told(l, Step(l, r).loop, Step(l, r).entry, r)
  {
    var (l1, e) := LookedUp(l, r);
    if e.wallets.None? {
      TurnHasFacts(l, r);
    } else if e.wallets.value.requests == [] {
      EmptyPageIsTold(l1, e, e.wallets.value.next, r);
    } else {
      WalletsAreTold(l1, e, e.wallets.value.requests, e.wallets.value.next, r);
    }
  }

  lemma ToldAt(trigger: WT.TriggerState, rounds: seq<Round>, loops: seq<Loop>, log: seq<Entry>, i: nat)
    requires IsPlay(trigger, rounds, loops, log) && i < |log|
    ensures Told(loops[i], loops[i + 1], log[i], rounds[i])
  {
    assert P.IsTurn(Step, rounds, loops, log, i);
    TurnIsTold(loops[i], rounds[i]);
  }

  /** How many turns waited. */
  function Waits(log: seq<Entry>): nat {
    if log == [] then 0 else Waits(log[..|log| - 1]) + if log[|log| - 1].delay.Some? then 1 else 0
  }

  lemma WaitsSnoc(log: seq<Entry>, e: Entry)
    ensures Waits(log + [e]) == Waits(log) + if e.delay.Some? then 1 else 0
  {
    assert (log + [e])[..|log|] == log;
  }

  /** The failures a scan counts from: none if its first page is accepted, else those it began with. */
  function Base(failures: U32, scan: seq<Round>): U32 {
    if scan != [] && PageAccepted(scan[0]) then 0 else failures
  }

  lemma BaseSnoc(failures: U32, scan: seq<Round>, r: Round)
    ensures Base(failures, scan + [r]) == if scan == [] && PageAccepted(r) then 0 else Base(failures, scan)
  {
    assert (scan + [r])[0] == if scan == [] then r else scan[0];
  }

  /** What a scan that goes on has counted by its pages so far, and whether it owes a restart. */
  ghost predicate Carries(l: Loop, failures: U32, scan: seq<Round>, log: seq<Entry>) {
    l.failureCount == Min(Base(failures, scan) + FailedPages(scan), U32_MAX) &&
    (l.restartAfterScan <==> ScanOwes(scan)) && Waits(log) == FailedPages(scan) &&
    (scan != [] && !ScanOwes(scan) ==> PageAccepted(scan[0]) && FailedPages(scan) == 0)
  }

  lemma CarriesOn(l: Loop, failures: U32, scan: seq<Round>, log: seq<Entry>, l': Loop, e: Entry, r: Round)
    requires Carries(l, failures, scan, log) && Told(l, l', e, r) && l'.cursor.Some?
    ensures Carries(l', failures, scan + [r], log + [e])
  {
    OwesSnoc(scan, r);
    WaitsSnoc(log, e);
    assert (scan + [r])[0] == if scan == [] then r else scan[0];
  }

  /** What a whole scan has counted. */
  ghost predicate Counted(l: Loop, failures: U32, scan: seq<Round>, log: seq<Entry>) {
    scan != [] && log != [] && Waits(log) == WaitsOf(scan) && (WaitsOf(scan) > 0 <==> EndsWithWait(scan)) &&
    (log[|log| - 1].delay.Some? <==> EndsWithWait(scan)) &&
    l.failureCount == if EndsWithWait(scan) then Min(Base(failures, scan) + WaitsOf(scan), U32_MAX) else 0
  }

  lemma CarriesToTheEnd(l: Loop, failures: U32, scan: seq<Round>, log: seq<Entry>, l': Loop, e: Entry, r: Round)
    requires Carries(l, failures, scan, log) && Told(l, l', e, r) && l'.cursor.None?
    ensures Counted(l', failures, scan + [r], log + [e])
  {
    EndSnoc(scan, r);
    BaseSnoc(failures, scan, r);
    WaitsSnoc(log, e);
  }

  // Scan by scan.

  /** Turns `a` to `b` are a whole scan, from its fresh lookup to the turn after which the next one is fresh. */
  ghost predicate IsScan(loops: seq<Loop>, a: nat, b: nat)
    requires b + 1 < |loops|
  {
    a <= b && loops[a].cursor.None? && (forall m :: a < m <= b ==> loops[m].cursor.Some?) && loops[b + 1].cursor.None?
  }

  lemma {:induction false} CountThroughScan(trigger: WT.TriggerState, rounds: seq<Round>, loops: seq<Loop>,
                                            log: seq<Entry>, a: nat, j: nat)
    requires IsPlay(trigger, rounds, loops, log) && a <= j <= |log| && loops[a].cursor.None?
    requires forall m :: a < m <= j ==> loops[m].cursor.Some?
    ensures Carries(loops[j], loops[a].failureCount, rounds[a..j], log[a..j])
    decreases j
  {
    if a == j {
      WalletLookupsArePaced(trigger, rounds, loops, log, a);
      assert rounds[a..j] == [] && log[a..j] == [];
    } else {
      CountThroughScan(trigger, rounds, loops, log, a, j - 1);
      ToldAt(trigger, rounds, loops, log, j - 1);
      assert rounds[a..j] == rounds[a..j - 1] + [rounds[j - 1]] && log[a..j] == log[a..j - 1] + [log[j - 1]];
      CarriesOn(loops[j - 1], loops[a].failureCount, rounds[a..j - 1], log[a..j - 1], loops[j], log[j - 1],
                rounds[j - 1]);
    }
  }

  lemma ScanIsCounted(trigger: WT.TriggerState, rounds: seq<Round>, loops: seq<Loop>, log: seq<Entry>, a: nat, b: nat)
    requires IsPlay(trigger, rounds, loops, log) && b < |log| && IsScan(loops, a, b)
    ensures Counted(loops[b + 1], loops[a].failureCount, rounds[a..b + 1], log[a..b + 1])
  {
    CountThroughScan(trigger, rounds, loops, log, a, b);
    ToldAt(trigger, rounds, loops, log, b);
    assert rounds[a..b + 1] == rounds[a..b] + [rounds[b]] && log[a..b + 1] == log[a..b] + [log[b]];
    CarriesToTheEnd(loops[b], loops[a].failureCount, rounds[a..b], log[a..b], loops[b + 1], log[b], rounds[b]);
  }

  /** A turn after which the next lookup is fresh waits exactly when its lookup failed or its scan owes a
      restart. */
  lemma WalletScanEndExact(trigger: WT.TriggerState, rounds: seq<Round>, loops: seq<Loop>, log: seq<Entry>, i: nat)
    requires IsPlay(trigger, rounds, loops, log) && i < |log| && loops[i + 1].cursor.None?
    ensures log[i].delay.Some? <==> log[i].wallets.None? || AnyOwesRetry(Scan(log[..i + 1]))
  {
    PlayKeepsInv(trigger, rounds, loops, log, i);
    ToldAt(trigger, rounds, loops, log, i);
    assert log[..i + 1] == log[..i] + [log[i]];
    FactsKeepInv(loops[i], log[..i], loops[i + 1], log[i], rounds[i].jitter);
  }

  /** For every scan: it ends with a wait exactly when its last lookup failed or a page of it failed or was
      drained or given up unconverted, and otherwise the count is cleared. It adds its waits to the failures it
      began with, having any, if and only if it ends with a wait and none were counted or its first page was not
      accepted (or it waits until the count saturates). */
  lemma WalletEscalationExact(trigger: WT.TriggerState, rounds: seq<Round>, loops: seq<Loop>, log: seq<Entry>, a: nat,
                              b: nat)
    requires IsPlay(trigger, rounds, loops, log) && b < |log| && IsScan(loops, a, b)
    ensures var failures, scan, count := loops[a].failureCount, rounds[a..b + 1], loops[b + 1].failureCount;
            var waits := WaitsOf(scan);
            Waits(log[a..b + 1]) == waits && (log[b].delay.Some? <==> EndsWithWait(scan)) &&
            (if EndsWithWait(scan) then count == Min((if PageAccepted(rounds[a]) then 0 else failures) + waits, U32_MAX)
             else count == 0) &&
            (waits > 0 && count == Min(failures + waits, U32_MAX) <==>
             EndsWithWait(scan) && (failures == 0 || !PageAccepted(rounds[a]) || waits >= U32_MAX))
  {
    ScanIsCounted(trigger, rounds, loops, log, a, b);
    assert rounds[a..b + 1][0] == rounds[a] && log[a..b + 1][b - a] == log[b];
  }

  lemma SettledPage(r: Round)
    requires HasRows(r) && r.ack.Some? && !PageOwes(r)
    ensures r.ack == Some(Completed)
  {
    assert !r.ack.value.SubmissionFailed?;
  }

  /** A row left by a page that owes nothing did not convert, and its page was accepted or ended the scan. */
  lemma ForgottenRow(l: Loop, l': Loop, e: Entry, r: Round, k: nat)
    requires Told(l, l', e, r) && !PageOwes(r) && RowLeft(r, k)
    ensures r.response.rows[k].None? && (PageAccepted(r) || l'.cursor.None?)
  {
    RowConverts(r.response.rows, k);
    if HasRows(r) {
      SettledPage(r);
    }
  }

  /** A scan that leaves a row behind, here row `k` of the page read by turn `m`, adds its waits to the count, having
      any, exactly when it ends with a wait and none were counted or its first page was not accepted (or the count
      saturates). If it ends without one the count is cleared, though the row is left: it is one that did not
      convert, on a page whose other rows were accepted or on the last page. */
  lemma LeftRowEscalatesExact(trigger: WT.TriggerState, rounds: seq<Round>, loops: seq<Loop>, log: seq<Entry>, a: nat,
                              b: nat, m: nat, k: nat)
    requires IsPlay(trigger, rounds, loops, log) && b < |log| && IsScan(loops, a, b)
    requires a <= m <= b && RowLeft(rounds[m], k)
    ensures var failures, scan, count := loops[a].failureCount, rounds[a..b + 1], loops[b + 1].failureCount;
            var waits := WaitsOf(scan);
            (waits > 0 && count == Min(failures + waits, U32_MAX) <==>
             EndsWithWait(scan) && (failures == 0 || !PageAccepted(rounds[a]) || waits >= U32_MAX)) &&
            (!EndsWithWait(scan) ==>
               count == 0 && log[b].delay.None? && rounds[m].response.rows[k].None? &&
               (PageAccepted(rounds[m]) || m == b))
  {
    WalletEscalationExact(trigger, rounds, loops, log, a, b);
    var scan := rounds[a..b + 1];
    if !EndsWithWait(scan) {
      assert scan[m - a] == rounds[m] && !PageOwes(scan[m - a]);
      ToldAt(trigger, rounds, loops, log, m);
      ForgottenRow(loops[m], loops[m + 1], log[m], rounds[m], k);
    }
  }

  // Scans that leave rows behind without escalating.

  /** A row that never converts, alone on the only page, clears any count and lets the worker park. */
  lemma UnconvertibleRowIsForgotten(l: Loop, r: Round)
    requires l.cursor.None? && !l.restartAfterScan && r.response == Page([None], None)
    ensures RowLeft(r, 0)
    ensures var turn := Step(l, r);
            turn.Turned? && turn.entry.delay.None? && turn.loop.failureCount == 0 && turn.loop.cursor.None? &&
            !turn.loop.fetchNow
  {
    assert Convertible<ExternalId>([None]) == Convertible([]);
  }

  /** One beside a row that is accepted clears any count too. */
  lemma UnconvertibleRowBesideOthers(l: Loop, r: Round, id: ExternalId)
    requires l.cursor.None? && !l.restartAfterScan && r.response == Page([Some(id), None], None)
    requires r.ack == Some(Completed)
    ensures RowLeft(r, 1)
    ensures var turn := Step(l, r);
            turn.Turned? && turn.entry.delay.None? && turn.loop.failureCount == 0 && turn.loop.cursor.None?
  {
    RowConverts(r.response.rows, 0);
  }

  lemma AcceptedPage(l: Loop, r: Round)
    requires l.cursor.None? && !l.restartAfterScan && PageAccepted(r) && NextOf(r).Some?
    ensures var turn := Step(l, r);
            turn.Turned? && turn.loop.cursor == NextOf(r) && turn.loop.failureCount == 0 && !turn.loop.restartAfterScan
  {
  }

  lemma FailedLastPage(l: Loop, r: Round)
    requires PageFailed(r) && NextOf(r).None?
    ensures var turn := Step(l, r);
            turn.Turned? && OwesRetry(turn.entry) &&
            turn.entry.delay == Some(JitteredExponentialDelay(l.failureCount, r.jitter)) &&
            turn.loop.cursor.None? && !turn.loop.restartAfterScan &&
            turn.loop.failureCount == SaturatingIncrement(l.failureCount)
  {
  }

  /** A scan whose first page is accepted and whose last page fails waits as after a first failure, however
      many such scans there have been. */
  lemma LastPageFailuresNeverEscalate(l: Loop, first: Round, last: Round)
    requires l.cursor.None? && !l.restartAfterScan
    requires PageAccepted(first) && NextOf(first).Some? && PageFailed(last) && NextOf(last).None?
    ensures var turn := Step(l, first);
            turn.Turned? &&
            var end := Step(turn.loop, last);
            end.Turned? && OwesRetry(end.entry) && end.entry.delay == Some(JitteredExponentialDelay(0, last.jitter)) &&
            end.loop.cursor.None? && !end.loop.restartAfterScan && end.loop.failureCount == 1
  {
    AcceptedPage(l, first);
    FailedLastPage(Step(l, first).loop, last);
  }
}
