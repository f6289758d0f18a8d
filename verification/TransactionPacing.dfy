/** How tight the pacing of the transaction loop is, and when its delays escalate. */
module TransactionPacing {
  import opened Wrappers
  import opened Retry
  import opened PageRows
  import opened TransactionHandler
  import opened TransactionScan
  import opened TransactionScanProperties
  import P = Plays
  import WT = WorkTrigger

  // What a scan's rounds say.

  predicate HasRows(r: Round) {
    r.response.Page? && Convertible(r.response.rows) != []
  }

  predicate PageAccepted(r: Round) {
    HasRows(r) && r.ack == Some(Completed)
  }

  /** Something of the page was accepted. */
  predicate PageProductive(r: Round) {
    HasRows(r) && (r.ack == Some(Completed) || r.ack == Some(PartialProgress))
  }

  /** A page noticed to leave work behind: not all its convertible rows were accepted, or it has rows of which none
      converts and it names another page. */
  predicate PageLeaves(r: Round) {
    (HasRows(r) && r.ack != Some(Completed)) ||
    var lookup := GetPendingTransactions(r.response);
    lookup.Rows? && lookup.requests == [] && lookup.next.Some?
  }

  predicate ScanLeaves(scan: seq<Round>) {
    exists m :: 0 <= m < |scan| && PageLeaves(scan[m])
  }

  /** Whether the scan's last lookup failed or any of its pages was noticed to leave work behind. */
  predicate EndsWithWait(scan: seq<Round>) {
    scan != [] && (scan[|scan| - 1].response.NoAnswer? || ScanLeaves(scan))
  }

  /** Row `k` of the page is left pending, or may be: it did not convert, or not all of its page was accepted. */
  predicate RowLeft(r: Round, k: nat) {
    r.response.Page? && k < |r.response.rows| && (r.response.rows[k].None? || r.ack != Some(Completed))
  }

  /** The failures a scan counts from: none if its first page has something accepted, else those it began with. */
  function Base(failures: U32, scan: seq<Round>): U32 {
    if scan != [] && PageProductive(scan[0]) then 0 else failures
  }

  lemma ScanSoFarSnoc(scan: seq<Round>, r: Round, failures: U32)
    ensures ScanLeaves(scan + [r]) <==> ScanLeaves(scan) || PageLeaves(r)
    ensures Base(failures, scan + [r]) == if scan == [] && PageProductive(r) then 0 else Base(failures, scan)
  {
    assert (scan + [r])[0] == if scan == [] then r else scan[0];
    if ScanLeaves(scan) {
      var m :| 0 <= m < |scan| && PageLeaves(scan[m]);
      assert PageLeaves((scan + [r])[m]);
    }
    if PageLeaves(r) {
      assert PageLeaves((scan + [r])[|scan|]);
    }
  }

  // Turn by turn.

  /** A turn's entry holds its round's answers. */
  ghost predicate Answered(e: Entry, r: Round) {
    e.lookup == GetPendingTransactions(r.response) &&
    (HasRows(r) ==> e.delivery.Some? && r.ack == Some(e.delivery.value.outcome))
  }

  lemma RowsAreAnswered(l: Loop, e: Entry, requests: seq<Request>, next: Option<Cursor>, r: Round)
    requires e.lookup == GetPendingTransactions(r.response) && AfterRows(l, e, requests, next, r).Turned?
    ensures Answered(AfterRows(l, e, requests, next, r).entry, r)
  {
  }

  lemma EmptyScanIsAnswered(l: Loop, e: Entry, freshLookup: bool, retryRequired: bool, r: Round)
    requires e.lookup == GetPendingTransactions(r.response) && !HasRows(r)
    requires EndEmptyScan(l, e, freshLookup, retryRequired, r).Turned?
    ensures Answered(EndEmptyScan(l, e, freshLookup, retryRequired, r).entry, r)
  {
  }

  lemma TurnIsAnswered(l: Loop, r: Round)
    requires Step(l, r).Turned?
    ensures Answered(Step(l, r).entry, r)
  {
    var (l1, e) := LookedUp(l, r);
    match e.lookup {
      case Rows(requests, next) =>
        if requests != [] {
          RowsAreAnswered(l1, e, requests, next, r);
        } else if !ShouldContinueEmptyDrain(l.cursor, next, l.unproductivePages) {
          EmptyScanIsAnswered(l1, e, l.cursor.None?, l.retryRequired || next.Some?, r);
        }
      case NoTransactions =>
        EmptyScanIsAnswered(l1, e, l.cursor.None?, l.retryRequired, r);
      case LookupFailed =>
    }
  }

  /** How a turn's entry and the loop after it answer to its round. */
  ghost predicate Told(l: Loop, l': Loop, e: Entry, r: Round) {
    TurnFacts(l, l', e, r.jitter) && (HasRows(r) ==> r.ack.Some?) &&
    (Productive(e) <==> PageProductive(r)) && (OwesRetry(e) || !AcceptedHere(e) <==> PageLeaves(r)) &&
    (e.lookup.LookupFailed? <==> r.response.NoAnswer?)
  }

  lemma AnswersTell(l: Loop, l': Loop, e: Entry, r: Round)
    requires TurnFacts(l, l', e, r.jitter) && Answered(e, r)
    ensures Told(l, l', e, r)
  {
  }

  lemma ToldAt(trigger: WT.TriggerState, rounds: seq<Round>, loops: seq<Loop>, log: seq<Entry>, i: nat)
    requires IsPlay(trigger, rounds, loops, log) && i < |log|
    ensures Told(loops[i], loops[i + 1], log[i], rounds[i])
  {
    assert P.IsTurn(Step, rounds, loops, log, i);
    TurnIsAnswered(loops[i], rounds[i]);
    TurnFactsAt(trigger, rounds, loops, log, i);
    AnswersTell(loops[i], loops[i + 1], log[i], rounds[i]);
  }

  /** What a scan that goes on has counted by its pages so far, and whether it owes a retry. */
  ghost predicate Carries(l: Loop, failures: U32, scan: seq<Round>) {
    l.failureCount == Base(failures, scan) && (l.retryRequired <==> ScanLeaves(scan)) &&
    (scan != [] && !ScanLeaves(scan) ==> Base(failures, scan) == 0)
  }

  lemma CarriesOn(l: Loop, failures: U32, scan: seq<Round>, l': Loop, e: Entry, r: Round)
    requires Carries(l, failures, scan) && Told(l, l', e, r) && e.verdict.Continued?
    ensures Carries(l', failures, scan + [r])
  {
    ScanSoFarSnoc(scan, r, failures);
  }

  /** What a whole scan has counted. */
  ghost predicate Counted(e: Entry, failures: U32, scan: seq<Round>) {
    scan != [] && (e.delay.Some? <==> EndsWithWait(scan)) &&
    e.failuresAtEnd == if EndsWithWait(scan) then SaturatingIncrement(Base(failures, scan)) else 0
  }

  lemma CarriesToTheEnd(l: Loop, failures: U32, scan: seq<Round>, l': Loop, e: Entry, r: Round)
    requires Carries(l, failures, scan) && Told(l, l', e, r) && !e.verdict.Continued?
    ensures Counted(e, failures, scan + [r])
  {
    ScanSoFarSnoc(scan, r, failures);
  }

  // Scan by scan.

  /** Turns `a` to `b` are a whole scan, from its fresh lookup to the turn that ends or drops it. */
  ghost predicate IsScan(loops: seq<Loop>, log: seq<Entry>, a: nat, b: nat)
    requires b < |log| < |loops|
  {
    a <= b && loops[a].cursor.None? && (forall m :: a <= m < b ==> log[m].verdict.Continued?) &&
    !log[b].verdict.Continued?
  }

  lemma {:induction false} CountThroughScan(trigger: WT.TriggerState, rounds: seq<Round>, loops: seq<Loop>,
                                            log: seq<Entry>, a: nat, j: nat)
    requires IsPlay(trigger, rounds, loops, log) && a <= j <= |log| && loops[a].cursor.None?
    requires forall m :: a <= m < j ==> log[m].verdict.Continued?
    ensures Carries(loops[j], loops[a].failureCount, rounds[a..j])
    decreases j
  {
    if a == j {
      LookupsArePaced(trigger, rounds, loops, log, a);
      assert rounds[a..j] == [];
    } else {
      CountThroughScan(trigger, rounds, loops, log, a, j - 1);
      ToldAt(trigger, rounds, loops, log, j - 1);
      assert rounds[a..j] == rounds[a..j - 1] + [rounds[j - 1]];
      CarriesOn(loops[j - 1], loops[a].failureCount, rounds[a..j - 1], loops[j], log[j - 1], rounds[j - 1]);
    }
  }

  lemma ScanIsCounted(trigger: WT.TriggerState, rounds: seq<Round>, loops: seq<Loop>, log: seq<Entry>, a: nat, b: nat)
    requires IsPlay(trigger, rounds, loops, log) && b < |log| && IsScan(loops, log, a, b)
    ensures Counted(log[b], loops[a].failureCount, rounds[a..b + 1])
  {
    CountThroughScan(trigger, rounds, loops, log, a, b);
    ToldAt(trigger, rounds, loops, log, b);
    assert rounds[a..b + 1] == rounds[a..b] + [rounds[b]];
    CarriesToTheEnd(loops[b], loops[a].failureCount, rounds[a..b], loops[b + 1], log[b], rounds[b]);
  }

  /** A turn that ends or drops its scan waits exactly when its lookup failed, a page of the scan owes a retry, or
      its own page was not accepted. */
  lemma ScanEndExact(trigger: WT.TriggerState, rounds: seq<Round>, loops: seq<Loop>, log: seq<Entry>, i: nat)
    requires IsPlay(trigger, rounds, loops, log) && i < |log| && !log[i].verdict.Continued?
    ensures log[i].delay.Some? <==>
            log[i].lookup.LookupFailed? || AnyOwesRetry(Scan(log[..i + 1])) || !AcceptedHere(log[i])
  {
    PlayKeepsInv(trigger, rounds, loops, log, i);
    TurnFactsAt(trigger, rounds, loops, log, i);
    assert log[..i + 1] == log[..i] + [log[i]];
    ScanEnds(loops[i], log[..i], loops[i + 1], log[i], rounds[i].jitter);
  }

  lemma ScanEnds(l: Loop, before: seq<Entry>, l': Loop, e: Entry, jitter: Percent)
    requires Inv(l, before) && TurnFacts(l, l', e, jitter) && !e.verdict.Continued?
    ensures e.delay.Some? <==> e.lookup.LookupFailed? || AnyOwesRetry(Scan(before + [e])) || !AcceptedHere(e)
  {
    VariablesOfScan(l, before);
    ScanGrows(l, before, e);
    ScanSnoc(ScanSoFar(l, before), e);
  }

  /** For every scan: it ends with a wait exactly when its last lookup failed or a page of it was noticed to leave
      work behind, and otherwise the count is cleared. It counts exactly one failure more than when it began if and
      only if it ends with a wait and none were counted or its first page had nothing accepted. */
  lemma EscalationExact(trigger: WT.TriggerState, rounds: seq<Round>, loops: seq<Loop>, log: seq<Entry>, a: nat,
                        b: nat)
    requires IsPlay(trigger, rounds, loops, log) && b < |log| && IsScan(loops, log, a, b)
    ensures var failures, scan, count := loops[a].failureCount, rounds[a..b + 1], log[b].failuresAtEnd;
            (log[b].delay.Some? <==> EndsWithWait(scan)) &&
            count == (if !EndsWithWait(scan) then 0
                      else if PageProductive(rounds[a]) then 1
                      else SaturatingIncrement(failures)) &&
            (count == SaturatingIncrement(failures) <==>
             EndsWithWait(scan) && (failures == 0 || !PageProductive(rounds[a])))
  {
    ScanIsCounted(trigger, rounds, loops, log, a, b);
    assert rounds[a..b + 1][0] == rounds[a];
  }

  /** A row left by a page not noticed to leave work did not convert, and its page was accepted or ended the
      scan. */
  lemma ForgottenRow(l: Loop, l': Loop, e: Entry, r: Round, k: nat)
    requires Told(l, l', e, r) && !PageLeaves(r) && RowLeft(r, k)
    ensures r.response.rows[k].None? && (PageAccepted(r) || !e.verdict.Continued?)
  {
    RowConverts(r.response.rows, k);
  }

  /** A scan that leaves a row behind, here row `k` of the page read by turn `m`, counts one failure more exactly when
      it ends with a wait and none were counted or its first page had nothing accepted. If it ends without a wait the
      count is cleared, though the row is left: it is one that did not convert, on a page whose other rows were
      accepted or on the last page. */
  lemma LeftRowEscalatesExact(trigger: WT.TriggerState, rounds: seq<Round>, loops: seq<Loop>, log: seq<Entry>, a: nat,
                              b: nat, m: nat, k: nat)
    requires IsPlay(trigger, rounds, loops, log) && b < |log| && IsScan(loops, log, a, b)
    requires a <= m <= b && RowLeft(rounds[m], k)
    ensures var failures, scan, count := loops[a].failureCount, rounds[a..b + 1], log[b].failuresAtEnd;
            (count == SaturatingIncrement(failures) <==>
             EndsWithWait(scan) && (failures == 0 || !PageProductive(rounds[a]))) &&
            (!EndsWithWait(scan) ==>
               count == 0 && log[b].delay.None? && rounds[m].response.rows[k].None? &&
               (PageAccepted(rounds[m]) || m == b))
  {
    EscalationExact(trigger, rounds, loops, log, a, b);
    var scan := rounds[a..b + 1];
    if !EndsWithWait(scan) {
      assert scan[m - a] == rounds[m] && !PageLeaves(scan[m - a]);
      ToldAt(trigger, rounds, loops, log, m);
      ForgottenRow(loops[m], loops[m + 1], log[m], rounds[m], k);
    }
  }

  // Scans that leave work behind without escalating.

  lemma NothingFound(l: Loop, e: Entry, r: Round)
    requires l.cursor.None? && (l.previous - l.current == {} || r.ack.Some?)
    ensures var turn := EndEmptyScan(l, e, true, false, r);
            turn.Turned? && turn.entry.verdict.Ended? && turn.entry.delay == e.delay && turn.loop.cursor.None? &&
            turn.loop.failureCount == 0 && !turn.loop.fetchNow
  {
  }

  /** A row that never converts, alone on the only page, clears any count and lets the worker park. */
  lemma UnconvertibleRowIsForgotten(l: Loop, r: Round)
    requires l.cursor.None? && !l.retryRequired && r.response == Page([None], None)
    requires l.previous == {} || r.ack.Some?
    ensures RowLeft(r, 0)
    ensures var turn := Step(l, r);
            turn.Turned? && turn.entry.verdict.Ended? && turn.entry.delay.None? && turn.loop.failureCount == 0 &&
            turn.loop.cursor.None? && !turn.loop.fetchNow
  {
    var (l1, e) := LookedUp(l, r);
    assert Convertible<Request>([None]) == Convertible([]);
    NothingFound(l1, e, r);
  }

  lemma AllAcceptedRows(l: Loop, e: Entry, requests: seq<Request>, r: Round)
    requires requests != [] && r.ack == Some(Completed) && !l.retryRequired && e.delay.None?
    ensures var turn := AfterRows(l, e, requests, None, r);
            turn.Turned? && turn.entry.verdict.Ended? && turn.entry.delay.None? && turn.loop.cursor.None? &&
            turn.loop.failureCount == 0
  {
  }

  /** One beside a row that is accepted clears any count too. */
  lemma UnconvertibleRowBesideOthers(l: Loop, r: Round, request: Request)
    requires l.cursor.None? && !l.retryRequired && r.response == Page([Some(request), None], None)
    requires r.ack == Some(Completed)
    ensures RowLeft(r, 1)
    ensures var turn := Step(l, r);
            turn.Turned? && turn.entry.verdict.Ended? && turn.entry.delay.None? && turn.loop.failureCount == 0 &&
            turn.loop.cursor.None?
  {
    var (l1, e) := LookedUp(l, r);
    RowConverts(r.response.rows, 0);
    AllAcceptedRows(l1, e, e.lookup.requests, r);
  }

  lemma PartialRows(l: Loop, e: Entry, requests: seq<Request>, r: Round)
    requires requests != [] && r.ack == Some(PartialProgress) && !l.retryRequired
    ensures var turn := AfterRows(l, e, requests, None, r);
            turn.Turned? && turn.entry.delay == Some(JitteredExponentialDelay(0, r.jitter)) &&
            turn.entry.delivery.Some? && turn.entry.delivery.value.batch == requests &&
            turn.entry.delivery.value.outcome.PartialProgress? && turn.loop.failureCount == 1
  {
  }

  /** A page that is only partly accepted, in a scan of its own, is waited for as a first failure however
      many there have been, though its scan left work behind. */
  lemma PartialScansNeverEscalate(l: Loop, r: Round)
    requires l.cursor.None? && !l.retryRequired
    requires r.response.Page? && r.response.nextCursor.None? && Convertible(r.response.rows) != []
    requires r.ack == Some(PartialProgress)
    ensures var turn := Step(l, r);
            turn.Turned? && OwesRetry(turn.entry) && turn.loop.failureCount == 1 &&
            turn.entry.delay == Some(JitteredExponentialDelay(0, r.jitter))
  {
    var (l1, e) := LookedUp(l, r);
    PartialRows(l1, e, e.lookup.requests, r);
  }

  lemma AcceptedRows(l: Loop, e: Entry, requests: seq<Request>, next: Cursor, r: Round)
    requires requests != [] && r.ack == Some(Completed) && !l.retryRequired
    ensures var turn := AfterRows(l, e, requests, Some(next), r);
            turn.Turned? && turn.loop.cursor == Some(next) && turn.loop.failureCount == 0 && !turn.loop.retryRequired
  {
  }

  lemma FailedRows(l: Loop, e: Entry, requests: seq<Request>, r: Round)
    requires r.ack == Some(SubmissionFailed)
    ensures var turn := AfterRows(l, e, requests, None, r);
            turn.Turned? && turn.entry.delay == Some(JitteredExponentialDelay(l.failureCount, r.jitter)) &&
            turn.loop.cursor.None? && !turn.loop.retryRequired &&
            turn.loop.failureCount == SaturatingIncrement(l.failureCount)
  {
  }

  lemma AcceptedPage(l: Loop, r: Round)
    requires l.cursor.None? && !l.retryRequired && HasRows(r) && r.ack == Some(Completed)
    requires r.response.nextCursor.Some? && r.response.nextCursor != Some("")
    ensures var turn := Step(l, r);
            turn.Turned? && turn.loop.cursor == r.response.nextCursor && turn.loop.failureCount == 0 &&
            !turn.loop.retryRequired
  {
    var (l1, e) := LookedUp(l, r);
    AcceptedRows(l1, e, e.lookup.requests, r.response.nextCursor.value, r);
  }

  lemma FailedLastPage(l: Loop, r: Round)
    requires HasRows(r) && r.ack == Some(SubmissionFailed) && r.response.nextCursor.None?
    ensures var turn := Step(l, r);
            turn.Turned? && turn.entry.delay == Some(JitteredExponentialDelay(l.failureCount, r.jitter)) &&
            turn.loop.cursor.None? && !turn.loop.retryRequired &&
            turn.loop.failureCount == SaturatingIncrement(l.failureCount)
  {
    var (l1, e) := LookedUp(l, r);
    FailedRows(l1, e, e.lookup.requests, r);
  }

  /** A scan whose first page is accepted and whose last page fails waits as after a first failure, however
      many there have been: from five failures, say, the count goes to none and then to one. */
  lemma AcceptedThenFailedStartsOver(l: Loop, first: Round, last: Round)
    requires l.cursor.None? && !l.retryRequired
    requires HasRows(first) && first.ack == Some(Completed)
    requires first.response.nextCursor.Some? && first.response.nextCursor != Some("")
    requires HasRows(last) && last.ack == Some(SubmissionFailed) && last.response.nextCursor.None?
    ensures var turn := Step(l, first);
            turn.Turned? && turn.loop.failureCount == 0 &&
            var end := Step(turn.loop, last);
            end.Turned? && end.entry.delay == Some(JitteredExponentialDelay(0, last.jitter)) &&
            end.loop.cursor.None? && !end.loop.retryRequired && end.loop.failureCount == 1 &&
            (l.failureCount > 0 ==> end.loop.failureCount != SaturatingIncrement(l.failureCount))
  {
    AcceptedPage(l, first);
    FailedLastPage(Step(l, first).loop, last);
  }

  // The bound of 22 lookups in a row is reached.

  function Quiet(response: Response): Round {
    Round([], response, [], Some(Completed), [], 100, [])
  }

  const HERE: Cursor := "a"
  const THERE: Cursor := "b"

  /** The cursor held after `k` drained pages. */
  function Held(k: nat): Option<Cursor> {
    if k == 0 then None else if k % 2 == 1 then Some(HERE) else Some(THERE)
  }

  /** An accepted page during which a lookup is forced, a continuation that finds nothing, and then `k` pages
      without a convertible row. */
  function Worst(request: Request, k: nat): (rounds: seq<Round>) {
    if k == 0 then [Accepting(request), Quiet(NoResult)]
    else Worst(request, k - 1) + [Quiet(Page([None], Held(k)))]
  }

  type Stepper = (Loop, Round) -> Turn

  /** `step` is the loop's turn. */
  ghost predicate IsStep(step: Stepper) {
    forall l: Loop, r: Round {:trigger Step(l, r)} :: step(l, r) == Step(l, r)
  }

  lemma AcceptedTurn(step: Stepper, l: Loop, r: Round, request: Request) returns (l': Loop, e: Entry)
    requires IsStep(step)
    requires l == Start(WT.FRESH) && r == Accepting(request)
    ensures step(l, r) == P.Turned(l', e)
    ensures l'.cursor == Some(HERE) && l'.previous == {} && !l'.retryRequired && l'.fetchNow && l'.trigger.forced
    ensures Productive(e)
  {
    WT.ApplySnoc(WT.FRESH, [], WT.BeginFresh);
    var t := WT.Apply(WT.FRESH, WT.BeginFresh);
    assert [] + [WT.BeginFresh] + [] == [WT.BeginFresh] == [] + [WT.BeginFresh];
    WT.ApplySnoc(t, [], WT.Force);
    assert [] + [WT.Force] == [WT.Force];
    assert Convertible([Some(request)]) == [request];
    l', e := Step(l, r).loop, Step(l, r).entry;
  }

  lemma DeferredTurn(step: Stepper, l: Loop) returns (l': Loop, e: Entry)
    requires IsStep(step)
    requires l.cursor.Some? && l.previous == {} && !l.retryRequired && l.fetchNow && l.trigger.forced
    ensures step(l, Quiet(NoResult)) == P.Turned(l', e)
    ensures l'.cursor == None && l'.fetchNow && l'.unproductivePages == 0
    ensures !e.parked && e.delay.None? && !Productive(e)
  {
    assert l.previous - l.current == {};
    l', e := Step(l, Quiet(NoResult)).loop, Step(l, Quiet(NoResult)).entry;
  }

  lemma DrainTurn(step: Stepper, l: Loop, k: nat) returns (l': Loop, e: Entry)
    requires IsStep(step)
    requires k > 0 && l.cursor == Held(k - 1) && l.fetchNow && l.unproductivePages == k - 1
    ensures step(l, Quiet(Page([None], Held(k)))) == P.Turned(l', e) && !e.parked
    ensures k <= 20 ==>
              l'.cursor == Held(k) && l'.fetchNow && l'.unproductivePages == k && e.delay.None? && !Productive(e)
  {
    assert Convertible<Request>([None]) == Convertible([]);
    var r := Quiet(Page([None], Held(k)));
    l', e := Step(l, r).loop, Step(l, r).entry;
  }

  function Accepting(request: Request): Round {
    Round([], Page([Some(request)], Some(HERE)), [], Some(Completed), [WT.Force], 100, [])
  }

  lemma AfterAcceptance(step: Stepper, request: Request) returns (e: Entry, l: Loop)
    requires IsStep(step)
    ensures P.Turns(step, Start(WT.FRESH), [Accepting(request)]) == P.Play(l, [e], true) && StillInARow([e]) == 0
    ensures l.cursor == Some(HERE) && l.previous == {} && !l.retryRequired && l.fetchNow && l.trigger.forced
  {
    var start, r := Start(WT.FRESH), Accepting(request);
    l, e := AcceptedTurn(step, start, r, request);
    assert P.Turns(step, start, []) == P.Play(start, [], true);
    P.TurnsAppend(step, start, [], r, start, [], l, e);
    assert [] + [r] == [r] && [] + [e] == [e];
    LogSnoc([], e);
  }

  lemma WorstBegins(step: Stepper, request: Request) returns (log: seq<Entry>, l: Loop)
    requires IsStep(step)
    ensures P.Turns(step, Start(WT.FRESH), Worst(request, 0)) == P.Play(l, log, true)
    ensures l.cursor == None && l.fetchNow && l.unproductivePages == 0 && StillInARow(log) == LookupsInARow(log) == 1
  {
    var e1, l1 := AfterAcceptance(step, request);
    var e2;
    l, e2 := DeferredTurn(step, l1);
    P.TurnsAppend(step, Start(WT.FRESH), [Accepting(request)], Quiet(NoResult), l1, [e1], l, e2);
    assert [Accepting(request)] + [Quiet(NoResult)] == Worst(request, 0);
    LogSnoc([e1], e2);
    log := [e1] + [e2];
  }

  lemma {:induction false} WorstGoesOn(step: Stepper, request: Request, k: nat) returns (log: seq<Entry>, l: Loop)
    requires IsStep(step) && k <= 20
    ensures P.Turns(step, Start(WT.FRESH), Worst(request, k)) == P.Play(l, log, true)
    ensures l.cursor == Held(k) && l.fetchNow && l.unproductivePages == k
    ensures StillInARow(log) == LookupsInARow(log) == 1 + k
  {
    if k == 0 {
      log, l := WorstBegins(step, request);
    } else {
      var log', l' := WorstGoesOn(step, request, k - 1);
      var e;
      l, e := DrainTurn(step, l', k);
      P.TurnsAppend(step, Start(WT.FRESH), Worst(request, k - 1), Quiet(Page([None], Held(k))), l', log', l, e);
      LogSnoc(log', e);
      log := log' + [e];
    }
  }

  /** A play that issues 22 lookups in a row. */
  lemma TwentyTwoInARow(request: Request, k: nat)
    requires k == 21
    ensures LookupsInARow(P.Turns(Step, Start(WT.FRESH), Worst(request, k)).log) == 22
  {
    var log, before := WorstGoesOn(Step, request, k - 1);
    var l, e := DrainTurn(Step, before, k);
    P.TurnsAppend(Step, Start(WT.FRESH), Worst(request, k - 1), Quiet(Page([None], Held(k))), before, log, l, e);
    LogSnoc(log, e);
  }
}
