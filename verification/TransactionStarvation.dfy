/** Which pages a transaction scan reaches. */
module TransactionStarvation {
  import opened Wrappers
  import opened Retry
  import opened PageRows
  import opened TransactionHandler
  import opened TransactionScan
  import opened TransactionScanProperties
  import PC = PageChain
  import P = Plays
  import WT = WorkTrigger

  /** A page read without a lookup error, and the next page it names; an empty cursor names none. */
  ghost predicate IsPage(r: Round, next: Option<Cursor>) {
    r.response.Page? && next == NextOf(r) && r.ack.Some?
  }

  function NextOf(r: Round): Option<Cursor> {
    if !r.response.Page? || r.response.nextCursor == Some("") then None else r.response.nextCursor
  }

  ghost predicate IsPageAt(rounds: seq<Round>, cursors: seq<Cursor>, i: nat)
    requires i < |rounds|
  {
    IsPage(rounds[i], PC.CursorOf(cursors, i + 1))
  }

  /** A finite chain of such pages; the first is asked for without a cursor and the last names none. */
  ghost predicate IsChain(rounds: seq<Round>, cursors: seq<Cursor>) {
    |cursors| == |rounds| && forall i :: 0 <= i < |rounds| ==> IsPageAt(rounds, cursors, i)
  }

  function RowsOf(r: Round): seq<Request> {
    if r.response.Page? then Convertible(r.response.rows) else []
  }

  predicate Unproductive(r: Round) {
    RowsOf(r) == [] || r.ack == Some(Skipped)
  }

  /** A page without any row stops the scan, and so does a failed submission, or an unproductive page that names
      the cursor it was asked for with. */
  predicate Stops(r: Round, cursor: Option<Cursor>) {
    (r.response.Page? && r.response.rows == []) || (RowsOf(r) != [] && r.ack == Some(SubmissionFailed)) ||
    (Unproductive(r) && NextOf(r) == cursor)
  }

  /** A page is unproductive when nothing of it is submitted. */
  function PageOf(r: Round, cursor: Option<Cursor>): PC.Page<Request> {
    PC.Page(RowsOf(r), Unproductive(r), Stops(r, cursor))
  }

  function HeadOf(l: Loop): PC.Head {
    PC.Head(l.cursor, l.unproductivePages)
  }

  function VisitOf(e: Entry): PC.Visit<Request> {
    PC.Visit(e.cursor, if e.delivery.Some? then e.delivery.value.batch else [])
  }

  function Pages(rounds: seq<Round>, cursors: seq<Cursor>): seq<PC.Page<Request>> {
    seq(|rounds|, i requires 0 <= i < |rounds| => PageOf(rounds[i], PC.CursorOf(cursors, i)))
  }

  function Heads(loops: seq<Loop>): seq<PC.Head> {
    seq(|loops|, i requires 0 <= i < |loops| => HeadOf(loops[i]))
  }

  function Visits(log: seq<Entry>): seq<PC.Visit<Request>> {
    seq(|log|, i requires 0 <= i < |log| => VisitOf(log[i]))
  }

  /** What a turn does to a page of the chain. */
  ghost predicate TurnReads(turn: Turn, l: Loop, r: Round, next: Option<Cursor>) {
    turn.Turned? && PC.PageFacts(HeadOf(l), PageOf(r, l.cursor), next, HeadOf(turn.loop), VisitOf(turn.entry))
  }

  lemma EmptyScanEnds(l: Loop, e: Entry, freshLookup: bool, retryRequired: bool, r: Round)
    requires r.ack.Some? && e.delivery.None?
    ensures var turn := EndEmptyScan(l, e, freshLookup, retryRequired, r);
            turn.Turned? && HeadOf(turn.loop) == PC.Head(None, 0) && VisitOf(turn.entry) == PC.Visit(e.cursor, [])
  {
  }

  lemma DrainedPage(l: Loop, e: Entry, r: Round, next: Option<Cursor>)
    requires IsPage(r, next) && e.cursor == l.cursor && e.delivery.None?
    requires e.lookup == Rows([], next) == GetPendingTransactions(r.response)
    requires ShouldContinueEmptyDrain(l.cursor, next, l.unproductivePages)
    ensures TurnReads(AfterLookup(l, e, r), l, r, next)
  {
  }

  lemma EmptyPageTurn(l: Loop, r: Round, next: Option<Cursor>)
    requires IsPage(r, next) && RowsOf(r) == []
    ensures TurnReads(Step(l, r), l, r, next)
  {
    var (l1, e) := LookedUp(l, r);
    if e.lookup.NoTransactions? {
      EmptyScanEnds(l1, e, l.cursor.None?, l.retryRequired, r);
    } else if ShouldContinueEmptyDrain(l.cursor, next, l.unproductivePages) {
      DrainedPage(l1, e, r, next);
    } else {
      EmptyScanEnds(l1, e, l.cursor.None?, l.retryRequired || next.Some?, r);
    }
  }

  lemma LastFullPage(l: Loop, e: Entry, r: Round)
    requires IsPage(r, None) && RowsOf(r) != [] && e.cursor == l.cursor
    ensures TurnReads(AfterRows(l, e, RowsOf(r), None, r), l, r, None)
  {
  }

  lemma SkippedFullPage(l: Loop, e: Entry, r: Round, next: Option<Cursor>)
    requires IsPage(r, next) && next.Some? && RowsOf(r) != [] && e.cursor == l.cursor
    requires r.ack.value.Skipped?
    ensures TurnReads(AfterRows(l, e, RowsOf(r), next, r), l, r, next)
  {
  }

  lemma FailedFullPage(l: Loop, e: Entry, r: Round, next: Option<Cursor>)
    requires IsPage(r, next) && next.Some? && RowsOf(r) != [] && e.cursor == l.cursor
    requires r.ack.value.SubmissionFailed?
    ensures TurnReads(AfterRows(l, e, RowsOf(r), next, r), l, r, next)
  {
  }

  lemma FullPage(l: Loop, e: Entry, r: Round, next: Option<Cursor>)
    requires IsPage(r, next) && RowsOf(r) != [] && e.cursor == l.cursor
    ensures TurnReads(AfterRows(l, e, RowsOf(r), next, r), l, r, next)
  {
    if next.None? {
      LastFullPage(l, e, r);
    } else if r.ack.value.Skipped? {
      SkippedFullPage(l, e, r, next);
    } else if r.ack.value.SubmissionFailed? {
      FailedFullPage(l, e, r, next);
    }
  }

  lemma PageTurn(l: Loop, r: Round, next: Option<Cursor>)
    requires IsPage(r, next)
    ensures TurnReads(Step(l, r), l, r, next)
  {
    if RowsOf(r) == [] {
      EmptyPageTurn(l, r, next);
    } else {
      var (l1, e) := LookedUp(l, r);
      FullPage(l1, e, r, next);
    }
  }

  /** A chain of pages read by a play from its turn `a` on, where a fresh lookup is due. */
  ghost predicate ReadsChain(trigger: WT.TriggerState, rounds: seq<Round>, loops: seq<Loop>, log: seq<Entry>, a: nat,
                             chain: seq<Round>, cursors: seq<Cursor>)
  {
    IsPlay(trigger, rounds, loops, log) && a + |chain| <= |log| && chain == rounds[a..a + |chain|] &&
    IsChain(chain, cursors) && loops[a].cursor.None?
  }

  lemma TurnOfPage(l: Loop, r: Round, next: Option<Cursor>, l': Loop, e: Entry)
    requires IsPage(r, next) && Step(l, r) == P.Turned(l', e)
    ensures PC.PageFacts(HeadOf(l), PageOf(r, l.cursor), next, HeadOf(l'), VisitOf(e))
  {
    PageTurn(l, r, next);
  }

  lemma ChainTurn(trigger: WT.TriggerState, rounds: seq<Round>, loops: seq<Loop>, log: seq<Entry>, a: nat,
                  chain: seq<Round>, cursors: seq<Cursor>, i: nat)
    requires ReadsChain(trigger, rounds, loops, log, a, chain, cursors) && i < |chain|
    ensures log[a + i].cursor == loops[a + i].cursor
    ensures loops[a + i].cursor == PC.CursorOf(cursors, i) ==>
              PC.PageFacts(HeadOf(loops[a + i]), PageOf(chain[i], loops[a + i].cursor), PC.CursorOf(cursors, i + 1),
                           HeadOf(loops[a + i + 1]), VisitOf(log[a + i]))
  {
    TurnFactsAt(trigger, rounds, loops, log, a + i);
    if loops[a + i].cursor == PC.CursorOf(cursors, i) {
      assert rounds[a + i] == chain[i] && IsPageAt(chain, cursors, i);
      assert P.IsTurn(Step, rounds, loops, log, a + i);
      TurnOfPage(loops[a + i], chain[i], PC.CursorOf(cursors, i + 1), loops[a + i + 1], log[a + i]);
    }
  }

  lemma ReadingStep(heads: seq<PC.Head>, visits: seq<PC.Visit<Request>>, pages: seq<PC.Page<Request>>,
                    cursors: seq<Cursor>, i: nat, l: Loop, l': Loop, e: Entry, r: Round)
    requires |heads| == |pages| + 1 && |visits| == |pages| == |cursors| && i < |pages|
    requires heads[i] == HeadOf(l) && heads[i + 1] == HeadOf(l') && visits[i] == VisitOf(e)
    requires pages[i] == PageOf(r, PC.CursorOf(cursors, i))
    requires e.cursor == l.cursor
    requires l.cursor == PC.CursorOf(cursors, i) ==>
               PC.PageFacts(HeadOf(l), PageOf(r, l.cursor), PC.CursorOf(cursors, i + 1), HeadOf(l'), VisitOf(e))
    ensures PC.ReadingAt(heads, visits, pages, cursors, i + 1)
  {
  }

  lemma ChainIsReading(trigger: WT.TriggerState, rounds: seq<Round>, loops: seq<Loop>, log: seq<Entry>, a: nat,
                       chain: seq<Round>, cursors: seq<Cursor>)
    returns (heads: seq<PC.Head>, visits: seq<PC.Visit<Request>>)
    requires ReadsChain(trigger, rounds, loops, log, a, chain, cursors)
    ensures PC.Reading(heads, visits, Pages(chain, cursors), cursors)
    ensures visits == Visits(log[a..a + |chain|]) && heads[|chain|] == HeadOf(loops[a + |chain|])
  {
    LookupsArePaced(trigger, rounds, loops, log, a);
    var pages := Pages(chain, cursors);
    heads, visits := Heads(loops[a..a + |chain| + 1]), Visits(log[a..a + |chain|]);
    forall i | 0 < i <= |chain| ensures PC.ReadingAt(heads, visits, pages, cursors, i) {
      var k := i - 1;
      ChainTurn(trigger, rounds, loops, log, a, chain, cursors, k);
      ReadingStep(heads, visits, pages, cursors, k, loops[a + k], loops[a + k + 1], log[a + k], chain[k]);
    }
  }

  /** Every row the chain's pages list, convertible or not. */
  function ListedRows(chain: seq<Round>): seq<Option<Request>> {
    if chain == [] then []
    else
      var last := chain[|chain| - 1];
      ListedRows(chain[..|chain| - 1]) + if last.response.Page? then last.response.rows else []
  }

  lemma {:induction false} AllRowsExact(chain: seq<Round>, cursors: seq<Cursor>, n: nat)
    requires n <= |chain|
    ensures PC.AllRows(Pages(chain, cursors)[..n]) == Convertible(ListedRows(chain[..n]))
  {
    if n > 0 {
      AllRowsExact(chain, cursors, n - 1);
      PC.PagesSnoc(Pages(chain, cursors), n);
      assert chain[..n][..n - 1] == chain[..n - 1];
      var page := chain[n - 1].response;
      ConvertibleConcat(ListedRows(chain[..n - 1]), if page.Page? then page.rows else []);
    }
  }

  lemma AllRowsConvert(chain: seq<Round>, cursors: seq<Cursor>)
    ensures IsConverted(ListedRows(chain), PC.AllRows(Pages(chain, cursors)))
  {
    AllRowsExact(chain, cursors, |chain|);
    assert Pages(chain, cursors)[..|chain|] == Pages(chain, cursors) && chain[..|chain|] == chain;
    var indices := ConvertibleExact(ListedRows(chain));
  }

  /** A finite chain of pages is read to its end, each page by its own cursor, exactly when before the last page
      there is no page without any row, no failed submission, no unproductive page that names its own cursor, and
      no run of 21 unproductive pages; and then every convertible row has been handed over once and in order, and
      the scan has ended. */
  lemma NoPageIsStarved(trigger: WT.TriggerState, rounds: seq<Round>, loops: seq<Loop>, log: seq<Entry>, a: nat,
                        chain: seq<Round>, cursors: seq<Cursor>)
    requires ReadsChain(trigger, rounds, loops, log, a, chain, cursors) && chain != []
    ensures PC.AllPagesAsked(Visits(log[a..a + |chain|]), cursors) <==>
            PC.NoLongGap(Pages(chain, cursors), |chain| - 1) && PC.NothingStops(Pages(chain, cursors), |chain| - 1)
    ensures PC.AllPagesAsked(Visits(log[a..a + |chain|]), cursors) ==>
              IsConverted(ListedRows(chain), PC.HandedOver(Visits(log[a..a + |chain|]))) &&
              loops[a + |chain|].cursor == None
  {
    var heads, visits := ChainIsReading(trigger, rounds, loops, log, a, chain, cursors);
    PC.ReadingIsExact(heads, visits, Pages(chain, cursors), cursors);
    AllRowsConvert(chain, cursors);
  }
}
