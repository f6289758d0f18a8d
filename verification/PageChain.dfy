/** A finite chain of pages, each naming the next by a cursor, as a scan with a bounded drain reads it. */
module PageChain {
  import opened Wrappers
  import opened Retry

  /** A page's rows, whether handing them over gets anything done, and whether the page stops the scan
      whatever it names next. */
  datatype Page<T> = Page(rows: seq<T>, unproductive: bool, stops: bool)

  /** Where a scan stands: the cursor it asks for next and the unproductive pages it just drained. */
  datatype Head = Head(cursor: Option<Cursor>, drained: nat)

  /** What one lookup asked for and what was handed over for it. */
  datatype Visit<T> = Visit(cursor: Option<Cursor>, handedOver: seq<T>)

  /** The cursor that page `i` is asked for with: none for the first page, and none names a page after the
      last. */
  function CursorOf(cursors: seq<Cursor>, i: nat): Option<Cursor> {
    if 0 < i < |cursors| then Some(cursors[i]) else None
  }

  function TrailingUnproductive<T>(pages: seq<Page<T>>): nat {
    if pages == [] || !pages[|pages| - 1].unproductive then 0
    else 1 + TrailingUnproductive(pages[..|pages| - 1])
  }

  /** No 21 unproductive pages in a row before page `i`. */
  predicate NoLongGap<T>(pages: seq<Page<T>>, i: nat)
    requires i <= |pages|
  {
    i > 0 ==> NoLongGap(pages, i - 1) && TrailingUnproductive(pages[..i]) <= 20
  }

  /** No page before page `i` stops the scan. */
  predicate NothingStops<T>(pages: seq<Page<T>>, i: nat)
    requires i <= |pages|
  {
    forall k :: 0 <= k < i ==> !pages[k].stops
  }

  /** Page `i` can be reached. */
  predicate Reachable<T>(pages: seq<Page<T>>, i: nat)
    requires i <= |pages|
  {
    NoLongGap(pages, i) && NothingStops(pages, i)
  }

  function AllRows<T>(pages: seq<Page<T>>): seq<T> {
    if pages == [] then [] else AllRows(pages[..|pages| - 1]) + pages[|pages| - 1].rows
  }

  /** Everything handed over, in order. */
  function HandedOver<T>(visits: seq<Visit<T>>): seq<T> {
    if visits == [] then [] else HandedOver(visits[..|visits| - 1]) + visits[|visits| - 1].handedOver
  }

  /** What a page does to a scan: its rows are handed over, and the scan goes on to the page it names unless the
      page stops it or 21 pages in a row were unproductive. */
  ghost predicate PageFacts<T>(h: Head, page: Page<T>, next: Option<Cursor>, h': Head, visit: Visit<T>) {
    visit == Visit(h.cursor, page.rows) &&
    h' == if next.Some? && !page.stops && (!page.unproductive || h.drained < MAX_CONSECUTIVE_EMPTY_PAGES) then
            Head(next, if page.unproductive then h.drained + 1 else 0)
          else Head(None, 0)
  }

  /** The visits that read a chain, seen only through what each page does when it is asked for by its own
      cursor. */
  ghost predicate Reading<T>(heads: seq<Head>, visits: seq<Visit<T>>, pages: seq<Page<T>>, cursors: seq<Cursor>) {
    |heads| == |pages| + 1 && |visits| == |pages| == |cursors| && heads[0] == Head(None, 0) &&
    forall i :: 0 < i <= |pages| ==> ReadingAt(heads, visits, pages, cursors, i)
  }

  ghost predicate ReadingAt<T>(heads: seq<Head>, visits: seq<Visit<T>>, pages: seq<Page<T>>, cursors: seq<Cursor>,
                               i: nat)
    requires |heads| == |pages| + 1 && |visits| == |pages| == |cursors| && 0 < i <= |pages|
  {
    visits[i - 1].cursor == heads[i - 1].cursor &&
    (heads[i - 1].cursor == CursorOf(cursors, i - 1) ==>
       PageFacts(heads[i - 1], pages[i - 1], CursorOf(cursors, i), heads[i], visits[i - 1]))
  }

  /** Every page is asked for by its own cursor. */
  ghost predicate AllPagesAsked<T>(visits: seq<Visit<T>>, cursors: seq<Cursor>) {
    forall k :: 0 <= k < |visits| ==> visits[k].cursor == CursorOf(cursors, k)
  }

  lemma PagesSnoc<T>(pages: seq<Page<T>>, i: nat)
    requires 0 < i <= |pages|
    ensures TrailingUnproductive(pages[..i])
            == if pages[i - 1].unproductive then 1 + TrailingUnproductive(pages[..i - 1]) else 0
    ensures AllRows(pages[..i]) == AllRows(pages[..i - 1]) + pages[i - 1].rows
  {
    assert pages[..i][..i - 1] == pages[..i - 1];
  }

  lemma VisitsSnoc<T>(visits: seq<Visit<T>>, i: nat)
    requires 0 < i <= |visits|
    ensures HandedOver(visits[..i]) == HandedOver(visits[..i - 1]) + visits[i - 1].handedOver
  {
    assert visits[..i][..i - 1] == visits[..i - 1];
  }

  lemma {:induction false} ReachableBefore<T>(pages: seq<Page<T>>, i: nat, j: nat)
    requires i <= j <= |pages| && Reachable(pages, j)
    ensures Reachable(pages, i)
    decreases j
  {
    if i < j {
      ReachableBefore(pages, i, j - 1);
    }
  }

  /** The first page that ends a scan which cannot reach page `n`. */
  lemma {:induction false} FirstStop<T>(pages: seq<Page<T>>, n: nat) returns (i: nat)
    requires n <= |pages| && !Reachable(pages, n)
    ensures 0 < i <= n && Reachable(pages, i - 1)
    ensures pages[i - 1].stops || TrailingUnproductive(pages[..i]) > MAX_CONSECUTIVE_EMPTY_PAGES
  {
    if n > 0 && !Reachable(pages, n - 1) {
      i := FirstStop(pages, n - 1);
    } else {
      i := n;
    }
  }

  /** Up to the first page that ends it, the scan asks for page `i` with page `i`'s own cursor, having handed
      over every row before it. */
  lemma {:induction false} ChainIsFollowed<T>(heads: seq<Head>, visits: seq<Visit<T>>, pages: seq<Page<T>>,
                                              cursors: seq<Cursor>, i: nat)
    requires Reading(heads, visits, pages, cursors) && i < |pages| && Reachable(pages, i)
    ensures HandedOver(visits[..i]) == AllRows(pages[..i])
    ensures heads[i] == Head(CursorOf(cursors, i), TrailingUnproductive(pages[..i]))
  {
    if i > 0 {
      ChainIsFollowed(heads, visits, pages, cursors, i - 1);
      assert ReadingAt(heads, visits, pages, cursors, i);
      PagesSnoc(pages, i);
      VisitsSnoc(visits, i);
    }
  }

  /** The last page ends the scan, and so does a page that stops it or completes a run of 21 unproductive
      ones. */
  lemma ChainStops<T>(heads: seq<Head>, visits: seq<Visit<T>>, pages: seq<Page<T>>, cursors: seq<Cursor>, i: nat)
    requires Reading(heads, visits, pages, cursors) && 0 < i <= |pages| && Reachable(pages, i - 1)
    requires i == |pages| || pages[i - 1].stops ||
             TrailingUnproductive(pages[..i]) > MAX_CONSECUTIVE_EMPTY_PAGES
    ensures heads[i].cursor.None? && HandedOver(visits[..i]) == AllRows(pages[..i])
  {
    ChainIsFollowed(heads, visits, pages, cursors, i - 1);
    assert ReadingAt(heads, visits, pages, cursors, i);
    PagesSnoc(pages, i);
    VisitsSnoc(visits, i);
  }

  lemma ReadToTheEnd<T>(heads: seq<Head>, visits: seq<Visit<T>>, pages: seq<Page<T>>, cursors: seq<Cursor>, k: nat)
    requires Reading(heads, visits, pages, cursors) && k < |pages| && Reachable(pages, |pages| - 1)
    ensures visits[k].cursor == CursorOf(cursors, k)
  {
    ReachableBefore(pages, k, |pages| - 1);
    ChainIsFollowed(heads, visits, pages, cursors, k);
    assert ReadingAt(heads, visits, pages, cursors, k + 1);
  }

  lemma NotReadToTheEnd<T>(heads: seq<Head>, visits: seq<Visit<T>>, pages: seq<Page<T>>, cursors: seq<Cursor>)
    returns (k: nat)
    requires Reading(heads, visits, pages, cursors) && pages != [] && !Reachable(pages, |pages| - 1)
    ensures k < |pages| && visits[k].cursor != CursorOf(cursors, k)
  {
    k := FirstStop(pages, |pages| - 1);
    ChainStops(heads, visits, pages, cursors, k);
    assert ReadingAt(heads, visits, pages, cursors, k + 1);
  }

  /** A chain is read to its end, each page by its own cursor, exactly when before the last page no page stops
      the scan and 21 unproductive pages never come in a row; and then every row has been handed over once and
      in order, and the scan has ended. */
  lemma ReadingIsExact<T>(heads: seq<Head>, visits: seq<Visit<T>>, pages: seq<Page<T>>, cursors: seq<Cursor>)
    requires Reading(heads, visits, pages, cursors) && pages != []
    ensures AllPagesAsked(visits, cursors) <==>
            NoLongGap(pages, |pages| - 1) && NothingStops(pages, |pages| - 1)
    ensures AllPagesAsked(visits, cursors) ==> HandedOver(visits) == AllRows(pages) && heads[|pages|].cursor.None?
  {
    if Reachable(pages, |pages| - 1) {
      forall k | 0 <= k < |visits| ensures visits[k].cursor == CursorOf(cursors, k) {
        ReadToTheEnd(heads, visits, pages, cursors, k);
      }
      ChainStops(heads, visits, pages, cursors, |pages|);
      assert pages[..|pages|] == pages && visits[..|visits|] == visits;
    } else {
      var k := NotReadToTheEnd(heads, visits, pages, cursors);
    }
  }
}
