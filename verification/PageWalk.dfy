/** The capped walk over Apollo result pages behind a streamed search. */
module PageWalk {
  import opened Options

  const PER_PAGE := 100
  const MAX_SEARCH_ENTRIES := 100_000
  const APOLLO_MAX_PAGE := 500

  /** The counts an Apollo answer may carry, nested under `pagination` or at the top; zero counts as absent. */
  datatype Pagination = Pagination(
    nestedEntries: Option<int>, topEntries: Option<int>, nestedPages: Option<int>, topPages: Option<int>)

  datatype Fetch =
    | Page(ids: seq<string>, pagination: Pagination, resultCount: int)
    | PageCap                     // 422 over the paging threshold
    | Failure(detail: string)

  datatype Event =
    | Ids(page: int, totalPages: int, ids: seq<string>, stored: nat)
    | Complete(total: nat, pages: int, cancelled: bool, partialReason: Option<string>)
    | Error(detail: string)

  function Truthy(x: Option<int>, y: int): int { if x.Some? && x.value != 0 then x.value else y }

  /** How many results there are, going by the answer: the nested count, else the one at the top, else what it holds. */
  function Entries(p: Pagination, resultCount: int): (n: int)
    ensures n == 0 ==> resultCount == 0 && forall x | x in {p.nestedEntries, p.topEntries} :: x.None? || x.value == 0
    ensures n != 0 ==> p.nestedEntries == Some(n) || p.topEntries == Some(n) || n == resultCount
    ensures p.nestedEntries.Some? && p.nestedEntries.value != 0 ==> p.nestedEntries == Some(n)
  {
    Truthy(p.nestedEntries, Truthy(p.topEntries, resultCount))
  }

  /** Apollo's own page count, before any clamping: a count it gives wins, else there are just enough pages. */
  function ReportedPages(p: Pagination, resultCount: int): (n: int)
    ensures n >= 1
    ensures p.nestedPages.Some? && p.nestedPages.value > 0 ==> n == p.nestedPages.value
    ensures (p.nestedPages.None? || p.nestedPages.value == 0) && p.topPages.Some? && p.topPages.value > 0 ==>
      n == p.topPages.value
    ensures (p.nestedPages.None? || p.nestedPages.value == 0) && p.topPages.None? && Entries(p, resultCount) > 0 ==>
      (n - 1) * PER_PAGE < Entries(p, resultCount) <= n * PER_PAGE
    ensures n > 1 ==>
      p.nestedPages == Some(n) || p.topPages == Some(n) || (n - 1) * PER_PAGE < Entries(p, resultCount) <= n * PER_PAGE
  {
    var entries := Entries(p, resultCount);
    var explicit := if p.nestedPages.Some? && p.nestedPages.value != 0 then p.nestedPages else p.topPages;
    if explicit.Some? then (if explicit.value < 1 then 1 else explicit.value)
    else if entries > 0 then (entries + PER_PAGE - 1) / PER_PAGE
    else 1
  }

  /** The page count shown, clamped to what Apollo lets anyone page, and whether there is more than that. */
  function TotalPages(p: Pagination, resultCount: int): (r: (int, bool))
    ensures 1 <= r.0 <= APOLLO_MAX_PAGE && (r.1 <==> r.0 < ReportedPages(p, resultCount))
  {
    var n := ReportedPages(p, resultCount);
    (if n < APOLLO_MAX_PAGE then n else APOLLO_MAX_PAGE, n > APOLLO_MAX_PAGE)
  }

  /** Apollo genuinely has nothing after page `p`. */
  predicate Exhausted(f: Fetch, p: int) {
    f.Page? && (f.ids == [] || f.resultCount < PER_PAGE || ReportedPages(f.pagination, f.resultCount) <= p)
  }

  function Published(events: seq<Event>): seq<string> {
    if events == [] then []
    else Published(events[..|events| - 1]) + if events[|events| - 1].Ids? then events[|events| - 1].ids else []
  }

  lemma PublishedSnoc(events: seq<Event>, e: Event)
    ensures Published(events + [e]) == Published(events) + if e.Ids? then e.ids else []
  {
    assert (events + [e])[..|events|] == events;
  }

  function Start(page: Option<int>): int {
    var p := Truthy(page, 1);
    if p < 1 then 1 else p
  }

  /** A page that was published and led on to the next one. */
  predicate LedOn(f: Fetch, p: int) {
    f.Page? && f.ids != [] && !Exhausted(f, p) && p < APOLLO_MAX_PAGE
  }

  predicate PublishedPage(e: Event, p: int, f: Fetch) {
    && e.Ids? && e.page == p && f.Page? && e.ids != [] && e.ids <= f.ids
    && (e.ids == f.ids || e.stored == MAX_SEARCH_ENTRIES)
  }

  predicate AtMostPerPage(f: Fetch) { f.Page? ==> |f.ids| <= PER_PAGE }

  /** What was fetched and published so far: ascending pages, each published from its own answer, every page but
      perhaps the last one leading on. */
  ghost predicate Walked(start: int, fetched: seq<int>, events: seq<Event>, fetch: int -> Fetch) {
    && |events| <= |fetched| <= |events| + 1
    && (forall i | 0 <= i < |fetched| :: fetched[i] == start + i <= APOLLO_MAX_PAGE)
    && (forall i | 0 <= i < |fetched| - 1 :: LedOn(fetch(fetched[i]), fetched[i]))
    && (forall i | 0 <= i < |events| :: PublishedPage(events[i], fetched[i], fetch(fetched[i])))
    && |Published(events)| <= MAX_SEARCH_ENTRIES
    && ((forall i | 0 <= i < |fetched| :: AtMostPerPage(fetch(fetched[i]))) ==>
          |Published(events)| <= PER_PAGE * |events|)
  }

  /** All pages so far led on. */
  ghost predicate Going(start: int, fetched: seq<int>, events: seq<Event>, fetch: int -> Fetch) {
    && Walked(start, fetched, events, fetch)
    && |fetched| == |events|
    && forall i | 0 <= i < |fetched| :: LedOn(fetch(fetched[i]), fetched[i])
  }

  lemma FetchedMore(start: int, fetched: seq<int>, events: seq<Event>, fetch: int -> Fetch, p: int)
    requires Going(start, fetched, events, fetch) && p == start + |fetched| <= APOLLO_MAX_PAGE
    ensures Walked(start, fetched + [p], events, fetch)
  {
    if forall i | 0 <= i < |fetched + [p]| :: AtMostPerPage(fetch((fetched + [p])[i])) {
      forall i | 0 <= i < |fetched| ensures AtMostPerPage(fetch(fetched[i])) {
        assert (fetched + [p])[i] == fetched[i];
      }
    }
  }

  lemma PublishedMore(start: int, fetched: seq<int>, events: seq<Event>, fetch: int -> Fetch, p: int, e: Event)
    requires Going(start, fetched, events, fetch) && p == start + |fetched| <= APOLLO_MAX_PAGE
    requires PublishedPage(e, p, fetch(p)) && |Published(events)| + |e.ids| <= MAX_SEARCH_ENTRIES
    ensures Walked(start, fetched + [p], events + [e], fetch)
  {
    FetchedMore(start, fetched, events, fetch, p);
    PublishedSnoc(events, e);
    if forall i | 0 <= i < |fetched + [p]| :: AtMostPerPage(fetch((fetched + [p])[i])) {
      assert (fetched + [p])[|fetched|] == p;
      assert |e.ids| <= PER_PAGE;
    }
  }

  /** Why the walk stopped after the answer `f` for page `p`, going by the terminal event. */
  predicate Justified(last: Event, p: int, f: Fetch)
    requires last.Complete?
  {
    if last.partialReason.None? then Exhausted(f, p)
    else
      || f.PageCap?
      || last.total == MAX_SEARCH_ENTRIES
      || (p == APOLLO_MAX_PAGE && f.Page? && ReportedPages(f.pagination, f.resultCount) > APOLLO_MAX_PAGE)
  }

  /** Publishes what page `p` adds, cut off at the overall limit. */
  method PublishPage(ghost start: int, ghost fetched: seq<int>, events: seq<Event>, fetch: int -> Fetch, p: int,
                     totalPages: int, totalIds: nat)
    returns (more: seq<Event>, total: nat)
    requires Going(start, fetched, events, fetch) && p == start + |fetched| <= APOLLO_MAX_PAGE && fetch(p).Page?
    requires totalIds == |Published(events)| < MAX_SEARCH_ENTRIES
    ensures Walked(start, fetched + [p], more, fetch) && total == |Published(more)| <= MAX_SEARCH_ENTRIES
    ensures if fetch(p).ids == [] then more == events && total == totalIds else |more| == |events| + 1
    ensures fetch(p).ids != [] ==> more == events + [Ids(p, totalPages, more[|events|].ids, total)]
  {
    var f := fetch(p);
    if f.ids == [] {
      FetchedMore(start, fetched, events, fetch, p);
      return events, totalIds;
    }
    var ids := f.ids;
    var remaining := MAX_SEARCH_ENTRIES - totalIds;
    if |ids| > remaining { ids := ids[..remaining]; }
    total := totalIds + |ids|;
    var e := Ids(p, totalPages, ids, total);
    PublishedMore(start, fetched, events, fetch, p, e);
    PublishedSnoc(events, e);
    more := events + [e];
  }

  /** What a page leads to; `Halted` by a cancellation before it was fetched. */
  datatype Turn = Halted | Failed(detail: string) | Stopped(partialReason: Option<string>) | Onward

  /** Once a job is cancelled it stays so. */
  ghost predicate Lasting(cancelled: nat -> bool) { forall m: nat, n: nat | m <= n && cancelled(m) :: cancelled(n) }

  /** The cancellation was looked for twice before page `p` was fetched, once after that and once after publishing. */
  method OnePage(ghost start: int, ghost fetched: seq<int>, events: seq<Event>, fetch: int -> Fetch,
                 cancelled: nat -> bool, p: int, totalIds: nat, tick: nat)
    returns (turn: Turn, more: seq<Event>, total: nat, now: nat)
    requires Going(start, fetched, events, fetch) && p == start + |fetched| <= APOLLO_MAX_PAGE
    requires totalIds == |Published(events)| < MAX_SEARCH_ENTRIES
    ensures turn.Halted? ==> tick <= now <= tick + 1 && cancelled(now) && more == events && total == totalIds
    ensures cancelled(tick) ==> turn.Halted?
    ensures !turn.Halted? ==>
      Walked(start, fetched + [p], more, fetch) && total == |Published(more)| && tick + 2 <= now <= tick + 3
    ensures !turn.Halted? ==> (turn.Failed? <==> fetch(p).Failure?)
    ensures turn.Stopped? ==> cancelled(now) || Justified(Complete(total, p, false, turn.partialReason), p, fetch(p))
    ensures turn.Onward? ==>
      LedOn(fetch(p), p) && |more| == |events| + 1 && now == tick + 3 && !cancelled(now) && total < MAX_SEARCH_ENTRIES
  {
    more, total, now := events, totalIds, tick;
    if cancelled(now) { return Halted, more, total, now; }      // before the page is paid for
    now := now + 1;
    if cancelled(now) { return Halted, more, total, now; }      // released from a pause by a cancel
    FetchedMore(start, fetched, events, fetch, p);
    var f := fetch(p);
    now := now + 1;
    if f.Failure? { return Failed(f.detail), more, total, now; }
    if f.PageCap? { return Stopped(Some("apollo_page_cap")), more, total, now; }
    if cancelled(now) { return Stopped(None), more, total, now; }
    var (totalPages, moreThanCap) := TotalPages(f.pagination, f.resultCount);
    more, total := PublishPage(start, fetched, events, fetch, p, totalPages, totalIds);
    now := now + 1;
    if cancelled(now) || f.ids == [] || f.resultCount < PER_PAGE { return Stopped(None), more, total, now; }
    if total >= MAX_SEARCH_ENTRIES { return Stopped(Some("max_entries")), more, total, now; }
    if p >= totalPages {
      return Stopped(if moreThanCap then Some("apollo_page_cap") else None), more, total, now;
    }
    return Onward, more, total, now;
  }

  /** The walk starts from the page asked for, or from the first if that is missing, zero or negative. */
  predicate FromPage(page: Option<int>, fetched: seq<int>) {
    fetched != [] ==> fetched[0] == if page.Some? && page.value > 0 then page.value else 1
  }

  /** Apollo has more after page `p`: it gave something, a full page of 100, and counts more pages. */
  predicate GoesOn(f: Fetch, p: int) {
    f.Page? && f.ids != [] && f.resultCount >= 100 && ReportedPages(f.pagination, f.resultCount) > p
  }

  /** Walks pages until Apollo runs out, a cap is reached or the job is cancelled. `fetch` answers for each page and
      `cancelled` says whether the cancellation has landed by the n-th time the walk looks. Returns what was published
      and the pages fetched. */
  method RunPagedSearch(page: Option<int>, fetch: int -> Fetch, cancelled: nat -> bool)
    returns (events: seq<Event>, last: Event, fetched: seq<int>)
    requires Lasting(cancelled)
    ensures Walked(Start(page), fetched, events, fetch)
    ensures last.Error? || (last.Complete? && last.total == |Published(events)|)
    ensures last.Error? <==> fetched != [] && fetch(fetched[|fetched| - 1]).Failure?
    ensures last.Complete? && !last.cancelled && fetched != [] ==>
      Justified(last, fetched[|fetched| - 1], fetch(fetched[|fetched| - 1]))
    ensures FromPage(page, fetched) && forall i | 0 <= i < |fetched| - 1 :: GoesOn(fetch(fetched[i]), fetched[i])
    ensures last.Complete? && !last.cancelled && last.partialReason.None? && fetched != [] ==>
      fetch(fetched[|fetched| - 1]).Page? && !GoesOn(fetch(fetched[|fetched| - 1]), fetched[|fetched| - 1])
    ensures last.Complete? && last.cancelled ==> cancelled(3 * |fetched| + 1)
    ensures last.Complete? && !last.cancelled ==> fetched == [] || !cancelled(3 * |fetched| - 1)
    ensures cancelled(0) && Start(page) <= APOLLO_MAX_PAGE ==> fetched == [] && last.Complete? && last.cancelled
    ensures last.Complete? && !last.cancelled ==> (fetched == [] <==> Start(page) > APOLLO_MAX_PAGE)
    ensures Start(page) > APOLLO_MAX_PAGE ==> last.Complete? && last.total == 0 && last.partialReason == None
  {
    events, fetched := [], [];
    var totalIds, partialReason: Option<string>, tick := 0, None, 0;
    var p := Start(page);
    while p <= APOLLO_MAX_PAGE && totalIds < MAX_SEARCH_ENTRIES
      invariant p == Start(page) + |fetched| && Going(Start(page), fetched, events, fetch)
      invariant p <= APOLLO_MAX_PAGE || fetched == []
      invariant totalIds == |Published(events)| < MAX_SEARCH_ENTRIES
      invariant partialReason == None && tick == 3 * |fetched| && (fetched != [] ==> !cancelled(tick))
      decreases APOLLO_MAX_PAGE - p
    {
      var turn;
      turn, events, totalIds, tick := OnePage(Start(page), fetched, events, fetch, cancelled, p, totalIds, tick);
      if turn.Halted? { break; }
      fetched := fetched + [p];
      if turn.Failed? { return events, Error(turn.detail), fetched; }
      if turn.Stopped? {
        partialReason := turn.partialReason;
        break;
      }
      p := p + 1;
    }
    var isCancelled := cancelled(tick);
    last := Complete(totalIds, p, isCancelled, if isCancelled then None else partialReason);
  }

  /** With at most a full page of ids per fetch a walk publishes at most Apollo's ceiling, in at most 500 fetches. */
  lemma WalkWithinCeiling(start: int, fetched: seq<int>, events: seq<Event>, fetch: int -> Fetch)
    requires start >= 1 && Walked(start, fetched, events, fetch)
    ensures |fetched| <= 500
    ensures (forall i | 0 <= i < |fetched| :: AtMostPerPage(fetch(fetched[i]))) ==> |Published(events)| <= 50_000
  {
    if fetched != [] {
      assert fetched[|fetched| - 1] == start + (|fetched| - 1);
    }
  }
}
