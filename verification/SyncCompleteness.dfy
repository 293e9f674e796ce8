/** What a whole `sync_range` guarantees: completeness against a stable API, and
    exactly-once publication over any sequence of runs. */
module SyncCompleteness {
  import opened Storage
  import opened Publication
  import opened WindowFetch
  import opened BisectionCrawl

  // -------------------- completeness against a stable API --------------------

  function InRange(trades: seq<Record>, lo: int, hi: int): seq<Record> {
    if trades == [] then []
    else (if Inside(trades[0], lo, hi) then [trades[0]] else []) + InRange(trades[1..], lo, hi)
  }

  function Slice(all: seq<Record>, offset: nat, limit: nat): seq<Record> {
    if offset >= |all| then []
    else if offset + limit >= |all| then all[offset..]
    else all[offset..offset + limit]
  }

  function TruePage(trades: seq<Record>, lo: int, hi: int, offset: nat, limit: nat): seq<Record> {
    Slice(InRange(trades, lo, hi), offset, limit)
  }

  lemma SliceExtends(all: seq<Record>, offset: nat, limit: nat)
    requires offset <= |all|
    ensures var rows := Slice(all, offset, limit);
      if |rows| < limit then all[..offset] + rows == all
      else offset + limit <= |all| && all[..offset] + rows == all[..offset + limit]
  {}

  /** A stable API: any page it returns is the true slice of a fixed trade list.
      It may refuse a request with the cap error or a failure at any time. */
  ghost predicate Stable(api: Api, cfg: Config, trades: seq<Record>) {
    forall n: nat, lo, hi, offset: nat :: api(n, lo, hi, offset).Page? ==>
      api(n, lo, hi, offset).rows == TruePage(trades, lo, hi, offset, cfg.pageLimit)
  }

  lemma {:induction false} InRangeMembers(trades: seq<Record>, lo: int, hi: int)
    ensures forall r :: r in InRange(trades, lo, hi) <==> r in trades && Inside(r, lo, hi)
  {
    if trades != [] {
      InRangeMembers(trades[1..], lo, hi);
      assert trades == [trades[0]] + trades[1..];
    }
  }

  lemma TakePageExtends(cfg: Config, all: seq<Record>, lo: int, hi: int, offset: nat, w: Window, response: Response)
    requires offset <= |all| && w.fetched == all[..offset]
    requires response.Page? ==> response.rows == Slice(all, offset, cfg.pageLimit)
    ensures var s := TakePage(cfg, lo, hi, offset, w, response);
      && (s.Stop? && s.w.Publishes() ==> response.Page? && s.w.fetched == all)
      && (s.More? ==> offset + cfg.pageLimit <= |all| && s.w.fetched == all[..offset + cfg.pageLimit])
  {
    SliceExtends(all, offset, cfg.pageLimit);
  }

  ghost predicate PageIsTrue(api: Api, limit: nat, all: seq<Record>, lo: int, hi: int, n: nat, o: nat) {
    api(n, lo, hi, o).Page? ==> api(n, lo, hi, o).rows == Slice(all, o, limit)
  }

  ghost predicate PagesAreTrue(api: Api, limit: nat, all: seq<Record>, lo: int, hi: int) {
    forall n: nat, o: nat :: PageIsTrue(api, limit, all, lo, hi, n, o)
  }

  lemma {:induction false} FetchPagesFindsAll(
      api: Api, cfg: Config, all: seq<Record>, lo: int, hi: int, offset: nat, w: Window, last: Window)
    requires cfg.Valid() && PagesAreTrue(api, cfg.pageLimit, all, lo, hi)
    requires offset <= |all| && w.fetched == all[..offset] && last == FetchPages(api, cfg, lo, hi, offset, w)
    ensures last.Publishes() ==> last.fetched == all
    decreases cfg.maxOffset - offset
  {
    assert PageIsTrue(api, cfg.pageLimit, all, lo, hi, w.calls, offset);
    TakePageExtends(cfg, all, lo, hi, offset, w, api(w.calls, lo, hi, offset));
    var step := TakePage(cfg, lo, hi, offset, w, api(w.calls, lo, hi, offset));
    if step.More? {
      FetchPagesFindsAll(api, cfg, all, lo, hi, offset + cfg.pageLimit, step.w, last);
    }
  }

  /** A window that completes has fetched exactly the trades of its range. */
  lemma WindowFindsAll(api: Api, cfg: Config, trades: seq<Record>, r: Range, calls: nat)
    requires cfg.Valid() && Stable(api, cfg, trades)
    ensures var w := WindowOutcome(api, cfg, r.lo, r.hi, calls);
      w.Publishes() ==> forall t :: t in w.fetched <==> t in trades && Inside(t, r.lo, r.hi)
  {
    var all := InRange(trades, r.lo, r.hi);
    assert PagesAreTrue(api, cfg.pageLimit, all, r.lo, r.hi);
    FetchPagesFindsAll(
      api, cfg, all, r.lo, r.hi, 0, Window(Complete, 0, [], [], calls), WindowOutcome(api, cfg, r.lo, r.hi, calls));
    InRangeMembers(trades, r.lo, r.hi);
  }

  /** The registry holds what it started with plus exactly the trades of the
      completed windows. */
  ghost predicate Collected(c: Crawl, trades: seq<Record>, initial: set<string>) {
    && (forall k :: k in c.disk.keys ==> k in initial || exists t, i ::
          t in trades && t.identity == k && 0 <= i < |c.done| && Inside(t, c.done[i].lo, c.done[i].hi))
    && initial <= c.disk.keys
    && (forall t, i :: t in trades && 0 <= i < |c.done| && Inside(t, c.done[i].lo, c.done[i].hi) ==>
         t.identity in c.disk.keys)
  }

  lemma StepCollects(api: Api, cfg: Config, maxWindows: int, trades: seq<Record>, c: Crawl, initial: set<string>)
    requires cfg.Valid() && Stable(api, cfg, trades) && c.Live()
    requires AtRest(c.disk) && Collected(c, trades, initial)
    ensures Collected(Step(api, cfg, maxWindows, c), trades, initial)
  {
    if c.pending != [] {
      var r := c.pending[|c.pending| - 1];
      var w := WindowOutcome(api, cfg, r.lo, r.hi, c.calls);
      var d := Step(api, cfg, maxWindows, c);
      WindowPublishesAllOrNothing(api, cfg, r.lo, r.hi, c.calls, c.disk);
      WindowFindsAll(api, cfg, trades, r, c.calls);
      if w.Publishes() && c.total.windows < maxWindows {
        var n := |c.done|;
        assert d.done[n] == r && d.done[..n] == c.done;
        forall k | k in d.disk.keys && k !in initial
          ensures exists t, i ::
            t in trades && t.identity == k && 0 <= i < |d.done| && Inside(t, d.done[i].lo, d.done[i].hi)
        {
          if k in c.disk.keys {
            var t, i :| t in trades && t.identity == k && 0 <= i < |c.done| && Inside(t, c.done[i].lo, c.done[i].hi);
            assert d.done[i] == c.done[i];
          } else {
            var t :| t in w.fetched && t.identity == k;
            assert Inside(t, d.done[n].lo, d.done[n].hi);
          }
        }
        forall t, i | t in trades && 0 <= i < |d.done| && Inside(t, d.done[i].lo, d.done[i].hi)
          ensures t.identity in d.disk.keys
        {
          if i < n {
            assert d.done[i] == c.done[i];
          } else {
            assert t in w.fetched;
          }
        }
      }
    }
  }

  lemma {:induction false} CrawlCollects(api: Api, cfg: Config, maxWindows: int, trades: seq<Record>, c: Crawl,
      initial: set<string>)
    requires cfg.Valid() && Valid(c) && Stable(api, cfg, trades)
    requires AtRest(c.disk) && Collected(c, trades, initial)
    ensures Collected(RunCrawl(api, cfg, maxWindows, c), trades, initial)
    decreases Fuel(c)
  {
    if c.Live() {
      StepCollects(api, cfg, maxWindows, trades, c, initial);
      StepIsSafe(api, cfg, maxWindows, c);
      StepDecreases(api, cfg, maxWindows, c);
      CrawlCollects(api, cfg, maxWindows, trades, Step(api, cfg, maxWindows, c), initial);
    }
  }

  // ==================== sync_range ====================

  function FirstSecond(startMs: int): int { (startMs + 999) / 1000 }

  function LastSecond(endMs: int): int { endMs / 1000 }

  function StartCrawl(startMs: int, endMs: int, d: Disk, calls: nat): Crawl {
    var lo, hi := FirstSecond(startMs), LastSecond(endMs);
    if lo > hi then Crawl(NO_RESULT, [], [], d, calls)
    else Crawl(NO_RESULT.(status := Running), [Range(lo, hi)], [], d, calls)
  }

  /** sync_range once `end_ms >= start_ms` has been checked. */
  function SyncOutcome(api: Api, cfg: Config, startMs: int, endMs: int, maxWindows: int, d: Disk, calls: nat): Crawl
    requires cfg.Valid()
  {
    RunCrawl(api, cfg, maxWindows, StartCrawl(startMs, endMs, d, calls))
  }

  lemma StartCovers(startMs: int, endMs: int, d: Disk, calls: nat)
    requires FirstSecond(startMs) <= LastSecond(endMs)
    ensures var c := StartCrawl(startMs, endMs, d, calls);
      var lo, hi := FirstSecond(startMs), LastSecond(endMs);
      Valid(c) && Cover(c, lo, hi) && c.total.windows + Work(c.pending) == 2 * (hi - lo + 1) - 1
  {
    var c := StartCrawl(startMs, endMs, d, calls);
    assert c.pending[..0] == [];
  }

  /** Whatever the API does: sync_range ends, within 2 * seconds - 1 windows; on
      `complete` the settled windows tile the requested seconds; and only a smaller
      budget can run out. */
  lemma SyncCoversRange(api: Api, cfg: Config, startMs: int, endMs: int, maxWindows: int, d: Disk, calls: nat)
    requires cfg.Valid() && FirstSecond(startMs) <= LastSecond(endMs)
    ensures var e := SyncOutcome(api, cfg, startMs, endMs, maxWindows, d, calls);
      var lo, hi := FirstSecond(startMs), LastSecond(endMs);
      && !e.Live() && e.total.windows <= 2 * (hi - lo + 1) - 1
      && (e.total.status == SyncComplete ==> DoneTiles(e.done, lo, hi))
      && (e.total.status == MaxWindowsReached ==> maxWindows < 2 * (hi - lo + 1) - 1)
  {
    StartCovers(startMs, endMs, d, calls);
    CrawlCovers(
      api, cfg, maxWindows, StartCrawl(startMs, endMs, d, calls), FirstSecond(startMs), LastSecond(endMs));
  }

  /** Nothing but trades of the list with a public time in [startMs, endMs] is ever
      registered, however the sync ends. */
  lemma OnlyRangeIsPublished(api: Api, cfg: Config, trades: seq<Record>, startMs: int, endMs: int, maxWindows: int,
      d: Disk, calls: nat, k: string)
    requires cfg.Valid() && Stable(api, cfg, trades) && AtRest(d)
    requires k in SyncOutcome(api, cfg, startMs, endMs, maxWindows, d, calls).disk.keys && k !in d.keys
    ensures exists t :: t in trades && t.identity == k && t.publicMs.Some? && startMs <= t.publicMs.value <= endMs
  {
    var c := StartCrawl(startMs, endMs, d, calls);
    var e := RunCrawl(api, cfg, maxWindows, c);
    var lo, hi := FirstSecond(startMs), LastSecond(endMs);
    CrawlCollects(api, cfg, maxWindows, trades, c, d.keys);
    var t, i :| t in trades && t.identity == k && 0 <= i < |e.done| && Inside(t, e.done[i].lo, e.done[i].hi);
    DoneStaysWithin(api, cfg, maxWindows, c, lo, hi);
    assert startMs <= lo * 1000 && hi * 1000 <= endMs;
  }

  ghost predicate AllWithin(ranges: seq<Range>, lo: int, hi: int) {
    forall i :: 0 <= i < |ranges| ==> lo <= ranges[i].lo && ranges[i].hi <= hi
  }

  lemma StepStaysInside(api: Api, cfg: Config, maxWindows: int, c: Crawl, lo: int, hi: int)
    requires cfg.Valid() && c.Live() && Valid(c)
    requires AllWithin(c.pending, lo, hi) && AllWithin(c.done, lo, hi)
    ensures var d := Step(api, cfg, maxWindows, c); AllWithin(d.pending, lo, hi) && AllWithin(d.done, lo, hi)
  {
    if c.pending != [] {
      assert c.pending[|c.pending| - 1] in c.pending;
    }
  }

  lemma {:induction false} DoneStaysWithin(api: Api, cfg: Config, maxWindows: int, c: Crawl, lo: int, hi: int)
    requires cfg.Valid() && Valid(c) && AllWithin(c.pending, lo, hi) && AllWithin(c.done, lo, hi)
    ensures AllWithin(RunCrawl(api, cfg, maxWindows, c).done, lo, hi)
    decreases Fuel(c)
  {
    if c.Live() {
      StepDecreases(api, cfg, maxWindows, c);
      StepStaysInside(api, cfg, maxWindows, c, lo, hi);
      DoneStaysWithin(api, cfg, maxWindows, Step(api, cfg, maxWindows, c), lo, hi);
    }
  }

  /** Status `complete` against a stable API: every trade of the list with a
      whole-second public time in [startMs, endMs] is in the registry. */
  lemma CompleteMeansComplete(api: Api, cfg: Config, trades: seq<Record>, startMs: int, endMs: int, maxWindows: int,
      d: Disk, calls: nat)
    requires cfg.Valid() && Stable(api, cfg, trades) && AtRest(d)
    requires SyncOutcome(api, cfg, startMs, endMs, maxWindows, d, calls).total.status == SyncComplete
    ensures var keys := SyncOutcome(api, cfg, startMs, endMs, maxWindows, d, calls).disk.keys;
      forall t :: t in trades && t.publicMs.Some? && startMs <= t.publicMs.value <= endMs
        && t.publicMs.value % 1000 == 0
        ==> t.identity in keys
  {
    var c := StartCrawl(startMs, endMs, d, calls);
    var e := RunCrawl(api, cfg, maxWindows, c);
    var lo, hi := FirstSecond(startMs), LastSecond(endMs);
    if lo <= hi {
      StartCovers(startMs, endMs, d, calls);
      CrawlCovers(api, cfg, maxWindows, c, lo, hi);
    }
    CrawlCollects(api, cfg, maxWindows, trades, c, d.keys);
    forall t | t in trades && t.publicMs.Some? && startMs <= t.publicMs.value <= endMs && t.publicMs.value % 1000 == 0
      ensures t.identity in e.disk.keys
    {
      var s := t.publicMs.value / 1000;
      assert lo <= s <= hi;
      DoneTilesExactly(e.done, lo, hi, s);
      var i :| 0 <= i < |e.done| && e.done[i].lo <= s <= e.done[i].hi;
      assert Inside(t, e.done[i].lo, e.done[i].hi);
    }
  }

  lemma EmptyOrInhabited<T>(s: seq<T>)
    ensures s == [] || exists x :: x in s
  {
    if s != [] {
      assert s[0] in s;
    }
  }

  lemma StepPublishesNothing(api: Api, cfg: Config, maxWindows: int, trades: seq<Record>, c: Crawl)
    requires cfg.Valid() && c.Live() && Stable(api, cfg, trades) && AtRest(c.disk)
    requires c.pending != [] ==>
      var r := c.pending[|c.pending| - 1];
      forall t :: t in trades && Inside(t, r.lo, r.hi) ==> t.identity in c.disk.keys
    ensures Step(api, cfg, maxWindows, c).disk.lines == c.disk.lines
  {
    if c.pending != [] {
      var r := c.pending[|c.pending| - 1];
      WindowPublishesAllOrNothing(api, cfg, r.lo, r.hi, c.calls, c.disk);
      WindowFindsAll(api, cfg, trades, r, c.calls);
      var w := WindowOutcome(api, cfg, r.lo, r.hi, c.calls);
      var tail := Publish(c.disk, w).lines[|c.disk.lines|..];
      EmptyOrInhabited(tail);
    }
  }

  /** A second sync over a range whose trades are all registered publishes nothing. */
  lemma {:induction false} NothingLeftToPublish(api: Api, cfg: Config, maxWindows: int, trades: seq<Record>, c: Crawl,
      lo: int, hi: int)
    requires cfg.Valid() && Valid(c) && Stable(api, cfg, trades) && AtRest(c.disk)
    requires AllWithin(c.pending, lo, hi) && AllWithin(c.done, lo, hi)
    requires forall t :: t in trades && Inside(t, lo, hi) ==> t.identity in c.disk.keys
    ensures RunCrawl(api, cfg, maxWindows, c).disk.lines == c.disk.lines
    decreases Fuel(c)
  {
    if c.Live() {
      StepDecreases(api, cfg, maxWindows, c);
      StepIsSafe(api, cfg, maxWindows, c);
      StepStaysInside(api, cfg, maxWindows, c, lo, hi);
      StepPublishesNothing(api, cfg, maxWindows, trades, c);
      NothingLeftToPublish(api, cfg, maxWindows, trades, Step(api, cfg, maxWindows, c), lo, hi);
    }
  }

  /** Complete once, then sync the same range again from a stable API whose trades of the
      range have whole-second times: no new line, whatever the second run's outcome. */
  lemma RerunIsIdempotent(api: Api, cfg: Config, trades: seq<Record>, startMs: int, endMs: int, maxWindows: int,
      d: Disk, calls: nat)
    requires cfg.Valid() && Stable(api, cfg, trades) && AtRest(d)
    requires forall t :: t in trades && t.publicMs.Some? && startMs <= t.publicMs.value <= endMs ==>
      t.publicMs.value % 1000 == 0
    requires SyncOutcome(api, cfg, startMs, endMs, maxWindows, d, calls).total.status == SyncComplete
    ensures var first := SyncOutcome(api, cfg, startMs, endMs, maxWindows, d, calls);
      var again := SyncOutcome(api, cfg, startMs, endMs, maxWindows, first.disk, first.calls);
      again.disk.lines == first.disk.lines && again.total.newTrades == 0
  {
    var first := SyncOutcome(api, cfg, startMs, endMs, maxWindows, d, calls);
    CompleteMeansComplete(api, cfg, trades, startMs, endMs, maxWindows, d, calls);
    CrawlIsSafe(api, cfg, maxWindows, StartCrawl(startMs, endMs, d, calls));
    var c := StartCrawl(startMs, endMs, first.disk, first.calls);
    var lo, hi := FirstSecond(startMs), LastSecond(endMs);
    forall t | t in trades && Inside(t, lo, hi) ensures t.identity in first.disk.keys {
      assert startMs <= lo * 1000 && hi * 1000 <= endMs;
    }
    NothingLeftToPublish(api, cfg, maxWindows, trades, c, lo, hi);
    CrawlIsSafe(api, cfg, maxWindows, c);
  }

  // -------------------- the whole-second condition is needed --------------------

  /** A stable API that caps every window wider than one second. */
  function CapWide(trades: seq<Record>, limit: nat): Api {
    (n: nat, lo: int, hi: int, offset: nat) =>
      if lo < hi then OffsetCap else Page(TruePage(trades, lo, hi, offset, limit))
  }

  lemma {:induction false} CapWideMisses(cfg: Config, maxWindows: int, t: Record, c: Crawl)
    requires cfg.Valid() && Valid(c) && AtRest(c.disk)
    requires c.total.status in {Running, SyncComplete} && t.identity !in c.disk.keys
    requires t.publicMs.Some? && t.publicMs.value % 1000 != 0
    requires c.total.windows + Work(c.pending) <= maxWindows
    ensures var e := RunCrawl(CapWide([t], cfg.pageLimit), cfg, maxWindows, c);
      e.total.status == SyncComplete && t.identity !in e.disk.keys
    decreases Fuel(c)
  {
    var api := CapWide([t], cfg.pageLimit);
    if c.Live() {
      StepDecreases(api, cfg, maxWindows, c);
      StepIsSafe(api, cfg, maxWindows, c);
      var d := Step(api, cfg, maxWindows, c);
      if c.pending != [] {
        var r, rest := c.pending[|c.pending| - 1], c.pending[..|c.pending| - 1];
        if r.lo == r.hi {
          assert !Inside(t, r.lo, r.hi);
          assert InRange([t], r.lo, r.hi) == [];
          assert WindowOutcome(api, cfg, r.lo, r.hi, c.calls).status == Empty;
        }
      }
      CapWideMisses(cfg, maxWindows, t, d);
    }
  }

  /** Completeness fails for exactly the sub-second times: for any of them there
      is a stable API for which the crawl reports `complete` without the trade. */
  lemma SubSecondTimeCanBeMissed(cfg: Config, t: Record, startMs: int, endMs: int, maxWindows: int, d: Disk, calls: nat)
    requires cfg.Valid() && AtRest(d) && t.identity !in d.keys
    requires t.publicMs.Some? && startMs <= t.publicMs.value <= endMs && t.publicMs.value % 1000 != 0
    requires maxWindows >= 2 * (LastSecond(endMs) - FirstSecond(startMs) + 1)
    ensures exists api: Api ::
      && Stable(api, cfg, [t])
      && SyncOutcome(api, cfg, startMs, endMs, maxWindows, d, calls).total.status == SyncComplete
      && t.identity !in SyncOutcome(api, cfg, startMs, endMs, maxWindows, d, calls).disk.keys
  {
    var api := CapWide([t], cfg.pageLimit);
    assert Stable(api, cfg, [t]);
    if FirstSecond(startMs) <= LastSecond(endMs) {
      StartCovers(startMs, endMs, d, calls);
      CapWideMisses(cfg, maxWindows, t, StartCrawl(startMs, endMs, d, calls));
    }
  }

  // -------------------- any sequence of runs --------------------

  datatype Request = Request(startMs: int, endMs: int, maxWindows: int)

  /** Runs one after the other; a request with endMs < startMs raises at once. */
  function Session(api: Api, cfg: Config, requests: seq<Request>, d: Disk, calls: nat): (Disk, nat)
    requires cfg.Valid()
  {
    if requests == [] then (d, calls)
    else
      var q := requests[0];
      if q.endMs < q.startMs then Session(api, cfg, requests[1..], d, calls)
      else
        var c := SyncOutcome(api, cfg, q.startMs, q.endMs, q.maxWindows, d, calls);
        Session(api, cfg, requests[1..], c.disk, c.calls)
  }

  /** Across any sequence of sync runs against any API, the log is append-only
      and holds each registered identity exactly once. */
  lemma {:induction false} SessionsStayExactlyOnce(api: Api, cfg: Config, requests: seq<Request>, d: Disk, calls: nat)
    requires cfg.Valid() && AtRest(d)
    ensures var e := Session(api, cfg, requests, d, calls).0;
      AtRest(e) && d.lines <= e.lines && d.keys <= e.keys
  {
    if requests != [] {
      var q := requests[0];
      if q.endMs < q.startMs {
        SessionsStayExactlyOnce(api, cfg, requests[1..], d, calls);
      } else {
        var c := SyncOutcome(api, cfg, q.startMs, q.endMs, q.maxWindows, d, calls);
        CrawlIsSafe(api, cfg, q.maxWindows, StartCrawl(q.startMs, q.endMs, d, calls));
        SessionsStayExactlyOnce(api, cfg, requests[1..], c.disk, c.calls);
      }
    }
  }
}
