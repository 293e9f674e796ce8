/** When a sync completes, what every other end of a sync means, and what its
    counters count. */
module SyncLiveness {
  import opened Options
  import opened Storage
  import opened Publication
  import opened WindowFetch
  import opened BisectionCrawl
  import opened SyncCompleteness

  // -------------------- what each status means, against any API --------------------

  /** The window of r asked for after n requests ends with this status, and nothing
      is asked after it. */
  ghost predicate EndsWith(api: Api, cfg: Config, r: Range, n: nat, status: Status, calls: nat)
    requires cfg.Valid()
  {
    var w := WindowOutcome(api, cfg, r.lo, r.hi, n);
    w.status == status && w.calls == calls
  }

  /** The last window of the crawl was one of [lo, hi] and ended with this status. */
  ghost predicate LastWindow(api: Api, cfg: Config, lo: int, hi: int, c: Crawl, status: Status)
    requires cfg.Valid()
  {
    exists r: Range, n: nat :: lo <= r.lo <= r.hi <= hi && EndsWith(api, cfg, r, n, status, c.calls)
  }

  /** The same, and that window was one second wide. */
  ghost predicate LastSecondWindow(api: Api, cfg: Config, lo: int, hi: int, c: Crawl, status: Status)
    requires cfg.Valid()
  {
    exists s: int, n: nat :: lo <= s <= hi && EndsWith(api, cfg, Range(s, s), n, status, c.calls)
  }

  ghost predicate Explained(api: Api, cfg: Config, maxWindows: int, lo: int, hi: int, c: Crawl)
    requires cfg.Valid()
  {
    match c.total.status
    case Running => true
    case SyncComplete => c.pending == []
    case MaxWindowsReached => c.pending != [] && c.total.windows >= maxWindows
    case UnsplittableSecond => LastSecondWindow(api, cfg, lo, hi, c, OffsetLimitReached)
    case SyncRaised => LastWindow(api, cfg, lo, hi, c, Raised)
    case WindowFailed(s) => s in {TimestampInvalid, TimeParamsNotHonored} && LastWindow(api, cfg, lo, hi, c, s)
  }

  lemma AdvanceIsExplained(api: Api, cfg: Config, maxWindows: int, lo: int, hi: int, c: Crawl, r: Range, w: Window)
    requires cfg.Valid() && c.Live() && c.pending != [] && r == c.pending[|c.pending| - 1]
    requires lo <= r.lo <= r.hi <= hi && w == WindowOutcome(api, cfg, r.lo, r.hi, c.calls)
    ensures Explained(api, cfg, maxWindows, lo, hi, Advance(c, w))
  {
    assert EndsWith(api, cfg, r, c.calls, w.status, w.calls);
    if r.lo == r.hi {
      assert r == Range(r.lo, r.lo);
    }
  }

  lemma {:induction false} CrawlIsExplained(api: Api, cfg: Config, maxWindows: int, lo: int, hi: int, c: Crawl)
    requires cfg.Valid() && Valid(c) && AllWithin(c.pending, lo, hi) && AllWithin(c.done, lo, hi)
    requires Explained(api, cfg, maxWindows, lo, hi, c)
    ensures Explained(api, cfg, maxWindows, lo, hi, RunCrawl(api, cfg, maxWindows, c))
    decreases Fuel(c)
  {
    if c.Live() {
      StepDecreases(api, cfg, maxWindows, c);
      StepStaysInside(api, cfg, maxWindows, c, lo, hi);
      if c.pending != [] {
        var r := c.pending[|c.pending| - 1];
        assert r in c.pending;
        AdvanceIsExplained(api, cfg, maxWindows, lo, hi, c, r, WindowOutcome(api, cfg, r.lo, r.hi, c.calls));
      }
      CrawlIsExplained(api, cfg, maxWindows, lo, hi, Step(api, cfg, maxWindows, c));
    }
  }

  /** However a sync ends its status says why: nothing is pending, the budget is used
      up with work left, or the last window fetched, one of the requested seconds, ended
      that way; the cap is fatal only in a window of one second. */
  lemma StatusSaysWhy(api: Api, cfg: Config, startMs: int, endMs: int, maxWindows: int, d: Disk, calls: nat)
    requires cfg.Valid()
    ensures var e := SyncOutcome(api, cfg, startMs, endMs, maxWindows, d, calls);
      !e.Live() && Explained(api, cfg, maxWindows, FirstSecond(startMs), LastSecond(endMs), e)
  {
    var lo, hi := FirstSecond(startMs), LastSecond(endMs);
    if lo <= hi {
      SyncCoversRange(api, cfg, startMs, endMs, maxWindows, d, calls);
    }
    CrawlIsExplained(api, cfg, maxWindows, lo, hi, StartCrawl(startMs, endMs, d, calls));
  }

  ghost predicate WithinBudget(c: Crawl, maxWindows: int) {
    c.total.windows <= if maxWindows < 0 then 0 else maxWindows
  }

  lemma {:induction false} CrawlKeepsBudget(api: Api, cfg: Config, maxWindows: int, c: Crawl)
    requires cfg.Valid() && Valid(c) && WithinBudget(c, maxWindows)
    ensures WithinBudget(RunCrawl(api, cfg, maxWindows, c), maxWindows)
    decreases Fuel(c)
  {
    if c.Live() {
      StepDecreases(api, cfg, maxWindows, c);
      if c.pending != [] {
        var r := c.pending[|c.pending| - 1];
        AdvanceDecreases(c, WindowOutcome(api, cfg, r.lo, r.hi, c.calls));
      }
      CrawlKeepsBudget(api, cfg, maxWindows, Step(api, cfg, maxWindows, c));
    }
  }

  /** No sync counts more windows than its budget, and one that gives up for its budget has
      counted exactly that many. */
  lemma BudgetIsKept(api: Api, cfg: Config, startMs: int, endMs: int, maxWindows: int, d: Disk, calls: nat)
    requires cfg.Valid()
    ensures var e := SyncOutcome(api, cfg, startMs, endMs, maxWindows, d, calls);
      && WithinBudget(e, maxWindows)
      && (e.total.status == MaxWindowsReached && maxWindows >= 0 ==> e.total.windows == maxWindows)
  {
    StatusSaysWhy(api, cfg, startMs, endMs, maxWindows, d, calls);
    CrawlKeepsBudget(api, cfg, maxWindows, StartCrawl(startMs, endMs, d, calls));
  }

  /** Every range counted as done had a window that was published. */
  ghost predicate Settled(api: Api, cfg: Config, r: Range)
    requires cfg.Valid()
  {
    exists n: nat :: WindowOutcome(api, cfg, r.lo, r.hi, n).Publishes()
  }

  ghost predicate AllSettled(api: Api, cfg: Config, done: seq<Range>)
    requires cfg.Valid()
  {
    forall i :: 0 <= i < |done| ==> Settled(api, cfg, done[i])
  }

  lemma {:induction false} DoneIsSettled(api: Api, cfg: Config, maxWindows: int, c: Crawl)
    requires cfg.Valid() && Valid(c) && AllSettled(api, cfg, c.done)
    ensures AllSettled(api, cfg, RunCrawl(api, cfg, maxWindows, c).done)
    decreases Fuel(c)
  {
    if c.Live() {
      StepDecreases(api, cfg, maxWindows, c);
      DoneIsSettled(api, cfg, maxWindows, Step(api, cfg, maxWindows, c));
    }
  }

  // -------------------- what each window status means, against any API --------------------

  /** The first row out of bounds, if any, has no time that parses (or has one). */
  ghost predicate FirstOutside(rows: seq<Record>, lo: int, hi: int, unparseable: bool) {
    exists i :: 0 <= i < |rows| && IsFirstOutside(rows, lo, hi, i) && (rows[i].publicMs.None? <==> unparseable)
  }

  ghost predicate IsFirstOutside(rows: seq<Record>, lo: int, hi: int, i: nat)
    requires i < |rows|
  {
    !Inside(rows[i], lo, hi) && forall j :: 0 <= j < i ==> Inside(rows[j], lo, hi)
  }

  ghost predicate AllInside(rows: seq<Record>, lo: int, hi: int) {
    forall i :: 0 <= i < |rows| ==> Inside(rows[i], lo, hi)
  }

  /** How the window's status tells of the reply that ended it. */
  ghost predicate EndedBy(cfg: Config, lo: int, hi: int, offset: nat, status: Status, reply: Response) {
    match reply
    case Unavailable => status == Raised
    case OffsetCap => status == OffsetLimitReached
    case Page(rows) =>
      && (status == TimestampInvalid <==> FirstOutside(rows, lo, hi, true))
      && (status == TimeParamsNotHonored <==> FirstOutside(rows, lo, hi, false))
      && (status in {Complete, Empty} <==> AllInside(rows, lo, hi) && |rows| < cfg.pageLimit)
      && (status == OffsetLimitReached <==>
        AllInside(rows, lo, hi) && |rows| >= cfg.pageLimit && offset + cfg.pageLimit > cfg.maxOffset)
      && status != Raised
  }

  /** The last request of the window asked for this offset, and its reply ended it. */
  ghost predicate EndsAt(api: Api, cfg: Config, lo: int, hi: int, last: Window, offset: nat) {
    last.calls > 0 && EndedBy(cfg, lo, hi, offset, last.status, api(last.calls - 1, lo, hi, offset))
  }

  lemma {:induction false} OffenderOrInside(rows: seq<Record>, lo: int, hi: int, n: nat)
    requires n <= |rows|
    ensures AllInside(rows[..n], lo, hi) || exists i :: 0 <= i < n && IsFirstOutside(rows, lo, hi, i)
  {
    if n > 0 {
      OffenderOrInside(rows, lo, hi, n - 1);
      if AllInside(rows[..n - 1], lo, hi) {
        assert forall j :: 0 <= j < n - 1 ==> rows[..n - 1][j] == rows[j];
        if !Inside(rows[n - 1], lo, hi) {
          assert IsFirstOutside(rows, lo, hi, n - 1);
        }
      }
    }
  }

  lemma ViolationTells(rows: seq<Record>, lo: int, hi: int)
    ensures PageViolation(rows, lo, hi) == Some(TimestampInvalid) <==> FirstOutside(rows, lo, hi, true)
    ensures PageViolation(rows, lo, hi) == Some(TimeParamsNotHonored) <==> FirstOutside(rows, lo, hi, false)
    ensures PageViolation(rows, lo, hi) == None <==> AllInside(rows, lo, hi)
  {
    assert rows[..|rows|] == rows;
    OffenderOrInside(rows, lo, hi, |rows|);
    forall i | 0 <= i < |rows| && IsFirstOutside(rows, lo, hi, i)
      ensures PageViolation(rows, lo, hi)
        == Some(if rows[i].publicMs.None? then TimestampInvalid else TimeParamsNotHonored)
    {
      FirstOffenderDecides(rows, lo, hi, i);
    }
  }

  lemma StopIsTold(cfg: Config, lo: int, hi: int, offset: nat, w: Window, reply: Response)
    requires TakePage(cfg, lo, hi, offset, w, reply).Stop?
    ensures EndedBy(cfg, lo, hi, offset, TakePage(cfg, lo, hi, offset, w, reply).w.status, reply)
  {
    if reply.Page? {
      ViolationTells(reply.rows, lo, hi);
    }
  }

  /** A window ends at its last request and its status tells of the reply: a failure, the
      cap error or the offset limit, the first row out of bounds, or a short page. */
  lemma {:induction false} WindowEndsWhy(api: Api, cfg: Config, lo: int, hi: int, offset: nat, w: Window)
    requires cfg.Valid()
    ensures var last := FetchPages(api, cfg, lo, hi, offset, w);
      last.calls > w.calls && exists o: nat :: o >= offset && EndsAt(api, cfg, lo, hi, last, o)
    decreases cfg.maxOffset - offset
  {
    var step := TakePage(cfg, lo, hi, offset, w, api(w.calls, lo, hi, offset));
    if step.More? {
      WindowEndsWhy(api, cfg, lo, hi, offset + cfg.pageLimit, step.w);
    } else {
      StopIsTold(cfg, lo, hi, offset, w, api(w.calls, lo, hi, offset));
      assert EndsAt(api, cfg, lo, hi, step.w, offset);
    }
  }

  // -------------------- one window of a truthful API --------------------

  ghost predicate Replies(api: Api, caps: bool, n: nat, lo: int, hi: int, offset: nat) {
    api(n, lo, hi, offset).Page? || (caps && lo < hi && api(n, lo, hi, offset).OffsetCap?)
  }

  /** Each request gets its true page; if `caps`, one wider than a second may be
      refused with the cap error instead, at any time. */
  ghost predicate Truthful(api: Api, cfg: Config, trades: seq<Record>, caps: bool) {
    && Stable(api, cfg, trades)
    && forall n: nat, lo, hi, offset: nat :: Replies(api, caps, n, lo, hi, offset)
  }

  /** Paging meets a short page before the offset passes the cap. */
  predicate Fits(cfg: Config, count: nat)
    requires cfg.Valid()
  {
    count / cfg.pageLimit <= cfg.maxOffset / cfg.pageLimit
  }

  /** The rows a window has fetched when the offset passes the cap. */
  function CapRows(cfg: Config): nat
    requires cfg.Valid()
  {
    (cfg.maxOffset / cfg.pageLimit + 1) * cfg.pageLimit
  }

  lemma QuotientAtLeast(x: nat, limit: nat, k: nat, product: nat)
    requires limit >= 1 && product == k * limit
    ensures product <= x <==> k <= x / limit
    ensures (k + 1) * limit == product + limit
  {
    var q, rest := x / limit, x % limit;
    assert x == q * limit + rest;
    if k <= q {
      assert k * limit <= q * limit;
    } else {
      assert (q + 1) * limit <= k * limit;
    }
  }

  /** What the window holds after its pages up to `offset`, k of them. */
  ghost predicate Paged(cfg: Config, all: seq<Record>, w: Window, first: nat, k: nat, offset: nat) {
    && w.status == Complete && offset == k * cfg.pageLimit && offset <= |all|
    && offset <= cfg.maxOffset
    && w.fetched == all[..offset] && w.pages == k && w.calls == first + k
    && w.staged == Stage([], all[..offset])
  }

  lemma {:induction false} StageConcat(staged: seq<Record>, a: seq<Record>, b: seq<Record>)
    ensures Stage(Stage(staged, a), b) == Stage(staged, a + b)
  {
    if b == [] {
      assert a + b == a;
    } else {
      var init := b[..|b| - 1];
      StageConcat(staged, a, init);
      assert (a + b)[..|a + b| - 1] == a + init;
    }
  }

  lemma NoViolation(rows: seq<Record>, all: seq<Record>, offset: nat, limit: nat, lo: int, hi: int)
    requires rows == Slice(all, offset, limit) && forall r :: r in all ==> Inside(r, lo, hi)
    ensures PageViolation(rows, lo, hi) == None
  {
    forall r | r in rows ensures Inside(r, lo, hi) {
      assert r in all;
    }
  }

  /** How a window against a truthful API ends: at a short page, or at the cap. */
  ghost predicate WindowEnd(cfg: Config, all: seq<Record>, capped: bool, first: nat, last: Window)
    requires cfg.Valid()
  {
    && last.status in {Complete, Empty, OffsetLimitReached}
    && (last.Publishes() ==>
      && Fits(cfg, |all|) && last.fetched == all && last.staged == Stage([], all)
      && last.pages == |all| / cfg.pageLimit + 1 && last.calls == first + last.pages
      && (last.status == Empty <==> all == []))
    && (!last.Publishes() ==>
      capped || (!Fits(cfg, |all|) && |last.fetched| == CapRows(cfg) && last.calls == first + last.pages))
  }

  lemma FirstStaged(all: seq<Record>)
    requires all != []
    ensures Stage([], all) != []
  {
    StageFacts([], all, Stage([], all));
    assert all[0].identity in IdSet(all);
  }

  lemma PageArithmetic(cfg: Config, count: nat, k: nat, offset: nat)
    requires cfg.Valid() && offset == k * cfg.pageLimit && offset <= count && offset <= cfg.maxOffset
    ensures offset + cfg.pageLimit == (k + 1) * cfg.pageLimit
    ensures count < offset + cfg.pageLimit ==> Fits(cfg, count) && count / cfg.pageLimit == k
    ensures cfg.maxOffset < offset + cfg.pageLimit ==> CapRows(cfg) == offset + cfg.pageLimit
    ensures cfg.maxOffset < offset + cfg.pageLimit <= count ==> !Fits(cfg, count)
  {
    QuotientAtLeast(count, cfg.pageLimit, k, offset);
    QuotientAtLeast(count, cfg.pageLimit, k + 1, offset + cfg.pageLimit);
    QuotientAtLeast(cfg.maxOffset, cfg.pageLimit, k, offset);
    QuotientAtLeast(cfg.maxOffset, cfg.pageLimit, k + 1, offset + cfg.pageLimit);
    if cfg.maxOffset < offset + cfg.pageLimit {
      assert cfg.maxOffset / cfg.pageLimit == k;
    }
  }

  /** The window with the next page saved and staged. */
  function WithPage(w: Window, all: seq<Record>, upto: nat): Window
    requires upto <= |all|
  {
    w.(calls := w.calls + 1, pages := w.pages + 1, fetched := all[..upto], staged := Stage([], all[..upto]))
  }

  lemma PageTaken(cfg: Config, all: seq<Record>, lo: int, hi: int, offset: nat, w: Window, rows: seq<Record>)
    requires cfg.Valid() && (forall r :: r in all ==> Inside(r, lo, hi)) && offset <= |all|
    requires rows == Slice(all, offset, cfg.pageLimit)
    requires w.fetched == all[..offset] && w.staged == Stage([], all[..offset])
    ensures TakePage(cfg, lo, hi, offset, w, Page(rows))
      == if |all| < offset + cfg.pageLimit then
        var last := WithPage(w, all, |all|);
        Stop(last.(status := if last.staged == [] then Empty else Complete))
      else
        var next := WithPage(w, all, offset + cfg.pageLimit);
        if offset + cfg.pageLimit > cfg.maxOffset then Stop(next.(status := OffsetLimitReached)) else More(next)
  {
    NoViolation(rows, all, offset, cfg.pageLimit, lo, hi);
    SliceExtends(all, offset, cfg.pageLimit);
    StageConcat([], all[..offset], rows);
    assert all[..|all|] == all;
  }

  lemma ShortPageEnds(cfg: Config, all: seq<Record>, first: nat, k: nat, offset: nat, w: Window, last: Window)
    requires cfg.Valid() && Paged(cfg, all, w, first, k, offset) && |all| < offset + cfg.pageLimit
    requires var l := WithPage(w, all, |all|); last == l.(status := if l.staged == [] then Empty else Complete)
    ensures WindowEnd(cfg, all, false, first, last)
  {
    assert all[..|all|] == all;
    PageArithmetic(cfg, |all|, k, offset);
    if all != [] {
      FirstStaged(all);
    }
  }

  lemma CapEnds(cfg: Config, all: seq<Record>, first: nat, k: nat, offset: nat, w: Window, last: Window)
    requires cfg.Valid() && Paged(cfg, all, w, first, k, offset)
    requires cfg.maxOffset < offset + cfg.pageLimit <= |all|
    requires last == WithPage(w, all, offset + cfg.pageLimit).(status := OffsetLimitReached)
    ensures WindowEnd(cfg, all, false, first, last)
  {
    PageArithmetic(cfg, |all|, k, offset);
  }

  lemma NextPaged(cfg: Config, all: seq<Record>, first: nat, k: nat, offset: nat, w: Window, next: Window)
    requires cfg.Valid() && Paged(cfg, all, w, first, k, offset)
    requires offset + cfg.pageLimit <= |all| && offset + cfg.pageLimit <= cfg.maxOffset
    requires next == WithPage(w, all, offset + cfg.pageLimit)
    ensures Paged(cfg, all, next, first, k + 1, offset + cfg.pageLimit)
  {
    PageArithmetic(cfg, |all|, k, offset);
  }

  lemma TruthfulPage(cfg: Config, all: seq<Record>, lo: int, hi: int, first: nat, k: nat, offset: nat, w: Window,
      rows: seq<Record>, step: PageStep)
    requires cfg.Valid() && forall r :: r in all ==> Inside(r, lo, hi)
    requires Paged(cfg, all, w, first, k, offset) && rows == Slice(all, offset, cfg.pageLimit)
    requires step == TakePage(cfg, lo, hi, offset, w, Page(rows))
    ensures step.Stop? ==> WindowEnd(cfg, all, false, first, step.w)
    ensures step.More? ==> Paged(cfg, all, step.w, first, k + 1, offset + cfg.pageLimit)
  {
    PageTaken(cfg, all, lo, hi, offset, w, rows);
    if |all| < offset + cfg.pageLimit {
      ShortPageEnds(cfg, all, first, k, offset, w, step.w);
    } else if cfg.maxOffset < offset + cfg.pageLimit {
      CapEnds(cfg, all, first, k, offset, w, step.w);
    } else {
      NextPaged(cfg, all, first, k, offset, w, step.w);
    }
  }

  lemma TruthfulReply(api: Api, cfg: Config, all: seq<Record>, caps: bool, lo: int, hi: int, first: nat, k: nat,
      offset: nat, w: Window, step: PageStep)
    requires cfg.Valid() && PagesAreTrue(api, cfg.pageLimit, all, lo, hi) && Replies(api, caps, w.calls, lo, hi, offset)
    requires forall r :: r in all ==> Inside(r, lo, hi)
    requires Paged(cfg, all, w, first, k, offset)
    requires step == TakePage(cfg, lo, hi, offset, w, api(w.calls, lo, hi, offset))
    ensures step.Stop? ==> WindowEnd(cfg, all, caps && lo < hi, first, step.w)
    ensures step.More? ==> Paged(cfg, all, step.w, first, k + 1, offset + cfg.pageLimit)
  {
    var response := api(w.calls, lo, hi, offset);
    if response.Page? {
      assert PageIsTrue(api, cfg.pageLimit, all, lo, hi, w.calls, offset);
      TruthfulPage(cfg, all, lo, hi, first, k, offset, w, response.rows, step);
    }
  }

  lemma {:induction false} TruthfulPages(api: Api, cfg: Config, all: seq<Record>, caps: bool, lo: int, hi: int,
      first: nat, k: nat, offset: nat, w: Window, last: Window)
    requires cfg.Valid() && PagesAreTrue(api, cfg.pageLimit, all, lo, hi)
    requires forall n: nat, o: nat :: Replies(api, caps, n, lo, hi, o)
    requires forall r :: r in all ==> Inside(r, lo, hi)
    requires Paged(cfg, all, w, first, k, offset) && last == FetchPages(api, cfg, lo, hi, offset, w)
    ensures WindowEnd(cfg, all, caps && lo < hi, first, last)
    decreases cfg.maxOffset - offset
  {
    assert Replies(api, caps, w.calls, lo, hi, offset);
    var step := TakePage(cfg, lo, hi, offset, w, api(w.calls, lo, hi, offset));
    TruthfulReply(api, cfg, all, caps, lo, hi, first, k, offset, w, step);
    if step.More? {
      TruthfulPages(api, cfg, all, caps, lo, hi, first, k + 1, offset + cfg.pageLimit, step.w, last);
    }
  }

  /** A window against a truthful API publishes exactly its trades after |trades| / limit
      + 1 requests if they fit, and hits the cap otherwise; it is empty only of trades. */
  lemma TruthfulWindow(api: Api, cfg: Config, trades: seq<Record>, caps: bool, r: Range, n: nat)
    requires cfg.Valid() && Truthful(api, cfg, trades, caps)
    ensures WindowEnd(
      cfg, InRange(trades, r.lo, r.hi), caps && r.lo < r.hi, n, WindowOutcome(api, cfg, r.lo, r.hi, n))
  {
    var all := InRange(trades, r.lo, r.hi);
    InRangeMembers(trades, r.lo, r.hi);
    assert PagesAreTrue(api, cfg.pageLimit, all, r.lo, r.hi);
    TruthfulPages(api, cfg, all, caps, r.lo, r.hi, n, 0, 0, Window(Complete, 0, [], [], n),
      WindowOutcome(api, cfg, r.lo, r.hi, n));
  }

  // -------------------- liveness --------------------

  predicate SecondFits(cfg: Config, trades: seq<Record>, s: int)
    requires cfg.Valid()
  {
    Fits(cfg, |InRange(trades, s, s)|)
  }

  lemma {:induction false} WiderHoldsMore(trades: seq<Record>, a: int, b: int, lo: int, hi: int)
    requires lo <= a && b <= hi
    ensures |InRange(trades, a, b)| <= |InRange(trades, lo, hi)|
  {
    if trades != [] {
      WiderHoldsMore(trades[1..], a, b, lo, hi);
    }
  }

  lemma SmallerFits(cfg: Config, small: nat, large: nat)
    requires cfg.Valid() && small <= large && Fits(cfg, large)
    ensures Fits(cfg, small)
  {
    QuotientAtLeast(large, cfg.pageLimit, small / cfg.pageLimit, small / cfg.pageLimit * cfg.pageLimit);
  }

  lemma SettledFits(api: Api, cfg: Config, trades: seq<Record>, caps: bool, r: Range, s: int)
    requires cfg.Valid() && Truthful(api, cfg, trades, caps) && Settled(api, cfg, r) && r.lo <= s <= r.hi
    ensures SecondFits(cfg, trades, s)
  {
    var n: nat :| WindowOutcome(api, cfg, r.lo, r.hi, n).Publishes();
    TruthfulWindow(api, cfg, trades, caps, r, n);
    WiderHoldsMore(trades, s, s, r.lo, r.hi);
    SmallerFits(cfg, |InRange(trades, s, s)|, |InRange(trades, r.lo, r.hi)|);
  }

  /** With a truthful API and 2 * seconds - 1 windows allowed, a sync completes if and
      only if the trades of every single second fit under the offset cap; if not, it
      reports the unsplittable second. */
  lemma SyncCompletesIff(api: Api, cfg: Config, trades: seq<Record>, caps: bool, startMs: int, endMs: int,
      maxWindows: int, d: Disk, calls: nat)
    requires cfg.Valid() && Truthful(api, cfg, trades, caps)
    requires maxWindows >= 2 * (LastSecond(endMs) - FirstSecond(startMs) + 1) - 1
    ensures var lo, hi := FirstSecond(startMs), LastSecond(endMs);
      SyncOutcome(api, cfg, startMs, endMs, maxWindows, d, calls).total.status
        == if forall s :: lo <= s <= hi ==> SecondFits(cfg, trades, s) then SyncComplete else UnsplittableSecond
  {
    var lo, hi := FirstSecond(startMs), LastSecond(endMs);
    var c := StartCrawl(startMs, endMs, d, calls);
    var e := SyncOutcome(api, cfg, startMs, endMs, maxWindows, d, calls);
    if lo <= hi {
      SyncCoversRange(api, cfg, startMs, endMs, maxWindows, d, calls);
      StatusSaysWhy(api, cfg, startMs, endMs, maxWindows, d, calls);
      forall r: Range, n: nat, status | EndsWith(api, cfg, r, n, status, e.calls)
        ensures status in {Complete, Empty, OffsetLimitReached}
        ensures status == OffsetLimitReached && r.lo == r.hi ==> !SecondFits(cfg, trades, r.lo)
      {
        TruthfulWindow(api, cfg, trades, caps, r, n);
      }
      DoneIsSettled(api, cfg, maxWindows, c);
      if e.total.status == SyncComplete {
        forall s | lo <= s <= hi ensures SecondFits(cfg, trades, s) {
          DoneTilesExactly(e.done, lo, hi, s);
          var i :| 0 <= i < |e.done| && e.done[i].lo <= s <= e.done[i].hi;
          SettledFits(api, cfg, trades, caps, e.done[i], s);
        }
      }
    }
  }
  predicate WholeSecondWithin(t: Record, startMs: int, endMs: int) {
    t.publicMs.Some? && startMs <= t.publicMs.value <= endMs && t.publicMs.value % 1000 == 0
  }

  /** So such a sync registers every whole-second trade of the interval. */
  lemma TruthfulSyncFindsAll(api: Api, cfg: Config, trades: seq<Record>, caps: bool, startMs: int, endMs: int,
      maxWindows: int, d: Disk, calls: nat)
    requires cfg.Valid() && Truthful(api, cfg, trades, caps) && AtRest(d)
    requires maxWindows >= 2 * (LastSecond(endMs) - FirstSecond(startMs) + 1) - 1
    requires forall s :: FirstSecond(startMs) <= s <= LastSecond(endMs) ==> SecondFits(cfg, trades, s)
    ensures var e := SyncOutcome(api, cfg, startMs, endMs, maxWindows, d, calls);
      && e.total.status == SyncComplete
      && (forall t :: t in trades && WholeSecondWithin(t, startMs, endMs) ==> t.identity in e.disk.keys)
  {
    SyncCompletesIff(api, cfg, trades, caps, startMs, endMs, maxWindows, d, calls);
    CompleteMeansComplete(api, cfg, trades, startMs, endMs, maxWindows, d, calls);
  }

  // -------------------- the counters --------------------

  /** The trades of these ranges, a trade of several counted in each. */
  function Held(trades: seq<Record>, done: seq<Range>): nat {
    if done == [] then 0
    else
      var r := done[|done| - 1];
      Held(trades, done[..|done| - 1]) + |InRange(trades, r.lo, r.hi)|
  }

  function Times(n: nat, rows: nat): nat {
    if n == 0 then 0 else Times(n - 1, rows) + rows
  }

  lemma {:induction false} TimesIsProduct(n: nat, rows: nat)
    ensures Times(n, rows) == n * rows
  {
    if n > 0 {
      TimesIsProduct(n - 1, rows);
    }
  }

  /** The windows form a binary tree whose leaves are done; without cap errors each
      inner one fetched `cap` rows, and each request was a page. */
  ghost predicate Counted(cap: nat, trades: seq<Record>, caps: bool, first: nat, c: Crawl) {
    && c.total.windows == 2 * |c.done| + |c.pending| - 1
    && c.total.newTrades + c.total.duplicates == Held(trades, c.done)
    && (!caps ==>
      && c.total.pages == c.calls - first
      && |c.done| + |c.pending| >= 1
      && c.total.records == Held(trades, c.done) + Times(|c.done| + |c.pending| - 1, cap))
  }

  lemma {:induction false} InRangeDistinct(trades: seq<Record>, lo: int, hi: int)
    requires DistinctIds(trades)
    ensures DistinctIds(InRange(trades, lo, hi))
  {
    if trades != [] {
      var rest := InRange(trades[1..], lo, hi);
      InRangeDistinct(trades[1..], lo, hi);
      InRangeMembers(trades[1..], lo, hi);
      forall j | 0 <= j < |rest| ensures trades[0].identity != rest[j].identity {
        assert rest[j] in trades[1..];
      }
    }
  }

  lemma LastIdIsNew(init: seq<Record>, last: Record)
    requires DistinctIds(init + [last])
    ensures DistinctIds(init) && last.identity !in IdSet(init)
  {
    var s := init + [last];
    forall i, j | 0 <= i < j < |init| ensures init[i].identity != init[j].identity {
      assert s[i] == init[i] && s[j] == init[j];
    }
    forall r | r in init ensures r.identity != last.identity {
      var i :| 0 <= i < |init| && init[i] == r;
      assert s[i] == r && s[|init|] == last;
    }
  }

  lemma {:induction false} DistinctCount(s: seq<Record>)
    requires DistinctIds(s)
    ensures |IdSet(s)| == |s|
  {
    if s == [] {
      assert IdSet(s) == {};
    } else {
      var init, last := s[..|s| - 1], s[|s| - 1];
      var ids := IdSet(init);
      DistinctCount(init);
      assert s == init + [last];
      IdSetPush(init, last);
      LastIdIsNew(init, last);
      assert |ids + {last.identity}| == |ids| + 1;
    }
  }

  lemma AllAreStaged(trades: seq<Record>, lo: int, hi: int)
    requires DistinctIds(trades)
    ensures var all := InRange(trades, lo, hi); |Stage([], all)| == |all|
  {
    var all := InRange(trades, lo, hi);
    InRangeDistinct(trades, lo, hi);
    StageFacts([], all, Stage([], all));
    DistinctCount(all);
    DistinctCount(Stage([], all));
    assert IdSet([]) == {};
  }

  lemma HeldPush(trades: seq<Record>, done: seq<Range>, r: Range)
    ensures Held(trades, done + [r]) == Held(trades, done) + |InRange(trades, r.lo, r.hi)|
  {
    assert (done + [r])[..|done|] == done;
  }

  ghost predicate CountedSoFar(cap: nat, trades: seq<Record>, caps: bool, first: nat, c: Crawl) {
    && (c.total.status in {Running, SyncComplete} ==> Counted(cap, trades, caps, first, c))
    && (c.total.status == SyncComplete ==> c.pending == [])
  }

  /** What a window of a truthful API adds to the counters. */
  ghost predicate Adds(cap: nat, capped: bool, count: nat, first: nat, w: Window) {
    && w.status in {Complete, Empty, OffsetLimitReached}
    && (w.Publishes() ==> |w.fetched| == count && |w.staged| == count && w.calls == first + w.pages)
    && (!w.Publishes() && !capped ==> |w.fetched| == cap && w.calls == first + w.pages)
  }

  lemma WindowAdds(api: Api, cfg: Config, trades: seq<Record>, caps: bool, r: Range, n: nat, w: Window)
    requires cfg.Valid() && Truthful(api, cfg, trades, caps) && DistinctIds(trades)
    requires w == WindowOutcome(api, cfg, r.lo, r.hi, n)
    ensures Adds(CapRows(cfg), caps, |InRange(trades, r.lo, r.hi)|, n, w)
  {
    TruthfulWindow(api, cfg, trades, caps, r, n);
    AllAreStaged(trades, r.lo, r.hi);
  }

  lemma SplitMoves(c: Crawl, r: Range, w: Window, d: Crawl)
    requires c.Live() && c.pending != [] && r == c.pending[|c.pending| - 1]
    requires w.status == OffsetLimitReached && d == Advance(c, w)
    ensures d.done == c.done && d.calls == w.calls
    ensures d.total.(status := Running) == c.total.Absorb(w, 0)
    ensures if r.lo == r.hi then d.total.status == UnsplittableSecond
      else d.Live() && |d.pending| == |c.pending| + 1
  {}

  lemma DoneMoves(c: Crawl, r: Range, w: Window, d: Crawl)
    requires c.Live() && c.pending != [] && r == c.pending[|c.pending| - 1]
    requires w.Publishes() && d == Advance(c, w)
    ensures d.Live() && d.done == c.done + [r] && |d.pending| == |c.pending| - 1 && d.calls == w.calls
    ensures d.total == c.total.Absorb(w, |d.disk.lines| - |c.disk.lines|)
  {}

  lemma SplitTotals(cap: nat, trades: seq<Record>, caps: bool, first: nat, c: Crawl, count: nat, w: Window, d: Crawl)
    requires c.Live() && c.pending != [] && !w.Publishes() && Adds(cap, caps, count, c.calls, w)
    requires Counted(cap, trades, caps, first, c)
    requires d.total == c.total.Absorb(w, 0) && d.done == c.done && |d.pending| == |c.pending| + 1
    requires d.calls == w.calls
    ensures Counted(cap, trades, caps, first, d)
  {}

  lemma DoneTotals(cap: nat, trades: seq<Record>, caps: bool, first: nat, c: Crawl, r: Range, w: Window, d: Crawl,
      published: int)
    requires c.Live() && c.pending != [] && w.Publishes()
    requires Adds(cap, caps, |InRange(trades, r.lo, r.hi)|, c.calls, w) && Counted(cap, trades, caps, first, c)
    requires d.total == c.total.Absorb(w, published) && d.done == c.done + [r] && |d.pending| == |c.pending| - 1
    requires d.calls == w.calls
    ensures Counted(cap, trades, caps, first, d)
  {
    HeldPush(trades, c.done, r);
  }

  lemma SplitCounts(
      cap: nat, trades: seq<Record>, caps: bool, first: nat, c: Crawl, r: Range, w: Window, d: Crawl)
    requires c.Live() && c.pending != [] && r == c.pending[|c.pending| - 1]
    requires !w.Publishes() && Adds(cap, caps, |InRange(trades, r.lo, r.hi)|, c.calls, w)
    requires Counted(cap, trades, caps, first, c) && d == Advance(c, w)
    ensures CountedSoFar(cap, trades, caps, first, d)
  {
    SplitMoves(c, r, w, d);
    if r.lo != r.hi {
      SplitTotals(cap, trades, caps, first, c, |InRange(trades, r.lo, r.hi)|, w, d);
    }
  }

  lemma DoneCounts(
      cap: nat, trades: seq<Record>, caps: bool, first: nat, c: Crawl, r: Range, w: Window, d: Crawl)
    requires c.Live() && c.pending != [] && r == c.pending[|c.pending| - 1]
    requires w.Publishes() && Adds(cap, caps, |InRange(trades, r.lo, r.hi)|, c.calls, w)
    requires Counted(cap, trades, caps, first, c) && d == Advance(c, w)
    ensures CountedSoFar(cap, trades, caps, first, d)
  {
    DoneMoves(c, r, w, d);
    DoneTotals(cap, trades, caps, first, c, r, w, d, |d.disk.lines| - |c.disk.lines|);
  }

  lemma StepCounts(
      api: Api, cfg: Config, maxWindows: int, trades: seq<Record>, caps: bool, first: nat, c: Crawl, d: Crawl)
    requires cfg.Valid() && c.Live() && Truthful(api, cfg, trades, caps) && DistinctIds(trades)
    requires CountedSoFar(CapRows(cfg), trades, caps, first, c) && d == Step(api, cfg, maxWindows, c)
    ensures CountedSoFar(CapRows(cfg), trades, caps, first, d)
  {
    if c.pending != [] {
      var r := c.pending[|c.pending| - 1];
      var w := WindowOutcome(api, cfg, r.lo, r.hi, c.calls);
      WindowAdds(api, cfg, trades, caps, r, c.calls, w);
      if w.Publishes() {
        DoneCounts(CapRows(cfg), trades, caps, first, c, r, w, Advance(c, w));
      } else {
        SplitCounts(CapRows(cfg), trades, caps, first, c, r, w, Advance(c, w));
      }
    }
  }

  lemma {:induction false} CrawlCounts(api: Api, cfg: Config, maxWindows: int, trades: seq<Record>, caps: bool,
      first: nat, c: Crawl)
    requires cfg.Valid() && Valid(c) && Truthful(api, cfg, trades, caps) && DistinctIds(trades)
    requires CountedSoFar(CapRows(cfg), trades, caps, first, c)
    ensures CountedSoFar(CapRows(cfg), trades, caps, first, RunCrawl(api, cfg, maxWindows, c))
    decreases Fuel(c)
  {
    if c.Live() {
      StepDecreases(api, cfg, maxWindows, c);
      StepCounts(api, cfg, maxWindows, trades, caps, first, c, Step(api, cfg, maxWindows, c));
      CrawlCounts(api, cfg, maxWindows, trades, caps, first, Step(api, cfg, maxWindows, c));
    }
  }

  ghost predicate WholeSeconds(trades: seq<Record>) {
    forall t :: t in trades && t.publicMs.Some? ==> t.publicMs.value % 1000 == 0
  }

  lemma {:induction false} InRangeSplits(trades: seq<Record>, a: int, m: int, b: int)
    requires WholeSeconds(trades) && a <= m + 1 <= b + 1
    ensures |InRange(trades, a, b)| == |InRange(trades, a, m)| + |InRange(trades, m + 1, b)|
  {
    if trades != [] {
      assert trades == [trades[0]] + trades[1..];
      InRangeSplits(trades[1..], a, m, b);
    }
  }

  lemma {:induction false} TilesHoldAll(trades: seq<Record>, done: seq<Range>, a: int, b: int)
    requires WholeSeconds(trades) && DoneTiles(done, a, b)
    ensures a <= b + 1 && Held(trades, done) == |InRange(trades, a, b)|
  {
    if done == [] {
      NothingInside(trades, a, b);
    } else {
      var r, init := done[|done| - 1], done[..|done| - 1];
      assert DoneTiles(init, r.hi + 1, b) by {
        if init != [] {
          assert done[|init|].hi + 1 == done[|init| - 1].lo;
        }
      }
      TilesHoldAll(trades, init, r.hi + 1, b);
      InRangeSplits(trades, a, r.hi, b);
    }
  }

  lemma {:induction false} NothingInside(trades: seq<Record>, a: int, b: int)
    requires a > b
    ensures InRange(trades, a, b) == []
  {
    if trades != [] {
      NothingInside(trades[1..], a, b);
    }
  }

  /** The counters of a complete sync against a truthful API of distinct whole-second
      trades: every trade of the interval is new or a duplicate; the windows are the n done
      ones and the n - 1 that were split; and if the API never says `cap`, each request
      was a page and the split windows add CapRows rows each. */
  lemma CountersAddUp(api: Api, cfg: Config, trades: seq<Record>, caps: bool, startMs: int, endMs: int,
      maxWindows: int, d: Disk, calls: nat)
    requires cfg.Valid() && Truthful(api, cfg, trades, caps) && DistinctIds(trades) && WholeSeconds(trades)
    requires FirstSecond(startMs) <= LastSecond(endMs)
    requires SyncOutcome(api, cfg, startMs, endMs, maxWindows, d, calls).total.status == SyncComplete
    ensures var e := SyncOutcome(api, cfg, startMs, endMs, maxWindows, d, calls);
      var count := |InRange(trades, FirstSecond(startMs), LastSecond(endMs))|;
      && e.total.newTrades + e.total.duplicates == count
      && e.total.windows == |e.done| + (|e.done| - 1)
      && (!caps ==>
        && e.total.pages == e.calls - calls
        && e.total.records == count + (|e.done| - 1) * CapRows(cfg))
  {
    var c := StartCrawl(startMs, endMs, d, calls);
    assert Valid(c) && Counted(CapRows(cfg), trades, caps, calls, c);
    CrawlCounts(api, cfg, maxWindows, trades, caps, calls, c);
    SyncCoversRange(api, cfg, startMs, endMs, maxWindows, d, calls);
    var e := SyncOutcome(api, cfg, startMs, endMs, maxWindows, d, calls);
    TimesIsProduct(|e.done| - 1, CapRows(cfg));
    TilesHoldAll(trades, e.done, FirstSecond(startMs), LastSecond(endMs));
  }
}
