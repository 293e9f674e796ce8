/** The loop of `sync_range`: a stack of second ranges, bisected at the offset cap. */
module BisectionCrawl {
  import opened Publication
  import opened WindowFetch

  datatype Range = Range(lo: int, hi: int)

  datatype SyncStatus =
    | Running
    | SyncComplete
    | MaxWindowsReached
    | UnsplittableSecond
    | WindowFailed(status: Status)
    | SyncRaised

  /** ProspectiveSyncResult, without its message list. */
  datatype SyncResult = SyncResult(
    status: SyncStatus, windows: nat, pages: nat, records: nat, newTrades: int, duplicates: int)
  {
    function Absorb(w: Window, published: int): SyncResult {
      SyncResult(
        status, windows + 1, pages + w.pages, records + |w.fetched|, newTrades + published,
        duplicates + (if w.Publishes() then |w.staged| - published else 0))
    }
  }

  const NO_RESULT := SyncResult(SyncComplete, 0, 0, 0, 0, 0)

  /** One state of sync_range. `pending` is the stack, its top last; `done` is a
      history of the ranges whose window came back complete or empty. */
  datatype Crawl = Crawl(total: SyncResult, pending: seq<Range>, done: seq<Range>, disk: Disk, calls: nat) {
    predicate Live() { total.status == Running }
    function Stop(status: SyncStatus): Crawl { this.(total := total.(status := status)) }
  }

  function Width(r: Range): int { r.hi - r.lo + 1 }

  /** The windows a stack of ranges can still cost. */
  function Work(pending: seq<Range>): (n: int)
    requires forall r :: r in pending ==> r.lo <= r.hi
    ensures n >= |pending|
  {
    if pending == [] then 0
    else Work(pending[..|pending| - 1]) + 2 * Width(pending[|pending| - 1]) - 1
  }

  ghost predicate Valid(c: Crawl) {
    forall r :: r in c.pending ==> r.lo <= r.hi
  }

  /** What the loop body does with the window it fetched for the popped range. */
  function Advance(c: Crawl, w: Window): Crawl
    requires c.pending != []
  {
    var r, rest := c.pending[|c.pending| - 1], c.pending[..|c.pending| - 1];
    if w.status == Raised then c.(pending := rest, calls := w.calls).Stop(SyncRaised)
    else
      var disk := Publish(c.disk, w);
      var total := c.total.Absorb(w, |disk.lines| - |c.disk.lines|);
      var t := Crawl(total, rest, c.done, disk, w.calls);
      if w.Publishes() then t.(done := c.done + [r])
      else if w.status == OffsetLimitReached then
        if r.lo == r.hi then t.Stop(UnsplittableSecond)
        else t.(pending := Split(rest, r))
      else t.Stop(WindowFailed(w.status))
  }

  /** Push the older half, then the newer half. */
  function Split(rest: seq<Range>, r: Range): seq<Range> {
    var mid := (r.lo + r.hi) / 2;
    rest + [Range(r.lo, mid)] + [Range(mid + 1, r.hi)]
  }

  function Step(api: Api, cfg: Config, maxWindows: int, c: Crawl): Crawl
    requires cfg.Valid() && c.Live()
  {
    if c.pending == [] then c.Stop(SyncComplete)
    else if c.total.windows >= maxWindows then c.Stop(MaxWindowsReached)
    else
      var r := c.pending[|c.pending| - 1];
      Advance(c, WindowOutcome(api, cfg, r.lo, r.hi, c.calls))
  }

  lemma SplitWork(rest: seq<Range>, r: Range)
    requires r.lo < r.hi && forall q :: q in rest ==> q.lo <= q.hi
    ensures var pending := Split(rest, r);
      && (forall q :: q in pending ==> q.lo <= q.hi)
      && Work(pending) == Work(rest) + 2 * Width(r) - 2
  {
    var mid := (r.lo + r.hi) / 2;
    var low := rest + [Range(r.lo, mid)];
    assert Split(rest, r)[..|rest| + 1] == low && low[..|rest|] == rest;
  }

  lemma AdvanceDecreases(c: Crawl, w: Window)
    requires c.Live() && Valid(c) && c.pending != []
    ensures var d := Advance(c, w);
      && Valid(d) && Work(d.pending) < Work(c.pending)
      && d.total.windows <= c.total.windows + 1
        && d.total.windows + Work(d.pending) <= c.total.windows + Work(c.pending)
  {
    var r, rest := c.pending[|c.pending| - 1], c.pending[..|c.pending| - 1];
    if r.lo < r.hi {
      SplitWork(rest, r);
    }
  }

  /** Every step of a live crawl uses up at least one unit of work. */
  lemma StepDecreases(api: Api, cfg: Config, maxWindows: int, c: Crawl)
    requires cfg.Valid() && c.Live() && Valid(c)
    ensures var d := Step(api, cfg, maxWindows, c);
      && Valid(d) && (d.Live() ==> Work(d.pending) < Work(c.pending))
      && d.total.windows + Work(d.pending) <= c.total.windows + Work(c.pending)
  {
    if c.pending != [] {
      var r := c.pending[|c.pending| - 1];
      AdvanceDecreases(c, WindowOutcome(api, cfg, r.lo, r.hi, c.calls));
    }
  }

  function Fuel(c: Crawl): (n: nat)
    requires Valid(c)
  {
    if c.Live() then 1 + Work(c.pending) else 0
  }

  /** Run the loop of sync_range to its end. */
  function RunCrawl(api: Api, cfg: Config, maxWindows: int, c: Crawl): Crawl
    requires cfg.Valid() && Valid(c)
    decreases Fuel(c)
  {
    if !c.Live() then c
    else
      StepDecreases(api, cfg, maxWindows, c);
      RunCrawl(api, cfg, maxWindows, Step(api, cfg, maxWindows, c))
  }

  // -------------------- which seconds are settled --------------------

  /** The stack, from its bottom up, splits [a, b] into adjacent ranges. */
  ghost predicate StackTiles(pending: seq<Range>, a: int, b: int) {
    && (pending == [] ==> a == b + 1)
    && (pending != [] ==> pending[0].lo == a && pending[|pending| - 1].hi == b)
    && (forall i :: 0 <= i < |pending| ==> pending[i].lo <= pending[i].hi)
    && (forall i, j :: 0 <= i < |pending| && j == i + 1 < |pending| ==> pending[i].hi + 1 == pending[j].lo)
  }

  /** The completed windows, latest first in time, split [a, b] into adjacent ranges. */
  ghost predicate DoneTiles(done: seq<Range>, a: int, b: int) {
    && (done == [] ==> a == b + 1)
    && (done != [] ==> done[0].hi == b && done[|done| - 1].lo == a)
    && (forall i :: 0 <= i < |done| ==> done[i].lo <= done[i].hi)
    && (forall i, j :: 0 <= i < |done| && j == i + 1 < |done| ==> done[j].hi + 1 == done[i].lo)
  }

  /** The first settled second: everything from here to the end is done. */
  function Cut(pending: seq<Range>, start: int): int {
    if pending == [] then start else pending[|pending| - 1].hi + 1
  }

  ghost predicate Tiled(pending: seq<Range>, done: seq<Range>, start: int, end: int) {
    && StackTiles(pending, start, Cut(pending, start) - 1)
    && DoneTiles(done, Cut(pending, start), end)
  }

  ghost predicate Cover(c: Crawl, start: int, end: int) {
    Tiled(c.pending, c.done, start, end)
  }

  lemma {:induction false} TilesDescend(done: seq<Range>, a: int, b: int, i: nat, j: nat)
    requires DoneTiles(done, a, b) && i < j < |done|
    ensures done[j].hi < done[i].lo
    decreases j - i
  {
    if j > i + 1 {
      TilesDescend(done, a, b, i + 1, j);
      assert done[i + 1].hi + 1 == done[i].lo;
    }
  }

  lemma {:induction false} TileFound(done: seq<Range>, a: int, b: int, t: int, n: nat) returns (i: nat)
    requires DoneTiles(done, a, b) && n < |done| && a <= t <= done[n].hi
    ensures i < |done| && done[i].lo <= t <= done[i].hi
    decreases |done| - n
  {
    if done[n].lo <= t {
      i := n;
    } else {
      assert n + 1 < |done|;
      i := TileFound(done, a, b, t, n + 1);
    }
  }

  /** A tiling meets every second of its interval in exactly one range, and no
      second outside it. */
  lemma DoneTilesExactly(done: seq<Range>, a: int, b: int, t: int)
    requires DoneTiles(done, a, b)
    ensures a <= t <= b <==> exists i :: 0 <= i < |done| && done[i].lo <= t <= done[i].hi
    ensures forall i, j :: 0 <= i < j < |done| ==> done[j].hi < done[i].lo
  {
    forall i, j | 0 <= i < j < |done| ensures done[j].hi < done[i].lo {
      TilesDescend(done, a, b, i, j);
    }
    if a <= t <= b {
      var i := TileFound(done, a, b, t, 0);
    }
  }

  lemma StackPush(rest: seq<Range>, r: Range, a: int, b: int)
    ensures StackTiles(rest + [r], a, b) <==> StackTiles(rest, a, r.lo - 1) && r.lo <= r.hi == b
  {
    var all, n := rest + [r], |rest|;
    assert all[n] == r && forall i :: 0 <= i < n ==> all[i] == rest[i];
    if StackTiles(all, a, b) && rest != [] {
      assert all[n - 1].hi + 1 == all[n].lo && all[0] == rest[0];
      forall i, j | 0 <= i < n && j == i + 1 < n ensures rest[i].hi + 1 == rest[j].lo {
        assert all[i].hi + 1 == all[j].lo;
      }
    }
    if StackTiles(rest, a, r.lo - 1) && r.lo <= r.hi == b {
      forall i, j | 0 <= i < n + 1 && j == i + 1 < n + 1 ensures all[i].hi + 1 == all[j].lo {
        if j < n {
          assert rest[i].hi + 1 == rest[j].lo;
        }
      }
    }
  }

  lemma DonePush(done: seq<Range>, r: Range, b: int)
    requires DoneTiles(done, r.hi + 1, b) && r.lo <= r.hi
    ensures DoneTiles(done + [r], r.lo, b)
  {
    var all, n := done + [r], |done|;
    assert all[n] == r && forall i :: 0 <= i < n ==> all[i] == done[i];
    forall i, j | 0 <= i < n + 1 && j == i + 1 < n + 1 ensures all[j].hi + 1 == all[i].lo {
      if j < n {
        assert done[j].hi + 1 == done[i].lo;
      }
    }
  }

  lemma PopTiles(rest: seq<Range>, r: Range, done: seq<Range>, start: int, end: int)
    requires Tiled(rest + [r], done, start, end)
    ensures Tiled(rest, done + [r], start, end)
  {
    StackPush(rest, r, start, r.hi);
    DonePush(done, r, end);
  }

  lemma SplitTiles(rest: seq<Range>, r: Range, done: seq<Range>, start: int, end: int)
    requires Tiled(rest + [r], done, start, end) && r.lo < r.hi
    ensures Tiled(Split(rest, r), done, start, end)
  {
    var mid := (r.lo + r.hi) / 2;
    StackPush(rest, r, start, r.hi);
    StackPush(rest, Range(r.lo, mid), start, mid);
    StackPush(rest + [Range(r.lo, mid)], Range(mid + 1, r.hi), start, r.hi);
  }

  lemma AdvanceShape(c: Crawl, w: Window)
    requires c.Live() && c.pending != []
    ensures var d := Advance(c, w);
      var r, rest := c.pending[|c.pending| - 1], c.pending[..|c.pending| - 1];
      d.Live() ==>
        || (d.pending == rest && d.done == c.done + [r])
        || (r.lo != r.hi && d.pending == Split(rest, r) && d.done == c.done)
  {}

  lemma AdvanceKeepsCover(c: Crawl, w: Window, start: int, end: int)
    requires c.Live() && Valid(c) && Cover(c, start, end) && c.pending != []
    ensures Advance(c, w).Live() ==> Cover(Advance(c, w), start, end)
  {
    var r, rest := c.pending[|c.pending| - 1], c.pending[..|c.pending| - 1];
    assert c.pending == rest + [r];
    assert Tiled(rest + [r], c.done, start, end);
    AdvanceShape(c, w);
    assert Tiled(rest, c.done + [r], start, end) by {
      PopTiles(rest, r, c.done, start, end);
    }
    if r.lo != r.hi {
      assert Tiled(Split(rest, r), c.done, start, end) by {
        SplitTiles(rest, r, c.done, start, end);
      }
    }
  }

  /** At every loop head: the completed windows are exactly a newest suffix and
      the pending stack partitions the rest, newest on top; and the window count
      plus the work left never exceeds the 2 * width - 1 of the whole range. */
  lemma StepKeepsCover(api: Api, cfg: Config, maxWindows: int, c: Crawl, start: int, end: int)
    requires cfg.Valid() && c.Live() && Valid(c) && Cover(c, start, end)
    requires c.total.windows + Work(c.pending) <= 2 * (end - start + 1) - 1
    ensures var d := Step(api, cfg, maxWindows, c);
      && Valid(d)
      && (d.total.status in {Running, SyncComplete} ==> Cover(d, start, end))
      && d.total.windows + Work(d.pending) <= 2 * (end - start + 1) - 1
      && (d.total.status == SyncComplete ==> d.pending == [])
      && (d.total.status == MaxWindowsReached ==> maxWindows < 2 * (end - start + 1) - 1)
  {
    StepDecreases(api, cfg, maxWindows, c);
    if c.pending != [] {
      var r := c.pending[|c.pending| - 1];
      AdvanceKeepsCover(c, WindowOutcome(api, cfg, r.lo, r.hi, c.calls), start, end);
    }
  }

  /** On completion the windows tile the whole range; the crawl never needs more
      than 2 * width - 1 windows, so only a smaller budget can run out. */
  lemma {:induction false} CrawlCovers(api: Api, cfg: Config, maxWindows: int, c: Crawl, start: int, end: int)
    requires cfg.Valid() && Valid(c)
    requires c.total.status in {Running, SyncComplete} ==> Cover(c, start, end)
    requires c.total.status == SyncComplete ==> c.pending == []
    requires c.total.status == MaxWindowsReached ==> maxWindows < 2 * (end - start + 1) - 1
    requires c.total.windows + Work(c.pending) <= 2 * (end - start + 1) - 1
    ensures var d := RunCrawl(api, cfg, maxWindows, c);
      && !d.Live()
      && d.total.windows <= 2 * (end - start + 1) - 1
      && (d.total.status == SyncComplete ==> DoneTiles(d.done, start, end))
      && (d.total.status == MaxWindowsReached ==> maxWindows < 2 * (end - start + 1) - 1)
    decreases Fuel(c)
  {
    if c.Live() {
      StepKeepsCover(api, cfg, maxWindows, c, start, end);
      StepDecreases(api, cfg, maxWindows, c);
      CrawlCovers(api, cfg, maxWindows, Step(api, cfg, maxWindows, c), start, end);
    }
  }

  // -------------------- safety against any API --------------------

  ghost predicate Grew(c: Crawl, d: Crawl) {
    && AtRest(d.disk)
    && c.disk.lines <= d.disk.lines
    && c.disk.keys <= d.disk.keys
    && c.done <= d.done
    && d.total.newTrades - c.total.newTrades == |d.disk.lines| - |c.disk.lines|
    && d.total.duplicates >= c.total.duplicates
  }

  lemma StepIsSafe(api: Api, cfg: Config, maxWindows: int, c: Crawl)
    requires cfg.Valid() && c.Live() && AtRest(c.disk)
    ensures Grew(c, Step(api, cfg, maxWindows, c))
  {
    if c.pending != [] {
      var r := c.pending[|c.pending| - 1];
      WindowPublishesAllOrNothing(api, cfg, r.lo, r.hi, c.calls, c.disk);
      var w := WindowOutcome(api, cfg, r.lo, r.hi, c.calls);
      assert c.done <= c.done + [r];
    }
  }

  /** Whatever the API answers, and however the crawl ends, the stores end at
      rest: exactly-once, append-only, and the counters count the appended lines. */
  lemma {:induction false} CrawlIsSafe(api: Api, cfg: Config, maxWindows: int, c: Crawl)
    requires cfg.Valid() && Valid(c) && AtRest(c.disk)
    ensures Grew(c, RunCrawl(api, cfg, maxWindows, c))
    decreases Fuel(c)
  {
    if c.Live() {
      StepIsSafe(api, cfg, maxWindows, c);
      StepDecreases(api, cfg, maxWindows, c);
      CrawlIsSafe(api, cfg, maxWindows, Step(api, cfg, maxWindows, c));
    }
  }
}
