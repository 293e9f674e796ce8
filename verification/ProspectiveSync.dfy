/** collectors/prospective_std0_trades.py: the syncer object, proved against the
    crawl that BisectionCrawl and SyncCompleteness reason about. */
module ProspectiveSync {
  import opened Options
  import opened Storage
  import opened Publication
  import opened WindowFetch
  import opened BisectionCrawl
  import opened SyncCompleteness

  const NAMESPACE := "std0_trades_prospective"
  const PUBLISHED := "prospective-published"

  /** What one pass through the loop body does to the crawl, and to its outcome. */
  lemma NextIteration(api: Api, cfg: Config, maxWindows: int, c: Crawl, start: int, end: int) returns (d: Crawl)
    requires cfg.Valid() && c.Live() && Valid(c) && Cover(c, start, end) && c.pending != []
    requires c.total.windows + Work(c.pending) <= 2 * (end - start + 1) - 1
    ensures c.total.windows >= maxWindows ==> RunCrawl(api, cfg, maxWindows, c) == c.Stop(MaxWindowsReached)
    ensures var r := c.pending[|c.pending| - 1];
      d == Advance(c, WindowOutcome(api, cfg, r.lo, r.hi, c.calls))
    ensures c.total.windows < maxWindows ==>
      && (d.Live() ==>
        && Valid(d) && Cover(d, start, end) && Fuel(d) < Fuel(c)
        && d.total.windows + Work(d.pending) <= 2 * (end - start + 1) - 1
        && RunCrawl(api, cfg, maxWindows, c) == RunCrawl(api, cfg, maxWindows, d))
      && (!d.Live() ==> RunCrawl(api, cfg, maxWindows, c) == d)
  {
    StepKeepsCover(api, cfg, maxWindows, c, start, end);
    StepDecreases(api, cfg, maxWindows, c);
    var r := c.pending[|c.pending| - 1];
    d := Advance(c, WindowOutcome(api, cfg, r.lo, r.hi, c.calls));
  }

  lemma RegisteredKeysIn(rows: map<(string, string), string>, keys: seq<string>, runId: string)
    ensures KeysIn(Registered(rows, NAMESPACE, keys, runId), NAMESPACE) == KeysIn(rows, NAMESPACE) + set k | k in keys
  {
    RegisteredRows(rows, NAMESPACE, keys, runId);
    var after := Registered(rows, NAMESPACE, keys, runId);
    forall k | k in KeysIn(rows, NAMESPACE) || k in keys ensures k in KeysIn(after, NAMESPACE) {
      assert (NAMESPACE, k) in after;
    }
  }

  /** The comprehension that picks the records whose identity is to be appended. */
  function Selected(records: seq<Record>, wanted: set<string>): seq<Record> {
    if records == [] then []
    else (if records[0].identity in wanted then [records[0]] else []) + Selected(records[1..], wanted)
  }

  lemma {:induction false} SelectedIsFresh(records: seq<Record>, wanted: set<string>, known: set<string>)
    requires forall r :: r in records ==> (r.identity in wanted <==> r.identity !in known)
    ensures Selected(records, wanted) == FreshRecords(records, known)
  {
    if records != [] {
      SelectedIsFresh(records[1..], wanted, known);
    }
  }

  lemma UnseenAreFresh(records: seq<Record>, unseen: seq<string>, known: set<string>)
    requires unseen == FreshKeys(Identities(records), known)
    ensures Selected(records, (set k | k in unseen)) == FreshRecords(records, known)
    ensures (set k | k in unseen) == IdSet(FreshRecords(records, known))
  {
    FreshKeysMembers(Identities(records), known);
    FreshRecordsKeys(records, known);
    FreshRecordsIds(records, known);
    forall r | r in records ensures r.identity in Identities(records) {
      var i :| 0 <= i < |records| && records[i] == r;
      assert Identities(records)[i] == r.identity;
    }
    SelectedIsFresh(records, (set k | k in unseen), known);
    forall k | k in Identities(records) ensures k in IdSet(records) {
      var i :| 0 <= i < |records| && Identities(records)[i] == k;
      assert records[i] in records;
    }
  }

  lemma FetchUnfolds(api: Api, cfg: Config, lo: int, hi: int, offset: nat, w: Window, step: PageStep)
    requires cfg.Valid() && step == TakePage(cfg, lo, hi, offset, w, api(w.calls, lo, hi, offset))
    ensures FetchPages(api, cfg, lo, hi, offset, w)
      == if step.More? then FetchPages(api, cfg, lo, hi, offset + cfg.pageLimit, step.w) else step.w
    ensures step.More? ==> offset + cfg.pageLimit <= cfg.maxOffset
  {}

  class ProspectiveTradesSyncer {
    const api: Api
    const cfg: Config
    const state: SqliteState
    const rawWriter: AppendOnlyNDJSON
    /** Requests sent so far: the time the API sees. */
    var calls: nat

    constructor (api: Api, cfg: Config, state: SqliteState, rawWriter: AppendOnlyNDJSON)
      ensures this.api == api && this.cfg == cfg && this.state == state && this.rawWriter == rawWriter
      ensures calls == 0
    {
      this.api, this.cfg, this.state, this.rawWriter, calls := api, cfg, state, rawWriter, 0;
    }

    ghost function OnDisk(): Disk
      reads state, rawWriter
    {
      Disk(rawWriter.lines, rawWriter.flushed, KeysIn(state.dedupe, NAMESPACE), KeysIn(state.committed, NAMESPACE))
    }

    method AppendNew(records: seq<Record>) returns (published: nat)
      modifies state, rawWriter
      ensures OnDisk() == DoAll(old(OnDisk()), AppendOps(old(OnDisk()), records))
      ensures published == |rawWriter.lines| - |old(rawWriter.lines)|
    {
      ghost var d := OnDisk();
      AppendOpsInFull(d, records);
      var identities := Identities(records);
      var unseen := state.FilterNewKeys(NAMESPACE, identities);
      var toAppend := Selected(records, (set k | k in unseen));
      UnseenAreFresh(records, unseen, d.keys);
      if toAppend != [] {
        var count := rawWriter.AppendMany(toAppend);
        RegisteredKeysIn(state.dedupe, unseen, PUBLISHED);
        var inserted := state.RegisterKeys(NAMESPACE, unseen, PUBLISHED);
      }
      published := |toAppend|;
    }

    static method StrictPageViolation(rows: seq<Record>, lo: int, hi: int) returns (v: Option<Status>)
      ensures v == PageViolation(rows, lo, hi)
    {
      for i := 0 to |rows|
        invariant PageViolation(rows, lo, hi) == PageViolation(rows[i..], lo, hi)
      {
        assert rows[i..][1..] == rows[i + 1..];
        if rows[i].publicMs == None {
          return Some(TimestampInvalid);
        }
        if rows[i].publicMs.value < lo * 1000 || rows[i].publicMs.value > hi * 1000 {
          return Some(TimeParamsNotHonored);
        }
      }
      v := None;
    }

    static method StageRows(before: seq<Record>, seenBefore: set<string>, rows: seq<Record>)
      returns (staged: seq<Record>, seen: set<string>)
      requires seenBefore == IdSet(before)
      ensures staged == Stage(before, rows) && seen == IdSet(staged)
    {
      staged, seen := before, seenBefore;
      for i := 0 to |rows|
        invariant staged == Stage(before, rows[..i]) && seen == IdSet(staged)
      {
        assert rows[..i + 1][..i] == rows[..i];
        if rows[i].identity !in seen {
          IdSetConcat(staged, [rows[i]]);
          seen := seen + {rows[i].identity};
          staged := staged + [rows[i]];
        }
      }
      assert rows[..|rows|] == rows;
    }

    /** The page just saved: check it whole, stage it, and see whether more are due. */
    static method TakeRows(
        cfg: Config, lo: int, hi: int, offset: nat, before: Window, seenBefore: set<string>, rows: seq<Record>)
      returns (more: bool, w: Window, seen: set<string>)
      requires seenBefore == IdSet(before.staged)
      ensures TakePage(cfg, lo, hi, offset, before, Page(rows)) == if more then More(w) else Stop(w)
      ensures more ==> seen == IdSet(w.staged)
    {
      w := before.(
        calls := before.calls + 1, pages := before.pages + 1, fetched := before.fetched + rows);
      seen := seenBefore;
      var violation := StrictPageViolation(rows, lo, hi);
      if violation.Some? {
        return false, w.(status := violation.value), seen;
      }
      var staged;
      staged, seen := StageRows(before.staged, seenBefore, rows);
      w := w.(staged := staged);
      if |rows| < cfg.pageLimit {
        return false, w.(status := if staged == [] then Empty else Complete), seen;
      }
      if offset + cfg.pageLimit > cfg.maxOffset {
        return false, w.(status := OffsetLimitReached), seen;
      }
      more := true;
    }

    /** One request and what its reply does to the window. */
    method RequestPage(lo: int, hi: int, offset: nat, before: Window, seenBefore: set<string>)
      returns (more: bool, w: Window, seen: set<string>)
      requires seenBefore == IdSet(before.staged) && before.calls == calls
      modifies this`calls
      ensures TakePage(cfg, lo, hi, offset, before, api(old(calls), lo, hi, offset))
        == if more then More(w) else Stop(w)
      ensures (more ==> seen == IdSet(w.staged)) && calls == w.calls
    {
      var response := api(calls, lo, hi, offset);
      calls := calls + 1;
      match response {
        case OffsetCap => more, w, seen := false, before.(status := OffsetLimitReached, calls := calls), seenBefore;
        case Unavailable => more, w, seen := false, before.(status := Raised, calls := calls), seenBefore;
        case Page(rows) => more, w, seen := TakeRows(cfg, lo, hi, offset, before, seenBefore, rows);
      }
    }

    /** The paging loop of _fetch_window; nothing is published here. */
    method StagePages(lo: int, hi: int) returns (w: Window)
      requires cfg.Valid()
      modifies this`calls
      ensures w == WindowOutcome(api, cfg, lo, hi, old(calls)) && calls == w.calls
    {
      w := Window(Complete, 0, [], [], calls);
      var seen: set<string>, offset: nat, more := {}, 0, true;
      while more
        invariant calls == w.calls
        invariant more ==> seen == IdSet(w.staged)
        invariant WindowOutcome(api, cfg, lo, hi, old(calls))
          == if more then FetchPages(api, cfg, lo, hi, offset, w) else w
        decreases more, cfg.maxOffset - offset
      {
        FetchUnfolds(api, cfg, lo, hi, offset, w, TakePage(cfg, lo, hi, offset, w, api(w.calls, lo, hi, offset)));
        more, w, seen := RequestPage(lo, hi, offset, w, seen);
        if more {
          offset := offset + cfg.pageLimit;
        }
      }
    }

    /** _fetch_window. `w.status == Raised` stands for an exception leaving it. */
    method FetchWindow(lo: int, hi: int) returns (w: Window, published: nat)
      requires cfg.Valid()
      modifies this`calls, state, rawWriter
      ensures w == WindowOutcome(api, cfg, lo, hi, old(calls)) && calls == w.calls
      ensures OnDisk() == Publish(old(OnDisk()), w)
      ensures published == |rawWriter.lines| - |old(rawWriter.lines)|
    {
      w := StagePages(lo, hi);
      published := 0;
      if w.Publishes() && w.staged != [] {
        published := AppendNew(w.staged);
      }
    }

    /** The body of sync_range's loop: pop the newest range, fetch its window, and
        push its halves if the offset cap was hit. */
    method Visit(stack: seq<Range>, before: SyncResult, ghost done: seq<Range>)
      returns (pending: seq<Range>, aggregate: SyncResult)
      requires cfg.Valid() && stack != [] && before.status == Running
      modifies this`calls, state, rawWriter
      ensures var r := stack[|stack| - 1];
        var d := Advance(
          Crawl(before, stack, done, old(OnDisk()), old(calls)),
          WindowOutcome(api, cfg, r.lo, r.hi, old(calls)));
        d.pending == pending && d.total == aggregate && d.disk == OnDisk() && d.calls == calls
    {
      var r := stack[|stack| - 1];
      pending := stack[..|stack| - 1];
      var w, published := FetchWindow(r.lo, r.hi);
      if w.status == Raised {
        return pending, before.(status := SyncRaised);
      }
      aggregate := before.Absorb(w, published);
      if w.status == OffsetLimitReached {
        if r.lo == r.hi {
          aggregate := aggregate.(status := UnsplittableSecond);
        } else {
          var mid := (r.lo + r.hi) / 2;
          pending := pending + [Range(r.lo, mid)];
          pending := pending + [Range(mid + 1, r.hi)];
        }
      } else if w.status !in {Complete, Empty} {
        aggregate := aggregate.(status := WindowFailed(w.status));
      }
    }

    /** sync_range. None stands for an exception leaving it. */
    method SyncRange(startMs: int, endMs: int, maxWindows: int) returns (result: Option<SyncResult>)
      requires cfg.Valid()
      modifies this`calls, state, rawWriter
      ensures endMs < startMs ==> result == None && unchanged(this) && unchanged(state) && unchanged(rawWriter)
      ensures endMs >= startMs ==>
        var c := SyncOutcome(api, cfg, startMs, endMs, maxWindows, old(OnDisk()), old(calls));
        && OnDisk() == c.disk && calls == c.calls
        && result == if c.total.status == SyncRaised then None else Some(c.total)
    {
      if endMs < startMs {
        return None;
      }
      var startS, endS := FirstSecond(startMs), LastSecond(endMs);
      var aggregate := NO_RESULT;
      if startS > endS {
        return Some(aggregate);
      }
      aggregate := aggregate.(status := Running);
      var pending := [Range(startS, endS)];
      ghost var c := StartCrawl(startMs, endMs, OnDisk(), calls);
      StartCovers(startMs, endMs, OnDisk(), calls);
      while pending != []
        invariant c == Crawl(aggregate, pending, c.done, OnDisk(), calls) && c.Live()
        invariant Valid(c) && Cover(c, startS, endS)
        invariant c.total.windows + Work(c.pending) <= 2 * (endS - startS + 1) - 1
        invariant RunCrawl(api, cfg, maxWindows, c)
          == SyncOutcome(api, cfg, startMs, endMs, maxWindows, old(OnDisk()), old(calls))
        decreases Fuel(c)
      {
        ghost var next := NextIteration(api, cfg, maxWindows, c, startS, endS);
        if aggregate.windows >= maxWindows {
          return Some(aggregate.(status := MaxWindowsReached));
        }
        pending, aggregate := Visit(pending, aggregate, c.done);
        c := next;
        if aggregate.status == SyncRaised {
          return None;
        }
        if aggregate.status != Running {
          return Some(aggregate);
        }
      }
      return Some(aggregate.(status := SyncComplete));
    }
  }
}
