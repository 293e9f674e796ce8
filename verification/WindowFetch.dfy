/** `_fetch_window` of collectors/prospective_std0_trades.py: paging through one
    second range against an arbitrary API, staging, then publishing or not. */
module WindowFetch {
  import opened Options
  import opened Storage
  import opened Publication

  /** A page, the API's offset-cap error, or any other failure of the request. */
  datatype Response = Page(rows: seq<Record>) | OffsetCap | Unavailable

  /** The API as seen over a run: the reply may depend on when it is asked. */
  type Api = (nat, int, int, nat) -> Response

  /** config.py bounds both settings. */
  datatype Config = Config(pageLimit: nat, maxOffset: nat) {
    ghost predicate Valid() { pageLimit >= 1 }
  }

  datatype Status = Complete | Empty | OffsetLimitReached | TimestampInvalid | TimeParamsNotHonored | Raised

  /** `fetched` is every row of every page saved for the audit trail. */
  datatype Window = Window(status: Status, pages: nat, fetched: seq<Record>, staged: seq<Record>, calls: nat) {
    predicate Publishes() { status in {Complete, Empty} }
  }

  predicate Inside(r: Record, lo: int, hi: int) {
    r.publicMs.Some? && lo * 1000 <= r.publicMs.value <= hi * 1000
  }

  /** The status of the first row that breaks the strict boundary. */
  function PageViolation(rows: seq<Record>, lo: int, hi: int): (v: Option<Status>)
    ensures v == None <==> forall r :: r in rows ==> Inside(r, lo, hi)
    ensures v != None ==> v.value in {TimestampInvalid, TimeParamsNotHonored}
  {
    if rows == [] then None
    else if (assert rows[0] in rows; rows[0].publicMs == None) then Some(TimestampInvalid)
    else if (assert rows[0] in rows; !Inside(rows[0], lo, hi)) then Some(TimeParamsNotHonored)
    else
      assert rows == [rows[0]] + rows[1..];
      PageViolation(rows[1..], lo, hi)
  }

  /** The status reported is that of the first row out of bounds: invalid if its time
      does not parse, else not honored. */
  lemma {:induction false} FirstOffenderDecides(rows: seq<Record>, lo: int, hi: int, i: nat)
    requires i < |rows| && !Inside(rows[i], lo, hi)
    requires forall j :: 0 <= j < i ==> Inside(rows[j], lo, hi)
    ensures PageViolation(rows, lo, hi)
      == Some(if rows[i].publicMs.None? then TimestampInvalid else TimeParamsNotHonored)
  {
    if i > 0 {
      assert Inside(rows[0], lo, hi);
      FirstOffenderDecides(rows[1..], lo, hi, i - 1);
    }
  }

  /** Stage the rows whose identity this window has not seen yet. */
  function Stage(staged: seq<Record>, rows: seq<Record>): seq<Record> {
    if rows == [] then staged
    else
      var init := Stage(staged, rows[..|rows| - 1]);
      var row := rows[|rows| - 1];
      if row.identity in IdSet(init) then init else init + [row]
  }

  datatype PageStep = Stop(w: Window) | More(w: Window)

  /** What one reply does to the window: stop with a status, or ask for more. */
  function TakePage(cfg: Config, lo: int, hi: int, offset: nat, w: Window, response: Response): (s: PageStep)
    ensures s.More? ==> offset + cfg.pageLimit <= cfg.maxOffset
  {
    match response
    case OffsetCap => Stop(w.(status := OffsetLimitReached, calls := w.calls + 1))
    case Unavailable => Stop(w.(status := Raised, calls := w.calls + 1))
    case Page(rows) =>
      var saved := w.(calls := w.calls + 1, pages := w.pages + 1, fetched := w.fetched + rows);
      var violation := PageViolation(rows, lo, hi);
      if violation.Some? then Stop(saved.(status := violation.value))
      else
        var next := saved.(staged := Stage(w.staged, rows));
        if |rows| < cfg.pageLimit then Stop(next.(status := if next.staged == [] then Empty else Complete))
        else if offset + cfg.pageLimit > cfg.maxOffset then Stop(next.(status := OffsetLimitReached))
        else More(next)
  }

  function FetchPages(api: Api, cfg: Config, lo: int, hi: int, offset: nat, w: Window): Window
    requires cfg.Valid()
    decreases cfg.maxOffset - offset
  {
    match TakePage(cfg, lo, hi, offset, w, api(w.calls, lo, hi, offset))
    case Stop(last) => last
    case More(next) => FetchPages(api, cfg, lo, hi, offset + cfg.pageLimit, next)
  }

  function WindowOutcome(api: Api, cfg: Config, lo: int, hi: int, calls: nat): Window
    requires cfg.Valid()
  {
    FetchPages(api, cfg, lo, hi, 0, Window(Complete, 0, [], [], calls))
  }

  function Publish(d: Disk, w: Window): Disk {
    if w.Publishes() && w.staged != [] then DoAll(d, AppendOps(d, w.staged)) else d
  }

  ghost predicate Staged(w: Window, lo: int, hi: int) {
    && DistinctIds(w.staged)
    && (forall r :: r in w.staged ==> r in w.fetched && Inside(r, lo, hi))
    && (w.status in {Complete, Empty} ==> IdSet(w.staged) == IdSet(w.fetched))
    && (w.status == Empty ==> w.staged == [])
  }

  /** s holds what staged held and one record for each further identity of the rows. */
  ghost predicate StagedFrom(s: seq<Record>, staged: seq<Record>, rows: seq<Record>) {
    && DistinctIds(s)
    && (forall r :: r in s ==> r in staged || r in rows)
    && IdSet(s) == IdSet(staged) + IdSet(rows)
  }

  lemma PushDistinct(s: seq<Record>, row: Record)
    requires DistinctIds(s) && row.identity !in IdSet(s)
    ensures DistinctIds(s + [row])
  {
    forall i | 0 <= i < |s| ensures s[i].identity != row.identity {
      assert s[i] in s;
    }
  }

  lemma IdSetPush(s: seq<Record>, row: Record)
    ensures IdSet(s + [row]) == IdSet(s) + {row.identity}
  {
    IdSetConcat(s, [row]);
    assert row in [row];
  }

  lemma StageOne(before: seq<Record>, staged: seq<Record>, init: seq<Record>, row: Record)
    requires StagedFrom(before, staged, init) && row.identity !in IdSet(before)
    ensures StagedFrom(before + [row], staged, init + [row])
  {
    IdSetPush(init, row);
    IdSetPush(before, row);
    PushDistinct(before, row);
  }

  lemma StageAgain(before: seq<Record>, staged: seq<Record>, init: seq<Record>, row: Record)
    requires StagedFrom(before, staged, init) && row.identity in IdSet(before)
    ensures StagedFrom(before, staged, init + [row])
  {
    IdSetPush(init, row);
  }

  lemma NothingStaged(staged: seq<Record>)
    requires DistinctIds(staged)
    ensures StagedFrom(staged, staged, [])
  {}

  lemma {:induction false} StageFacts(staged: seq<Record>, rows: seq<Record>, s: seq<Record>)
    requires DistinctIds(staged) && s == Stage(staged, rows)
    ensures StagedFrom(s, staged, rows)
  {
    if rows == [] {
      NothingStaged(staged);
    } else {
      var init, row := rows[..|rows| - 1], rows[|rows| - 1];
      var before := Stage(staged, init);
      StageFacts(staged, init, before);
      if row.identity in IdSet(before) {
        StageAgain(before, staged, init, row);
      } else {
        StageOne(before, staged, init, row);
      }
      assert rows == init + [row];
    }
  }

  lemma TakePageStages(cfg: Config, lo: int, hi: int, offset: nat, w: Window, response: Response)
    requires w.status == Complete && Staged(w, lo, hi)
    ensures var s := TakePage(cfg, lo, hi, offset, w, response);
      Staged(s.w, lo, hi) && (s.More? ==> s.w.status == Complete)
  {
    if response.Page? && PageViolation(response.rows, lo, hi) == None {
      StageFacts(w.staged, response.rows, Stage(w.staged, response.rows));
      IdSetConcat(w.fetched, response.rows);
    }
  }

  /** Whatever the API does, a window stages one record per identity it fetched,
      every one of them inside the window. */
  lemma {:induction false} FetchPagesStages(api: Api, cfg: Config, lo: int, hi: int, offset: nat, w: Window)
    requires cfg.Valid() && w.status == Complete && Staged(w, lo, hi)
    ensures Staged(FetchPages(api, cfg, lo, hi, offset, w), lo, hi)
    decreases cfg.maxOffset - offset
  {
    var response := api(w.calls, lo, hi, offset);
    TakePageStages(cfg, lo, hi, offset, w, response);
    var step := TakePage(cfg, lo, hi, offset, w, response);
    if step.More? {
      FetchPagesStages(api, cfg, lo, hi, offset + cfg.pageLimit, step.w);
    }
  }

  /** For any API behaviour a window publishes all its distinct fresh identities
      or nothing, and every line it adds lies inside the window. */
  lemma WindowPublishesAllOrNothing(api: Api, cfg: Config, lo: int, hi: int, calls: nat, d: Disk)
    requires cfg.Valid() && AtRest(d)
    ensures var w := WindowOutcome(api, cfg, lo, hi, calls);
      var e := Publish(d, w);
      && AtRest(e) && d.lines <= e.lines
      && (forall r :: r in e.lines[|d.lines|..] ==> r in w.fetched && Inside(r, lo, hi) && r.identity !in d.keys)
      && e.keys == (if w.Publishes() then d.keys + IdSet(w.fetched) else d.keys)
      && (!w.Publishes() ==> e == d)
      && |e.lines| - |d.lines| <= |w.staged|
  {
    var start := Window(Complete, 0, [], [], calls);
    assert IdSet(start.staged) == IdSet(start.fetched);
    FetchPagesStages(api, cfg, lo, hi, 0, start);
    var w := WindowOutcome(api, cfg, lo, hi, calls);
    if w.Publishes() && w.staged != [] {
      PublishKeepsExactlyOnce(d, w.staged);
      FreshRecordsMembers(w.staged, d.keys);
      assert Publish(d, w).lines[|d.lines|..] == FreshRecords(w.staged, d.keys);
    } else if w.Publishes() {
      assert IdSet(w.staged) == {};
    }
  }
}
