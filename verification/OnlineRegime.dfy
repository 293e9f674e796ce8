/** audit/online_regime.py: regimes assigned batch by batch from strictly earlier
    labels, kept in a bounded deque. */
module OnlineRegime {
  import opened Options
  import opened Ordering

  datatype Row = Row(ts: int, conditionId: string, eligible: bool, y30: Option<int>)

  datatype Assignment = Assignment(
    conditionId: string, regime: int, sourceEnd: Option<int>, predictionTime: int, rate: Option<real>)

  datatype Settings = Settings(minHistory: int, threshold: real, window: nat)

  /** The loop's variables between two batches. */
  datatype State = State(history: seq<int>, regime: int, priorRate: Option<real>, lastTs: Option<int>)

  const START := State([], 0, None, None)

  predicate RowLe(a: Row, b: Row) {
    a.ts < b.ts || (a.ts == b.ts && StringLe(a.conditionId, b.conditionId))
  }

  function Total(history: seq<int>): int {
    if history == [] then 0 else Total(history[..|history| - 1]) + history[|history| - 1]
  }

  function Rate(history: seq<int>): Option<real> {
    if history == [] then None else Some(Total(history) as real / |history| as real)
  }

  function Abs(x: real): real { if x < 0.0 then -x else x }

  function LastN(s: seq<int>, n: nat): seq<int> {
    if |s| <= n then s else s[|s| - n..]
  }

  /** What one row contributes to the history: its label, if eligible. */
  function LabelOf(r: Row): seq<int> {
    if r.eligible && r.y30.Some? then [r.y30.value] else []
  }

  function Labels(rows: seq<Row>): seq<int> {
    if rows == [] then [] else Labels(rows[..|rows| - 1]) + LabelOf(rows[|rows| - 1])
  }

  /** The regime and prior rate a batch is assigned. */
  function Decide(cfg: Settings, st: State): (int, Option<real>) {
    var rate := Rate(st.history);
    if |st.history| >= cfg.minHistory && st.priorRate.Some? && rate.Some?
      && Abs(rate.value - st.priorRate.value) >= cfg.threshold
    then (st.regime + 1, rate)
    else if |st.history| >= cfg.minHistory && st.priorRate.None? then (st.regime, rate)
    else (st.regime, st.priorRate)
  }

  function AssignOne(cfg: Settings, st: State, r: Row): Assignment {
    Assignment(r.conditionId, Decide(cfg, st).0, st.lastTs, r.ts, Rate(st.history))
  }

  /** Only after the whole batch is assigned do its labels enter the history. */
  function AfterBatch(cfg: Settings, st: State, batch: seq<Row>): State
    requires batch != []
  {
    var d := Decide(cfg, st);
    State(LastN(st.history + Labels(batch), cfg.window), d.0, d.1, Some(batch[0].ts))
  }

  /** The state in force for row i of the sorted rows, and where i's batch starts. */
  function Cursor(cfg: Settings, rows: seq<Row>, i: nat): (c: (State, nat))
    requires i < |rows|
    ensures c.1 <= i
  {
    if i == 0 then (START, 0)
    else
      var c := Cursor(cfg, rows, i - 1);
      if rows[i].ts == rows[i - 1].ts then c else (AfterBatch(cfg, c.0, rows[c.1..i]), i)
  }

  function AssignRow(cfg: Settings, rows: seq<Row>, i: nat): Assignment
    requires i < |rows|
  {
    AssignOne(cfg, Cursor(cfg, rows, i).0, rows[i])
  }

  /** assign_online_regimes. */
  function AssignOnline(cfg: Settings, rows: seq<Row>): (out: seq<Assignment>)
    ensures |out| == |rows|
  {
    var sorted := SortBy(rows, RowLe);
    SortPermutes(rows, RowLe);
    seq(|rows|, i requires 0 <= i < |rows| => AssignRow(cfg, sorted, i))
  }

  // -------------------- the deque --------------------

  lemma LastNOfLastN(a: seq<int>, b: seq<int>, n: nat)
    ensures LastN(LastN(a, n) + b, n) == LastN(a + b, n)
  {}

  /** `history.append` on a deque of bounded length, for each row of a batch. */
  function PushAll(history: seq<int>, batch: seq<Row>, window: nat): seq<int> {
    if batch == [] then history
    else LastN(PushAll(history, batch[..|batch| - 1], window) + LabelOf(batch[|batch| - 1]), window)
  }

  lemma {:induction false} PushAllKeepsLast(history: seq<int>, batch: seq<Row>, window: nat)
    requires |history| <= window
    ensures PushAll(history, batch, window) == LastN(history + Labels(batch), window)
  {
    if batch == [] {
      assert history + [] == history;
    } else {
      var init, l := batch[..|batch| - 1], LabelOf(batch[|batch| - 1]);
      PushAllKeepsLast(history, init, window);
      LastNOfLastN(history + Labels(init), l, window);
      assert history + Labels(init) + l == history + (Labels(init) + l);
    }
  }

  lemma {:induction false} LabelsConcat(a: seq<Row>, b: seq<Row>)
    ensures Labels(a + b) == Labels(a) + Labels(b)
  {
    if b == [] {
      assert a + b == a;
    } else {
      var init := b[..|b| - 1];
      assert (a + b)[..|a + b| - 1] == a + init;
      LabelsConcat(a, init);
    }
  }

  function Counts(): Row -> bool { (r: Row) => r.eligible && r.y30.Some? }

  lemma CountsOne(r: Row)
    ensures Filter([r], Counts()) == if r.eligible && r.y30.Some? then [r] else []
  {
    assert [r][1..] == [];
  }

  /** The labels are those of the eligible rows that have one, in order. */
  lemma {:induction false} LabelsAreOfEligibleRows(rows: seq<Row>, i: nat)
    requires i < |Labels(rows)|
    ensures |Labels(rows)| == |Filter(rows, Counts())|
    ensures Filter(rows, Counts())[i].y30 == Some(Labels(rows)[i])
  {
    var init, last := rows[..|rows| - 1], rows[|rows| - 1];
    assert rows == init + [last];
    FilterConcat(init, [last], Counts());
    CountsOne(last);
    if i < |Labels(init)| {
      LabelsAreOfEligibleRows(init, i);
    } else {
      LabelCount(init);
    }
  }

  lemma {:induction false} LabelCount(rows: seq<Row>)
    ensures |Labels(rows)| == |Filter(rows, Counts())|
  {
    if rows != [] {
      var init, last := rows[..|rows| - 1], rows[|rows| - 1];
      LabelCount(init);
      assert rows == init + [last];
      FilterConcat(init, [last], Counts());
      CountsOne(last);
    }
  }

  // -------------------- what each assignment is built from --------------------

  /** `a` assigns row i of the sorted rows, whose batch starts at row k: its rate is
      that of the last `window` eligible labels of strictly earlier rows, and its
      source end the latest strictly earlier time. */
  ghost predicate BuiltFrom(cfg: Settings, a: Assignment, all: seq<Row>, k: nat, i: nat) {
    && k <= i < |all| && a.conditionId == all[i].conditionId && a.predictionTime == all[i].ts
    && (forall m :: k <= m <= i ==> all[m].ts == all[i].ts)
    && (k > 0 ==> all[k - 1].ts < all[i].ts)
    && a.rate == Rate(LastN(Labels(all[..k]), cfg.window))
    && a.sourceEnd == (if k == 0 then None else Some(all[k - 1].ts))
  }

  /** The loop's variables once the rows before p are done and p starts a batch. */
  ghost predicate StateAt(cfg: Settings, all: seq<Row>, p: nat, st: State)
    requires p <= |all|
  {
    && st.history == LastN(Labels(all[..p]), cfg.window)
    && st.lastTs == (if p == 0 then None else Some(all[p - 1].ts))
    && (0 < p < |all| ==> all[p - 1].ts < all[p].ts)
  }

  lemma StateAfterBatch(cfg: Settings, all: seq<Row>, k: nat, i: nat, st: State)
    requires k < i < |all| && StateAt(cfg, all, k, st) && all[i - 1].ts < all[i].ts
    requires forall m :: k <= m < i ==> all[m].ts == all[i - 1].ts
    ensures StateAt(cfg, all, i, AfterBatch(cfg, st, all[k..i]))
  {
    assert all[..i] == all[..k] + all[k..i];
    LabelsConcat(all[..k], all[k..i]);
    LastNOfLastN(Labels(all[..k]), Labels(all[k..i]), cfg.window);
  }

  lemma {:induction false} CursorBatchTimes(cfg: Settings, rows: seq<Row>, i: nat, m: nat)
    requires i < |rows| && Cursor(cfg, rows, i).1 <= m <= i
    ensures rows[m].ts == rows[i].ts
  {
    if m < i {
      CursorBatchTimes(cfg, rows, i - 1, m);
    }
  }

  lemma {:induction false} CursorStartsBatch(cfg: Settings, rows: seq<Row>, i: nat)
    requires i < |rows| && SortedBy(rows, RowLe)
    ensures var k := Cursor(cfg, rows, i).1; k > 0 ==> rows[k - 1].ts < rows[k].ts
  {
    if i > 0 {
      CursorStartsBatch(cfg, rows, i - 1);
      assert RowLe(rows[i - 1], rows[i]);
    }
  }

  lemma CursorBatchEnds(cfg: Settings, all: seq<Row>, i: nat)
    requires 0 < i < |all| && SortedBy(all, RowLe) && all[i].ts != all[i - 1].ts
    requires StateAt(cfg, all, Cursor(cfg, all, i - 1).1, Cursor(cfg, all, i - 1).0)
    ensures StateAt(cfg, all, Cursor(cfg, all, i).1, Cursor(cfg, all, i).0)
  {
    var c := Cursor(cfg, all, i - 1);
    assert RowLe(all[i - 1], all[i]);
    forall m | c.1 <= m < i ensures all[m].ts == all[i - 1].ts {
      CursorBatchTimes(cfg, all, i - 1, m);
    }
    StateAfterBatch(cfg, all, c.1, i, c.0);
  }

  lemma {:induction false} CursorSeesOnlyThePast(cfg: Settings, all: seq<Row>, i: nat)
    requires i < |all| && SortedBy(all, RowLe)
    ensures StateAt(cfg, all, Cursor(cfg, all, i).1, Cursor(cfg, all, i).0)
  {
    if i == 0 {
      assert all[..0] == [];
    } else {
      CursorSeesOnlyThePast(cfg, all, i - 1);
      if all[i].ts != all[i - 1].ts {
        CursorBatchEnds(cfg, all, i);
      } else {
        CursorStays(cfg, all, i);
      }
    }
  }

  /** Every assignment is built from strictly earlier rows only. */
  lemma AssignUsesOnlyThePast(cfg: Settings, rows: seq<Row>, i: nat)
    requires i < |rows|
    ensures exists k: nat :: BuiltFrom(cfg, AssignOnline(cfg, rows)[i], SortBy(rows, RowLe), k, i)
  {
    var sorted := SortBy(rows, RowLe);
    SortPermutes(rows, RowLe);
    RowLeOrder();
    SortSorts(rows, RowLe);
    CursorSeesOnlyThePast(cfg, sorted, i);
    var k := Cursor(cfg, sorted, i).1;
    forall m | k <= m <= i ensures sorted[m].ts == sorted[i].ts {
      CursorBatchTimes(cfg, sorted, i, m);
    }
    if k > 0 {
      CursorStartsBatch(cfg, sorted, i);
    }
    assert BuiltFrom(cfg, AssignOnline(cfg, rows)[i], sorted, Cursor(cfg, sorted, i).1, i);
  }

  lemma RowLeOrder()
    ensures TotalPreorder(RowLe)
  {
    StringLeOrder();
  }

  /** assert_point_in_time holds of every result. */
  lemma PointInTimeAlwaysHolds(cfg: Settings, rows: seq<Row>, i: nat)
    requires i < |rows|
    ensures var a := AssignOnline(cfg, rows)[i]; a.sourceEnd.Some? ==> a.sourceEnd.value < a.predictionTime
  {
    AssignUsesOnlyThePast(cfg, rows, i);
  }

  /** Regime ids rise by at most one from a row to the next, and only between
      batches. */
  lemma RegimesRiseByOne(cfg: Settings, rows: seq<Row>, i: nat)
    requires i + 1 < |rows|
    ensures var out := AssignOnline(cfg, rows);
      && out[i].regime <= out[i + 1].regime <= out[i].regime + 1
      && (out[i].predictionTime == out[i + 1].predictionTime ==> out[i].regime == out[i + 1].regime)
  {
    var sorted := SortBy(rows, RowLe);
    SortPermutes(rows, RowLe);
    var c, d := Cursor(cfg, sorted, i), Cursor(cfg, sorted, i + 1);
    assert AssignOnline(cfg, rows)[i + 1].regime == Decide(cfg, d.0).0;
  }

  // -------------------- non-interference --------------------

  function Earlier(t: int): Row -> bool { (r: Row) => r.ts < t }
  function At(t: int): Row -> bool { (r: Row) => r.ts == t }
  function Later(t: int): Row -> bool { (r: Row) => r.ts > t }

  function Ids(rows: seq<Row>): seq<string> {
    seq(|rows|, i requires 0 <= i < |rows| => rows[i].conditionId)
  }

  ghost predicate AllBefore(rows: seq<Row>, t: int) { forall i :: 0 <= i < |rows| ==> rows[i].ts < t }
  ghost predicate AllAt(rows: seq<Row>, t: int) { forall i :: 0 <= i < |rows| ==> rows[i].ts == t }
  ghost predicate AllAfter(rows: seq<Row>, t: int) { forall i :: 0 <= i < |rows| ==> rows[i].ts > t }

  ghost predicate TimeSorted(rows: seq<Row>) {
    forall i, j :: 0 <= i < j < |rows| ==> rows[i].ts <= rows[j].ts
  }

  predicate RowsAgree(r: Row, q: Row, t: int) {
    r.ts == q.ts <= t && r.conditionId == q.conditionId && (r.ts < t ==> r == q)
  }

  /** The first m rows of both are those up to t: the same rows before t, and at t
      rows with the same ids. */
  ghost predicate AgreeUpTo(a: seq<Row>, b: seq<Row>, t: int, m: nat) {
    && m <= |a| && m <= |b|
    && (forall i :: 0 <= i < m ==> RowsAgree(a[i], b[i], t))
  }

  lemma AgreeStrictly(a: seq<Row>, b: seq<Row>, t: int, m: nat, j: nat)
    requires AgreeUpTo(a, b, t, m) && j < m && a[j].ts < t
    ensures a[j] == b[j]
  {
    assert RowsAgree(a[j], b[j], t);
  }

  lemma SameBatch(cfg: Settings, a: seq<Row>, b: seq<Row>, t: int, m: nat, i: nat)
    requires AgreeUpTo(a, b, t, m) && 0 < i < m && a[i - 1].ts < a[i].ts
    ensures var k := Cursor(cfg, a, i - 1).1; a[k..i] == b[k..i]
  {
    var k := Cursor(cfg, a, i - 1).1;
    assert RowsAgree(a[i], b[i], t);
    forall j | k <= j < i ensures a[j] == b[j] {
      CursorBatchTimes(cfg, a, i - 1, j);
      AgreeStrictly(a, b, t, m, j);
    }
  }

  lemma {:induction false} SameCursor(cfg: Settings, a: seq<Row>, b: seq<Row>, t: int, m: nat, i: nat)
    requires AgreeUpTo(a, b, t, m) && TimeSorted(a) && i < m
    ensures Cursor(cfg, a, i) == Cursor(cfg, b, i)
  {
    if i > 0 {
      SameCursor(cfg, a, b, t, m, i - 1);
      assert RowsAgree(a[i], b[i], t) && RowsAgree(a[i - 1], b[i - 1], t);
      if a[i].ts != a[i - 1].ts {
        SameBatch(cfg, a, b, t, m, i);
      }
    }
  }

  lemma SplitsAgree(past: seq<Row>, x: seq<Row>, y: seq<Row>, u: seq<Row>, v: seq<Row>, t: int)
    requires AllBefore(past, t) && AllAt(x, t) && AllAt(y, t) && AllAfter(u, t) && AllAfter(v, t) && Ids(x) == Ids(y)
    ensures AgreeUpTo(past + x + u, past + y + v, t, |past| + |x|)
  {
    assert |x| == |Ids(x)| && |y| == |Ids(y)|;
    assert forall i :: 0 <= i < |x| ==> Ids(x)[i] == x[i].conditionId && Ids(y)[i] == y[i].conditionId;
  }

  lemma RowLeTimeSorted(rows: seq<Row>)
    requires SortedBy(rows, RowLe)
    ensures TimeSorted(rows)
  {
    forall i, j | 0 <= i < j < |rows| ensures rows[i].ts <= rows[j].ts {
      assert RowLe(rows[i], rows[j]);
    }
  }

  lemma SortedHeadSplits(r: Row, rest: seq<Row>, t: int)
    requires SortedBy([r] + rest, RowLe) && r.ts >= t
    ensures Filter(rest, Earlier(t)) == [] && (r.ts > t ==> Filter(rest, At(t)) == [])
  {
    var all := [r] + rest;
    forall x | x in rest ensures x.ts >= r.ts {
      var i :| 0 <= i < |rest| && rest[i] == x;
      assert RowLe(all[0], all[i + 1]);
    }
    FilterNone(rest, Earlier(t));
    if r.ts > t {
      FilterNone(rest, At(t));
    }
  }

  lemma {:induction false} SortedSplits(rows: seq<Row>, t: int)
    requires SortedBy(rows, RowLe)
    ensures rows == Filter(rows, Earlier(t)) + Filter(rows, At(t)) + Filter(rows, Later(t))
  {
    if rows != [] {
      SortedSplits(rows[1..], t);
      assert rows == [rows[0]] + rows[1..];
      if rows[0].ts >= t {
        SortedHeadSplits(rows[0], rows[1..], t);
      }
    }
  }

  lemma FilteredTimes(rows: seq<Row>, t: int)
    ensures AllBefore(Filter(rows, Earlier(t)), t) && AllAt(Filter(rows, At(t)), t)
      && AllAfter(Filter(rows, Later(t)), t)
  {
    FilterMembers(rows, Earlier(t));
    FilterMembers(rows, At(t));
    FilterMembers(rows, Later(t));
    var e, a, l := Filter(rows, Earlier(t)), Filter(rows, At(t)), Filter(rows, Later(t));
    assert forall i :: 0 <= i < |e| ==> e[i] in e;
    assert forall i :: 0 <= i < |a| ==> a[i] in a;
    assert forall i :: 0 <= i < |l| ==> l[i] in l;
  }

  lemma {:induction false} InsertIds(r: Row, rows: seq<Row>)
    ensures multiset(Ids(InsertBy(r, rows, RowLe))) == multiset{r.conditionId} + multiset(Ids(rows))
  {
    if rows == [] {
      assert Ids([r]) == [r.conditionId];
    } else {
      assert Ids(rows) == [rows[0].conditionId] + Ids(rows[1..]);
      if RowLe(r, rows[0]) {
        assert Ids([r] + rows) == [r.conditionId] + Ids(rows);
      } else {
        InsertIds(r, rows[1..]);
        var rest := InsertBy(r, rows[1..], RowLe);
        assert Ids([rows[0]] + rest) == [rows[0].conditionId] + Ids(rest);
      }
    }
  }

  lemma {:induction false} SortIds(rows: seq<Row>)
    ensures multiset(Ids(SortBy(rows, RowLe))) == multiset(Ids(rows))
  {
    if rows != [] {
      SortIds(rows[1..]);
      InsertIds(rows[0], SortBy(rows[1..], RowLe));
      assert Ids(rows) == [rows[0].conditionId] + Ids(rows[1..]);
    }
  }

  /** Simultaneous rows come out in the order of their ids, so the ids at t alone
      decide the order there. */
  lemma SameIdsSameOrder(a: seq<Row>, b: seq<Row>, t: int)
    requires AllAt(a, t) && AllAt(b, t) && multiset(Ids(a)) == multiset(Ids(b))
    ensures Ids(SortBy(a, RowLe)) == Ids(SortBy(b, RowLe))
  {
    SortIds(a);
    SortIds(b);
    IdsSorted(a, t);
    IdsSorted(b, t);
    StringLeOrder();
    SortedUnique(Ids(SortBy(a, RowLe)), Ids(SortBy(b, RowLe)), StringLe);
  }

  lemma IdsSorted(a: seq<Row>, t: int)
    requires AllAt(a, t)
    ensures SortedBy(Ids(SortBy(a, RowLe)), StringLe)
  {
    RowLeOrder();
    SortSorts(a, RowLe);
    SortMembers(a, RowLe);
    var s := SortBy(a, RowLe);
    forall i, j | 0 <= i < j < |s| ensures StringLe(Ids(s)[i], Ids(s)[j]) {
      assert s[i] in s && s[j] in s;
      assert RowLe(s[i], s[j]);
    }
  }

  lemma SortedParts(rows: seq<Row>, t: int)
    ensures var s := SortBy(rows, RowLe);
      && s == SortBy(Filter(rows, Earlier(t)), RowLe) + SortBy(Filter(rows, At(t)), RowLe) + Filter(s, Later(t))
      && TimeSorted(s)
      && AllBefore(SortBy(Filter(rows, Earlier(t)), RowLe), t)
      && AllAt(SortBy(Filter(rows, At(t)), RowLe), t)
      && AllAfter(Filter(s, Later(t)), t)
  {
    var s := SortBy(rows, RowLe);
    RowLeOrder();
    SortSorts(rows, RowLe);
    RowLeTimeSorted(s);
    SortedSplits(s, t);
    FilteredTimes(s, t);
    FilterSort(rows, RowLe, Earlier(t));
    FilterSort(rows, RowLe, At(t));
  }

  ghost predicate SameUpTo(a: seq<Row>, b: seq<Row>, t: int) {
    && Filter(a, Earlier(t)) == Filter(b, Earlier(t))
    && multiset(Ids(Filter(a, At(t)))) == multiset(Ids(Filter(b, At(t))))
  }

  lemma SortedInputsAgree(a: seq<Row>, b: seq<Row>, t: int)
    requires SameUpTo(a, b, t)
    ensures TimeSorted(SortBy(a, RowLe))
    ensures AgreeUpTo(SortBy(a, RowLe), SortBy(b, RowLe), t, |Filter(a, Earlier(t))| + |Filter(a, At(t))|)
  {
    SortedParts(a, t);
    SortedParts(b, t);
    FilteredTimes(a, t);
    FilteredTimes(b, t);
    SameIdsSameOrder(Filter(a, At(t)), Filter(b, At(t)), t);
    var past, x, y := SortBy(Filter(a, Earlier(t)), RowLe), SortBy(Filter(a, At(t)), RowLe),
      SortBy(Filter(b, At(t)), RowLe);
    SortPermutes(Filter(a, Earlier(t)), RowLe);
    SortPermutes(Filter(a, At(t)), RowLe);
    SplitsAgree(past, x, y, Filter(SortBy(a, RowLe), Later(t)), Filter(SortBy(b, RowLe), Later(t)), t);
  }

  /** Two inputs, in any order, with the same rows before t and the same ids at t
      get identical assignments for every row at or before t, whatever the labels
      at t and whatever comes later. */
  lemma NonInterference(cfg: Settings, a: seq<Row>, b: seq<Row>, t: int, i: nat)
    requires SameUpTo(a, b, t) && i < |Filter(a, Earlier(t))| + |Filter(a, At(t))|
    ensures i < |AssignOnline(cfg, a)| && i < |AssignOnline(cfg, b)|
    ensures AssignOnline(cfg, a)[i] == AssignOnline(cfg, b)[i]
    ensures AssignOnline(cfg, a)[i].predictionTime <= t
  {
    SortedInputsAgree(a, b, t);
    SortPermutes(a, RowLe);
    SortPermutes(b, RowLe);
    SameCursor(cfg, SortBy(a, RowLe), SortBy(b, RowLe), t, |Filter(a, Earlier(t))| + |Filter(a, At(t))|, i);
    assert RowsAgree(SortBy(a, RowLe)[i], SortBy(b, RowLe)[i], t);
  }

  // -------------------- the loop --------------------

  method PushBatch(history: seq<int>, batch: seq<Row>, window: nat) returns (after: seq<int>)
    requires |history| <= window
    ensures after == LastN(history + Labels(batch), window)
  {
    after := history;
    for i := 0 to |batch|
      invariant after == PushAll(history, batch[..i], window)
    {
      assert batch[..i + 1][..i] == batch[..i];
      after := LastN(after + LabelOf(batch[i]), window);
    }
    assert batch[..|batch|] == batch;
    PushAllKeepsLast(history, batch, window);
  }

  lemma CursorStays(cfg: Settings, rows: seq<Row>, i: nat)
    requires 0 < i < |rows| && rows[i].ts == rows[i - 1].ts
    ensures Cursor(cfg, rows, i) == Cursor(cfg, rows, i - 1)
  {}

  lemma {:induction false} CursorInBatch(cfg: Settings, rows: seq<Row>, pos: nat, i: nat)
    requires pos <= i < |rows| && Cursor(cfg, rows, pos).1 == pos
    requires forall m :: pos <= m <= i ==> rows[m].ts == rows[pos].ts
    ensures Cursor(cfg, rows, i) == Cursor(cfg, rows, pos)
  {
    if i > pos {
      CursorInBatch(cfg, rows, pos, i - 1);
      assert rows[i].ts == rows[pos].ts == rows[i - 1].ts;
      CursorStays(cfg, rows, i);
    }
  }

  method BatchEnd(ordered: seq<Row>, pos: nat) returns (end: nat)
    requires pos < |ordered|
    ensures pos < end <= |ordered|
    ensures forall m :: pos <= m < end ==> ordered[m].ts == ordered[pos].ts
    ensures end < |ordered| ==> ordered[end].ts != ordered[pos].ts
  {
    end := pos;
    while end < |ordered| && ordered[end].ts == ordered[pos].ts
      invariant pos <= end <= |ordered|
      invariant forall m :: pos <= m < end ==> ordered[m].ts == ordered[pos].ts
    {
      end := end + 1;
    }
  }

  lemma NextCursor(cfg: Settings, rows: seq<Row>, pos: nat, end: nat, st: State)
    requires pos < end < |rows| && Cursor(cfg, rows, end - 1) == (st, pos)
    requires rows[end].ts != rows[end - 1].ts
    ensures Cursor(cfg, rows, end) == (AfterBatch(cfg, st, rows[pos..end]), end)
  {}

  ghost predicate Done(cfg: Settings, ordered: seq<Row>, out: seq<Assignment>)
    requires |out| <= |ordered|
  {
    forall i :: 0 <= i < |out| ==> out[i] == AssignRow(cfg, ordered, i)
  }

  lemma DoneIsAll(cfg: Settings, rows: seq<Row>, out: seq<Assignment>)
    requires |out| == |SortBy(rows, RowLe)| && Done(cfg, SortBy(rows, RowLe), out)
    ensures out == AssignOnline(cfg, rows)
  {
    SortPermutes(rows, RowLe);
  }

  lemma AfterBatchState(cfg: Settings, st: State, batch: seq<Row>, history: seq<int>, regime: int,
      priorRate: Option<real>)
    requires batch != [] && (regime, priorRate) == Decide(cfg, st)
    requires history == LastN(st.history + Labels(batch), cfg.window)
    ensures AfterBatch(cfg, st, batch) == State(history, regime, priorRate, Some(batch[0].ts))
    ensures |history| <= cfg.window
  {}

  ghost predicate SameTimes(rows: seq<Row>, pos: nat, end: nat) {
    pos <= end <= |rows| && forall m :: pos <= m < end ==> rows[m].ts == rows[pos].ts
  }

  /** What a row of the batch at pos is assigned. */
  lemma AssignInBatch(cfg: Settings, rows: seq<Row>, pos: nat, end: nat, i: nat)
    requires SameTimes(rows, pos, end) && pos <= i < end && Cursor(cfg, rows, pos).1 == pos
    ensures var st := Cursor(cfg, rows, pos).0;
      AssignRow(cfg, rows, i)
        == Assignment(rows[i].conditionId, Decide(cfg, st).0, st.lastTs, rows[i].ts, Rate(st.history))
  {
    CursorInBatch(cfg, rows, pos, i);
  }

  lemma DonePush(cfg: Settings, ordered: seq<Row>, out: seq<Assignment>, a: Assignment)
    requires |out| < |ordered| && Done(cfg, ordered, out) && a == AssignRow(cfg, ordered, |out|)
    ensures Done(cfg, ordered, out + [a])
  {}

  /** The first inner loop: every row of the batch gets the same decision. */
  method AssignRows(cfg: Settings, ordered: seq<Row>, pos: nat, end: nat, before: seq<Assignment>,
      regime: int, sourceEnd: Option<int>, rate: Option<real>)
    returns (out: seq<Assignment>)
    requires pos < end <= |ordered| && |before| == pos && Done(cfg, ordered, before)
    requires Cursor(cfg, ordered, pos).1 == pos && SameTimes(ordered, pos, end)
    requires var st := Cursor(cfg, ordered, pos).0;
      regime == Decide(cfg, st).0 && sourceEnd == st.lastTs && rate == Rate(st.history)
    ensures |out| == end && Done(cfg, ordered, out)
  {
    out := before;
    for i := pos to end
      invariant |out| == i && Done(cfg, ordered, out)
    {
      AssignInBatch(cfg, ordered, pos, end, i);
      var a := Assignment(ordered[i].conditionId, regime, sourceEnd, ordered[i].ts, rate);
      DonePush(cfg, ordered, out, a);
      out := out + [a];
    }
  }

  method UpdateRegime(cfg: Settings, ghost st: State, size: nat, rate: Option<real>, before: int, prior: Option<real>)
    returns (regime: int, priorRate: Option<real>)
    requires size == |st.history| && rate == Rate(st.history) && before == st.regime && prior == st.priorRate
    ensures (regime, priorRate) == Decide(cfg, st)
  {
    regime, priorRate := before, prior;
    if size >= cfg.minHistory && prior.Some? && rate.Some? && Abs(rate.value - prior.value) >= cfg.threshold {
      regime, priorRate := before + 1, rate;
    } else if size >= cfg.minHistory && prior.None? {
      priorRate := rate;
    }
  }

  /** The loop variables where a batch starts: its state, and all rows before it done. */
  ghost predicate AtBatch(cfg: Settings, ordered: seq<Row>, pos: nat, st: State, out: seq<Assignment>) {
    && pos <= |ordered| && |st.history| <= cfg.window && |out| == pos && Done(cfg, ordered, out)
    && (pos < |ordered| ==> Cursor(cfg, ordered, pos) == (st, pos))
  }

  lemma BatchDone(cfg: Settings, ordered: seq<Row>, pos: nat, end: nat, st: State, out: seq<Assignment>, after: State)
    requires pos < end <= |ordered| && Cursor(cfg, ordered, pos) == (st, pos) && SameTimes(ordered, pos, end)
    requires end < |ordered| ==> ordered[end].ts != ordered[pos].ts
    requires |out| == end && Done(cfg, ordered, out)
    requires after == AfterBatch(cfg, st, ordered[pos..end]) && |after.history| <= cfg.window
    ensures AtBatch(cfg, ordered, end, after, out)
  {
    if end < |ordered| {
      CursorInBatch(cfg, ordered, pos, end - 1);
      NextCursor(cfg, ordered, pos, end, st);
    }
  }

  /** The body of the loop: decide, assign the batch, and only then let its labels in. */
  method AssignBatch(cfg: Settings, ordered: seq<Row>, pos: nat, st: State, before: seq<Assignment>)
    returns (end: nat, after: State, out: seq<Assignment>)
    requires AtBatch(cfg, ordered, pos, st, before) && pos < |ordered|
    ensures pos < end && AtBatch(cfg, ordered, end, after, out)
  {
    end := BatchEnd(ordered, pos);
    var rate := Rate(st.history);
    var regime, priorRate := UpdateRegime(cfg, st, |st.history|, rate, st.regime, st.priorRate);
    out := AssignRows(cfg, ordered, pos, end, before, regime, st.lastTs, rate);
    var history := PushBatch(st.history, ordered[pos..end], cfg.window);
    AfterBatchState(cfg, st, ordered[pos..end], history, regime, priorRate);
    after := State(history, regime, priorRate, Some(ordered[pos].ts));
    BatchDone(cfg, ordered, pos, end, st, out, after);
  }

  method AssignOnlineRegimes(rows: seq<Row>, cfg: Settings) returns (out: seq<Assignment>)
    ensures out == AssignOnline(cfg, rows)
  {
    var ordered := SortBy(rows, RowLe);
    var st, pos := START, 0;
    out := [];
    while pos < |ordered|
      invariant AtBatch(cfg, ordered, pos, st, out)
    {
      pos, st, out := AssignBatch(cfg, ordered, pos, st, out);
    }
    DoneIsAll(cfg, rows, out);
  }
}
