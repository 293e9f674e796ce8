/** When audit/online_regime.py opens a new regime, told from the labels before each
    batch and the ids alone. */
module RegimeChanges {
  import opened Options
  import opened Ordering
  import opened OnlineRegime

  /** The labels a batch that starts at row k may see. */
  function Seen(cfg: Settings, rows: seq<Row>, k: nat): seq<int>
    requires k <= |rows|
  {
    LastN(Labels(rows[..k]), cfg.window)
  }

  predicate BatchStart(rows: seq<Row>, k: nat) {
    k < |rows| && (k > 0 ==> rows[k - 1].ts != rows[k].ts)
  }

  /** Enough labels to have a rate and trust it. */
  predicate Ready(cfg: Settings, rows: seq<Row>, k: nat)
    requires k <= |rows|
  {
    |Seen(cfg, rows, k)| >= cfg.minHistory && Seen(cfg, rows, k) != []
  }

  function RateAt(cfg: Settings, rows: seq<Row>, k: nat): real
    requires k <= |rows| && Ready(cfg, rows, k)
  {
    Total(Seen(cfg, rows, k)) as real / |Seen(cfg, rows, k)| as real
  }

  predicate Rises(out: seq<Assignment>, k: nat) {
    0 < k < |out| && out[k].regime == out[k - 1].regime + 1
  }

  ghost predicate NoneReady(cfg: Settings, rows: seq<Row>, k: nat)
    requires k <= |rows|
  {
    forall j :: 0 <= j < k && BatchStart(rows, j) ==> !Ready(cfg, rows, j)
  }

  /** A batch whose rate becomes the reference: the first ready one, or a rise. */
  ghost predicate Anchor(cfg: Settings, rows: seq<Row>, out: seq<Assignment>, k: nat) {
    BatchStart(rows, k) && Ready(cfg, rows, k) && (Rises(out, k) || NoneReady(cfg, rows, k))
  }

  ghost predicate LastAnchor(cfg: Settings, rows: seq<Row>, out: seq<Assignment>, j: nat, k: nat) {
    j < k && Anchor(cfg, rows, out, j) && forall m :: j < m < k ==> !Anchor(cfg, rows, out, m)
  }

  /** One rate is at least the threshold above the other. */
  predicate FarApart(x: real, y: real, threshold: real) { x - y >= threshold || y - x >= threshold }

  /** The rate at k is at least the threshold away from the reference rate. */
  ghost predicate Shifted(cfg: Settings, rows: seq<Row>, out: seq<Assignment>, k: nat)
    requires k < |rows| && Ready(cfg, rows, k)
  {
    exists j: nat :: LastAnchor(cfg, rows, out, j, k)
      && FarApart(RateAt(cfg, rows, k), RateAt(cfg, rows, j), cfg.threshold)
  }

  /** `out` holds the assignments of the rows, which are in order. */
  ghost predicate Assigned(cfg: Settings, rows: seq<Row>, out: seq<Assignment>) {
    SortedBy(rows, RowLe) && |out| == |rows| && forall i :: 0 <= i < |rows| ==> out[i] == AssignRow(cfg, rows, i)
  }

  /** The reference rate is that of the last anchor before k, none while none was ready. */
  ghost predicate PriorIs(cfg: Settings, rows: seq<Row>, out: seq<Assignment>, k: nat, prior: Option<real>)
    requires k <= |rows|
  {
    match prior
    case None => NoneReady(cfg, rows, k)
    case Some(x) => exists j: nat :: LastAnchor(cfg, rows, out, j, k) && RateAt(cfg, rows, j) == x
  }

  lemma StartOfBatch(cfg: Settings, rows: seq<Row>, i: nat)
    requires i < |rows|
    ensures BatchStart(rows, i) ==> Cursor(cfg, rows, i).1 == i
    ensures BatchStart(rows, Cursor(cfg, rows, i).1)
  {
    if i > 0 && rows[i].ts == rows[i - 1].ts {
      StartOfBatch(cfg, rows, i - 1);
    }
  }

  /** Only the start of a batch lies between the starts of it and the next. */
  lemma NoStartInside(cfg: Settings, rows: seq<Row>, i: nat, m: nat)
    requires 0 < i < |rows| && Cursor(cfg, rows, i - 1).1 < m < i
    ensures !BatchStart(rows, m)
  {
    CursorBatchTimes(cfg, rows, i - 1, m);
    CursorBatchTimes(cfg, rows, i - 1, m - 1);
  }

  lemma RiseIsDecided(cfg: Settings, rows: seq<Row>, out: seq<Assignment>, k: nat, st: State)
    requires Assigned(cfg, rows, out) && BatchStart(rows, k) && Cursor(cfg, rows, k) == (st, k)
    ensures Rises(out, k) <==> Decide(cfg, st).0 == st.regime + 1
  {
    assert out[k] == AssignRow(cfg, rows, k);
    if k > 0 {
      assert out[k - 1] == AssignRow(cfg, rows, k - 1);
    }
  }

  lemma SeenIsHistory(cfg: Settings, rows: seq<Row>, k: nat, st: State)
    requires k < |rows| && SortedBy(rows, RowLe) && Cursor(cfg, rows, k) == (st, k)
    ensures st.history == Seen(cfg, rows, k)
    ensures Ready(cfg, rows, k) ==> Rate(st.history) == Some(RateAt(cfg, rows, k))
  {
    CursorSeesOnlyThePast(cfg, rows, k);
  }

  /** There is at most one last anchor, so one reference rate. */
  lemma LastAnchorUnique(cfg: Settings, rows: seq<Row>, out: seq<Assignment>, k: nat, i: nat, j: nat)
    requires LastAnchor(cfg, rows, out, i, k) && LastAnchor(cfg, rows, out, j, k)
    ensures i == j
  {}

  lemma ShiftedIff(cfg: Settings, rows: seq<Row>, out: seq<Assignment>, k: nat, prior: Option<real>)
    requires k < |rows| && PriorIs(cfg, rows, out, k, prior) && Ready(cfg, rows, k)
    ensures Shifted(cfg, rows, out, k) <==>
      prior.Some? && FarApart(RateAt(cfg, rows, k), prior.value, cfg.threshold)
  {
    if prior.Some? {
      var j: nat :| LastAnchor(cfg, rows, out, j, k) && RateAt(cfg, rows, j) == prior.value;
      forall i: nat | LastAnchor(cfg, rows, out, i, k) ensures i == j {
        LastAnchorUnique(cfg, rows, out, k, i, j);
      }
    }
  }

  lemma RisesIffShifted(cfg: Settings, rows: seq<Row>, out: seq<Assignment>, k: nat, st: State)
    requires Assigned(cfg, rows, out) && BatchStart(rows, k) && Cursor(cfg, rows, k) == (st, k)
    requires PriorIs(cfg, rows, out, k, st.priorRate)
    ensures Rises(out, k) <==> Ready(cfg, rows, k) && Shifted(cfg, rows, out, k)
  {
    RiseIsDecided(cfg, rows, out, k, st);
    SeenIsHistory(cfg, rows, k, st);
    if Ready(cfg, rows, k) {
      ShiftedIff(cfg, rows, out, k, st.priorRate);
    }
  }

  lemma DecidedPrior(cfg: Settings, rows: seq<Row>, out: seq<Assignment>, k: nat, st: State, prior: Option<real>)
    requires Assigned(cfg, rows, out) && BatchStart(rows, k) && Cursor(cfg, rows, k) == (st, k)
    requires prior == Decide(cfg, st).1
    ensures !Ready(cfg, rows, k) ==> prior == st.priorRate
    ensures Ready(cfg, rows, k) ==>
      prior == if Rises(out, k) || st.priorRate.None? then Some(RateAt(cfg, rows, k)) else st.priorRate
  {
    RiseIsDecided(cfg, rows, out, k, st);
    SeenIsHistory(cfg, rows, k, st);
  }

  lemma LastAnchorOn(cfg: Settings, rows: seq<Row>, out: seq<Assignment>, j: nat, k: nat)
    requires LastAnchor(cfg, rows, out, j, k) && !Anchor(cfg, rows, out, k)
    ensures LastAnchor(cfg, rows, out, j, k + 1)
  {}

  lemma PriorMoves(
      cfg: Settings, rows: seq<Row>, out: seq<Assignment>, k: nat, before: Option<real>, prior: Option<real>)
    requires BatchStart(rows, k) && PriorIs(cfg, rows, out, k, before) && Ready(cfg, rows, k)
    requires prior == if Rises(out, k) || before.None? then Some(RateAt(cfg, rows, k)) else before
    ensures PriorIs(cfg, rows, out, k + 1, prior)
  {
    if Rises(out, k) || before.None? {
      assert Anchor(cfg, rows, out, k);
      assert LastAnchor(cfg, rows, out, k, k + 1);
    } else {
      var j: nat :| LastAnchor(cfg, rows, out, j, k) && RateAt(cfg, rows, j) == before.value;
      LastAnchorOn(cfg, rows, out, j, k);
    }
  }

  lemma PriorKeeps(cfg: Settings, rows: seq<Row>, out: seq<Assignment>, k: nat, prior: Option<real>)
    requires BatchStart(rows, k) && PriorIs(cfg, rows, out, k, prior) && !Ready(cfg, rows, k)
    ensures PriorIs(cfg, rows, out, k + 1, prior)
  {
    if prior.Some? {
      var j: nat :| LastAnchor(cfg, rows, out, j, k) && RateAt(cfg, rows, j) == prior.value;
      LastAnchorOn(cfg, rows, out, j, k);
    } else {
      assert NoneReady(cfg, rows, k);
      assert NoneReady(cfg, rows, k + 1);
    }
  }

  /** The reference rate after the batch at k. */
  lemma PriorAfter(cfg: Settings, rows: seq<Row>, out: seq<Assignment>, k: nat, st: State, prior: Option<real>)
    requires Assigned(cfg, rows, out) && BatchStart(rows, k) && Cursor(cfg, rows, k) == (st, k)
    requires PriorIs(cfg, rows, out, k, st.priorRate) && prior == Decide(cfg, st).1
    ensures PriorIs(cfg, rows, out, k + 1, prior)
  {
    DecidedPrior(cfg, rows, out, k, st, prior);
    if Ready(cfg, rows, k) {
      PriorMoves(cfg, rows, out, k, st.priorRate, prior);
    } else {
      PriorKeeps(cfg, rows, out, k, prior);
    }
  }

  ghost predicate NoStart(rows: seq<Row>, k: nat, i: nat) {
    forall m :: k <= m < i ==> !BatchStart(rows, m)
  }

  /** Nothing changes until the next batch starts. */
  lemma PriorStays(cfg: Settings, rows: seq<Row>, out: seq<Assignment>, k: nat, i: nat, prior: Option<real>)
    requires k <= i <= |rows| && PriorIs(cfg, rows, out, k, prior)
    requires NoStart(rows, k, i)
    ensures PriorIs(cfg, rows, out, i, prior)
  {
    if prior.Some? {
      var j: nat :| LastAnchor(cfg, rows, out, j, k) && RateAt(cfg, rows, j) == prior.value;
      assert LastAnchor(cfg, rows, out, j, i);
    }
  }

  /** A batch has the cursor of its start. */
  lemma {:induction false} CursorStartSame(cfg: Settings, rows: seq<Row>, i: nat, c: (State, nat))
    requires i < |rows| && c == Cursor(cfg, rows, i)
    ensures c.1 < |rows| && Cursor(cfg, rows, c.1) == c
  {
    if i > 0 && rows[i].ts == rows[i - 1].ts {
      CursorStays(cfg, rows, i);
      CursorStartSame(cfg, rows, i - 1, c);
    }
  }

  lemma NoStartBetween(cfg: Settings, rows: seq<Row>, i: nat)
    requires 0 < i < |rows|
    ensures NoStart(rows, Cursor(cfg, rows, i - 1).1 + 1, i)
  {
    forall m | Cursor(cfg, rows, i - 1).1 + 1 <= m < i ensures !BatchStart(rows, m) {
      NoStartInside(cfg, rows, i, m);
    }
  }

  /** From the state of one batch to that of the next, which starts at i. */
  lemma PriorToNext(cfg: Settings, rows: seq<Row>, out: seq<Assignment>, i: nat, k: nat, st: State, prior: Option<real>)
    requires Assigned(cfg, rows, out) && k < i < |rows| && NoStart(rows, k + 1, i) && BatchStart(rows, k)
    requires Cursor(cfg, rows, k) == (st, k) && PriorIs(cfg, rows, out, k, st.priorRate)
    requires prior == Decide(cfg, st).1
    ensures PriorIs(cfg, rows, out, i, prior)
  {
    PriorAfter(cfg, rows, out, k, st, prior);
    PriorStays(cfg, rows, out, k + 1, i, prior);
  }

  lemma NextBatchStarts(cfg: Settings, rows: seq<Row>, i: nat, k: nat, before: State, prior: Option<real>)
    requires 0 < i < |rows| && rows[i].ts != rows[i - 1].ts && Cursor(cfg, rows, i - 1) == (before, k)
    requires prior == Cursor(cfg, rows, i).0.priorRate
    ensures Cursor(cfg, rows, i).1 == i && prior == Decide(cfg, before).1
    ensures k < i && NoStart(rows, k + 1, i) && BatchStart(rows, k) && Cursor(cfg, rows, k) == (before, k)
  {
    StartOfBatch(cfg, rows, i - 1);
    CursorStartSame(cfg, rows, i - 1, (before, k));
    NoStartBetween(cfg, rows, i);
  }

  lemma {:induction false} PriorIsReference(
      cfg: Settings, rows: seq<Row>, out: seq<Assignment>, i: nat, k: nat, st: State)
    requires Assigned(cfg, rows, out) && i < |rows| && Cursor(cfg, rows, i) == (st, k)
    ensures PriorIs(cfg, rows, out, k, st.priorRate)
    decreases i
  {
    if i > 0 {
      var c := Cursor(cfg, rows, i - 1);
      PriorIsReference(cfg, rows, out, i - 1, c.1, c.0);
      if rows[i].ts != rows[i - 1].ts {
        NextBatchStarts(cfg, rows, i, c.1, c.0, st.priorRate);
        PriorToNext(cfg, rows, out, i, c.1, c.0, st.priorRate);
      }
    }
  }

  lemma RisesAtStarts(cfg: Settings, rows: seq<Row>, out: seq<Assignment>, k: nat)
    requires Assigned(cfg, rows, out) && BatchStart(rows, k)
    ensures Rises(out, k) <==> Ready(cfg, rows, k) && Shifted(cfg, rows, out, k)
  {
    StartOfBatch(cfg, rows, k);
    var st := Cursor(cfg, rows, k).0;
    PriorIsReference(cfg, rows, out, k, k, st);
    RisesIffShifted(cfg, rows, out, k, st);
  }

  /** The id of a row: 0 at first, and that of the row before or one more. */
  ghost predicate NextId(out: seq<Assignment>, k: nat)
    requires k < |out|
  {
    out[k].regime == if k == 0 then 0 else out[k - 1].regime + if Rises(out, k) then 1 else 0
  }

  lemma SortedIsAssigned(cfg: Settings, rows: seq<Row>, sorted: seq<Row>, out: seq<Assignment>)
    requires sorted == SortBy(rows, RowLe) && out == AssignOnline(cfg, rows)
    ensures Assigned(cfg, sorted, out) && |sorted| == |rows|
  {
    RowLeOrder();
    SortSorts(rows, RowLe);
    SortPermutes(rows, RowLe);
  }

  lemma IdsStep(cfg: Settings, rows: seq<Row>, sorted: seq<Row>, out: seq<Assignment>, k: nat)
    requires k < |rows| && sorted == SortBy(rows, RowLe) && out == AssignOnline(cfg, rows)
    ensures Assigned(cfg, sorted, out) && NextId(out, k)
    ensures Rises(out, k) ==> BatchStart(sorted, k)
  {
    SortedIsAssigned(cfg, rows, sorted, out);
    if k > 0 {
      RegimesRiseByOne(cfg, rows, k - 1);
      assert out[k - 1] == AssignRow(cfg, sorted, k - 1) && out[k] == AssignRow(cfg, sorted, k);
    } else {
      assert out[0] == AssignRow(cfg, sorted, 0);
    }
  }

  /** Over the sorted rows: ids start at 0, change only where a batch starts, and there go
      up by one if and only if the labels seen are enough and their rate is at least the
      threshold away from the reference rate: that of the last rise, or of the first
      batch with enough labels. */
  lemma RegimeRisesIff(cfg: Settings, rows: seq<Row>, sorted: seq<Row>, out: seq<Assignment>, k: nat)
    requires k < |rows| && sorted == SortBy(rows, RowLe) && out == AssignOnline(cfg, rows)
    ensures |out| == |sorted| == |rows| && NextId(out, k)
    ensures Rises(out, k) <==> BatchStart(sorted, k) && Ready(cfg, sorted, k) && Shifted(cfg, sorted, out, k)
  {
    IdsStep(cfg, rows, sorted, out, k);
    if BatchStart(sorted, k) {
      RisesAtStarts(cfg, sorted, out, k);
    }
  }
}
