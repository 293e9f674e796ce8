/** audit/regime_baselines.py: two implementations of the same strictly historical
    baselines. */
module RegimeBaselines {
  import opened Options
  import opened Ordering

  const DAY_MS := 86400000

  datatype Obs = Obs(ts: int, y: int)

  datatype Baselines = Baselines(
    globalConstant: real, previousWeek: real, rolling7: real, rolling14: real, ewma: real)

  /** ISO weeks in order: whole Monday-based weeks since 29 December 1969. */
  function Week(ms: int): int { (ms + 3 * DAY_MS) / (7 * DAY_MS) }

  predicate TsLe(a: Obs, b: Obs) { a.ts <= b.ts }

  ghost predicate DistinctTimes(rows: seq<Obs>) {
    forall i, j :: 0 <= i < j < |rows| ==> rows[i].ts != rows[j].ts
  }

  function Before(t: int): Obs -> bool { (o: Obs) => o.ts < t }
  function InWeek(w: int): Obs -> bool { (o: Obs) => Week(o.ts) == w }
  function InWindow(t: int, days: int): Obs -> bool { (o: Obs) => o.ts < t && o.ts >= t - days * DAY_MS }

  function Total(rows: seq<Obs>): int {
    if rows == [] then 0 else Total(rows[1..]) + rows[0].y
  }

  function Mean(rows: seq<Obs>): real
    requires rows != []
  {
    Total(rows) as real / |rows| as real
  }

  function MeanOr(rows: seq<Obs>, otherwise: real): real {
    if rows == [] then otherwise else Mean(rows)
  }

  /** The latest week before w among those with an observation. */
  ghost predicate LatestBefore(weeks: set<int>, w: int, k: int) {
    k in weeks && k < w && forall j :: j in weeks && j < w ==> j <= k
  }

  lemma {:induction false} LatestExists(weeks: set<int>, w: int)
    requires exists j :: j in weeks && j < w
    ensures exists k :: LatestBefore(weeks, w, k)
  {
    var j :| j in weeks && j < w;
    var rest := weeks - {j};
    assert forall x :: x in weeks ==> x == j || x in rest;
    if exists i :: i in rest && i < w {
      LatestExists(rest, w);
      var k :| LatestBefore(rest, w, k);
      var top := if k < j then j else k;
      assert LatestBefore(weeks, w, top);
    } else {
      assert LatestBefore(weeks, w, j);
    }
  }

  function Latest(weeks: set<int>, w: int): (k: Option<int>)
    ensures k == None <==> forall j :: j in weeks ==> j >= w
    ensures k.Some? ==> LatestBefore(weeks, w, k.value)
  {
    if forall j :: j in weeks ==> j >= w then None
    else
      LatestExists(weeks, w);
      var k :| k in weeks && k < w && forall j :: j in weeks && j < w ==> j <= k;
      Some(k)
  }

  function WeeksOf(rows: seq<Obs>): set<int> { set o | o in rows :: Week(o.ts) }

  function PreviousWeek(rows: seq<Obs>, t: int, rate: real): real {
    match Latest(WeeksOf(rows), Week(t))
    case None => rate
    case Some(k) => MeanOr(Filter(rows, InWeek(k)), rate)
  }

  function Rolling(rows: seq<Obs>, t: int, days: int, rate: real): real {
    MeanOr(Filter(rows, InWindow(t, days)), rate)
  }

  function Ewma(rows: seq<Obs>, start: real, alpha: real): real {
    if rows == [] then start
    else alpha * rows[|rows| - 1].y as real + (1.0 - alpha) * Ewma(rows[..|rows| - 1], start, alpha)
  }

  /** The five baselines at time t from the observations before it, in time order. */
  function Historical(past: seq<Obs>, t: int, rate: real, alpha: real): Baselines {
    Baselines(
      rate, PreviousWeek(past, t, rate), Rolling(past, t, 7, rate), Rolling(past, t, 14, rate),
      Ewma(past, rate, alpha))
  }

  /** predict_from_train: the means over the rows as given, the EWMA over the same
      rows in time order. */
  function Predicted(train: seq<Obs>, ordered: seq<Obs>, t: int, alpha: real): Baselines
    requires train != []
  {
    var rate := Mean(train);
    Baselines(
      rate, PreviousWeek(train, t, rate), Rolling(train, t, 7, rate), Rolling(train, t, 14, rate),
      Ewma(ordered, rate, alpha))
  }

  function Clip(x: real): real {
    if x < 0.000001 then 0.000001 else if x > 0.999999 then 0.999999 else x
  }

  function ClipAll(b: Baselines): Baselines {
    Baselines(Clip(b.globalConstant), Clip(b.previousWeek), Clip(b.rolling7), Clip(b.rolling14), Clip(b.ewma))
  }

  /** Week k holds the times of seven days from a Monday on; 5 January 1970, the fourth
      day after the epoch, was one. */
  lemma WeeksStartOnMondays(ms: int, k: int)
    ensures Week(ms) == k <==> 4 * DAY_MS + (k - 1) * 7 * DAY_MS <= ms < 4 * DAY_MS + k * 7 * DAY_MS
  {}

  lemma OneValue(o: Obs, otherwise: real)
    ensures MeanOr([o], otherwise) == o.y as real
  {
    assert [o][1..] == [];
    assert Total([o]) == o.y && Mean([o]) == o.y as real / 1 as real;
  }

  /** The edges of a rolling window: an observation counts from the moment after it until
      exactly `days` days after it. */
  lemma WindowEdges(o: Obs, t: int, days: nat, rate: real)
    ensures Rolling([o], t, days, rate) == if 0 < t - o.ts <= days * DAY_MS then o.y as real else rate
  {
    OneValue(o, rate);
    if 0 < t - o.ts <= days * DAY_MS {
      FilterAll([o], InWindow(t, days));
    } else {
      FilterNone([o], InWindow(t, days));
    }
  }

  /** The previous week is the latest earlier week with an observation. */
  lemma PreviousWeekIs(rows: seq<Obs>, t: int, rate: real, o: Obs)
    requires o in rows && Week(o.ts) < Week(t)
    requires forall q :: q in rows && Week(q.ts) < Week(t) ==> Week(q.ts) <= Week(o.ts)
    ensures PreviousWeek(rows, t, rate) == MeanOr(Filter(rows, InWeek(Week(o.ts))), rate)
    ensures forall q :: q in Filter(rows, InWeek(Week(o.ts))) <==> q in rows && Week(q.ts) == Week(o.ts)
  {
    assert Week(o.ts) in WeeksOf(rows);
    FilterMembers(rows, InWeek(Week(o.ts)));
  }

  predicate Proper(y: real) { 0.000001 <= y <= 0.999999 }

  /** c is the nearest proper value to x: no other lies between them. */
  ghost predicate Nearest(x: real, c: real) {
    Proper(c) && forall y :: Proper(y) ==> x <= c <= y || y <= c <= x || c == x
  }

  /** Clipping moves each of the five values to the nearest one in [0.000001, 0.999999]. */
  lemma ClipIsNearest(b: Baselines)
    ensures var c := ClipAll(b);
      && Nearest(b.globalConstant, c.globalConstant) && Nearest(b.previousWeek, c.previousWeek)
      && Nearest(b.rolling7, c.rolling7) && Nearest(b.rolling14, c.rolling14) && Nearest(b.ewma, c.ewma)
  {}

  lemma OneMore(x: int, n: nat)
    requires n > 0
    ensures x * n == x * (n - 1) + x
  {}

  lemma {:induction false} TotalBetween(rows: seq<Obs>, lo: int, hi: int)
    requires forall o :: o in rows ==> lo <= o.y <= hi
    ensures lo * |rows| <= Total(rows) <= hi * |rows|
  {
    if rows != [] {
      assert rows == [rows[0]] + rows[1..];
      TotalBetween(rows[1..], lo, hi);
      OneMore(lo, |rows|);
      OneMore(hi, |rows|);
    }
  }

  lemma QuotientBetween(total: int, count: nat, lo: int, hi: int)
    requires count > 0 && lo * count <= total <= hi * count
    ensures lo as real <= total as real / count as real <= hi as real
  {
    var q := total as real / count as real;
    assert q * count as real == total as real;
    ProductOrder(q, lo as real, count as real);
    ProductOrder(hi as real, q, count as real);
  }

  lemma ProductOrder(a: real, b: real, c: real)
    requires c > 0.0
    ensures a < b ==> a * c < b * c
  {}

  /** A mean lies between any bounds on the labels. */
  lemma MeanBetween(rows: seq<Obs>, lo: int, hi: int)
    requires rows != [] && forall o :: o in rows ==> lo <= o.y <= hi
    ensures lo as real <= Mean(rows) <= hi as real
  {
    TotalBetween(rows, lo, hi);
    QuotientBetween(Total(rows), |rows|, lo, hi);
  }

  // -------------------- order does not matter to a mean --------------------

  lemma TsLeOrder()
    ensures TotalPreorder(TsLe)
  {}

  lemma {:induction false} TotalInsert(o: Obs, rows: seq<Obs>)
    ensures Total(InsertBy(o, rows, TsLe)) == o.y + Total(rows)
  {
    if rows != [] {
      TotalInsert(o, rows[1..]);
      assert ([o] + rows)[1..] == rows;
    }
  }

  lemma {:induction false} MeanSorted(rows: seq<Obs>, otherwise: real)
    ensures |SortBy(rows, TsLe)| == |rows| && Total(SortBy(rows, TsLe)) == Total(rows)
    ensures MeanOr(SortBy(rows, TsLe), otherwise) == MeanOr(rows, otherwise)
  {
    SortPermutes(rows, TsLe);
    if rows != [] {
      MeanSorted(rows[1..], otherwise);
      TotalInsert(rows[0], SortBy(rows[1..], TsLe));
    }
  }

  lemma MeanOfSortedFilter(rows: seq<Obs>, p: Obs -> bool, otherwise: real)
    ensures MeanOr(Filter(SortBy(rows, TsLe), p), otherwise) == MeanOr(Filter(rows, p), otherwise)
  {
    TsLeOrder();
    FilterSort(rows, TsLe, p);
    MeanSorted(Filter(rows, p), otherwise);
  }

  lemma WeeksSorted(rows: seq<Obs>)
    ensures WeeksOf(SortBy(rows, TsLe)) == WeeksOf(rows)
  {
    SortMembers(rows, TsLe);
  }

  /** Both forms agree: predicting from a training set is what the historical form
      gives at that time from the same rows. */
  lemma FormsAgree(train: seq<Obs>, t: int, alpha: real)
    requires train != []
    ensures Predicted(train, SortBy(train, TsLe), t, alpha) == Historical(SortBy(train, TsLe), t, Mean(train), alpha)
  {
    var rate := Mean(train);
    WeeksSorted(train);
    var latest := Latest(WeeksOf(train), Week(t));
    if latest.Some? {
      MeanOfSortedFilter(train, InWeek(latest.value), rate);
    }
    MeanOfSortedFilter(train, InWindow(t, 7), rate);
    MeanOfSortedFilter(train, InWindow(t, 14), rate);
  }

  // -------------------- the historical form --------------------

  /** The value for the row at time t: only rows before t enter. */
  function HistoricalAt(rows: seq<Obs>, t: int, rate: real, alpha: real): Baselines {
    ClipAll(Historical(SortBy(Filter(rows, Before(t)), TsLe), t, rate, alpha))
  }

  /** Appending a row after all training rows: the historical form gives it exactly
      the prediction made from the training rows, whatever its label. */
  lemma BaselinesAgree(train: seq<Obs>, t: int, y: int, alpha: real)
    requires train != [] && forall o :: o in train ==> o.ts < t
    ensures HistoricalAt(train + [Obs(t, y)], t, Mean(train), alpha)
      == ClipAll(Predicted(train, SortBy(train, TsLe), t, alpha))
  {
    FilterConcat(train, [Obs(t, y)], Before(t));
    FilterAll(train, Before(t));
    assert Filter([Obs(t, y)], Before(t)) == [];
    assert Filter(train + [Obs(t, y)], Before(t)) == train;
    FormsAgree(train, t, alpha);
  }

  lemma NonNegative(a: real, b: real)
    requires a >= 0.0 && b >= 0.0
    ensures a * b >= 0.0
  {}

  lemma MixInUnit(alpha: real, y: int, e: real)
    requires 0.0 <= alpha <= 1.0 && 0.0 <= e <= 1.0 && (y == 0 || y == 1)
    ensures 0.0 <= alpha * y as real + (1.0 - alpha) * e <= 1.0
  {
    var rest := 1.0 - alpha;
    NonNegative(rest, 1.0 - e);
    NonNegative(rest, e);
    if y == 0 {
      assert alpha * y as real == 0.0;
    } else {
      assert alpha * y as real == alpha;
    }
  }

  /** With 0/1 labels the EWMA is a convex combination: it never leaves [0, 1]. */
  lemma {:induction false} EwmaStaysInUnit(rows: seq<Obs>, start: real, alpha: real)
    requires 0.0 <= alpha <= 1.0 && 0.0 <= start <= 1.0
    requires forall i :: 0 <= i < |rows| ==> rows[i].y == 0 || rows[i].y == 1
    ensures 0.0 <= Ewma(rows, start, alpha) <= 1.0
  {
    if rows != [] {
      var init, y := rows[..|rows| - 1], rows[|rows| - 1].y;
      EwmaStaysInUnit(init, start, alpha);
      MixInUnit(alpha, y, Ewma(init, start, alpha));
    }
  }

  lemma {:induction false} FilterPrefix(s: seq<Obs>, i: nat)
    requires SortedBy(s, TsLe) && DistinctTimes(s) && i < |s|
    ensures Filter(s, Before(s[i].ts)) == s[..i]
  {
    var t := s[i].ts;
    var head, tail := s[..i], s[i..];
    assert s == head + tail;
    forall o | o in head ensures o.ts < t {
      var j :| 0 <= j < |head| && head[j] == o;
      assert TsLe(s[j], s[i]);
    }
    forall o | o in tail ensures o.ts >= t {
      var j :| 0 <= j < |tail| && tail[j] == o;
      assert j > 0 ==> TsLe(s[i], s[i + j]);
    }
    FilterConcat(head, tail, Before(t));
    FilterAll(head, Before(t));
    FilterNone(tail, Before(t));
  }

  // -------------------- the loops --------------------

  /** The `week_values` dictionary after some rows. */
  ghost predicate WeekValues(values: map<int, seq<Obs>>, rows: seq<Obs>) {
    && values.Keys == WeeksOf(rows)
    && forall w :: w in values ==> values[w] == Filter(rows, InWeek(w))
  }

  /** `week_values.setdefault(week, []).append(label)`. */
  function AddToWeek(values: map<int, seq<Obs>>, o: Obs): map<int, seq<Obs>> {
    var w := Week(o.ts);
    values[w := (if w in values then values[w] else []) + [o]]
  }

  lemma WeekValuesGrow(values: map<int, seq<Obs>>, rows: seq<Obs>, o: Obs)
    requires WeekValues(values, rows)
    ensures WeekValues(AddToWeek(values, o), rows + [o])
  {
    var all, after := rows + [o], AddToWeek(values, o);
    assert WeeksOf(all) == WeeksOf(rows) + {Week(o.ts)} by {
      forall w | w in WeeksOf(rows) ensures w in WeeksOf(all) {
        var q :| q in rows && Week(q.ts) == w;
        assert q in all;
      }
      assert o in all;
    }
    forall w | w in after ensures after[w] == Filter(all, InWeek(w)) {
      FilterConcat(rows, [o], InWeek(w));
      assert Filter([o], InWeek(w)) == if Week(o.ts) == w then [o] else [];
      if w !in values {
        FilterNone(rows, InWeek(w));
      }
      assert Filter(rows, InWeek(w)) + [] == Filter(rows, InWeek(w));
    }
  }

  /** `week_values[prior[-1]]` from the dictionary. */
  function PreviousFrom(values: map<int, seq<Obs>>, t: int, rate: real): real {
    match Latest(values.Keys, Week(t))
    case None => rate
    case Some(k) => MeanOr(values[k], rate)
  }

  /** The baselines read off the loop's variables. */
  function Current(weekValues: map<int, seq<Obs>>, hist: seq<Obs>, ewma: real, rate: real, t: int): Baselines {
    ClipAll(Baselines(
      rate, PreviousFrom(weekValues, t, rate),
      MeanOr(Filter(hist, InWindow(t, 7)), rate), MeanOr(Filter(hist, InWindow(t, 14)), rate), ewma))
  }

  lemma PreviousFromIs(weekValues: map<int, seq<Obs>>, rows: seq<Obs>, t: int, rate: real)
    requires WeekValues(weekValues, rows)
    ensures PreviousFrom(weekValues, t, rate) == PreviousWeek(rows, t, rate)
  {}

  lemma EwmaNext(hist: seq<Obs>, o: Obs, rate: real, alpha: real)
    ensures Ewma(hist + [o], rate, alpha) == alpha * o.y as real + (1.0 - alpha) * Ewma(hist, rate, alpha)
  {
    assert (hist + [o])[..|hist|] == hist;
  }

  /** The clipped baselines at position i of rows in time order. */
  function ValueAt(s: seq<Obs>, i: nat, rate: real, alpha: real): Baselines
    requires i < |s|
  {
    ClipAll(Historical(s[..i], s[i].ts, rate, alpha))
  }

  function Values(s: seq<Obs>, n: nat, rate: real, alpha: real): (values: seq<Baselines>)
    requires n <= |s|
    ensures |values| == n && forall i :: 0 <= i < n ==> values[i] == ValueAt(s, i, rate, alpha)
  {
    if n == 0 then [] else Values(s, n - 1, rate, alpha) + [ValueAt(s, n - 1, rate, alpha)]
  }

  /** One turn of the loop: the value of this row, then its label joins the past. */
  method ValueOf(s: seq<Obs>, i: nat, rate: real, alpha: real, weekValues: map<int, seq<Obs>>, hist: seq<Obs>,
      ewma: real)
    returns (value: Baselines, weekValues': map<int, seq<Obs>>, hist': seq<Obs>, ewma': real)
    requires i < |s| && hist == s[..i] && WeekValues(weekValues, hist) && ewma == Ewma(hist, rate, alpha)
    ensures value == ValueAt(s, i, rate, alpha)
    ensures hist' == s[..i + 1] && WeekValues(weekValues', hist') && ewma' == Ewma(hist', rate, alpha)
  {
    PreviousFromIs(weekValues, hist, s[i].ts, rate);
    value := Current(weekValues, hist, ewma, rate, s[i].ts);
    WeekValuesGrow(weekValues, hist, s[i]);
    EwmaNext(hist, s[i], rate, alpha);
    assert s[..i + 1] == hist + [s[i]];
    weekValues', hist' := AddToWeek(weekValues, s[i]), hist + [s[i]];
    ewma' := alpha * s[i].y as real + (1.0 - alpha) * ewma;
  }

  /** The loop of historical_probabilities, over the rows in time order. */
  method SortedValues(s: seq<Obs>, rate: real, alpha: real) returns (values: seq<Baselines>)
    ensures values == Values(s, |s|, rate, alpha)
  {
    values := [];
    var weekValues: map<int, seq<Obs>>, hist: seq<Obs>, ewma := map[], [], rate;
    for i := 0 to |s|
      invariant hist == s[..i] && WeekValues(weekValues, hist) && ewma == Ewma(hist, rate, alpha)
      invariant values == Values(s, i, rate, alpha)
    {
      var value;
      value, weekValues, hist, ewma := ValueOf(s, i, rate, alpha, weekValues, hist, ewma);
      values := values + [value];
    }
  }

  ghost predicate Permutation(order: seq<nat>) {
    && (forall i :: 0 <= i < |order| ==> order[i] < |order|)
    && (forall i, j :: 0 <= i < j < |order| ==> order[i] != order[j])
    && (forall j :: 0 <= j < |order| ==> j in order)
  }

  /** What `np.argsort` promises: some permutation that puts the times in order. Rows
      with equal times may come out in any order. */
  ghost predicate Argsort(order: seq<nat>, rows: seq<Obs>) {
    |order| == |rows| && Permutation(order) && SortedBy(Gather(rows, order), TsLe)
  }

  function Gather(rows: seq<Obs>, order: seq<nat>): (s: seq<Obs>)
    requires forall i :: 0 <= i < |order| ==> order[i] < |rows|
    ensures |s| == |order| && forall i :: 0 <= i < |order| ==> s[i] == rows[order[i]]
  {
    seq(|order|, i requires 0 <= i < |order| => rows[order[i]])
  }

  predicate Placed(out: seq<Baselines>, order: seq<nat>, values: seq<Baselines>, i: nat)
    requires i < |order| == |values|
  {
    order[i] < |out| && out[order[i]] == values[i]
  }

  method PositionOf(order: seq<nat>, j: nat) returns (i: nat)
    requires j in order
    ensures i < |order| && order[i] == j
  {
    i := 0;
    while order[i] != j
      invariant i < |order| && j in order[i..]
      decreases |order| - i
    {
      i := i + 1;
    }
  }

  /** `v[np.argsort(order)]`: back to input order. */
  method Scatter(order: seq<nat>, values: seq<Baselines>) returns (out: seq<Baselines>)
    requires Permutation(order) && |values| == |order|
    ensures |out| == |order| && forall i :: 0 <= i < |order| ==> Placed(out, order, values, i)
  {
    out := [];
    for j := 0 to |order|
      invariant |out| == j
      invariant forall i :: 0 <= i < |order| && order[i] < j ==> Placed(out, order, values, i)
    {
      var at := PositionOf(order, j);
      ghost var before := out;
      out := out + [values[at]];
      forall i | 0 <= i < |order| && order[i] < j + 1 ensures Placed(out, order, values, i) {
        assert order[i] < j ==> Placed(before, order, values, i);
      }
    }
  }

  /** historical_probabilities: each row gets the value of its place in time order,
      and the values come back in input order. */
  method HistoricalProbabilities(rows: seq<Obs>, order: seq<nat>, rate: real, alpha: real) returns (out: seq<Baselines>)
    requires Argsort(order, rows)
    ensures |out| == |rows|
    ensures forall i :: 0 <= i < |order| ==> out[order[i]] == ValueAt(Gather(rows, order), i, rate, alpha)
  {
    var s := Gather(rows, order);
    var values := SortedValues(s, rate, alpha);
    out := Scatter(order, values);
    forall i | 0 <= i < |order| ensures out[order[i]] == ValueAt(s, i, rate, alpha) {
      assert Placed(out, order, values, i);
    }
  }

  lemma GatherDistinct(rows: seq<Obs>, order: seq<nat>)
    requires Argsort(order, rows) && DistinctTimes(rows)
    ensures DistinctTimes(Gather(rows, order)) && NoTies(Gather(rows, order), TsLe)
  {}

  lemma {:induction false} DistinctCount(s: seq<Obs>, x: Obs)
    requires DistinctTimes(s)
    ensures multiset(s)[x] == if x in s then 1 else 0
  {
    if s != [] {
      DistinctCount(s[1..], x);
      assert s == [s[0]] + s[1..];
    }
  }

  lemma GatherPermutes(rows: seq<Obs>, order: seq<nat>)
    requires Argsort(order, rows) && DistinctTimes(rows)
    ensures multiset(Gather(rows, order)) == multiset(rows)
  {
    var s := Gather(rows, order);
    GatherDistinct(rows, order);
    forall x: Obs ensures multiset(s)[x] == multiset(rows)[x] {
      DistinctCount(s, x);
      DistinctCount(rows, x);
      if x in rows {
        var j :| 0 <= j < |rows| && rows[j] == x;
        assert j in order;
        var i :| 0 <= i < |order| && order[i] == j;
        assert s[i] == x;
      }
    }
  }

  lemma GatherIsSorted(rows: seq<Obs>, order: seq<nat>)
    requires Argsort(order, rows) && DistinctTimes(rows)
    ensures Gather(rows, order) == SortBy(rows, TsLe)
  {
    TsLeOrder();
    SortSorts(rows, TsLe);
    SortPermutes(rows, TsLe);
    GatherDistinct(rows, order);
    GatherPermutes(rows, order);
    SortedUnique(Gather(rows, order), SortBy(rows, TsLe), TsLe);
  }

  /** With distinct times the value of a row depends only on the rows strictly before
      it, wherever they stand in the input. */
  lemma ValueIsHistorical(rows: seq<Obs>, order: seq<nat>, i: nat, rate: real, alpha: real)
    requires Argsort(order, rows) && DistinctTimes(rows) && i < |order|
    ensures ValueAt(Gather(rows, order), i, rate, alpha) == HistoricalAt(rows, rows[order[i]].ts, rate, alpha)
  {
    var s := Gather(rows, order);
    TsLeOrder();
    GatherDistinct(rows, order);
    GatherIsSorted(rows, order);
    FilterPrefix(s, i);
    FilterSort(rows, TsLe, Before(s[i].ts));
  }

  /** The two functions agree: predicting t from the training rows gives what the
      historical form gives a row appended at t, whatever its label. */
  lemma FunctionsAgree(
    train: seq<Obs>, order: seq<nat>, t: int, y: int, joined: seq<nat>, i: nat, alpha: real)
    requires train != [] && DistinctTimes(train) && forall o :: o in train ==> o.ts < t
    requires Argsort(order, train) && Argsort(joined, train + [Obs(t, y)])
    requires i < |joined| && joined[i] == |train|
    ensures ValueAt(Gather(train + [Obs(t, y)], joined), i, Mean(train), alpha)
      == ClipAll(Predicted(train, Gather(train, order), t, alpha))
  {
    var all := train + [Obs(t, y)];
    assert DistinctTimes(all) by {
      forall j | 0 <= j < |train| ensures all[j].ts < t {
        assert train[j] in train;
      }
    }
    ValueIsHistorical(all, joined, i, Mean(train), alpha);
    GatherIsSorted(train, order);
    BaselinesAgree(train, t, y, alpha);
  }

  /** The training rows by week. */
  method TrainWeeks(train: seq<Obs>) returns (weeks: map<int, seq<Obs>>)
    ensures WeekValues(weeks, train)
  {
    weeks := map[];
    for i := 0 to |train|
      invariant WeekValues(weeks, train[..i])
    {
      WeekValuesGrow(weeks, train[..i], train[i]);
      assert train[..i + 1] == train[..i] + [train[i]];
      weeks := AddToWeek(weeks, train[i]);
    }
    assert train[..|train|] == train;
  }

  method TrainEwma(ordered: seq<Obs>, rate: real, alpha: real) returns (ewma: real)
    ensures ewma == Ewma(ordered, rate, alpha)
  {
    ewma := rate;
    for i := 0 to |ordered|
      invariant ewma == Ewma(ordered[..i], rate, alpha)
    {
      assert ordered[..i + 1] == ordered[..i] + [ordered[i]];
      EwmaNext(ordered[..i], ordered[i], rate, alpha);
      ewma := alpha * ordered[i].y as real + (1.0 - alpha) * ewma;
    }
    assert ordered[..|ordered|] == ordered;
  }

  /** predict_from_train, with the training rows in the order `np.argsort` gave. */
  method PredictFromTrain(train: seq<Obs>, order: seq<nat>, test: seq<int>, alpha: real) returns (out: seq<Baselines>)
    requires train != [] && Argsort(order, train)
    ensures |out| == |test|
    ensures forall j :: 0 <= j < |test| ==> out[j] == ClipAll(Predicted(train, Gather(train, order), test[j], alpha))
  {
    var rate := Mean(train);
    var weeks := TrainWeeks(train);
    var ewma := TrainEwma(Gather(train, order), rate, alpha);
    out := [];
    for j := 0 to |test|
      invariant |out| == j
      invariant forall k :: 0 <= k < j ==> out[k] == ClipAll(Predicted(train, Gather(train, order), test[k], alpha))
    {
      PreviousFromIs(weeks, train, test[j], rate);
      out := out + [Current(weeks, train, ewma, rate, test[j])];
    }
  }
}
