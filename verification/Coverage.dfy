/** audit/coverage.py: how much of a window is covered, and where its gaps are. */
module Coverage {
  import opened Options
  import opened Ordering
  import opened LiveAudit

  // -------------------- buckets --------------------

  /** `max(1, ceil((end - start) / bucket))`. */
  function BucketCount(startMs: int, endMs: int, bucketMs: int): (n: int)
    requires bucketMs > 0
    ensures n >= 1
  {
    var n := (endMs - startMs + bucketMs - 1) / bucketMs;
    if n < 1 then 1 else n
  }

  function BucketLow(startMs: int, bucketMs: int, i: int): int { startMs + i * bucketMs }

  function BucketHigh(startMs: int, endMs: int, bucketMs: int, i: int): int {
    var high := BucketLow(startMs, bucketMs, i) + bucketMs;
    if high < endMs then high else endMs
  }

  lemma BucketNotEmpty(startMs: int, endMs: int, bucketMs: int, i: int)
    requires bucketMs > 0 && startMs < endMs && 0 <= i < BucketCount(startMs, endMs, bucketMs)
    ensures startMs <= BucketLow(startMs, bucketMs, i) < BucketHigh(startMs, endMs, bucketMs, i) <= endMs
  {
    var n := (endMs - startMs + bucketMs - 1) / bucketMs;
    assert n * bucketMs <= endMs - startMs + bucketMs - 1;
    assert i * bucketMs <= (n - 1) * bucketMs;
    assert (n - 1) * bucketMs == n * bucketMs - bucketMs;
    assert 0 <= i * bucketMs;
  }

  lemma ProductBelow(a: int, b: int, m: int)
    requires m > 0
    ensures a < b <==> a * m < b * m
    ensures (a + 1) * m == a * m + m
  {}

  predicate InBucket(startMs: int, endMs: int, bucketMs: int, i: int, t: int) {
    BucketLow(startMs, bucketMs, i) <= t < BucketHigh(startMs, endMs, bucketMs, i)
  }

  /** The buckets tile the window: each of its milliseconds lies in exactly one, and no
      bucket reaches beyond it. */
  lemma BucketsTileWindow(startMs: int, endMs: int, bucketMs: int, t: int)
    requires bucketMs > 0 && startMs < endMs
    ensures var n := BucketCount(startMs, endMs, bucketMs);
      && (startMs <= t < endMs <==> exists i :: 0 <= i < n && InBucket(startMs, endMs, bucketMs, i, t))
      && (forall i, j :: 0 <= i < j < n ==>
        !(InBucket(startMs, endMs, bucketMs, i, t) && InBucket(startMs, endMs, bucketMs, j, t)))
  {
    var n := BucketCount(startMs, endMs, bucketMs);
    forall i | 0 <= i < n && InBucket(startMs, endMs, bucketMs, i, t) ensures startMs <= t < endMs {
      BucketNotEmpty(startMs, endMs, bucketMs, i);
    }
    if startMs <= t < endMs {
      var k := (t - startMs) / bucketMs;
      BucketFound(startMs, endMs, bucketMs, t, k);
    }
    forall i, j | 0 <= i < j < n
      ensures !(InBucket(startMs, endMs, bucketMs, i, t) && InBucket(startMs, endMs, bucketMs, j, t))
    {
      ProductBelow(i, j, bucketMs);
      ProductBelow(j, i + 1, bucketMs);
    }
  }

  lemma BucketFound(startMs: int, endMs: int, bucketMs: int, t: int, k: int)
    requires bucketMs > 0 && startMs <= t < endMs && k == (t - startMs) / bucketMs
    ensures 0 <= k < BucketCount(startMs, endMs, bucketMs) && InBucket(startMs, endMs, bucketMs, k, t)
  {
    var full := endMs - startMs + bucketMs - 1;
    assert t - startMs == k * bucketMs + (t - startMs) % bucketMs;
    assert full == full / bucketMs * bucketMs + full % bucketMs;
    ProductBelow(k, full / bucketMs, bucketMs);
    ProductBelow(full / bucketMs, k + 1, bucketMs);
    ProductBelow(k, 0, bucketMs);
  }

  // -------------------- bounded state coverage --------------------

  datatype Interval = Interval(lo: int, hi: int)

  /** The pointwise meaning: some observation at or before t is not yet stale. */
  ghost predicate Usable(obs: seq<int>, staleMs: int, t: int) {
    exists k :: 0 <= k < |obs| && obs[k] <= t < obs[k] + staleMs
  }

  /** Every millisecond of the bucket is usable. */
  ghost predicate BucketUsable(obs: seq<int>, startMs: int, endMs: int, staleMs: int, bucketMs: int, i: int) {
    forall t :: BucketLow(startMs, bucketMs, i) <= t < BucketHigh(startMs, endMs, bucketMs, i)
      ==> Usable(obs, staleMs, t)
  }

  ghost function UsableBuckets(obs: seq<int>, startMs: int, endMs: int, staleMs: int, bucketMs: int): set<int>
    requires bucketMs > 0
  {
    set i | 0 <= i < BucketCount(startMs, endMs, bucketMs) && BucketUsable(obs, startMs, endMs, staleMs, bucketMs, i)
  }

  ghost predicate InSome(ivs: seq<Interval>, t: int) {
    exists j :: 0 <= j < |ivs| && ivs[j].lo <= t < ivs[j].hi
  }

  /** Ordered, disjoint and not even touching, so each interval is maximal. */
  ghost predicate Separated(ivs: seq<Interval>) {
    && (forall j :: 0 <= j < |ivs| ==> ivs[j].lo < ivs[j].hi)
    && (forall j, k :: 0 <= j < k < |ivs| ==> ivs[j].hi < ivs[k].lo)
  }

  function Max(a: int, b: int): int { if a < b then b else a }

  function Min(a: int, b: int): int { if a < b then a else b }

  /** One turn of the merging loop. */
  function AddObservation(ivs: seq<Interval>, ts: int, startMs: int, endMs: int, staleMs: int): seq<Interval> {
    var lo, hi := Max(ts, startMs), Min(ts + staleMs, endMs);
    if hi <= lo then ivs
    else if ivs != [] && lo <= ivs[|ivs| - 1].hi then
      var last := ivs[|ivs| - 1];
      ivs[..|ivs| - 1] + [Interval(last.lo, Max(last.hi, hi))]
    else ivs + [Interval(lo, hi)]
  }

  function Merge(sorted: seq<int>, startMs: int, endMs: int, staleMs: int): seq<Interval> {
    if sorted == [] then []
    else
      var merged := Merge(sorted[..|sorted| - 1], startMs, endMs, staleMs);
      AddObservation(merged, sorted[|sorted| - 1], startMs, endMs, staleMs)
  }

  /** What the merging loop keeps after the observations `seen`. */
  ghost predicate Merged(ivs: seq<Interval>, seen: seq<int>, startMs: int, endMs: int, staleMs: int) {
    && Separated(ivs)
    && Within(ivs, startMs, endMs)
    && (ivs != [] ==> seen != [] && ivs[|ivs| - 1].lo <= Max(seen[|seen| - 1], startMs))
    && (forall t :: startMs <= t < endMs ==> (InSome(ivs, t) <==> Usable(seen, staleMs, t)))
  }

  lemma UsableExtends(seen: seq<int>, ts: int, staleMs: int, t: int)
    ensures Usable(seen + [ts], staleMs, t) <==> Usable(seen, staleMs, t) || ts <= t < ts + staleMs
  {
    var all := seen + [ts];
    if Usable(seen, staleMs, t) {
      var k :| 0 <= k < |seen| && seen[k] <= t < seen[k] + staleMs;
      assert all[k] == seen[k];
    }
    if ts <= t < ts + staleMs {
      assert all[|seen|] == ts;
    }
  }

  lemma InSomeExtends(ivs: seq<Interval>, last: Interval, t: int)
    ensures InSome(ivs + [last], t) <==> InSome(ivs, t) || last.lo <= t < last.hi
  {
    var all := ivs + [last];
    if InSome(ivs, t) {
      var j :| 0 <= j < |ivs| && ivs[j].lo <= t < ivs[j].hi;
      assert all[j] == ivs[j];
    }
    if last.lo <= t < last.hi {
      assert all[|ivs|] == last;
    }
  }

  lemma AddKeepsMeaning(ivs: seq<Interval>, seen: seq<int>, ts: int, startMs: int, endMs: int, staleMs: int, t: int)
    requires startMs <= t < endMs && (InSome(ivs, t) <==> Usable(seen, staleMs, t))
    requires ivs != [] ==> ivs[|ivs| - 1].lo <= Max(ts, startMs)
    ensures InSome(AddObservation(ivs, ts, startMs, endMs, staleMs), t) <==> Usable(seen + [ts], staleMs, t)
  {
    var lo, hi := Max(ts, startMs), Min(ts + staleMs, endMs);
    UsableExtends(seen, ts, staleMs, t);
    if hi > lo {
      if ivs != [] && lo <= ivs[|ivs| - 1].hi {
        var init, last := ivs[..|ivs| - 1], ivs[|ivs| - 1];
        assert ivs == init + [last];
        InSomeExtends(init, last, t);
        InSomeExtends(init, Interval(last.lo, Max(last.hi, hi)), t);
      } else {
        InSomeExtends(ivs, Interval(lo, hi), t);
      }
    }
  }

  ghost predicate Within(ivs: seq<Interval>, startMs: int, endMs: int) {
    forall j :: 0 <= j < |ivs| ==> startMs <= ivs[j].lo && ivs[j].hi <= endMs
  }

  lemma SeparatedPush(init: seq<Interval>, last: Interval)
    requires Separated(init) && last.lo < last.hi
    requires init != [] ==> init[|init| - 1].hi < last.lo
    ensures Separated(init + [last])
  {
    var all := init + [last];
    assert forall j :: 0 <= j < |init| ==> all[j] == init[j];
    forall j | 0 <= j < |init| ensures init[j].hi < last.lo {
      assert j < |init| - 1 ==> init[j].hi < init[|init| - 1].lo < init[|init| - 1].hi;
    }
  }

  lemma SeparatedPrefix(ivs: seq<Interval>)
    requires Separated(ivs) && ivs != []
    ensures Separated(ivs[..|ivs| - 1])
    ensures |ivs| > 1 ==> ivs[|ivs| - 2].hi < ivs[|ivs| - 1].lo
  {}

  lemma AddKeepsShape(ivs: seq<Interval>, ts: int, startMs: int, endMs: int, staleMs: int)
    requires Separated(ivs)
    requires ivs != [] ==> ivs[|ivs| - 1].lo <= Max(ts, startMs)
    ensures var after := AddObservation(ivs, ts, startMs, endMs, staleMs);
      && Separated(after)
      && (after != [] ==> after[|after| - 1].lo <= Max(ts, startMs))
  {
    var lo, hi := Max(ts, startMs), Min(ts + staleMs, endMs);
    if hi > lo {
      if ivs != [] && lo <= ivs[|ivs| - 1].hi {
        var init, last := ivs[..|ivs| - 1], ivs[|ivs| - 1];
        SeparatedPrefix(ivs);
        SeparatedPush(init, Interval(last.lo, Max(last.hi, hi)));
      } else {
        SeparatedPush(ivs, Interval(lo, hi));
      }
    }
  }

  lemma AddStaysWithin(ivs: seq<Interval>, ts: int, startMs: int, endMs: int, staleMs: int)
    requires Within(ivs, startMs, endMs)
    ensures Within(AddObservation(ivs, ts, startMs, endMs, staleMs), startMs, endMs)
  {}

  lemma AddKeepsMerged(ivs: seq<Interval>, seen: seq<int>, ts: int, startMs: int, endMs: int, staleMs: int)
    requires Merged(ivs, seen, startMs, endMs, staleMs)
    requires seen != [] ==> seen[|seen| - 1] <= ts
    ensures Merged(AddObservation(ivs, ts, startMs, endMs, staleMs), seen + [ts], startMs, endMs, staleMs)
  {
    AddKeepsShape(ivs, ts, startMs, endMs, staleMs);
    AddStaysWithin(ivs, ts, startMs, endMs, staleMs);
    forall t | startMs <= t < endMs
      ensures InSome(AddObservation(ivs, ts, startMs, endMs, staleMs), t) <==> Usable(seen + [ts], staleMs, t)
    {
      AddKeepsMeaning(ivs, seen, ts, startMs, endMs, staleMs, t);
    }
  }

  /** The merged intervals are the maximal stretches of usable milliseconds. */
  lemma {:induction false} MergeIsMerged(sorted: seq<int>, startMs: int, endMs: int, staleMs: int)
    requires SortedBy(sorted, IntLe)
    ensures Merged(Merge(sorted, startMs, endMs, staleMs), sorted, startMs, endMs, staleMs)
  {
    if sorted != [] {
      var init, ts := sorted[..|sorted| - 1], sorted[|sorted| - 1];
      MergeIsMerged(init, startMs, endMs, staleMs);
      assert init != [] ==> IntLe(init[|init| - 1], ts);
      AddKeepsMerged(Merge(init, startMs, endMs, staleMs), init, ts, startMs, endMs, staleMs);
      assert sorted == init + [ts];
    }
  }

  lemma EndIsUncovered(ivs: seq<Interval>, j: nat)
    requires Separated(ivs) && j < |ivs|
    ensures !InSome(ivs, ivs[j].hi)
  {}

  /** With separated intervals, a stretch is inside one of them exactly when all its
      points are in some of them. */
  lemma WholeBucketIff(ivs: seq<Interval>, lo: int, hi: int)
    requires Separated(ivs) && lo < hi
    ensures (exists j :: 0 <= j < |ivs| && ivs[j].lo <= lo && hi <= ivs[j].hi)
      <==> forall t :: lo <= t < hi ==> InSome(ivs, t)
  {
    if forall t :: lo <= t < hi ==> InSome(ivs, t) {
      assert InSome(ivs, lo);
      var j :| 0 <= j < |ivs| && ivs[j].lo <= lo < ivs[j].hi;
      EndIsUncovered(ivs, j);
      assert hi <= ivs[j].hi;
    }
    if exists j :: 0 <= j < |ivs| && ivs[j].lo <= lo && hi <= ivs[j].hi {
      var j :| 0 <= j < |ivs| && ivs[j].lo <= lo && hi <= ivs[j].hi;
      forall t | lo <= t < hi ensures InSome(ivs, t) {
        assert ivs[j].lo <= t < ivs[j].hi;
      }
    }
  }

  predicate InsideOne(ivs: seq<Interval>, lo: int, hi: int) {
    exists j :: 0 <= j < |ivs| && ivs[j].lo <= lo && hi <= ivs[j].hi
  }

  lemma UsableIgnoresOrder(a: seq<int>, b: seq<int>, staleMs: int, t: int)
    requires forall ts :: ts in a ==> ts in b
    ensures Usable(a, staleMs, t) ==> Usable(b, staleMs, t)
  {
    if Usable(a, staleMs, t) {
      var k :| 0 <= k < |a| && a[k] <= t < a[k] + staleMs;
      assert a[k] in b;
      var m :| 0 <= m < |b| && b[m] == a[k];
    }
  }

  /** What the code counts: buckets inside one merged interval. */
  ghost predicate CodeCounts(obs: seq<int>, startMs: int, endMs: int, staleMs: int, bucketMs: int, i: int) {
    InsideOne(
      Merge(SortBy(obs, IntLe), startMs, endMs, staleMs),
      BucketLow(startMs, bucketMs, i), BucketHigh(startMs, endMs, bucketMs, i))
  }

  /** A bucket is inside one merged interval exactly when every one of its
      milliseconds is within the stale bound of some observation. */
  lemma BucketFilledIff(obs: seq<int>, startMs: int, endMs: int, staleMs: int, bucketMs: int, i: int)
    requires bucketMs > 0 && startMs < endMs && 0 <= i < BucketCount(startMs, endMs, bucketMs)
    ensures CodeCounts(obs, startMs, endMs, staleMs, bucketMs, i)
      <==> BucketUsable(obs, startMs, endMs, staleMs, bucketMs, i)
  {
    var sorted := SortBy(obs, IntLe);
    SortSorts(obs, IntLe);
    SortMembers(obs, IntLe);
    MergeIsMerged(sorted, startMs, endMs, staleMs);
    BucketNotEmpty(startMs, endMs, bucketMs, i);
    var lo, hi := BucketLow(startMs, bucketMs, i), BucketHigh(startMs, endMs, bucketMs, i);
    var ivs := Merge(sorted, startMs, endMs, staleMs);
    WholeBucketIff(ivs, lo, hi);
    forall t | lo <= t < hi ensures InSome(ivs, t) <==> Usable(obs, staleMs, t) {
      UsableIgnoresOrder(sorted, obs, staleMs, t);
      UsableIgnoresOrder(obs, sorted, staleMs, t);
    }
  }

  /** The docstring's reading: the state is usable at the bucket's start, or an
      observation inside the bucket makes it so. */
  ghost predicate DocstringCounts(obs: seq<int>, startMs: int, endMs: int, staleMs: int, bucketMs: int, i: int) {
    || Usable(obs, staleMs, BucketLow(startMs, bucketMs, i))
    || exists k :: 0 <= k < |obs| && BucketLow(startMs, bucketMs, i) <= obs[k] < BucketHigh(startMs, endMs, bucketMs, i)
  }

  /** The code never counts a bucket that the docstring does not; and the two agree on a
      bucket if and only if the docstring leaves it out too or every one of its
      milliseconds is usable. */
  lemma CodeIsStricter(obs: seq<int>, startMs: int, endMs: int, staleMs: int, bucketMs: int, i: int)
    requires bucketMs > 0 && startMs < endMs && 0 <= i < BucketCount(startMs, endMs, bucketMs)
    ensures CodeCounts(obs, startMs, endMs, staleMs, bucketMs, i)
      ==> DocstringCounts(obs, startMs, endMs, staleMs, bucketMs, i)
    ensures (CodeCounts(obs, startMs, endMs, staleMs, bucketMs, i)
      <==> DocstringCounts(obs, startMs, endMs, staleMs, bucketMs, i))
      <==> (DocstringCounts(obs, startMs, endMs, staleMs, bucketMs, i)
        ==> BucketUsable(obs, startMs, endMs, staleMs, bucketMs, i))
  {
    BucketFilledIff(obs, startMs, endMs, staleMs, bucketMs, i);
    BucketNotEmpty(startMs, endMs, bucketMs, i);
  }

  /** Both kinds of bucket on which they differ: an observation in mid-bucket, and a state
      that goes stale in mid-bucket. */
  lemma DocstringCountsMore()
    ensures forall obs :: obs in {[500], [-4500]} ==>
      DocstringCounts(obs, 0, 1000, 5000, 1000, 0) && !CodeCounts(obs, 0, 1000, 5000, 1000, 0)
  {
    forall obs | obs in {[500], [-4500]}
      ensures DocstringCounts(obs, 0, 1000, 5000, 1000, 0) && !CodeCounts(obs, 0, 1000, 5000, 1000, 0)
    {
      CodeIsStricter(obs, 0, 1000, 5000, 1000, 0);
      assert obs[0] == 500 || Usable(obs, 5000, 0);
      assert !Usable(obs, 5000, if obs[0] == 500 then 0 else 500);
    }
  }

  /** More observations never lower the coverage, and their order never matters. */
  lemma CoverageIsMonotone(a: seq<int>, b: seq<int>, startMs: int, endMs: int, staleMs: int, bucketMs: int)
    requires bucketMs > 0 && forall ts :: ts in a ==> ts in b
    ensures UsableBuckets(a, startMs, endMs, staleMs, bucketMs) <= UsableBuckets(b, startMs, endMs, staleMs, bucketMs)
  {
    forall i | i in UsableBuckets(a, startMs, endMs, staleMs, bucketMs)
      ensures BucketUsable(b, startMs, endMs, staleMs, bucketMs, i)
    {
      forall t | BucketLow(startMs, bucketMs, i) <= t < BucketHigh(startMs, endMs, bucketMs, i)
        ensures Usable(b, staleMs, t)
      {
        UsableIgnoresOrder(a, b, staleMs, t);
      }
    }
  }

  /** The sorting and merging half of bounded_state_coverage_pct. */
  method MergeIntervals(obs: seq<int>, startMs: int, endMs: int, staleMs: int) returns (intervals: seq<Interval>)
    ensures intervals == Merge(SortBy(obs, IntLe), startMs, endMs, staleMs)
  {
    var sorted := SortBy(obs, IntLe);
    intervals := [];
    for k := 0 to |sorted|
      invariant intervals == Merge(sorted[..k], startMs, endMs, staleMs)
    {
      assert sorted[..k + 1][..k] == sorted[..k];
      var lo, hi := Max(sorted[k], startMs), Min(sorted[k] + staleMs, endMs);
      if hi <= lo {
        continue;
      }
      if intervals != [] && lo <= intervals[|intervals| - 1].hi {
        var last := intervals[|intervals| - 1];
        intervals := intervals[..|intervals| - 1] + [Interval(last.lo, Max(last.hi, hi))];
      } else {
        intervals := intervals + [Interval(lo, hi)];
      }
    }
    assert sorted[..|sorted|] == sorted;
  }

  lemma ShareInUnit(k: nat, n: nat)
    requires k <= n && n > 0
    ensures 0.0 <= k as real / n as real <= 1.0
  {}

  /** The counting half of bounded_state_coverage_pct. */
  method FilledBuckets(intervals: seq<Interval>, ghost obs: seq<int>, startMs: int, endMs: int, ghost staleMs: int,
      bucketMs: int)
    returns (filled: set<int>)
    requires bucketMs > 0 && startMs < endMs
    requires intervals == Merge(SortBy(obs, IntLe), startMs, endMs, staleMs)
    ensures filled == UsableBuckets(obs, startMs, endMs, staleMs, bucketMs)
    ensures |filled| <= BucketCount(startMs, endMs, bucketMs)
  {
    filled := {};
    for index := 0 to BucketCount(startMs, endMs, bucketMs)
      invariant |filled| <= index
      invariant forall i :: i in filled <==> 0 <= i < index && BucketUsable(obs, startMs, endMs, staleMs, bucketMs, i)
    {
      BucketFilledIff(obs, startMs, endMs, staleMs, bucketMs, index);
      if InsideOne(intervals, BucketLow(startMs, bucketMs, index), BucketHigh(startMs, endMs, bucketMs, index)) {
        filled := filled + {index};
      }
    }
  }

  /** None for an empty window; otherwise the share of buckets that are usable at
      every one of their milliseconds. */
  method BoundedStateCoverage(obs: seq<int>, startMs: int, endMs: int, staleMs: int, bucketMs: int)
    returns (pct: Option<real>)
    requires bucketMs > 0
    ensures pct == None <==> endMs <= startMs
    ensures pct.Some? ==>
      var usable, all := |UsableBuckets(obs, startMs, endMs, staleMs, bucketMs)|, BucketCount(startMs, endMs, bucketMs);
      && pct.value == usable as real / all as real
      && 0.0 <= pct.value <= 1.0
  {
    if endMs <= startMs {
      return None;
    }
    var n := BucketCount(startMs, endMs, bucketMs);
    var intervals := MergeIntervals(obs, startMs, endMs, staleMs);
    var filled := FilledBuckets(intervals, obs, startMs, endMs, staleMs, bucketMs);
    ShareInUnit(|filled|, n);
    pct := Some(|filled| as real / n as real);
  }

  // -------------------- gaps --------------------

  function Inside(obs: seq<int>, startMs: int, endMs: int): seq<int> {
    SortBy(Filter(obs, ts => startMs <= ts <= endMs), IntLe)
  }

  /** The window's ends with the observations inside it, in order. */
  function Points(obs: seq<int>, startMs: int, endMs: int): seq<int> {
    [startMs] + Inside(obs, startMs, endMs) + [endMs]
  }

  /** Each gap is a pair of neighbours further apart than the threshold. */
  lemma {:induction false} StreamGapsAreNeighbours(p: seq<int>, threshold: int, g: nat) returns (i: nat)
    requires g < |StreamGaps(p, threshold)|
    ensures i + 1 < |p| && StreamGaps(p, threshold)[g] == Gap(p[i], p[i + 1]) && p[i + 1] - p[i] > threshold
  {
    var init := p[..|p| - 1];
    if g < |StreamGaps(init, threshold)| {
      i := StreamGapsAreNeighbours(init, threshold, g);
    } else {
      i := |p| - 2;
    }
  }

  lemma {:induction false} StreamGapsInOrder(p: seq<int>, threshold: int, g: nat, h: nat)
    requires SortedBy(p, IntLe) && g < h < |StreamGaps(p, threshold)|
    ensures StreamGaps(p, threshold)[g].endMs <= StreamGaps(p, threshold)[h].startMs
  {
    var n := |p|;
    var init := p[..n - 1];
    var before := StreamGaps(init, threshold);
    if h < |before| {
      StreamGapsInOrder(init, threshold, g, h);
    } else {
      var i := StreamGapsAreNeighbours(init, threshold, g);
      assert i + 1 == n - 2 || IntLe(p[i + 1], p[n - 2]);
    }
  }

  /** A stretch free of points and longer than the threshold is inside one gap. */
  lemma {:induction false} StreamGapsComplete(p: seq<int>, threshold: int, a: int, b: int) returns (g: nat)
    requires SortedBy(p, IntLe) && |p| >= 2 && p[0] <= a < b <= p[|p| - 1] && b - a > threshold
    requires forall i :: 0 <= i < |p| ==> !(a < p[i] < b)
    ensures g < |StreamGaps(p, threshold)|
    ensures StreamGaps(p, threshold)[g].startMs <= a && b <= StreamGaps(p, threshold)[g].endMs
  {
    var n := |p|;
    var init := p[..n - 1];
    if p[n - 2] <= a {
      g := |StreamGaps(init, threshold)|;
    } else {
      assert b <= p[n - 2];
      assert n > 2;
      g := StreamGapsComplete(init, threshold, a, b);
    }
  }

  lemma PointsSorted(obs: seq<int>, startMs: int, endMs: int)
    requires startMs <= endMs
    ensures SortedBy(Points(obs, startMs, endMs), IntLe)
    ensures forall ts :: ts in Inside(obs, startMs, endMs) <==> ts in obs && startMs <= ts <= endMs
  {
    var kept := Filter(obs, ts => startMs <= ts <= endMs);
    FilterMembers(obs, ts => startMs <= ts <= endMs);
    SortSorts(kept, IntLe);
    SortMembers(kept, IntLe);
    var inside := Inside(obs, startMs, endMs);
    var p := Points(obs, startMs, endMs);
    forall i, j | 0 <= i < j < |p| ensures IntLe(p[i], p[j]) {
      assert 0 < i <= |inside| ==> p[i] == inside[i - 1] && inside[i - 1] in inside;
      assert 0 < j <= |inside| ==> p[j] == inside[j - 1] && inside[j - 1] in inside;
      assert 0 < i && j <= |inside| ==> IntLe(inside[i - 1], inside[j - 1]);
    }
  }

  lemma NoPointBetween(p: seq<int>, i: nat, k: nat)
    requires SortedBy(p, IntLe) && i + 1 < |p| && k < |p|
    ensures !(p[i] < p[k] < p[i + 1])
  {
    assert k < i ==> IntLe(p[k], p[i]);
    assert k > i + 1 ==> IntLe(p[i + 1], p[k]);
  }

  /** Reported gaps are longer than the threshold, inside the window, ordered and
      disjoint, and hold no observation in their interior. */
  lemma GapsAreSound(obs: seq<int>, startMs: int, endMs: int, threshold: int, g: nat)
    requires startMs <= endMs
    requires g < |StreamGaps(Points(obs, startMs, endMs), threshold)|
    ensures var gaps := StreamGaps(Points(obs, startMs, endMs), threshold);
      && gaps[g].endMs - gaps[g].startMs > threshold
      && startMs <= gaps[g].startMs <= gaps[g].endMs <= endMs
      && (forall ts :: ts in obs ==> !(gaps[g].startMs < ts < gaps[g].endMs))
      && (forall h :: g < h < |gaps| ==> gaps[g].endMs <= gaps[h].startMs)
  {
    var p := Points(obs, startMs, endMs);
    var inside := Inside(obs, startMs, endMs);
    PointsSorted(obs, startMs, endMs);
    var i := StreamGapsAreNeighbours(p, threshold, g);
    assert IntLe(p[i], p[i + 1]) && p[0] == startMs && p[|p| - 1] == endMs;
    assert i == 0 || IntLe(p[0], p[i]);
    assert i + 1 == |p| - 1 || IntLe(p[i + 1], p[|p| - 1]);
    forall ts | ts in obs ensures !(p[i] < ts < p[i + 1]) {
      if p[i] < ts < p[i + 1] {
        assert ts in inside;
        var k :| 0 <= k < |inside| && inside[k] == ts;
        NoPointBetween(p, i, k + 1);
        assert false;
      }
    }
    forall h | g < h < |StreamGaps(p, threshold)|
      ensures StreamGaps(p, threshold)[g].endMs <= StreamGaps(p, threshold)[h].startMs
    {
      StreamGapsInOrder(p, threshold, g, h);
    }
  }

  /** Every stretch of the window without an observation inside it and longer than
      the threshold lies in one reported gap. */
  lemma GapsAreComplete(obs: seq<int>, startMs: int, endMs: int, threshold: int, a: int, b: int)
    requires startMs <= a < b <= endMs && b - a > threshold
    requires forall ts :: ts in obs ==> !(a < ts < b)
    ensures exists g ::
      && 0 <= g < |StreamGaps(Points(obs, startMs, endMs), threshold)|
      && StreamGaps(Points(obs, startMs, endMs), threshold)[g].startMs <= a
      && b <= StreamGaps(Points(obs, startMs, endMs), threshold)[g].endMs
  {
    var p := Points(obs, startMs, endMs);
    var inside := Inside(obs, startMs, endMs);
    PointsSorted(obs, startMs, endMs);
    forall i | 0 <= i < |p| ensures !(a < p[i] < b) {
      if 0 < i <= |inside| {
        assert p[i] == inside[i - 1] && inside[i - 1] in inside;
      }
    }
    var g := StreamGapsComplete(p, threshold, a, b);
  }

  function Between(a: int, b: int, threshold: int): seq<Gap> {
    if b - a > threshold then [Gap(a, b)] else []
  }

  lemma {:induction false} StreamGapsSplit(first: int, rest: seq<int>, threshold: int)
    requires rest != []
    ensures StreamGaps([first] + rest, threshold) == Between(first, rest[0], threshold) + StreamGaps(rest, threshold)
  {
    var p := [first] + rest;
    assert p[..|p| - 1] == [first] + rest[..|rest| - 1];
    if |rest| > 1 {
      StreamGapsSplit(first, rest[..|rest| - 1], threshold);
    } else {
      assert StreamGaps([first], threshold) == [] && StreamGaps(rest, threshold) == [];
    }
  }

  /** For sorted in-window observations the streaming tracker records exactly the
      interior gaps: all but the leading and the trailing one. */
  lemma TrackerFindsInteriorGaps(obs: seq<int>, startMs: int, endMs: int, threshold: int)
    requires Inside(obs, startMs, endMs) != []
    ensures var inside := Inside(obs, startMs, endMs);
      StreamGaps(Points(obs, startMs, endMs), threshold)
        == Between(startMs, inside[0], threshold) + StreamGaps(inside, threshold)
           + Between(inside[|inside| - 1], endMs, threshold)
  {
    var inside := Inside(obs, startMs, endMs);
    var p := Points(obs, startMs, endMs);
    assert p[..|p| - 1] == [startMs] + inside;
    StreamGapsSplit(startMs, inside, threshold);
  }

  lemma NothingInside(obs: seq<int>, startMs: int, endMs: int, threshold: int)
    requires Inside(obs, startMs, endMs) == []
    ensures StreamGaps(Points(obs, startMs, endMs), threshold) == Between(startMs, endMs, threshold)
  {
    assert Points(obs, startMs, endMs) == [startMs, endMs] && [startMs, endMs][..1] == [startMs];
  }

  /** The loop over neighbouring observations. */
  method InteriorGaps(inside: seq<int>, threshold: int) returns (gaps: seq<Gap>)
    requires inside != []
    ensures gaps == StreamGaps(inside, threshold)
  {
    gaps := [];
    assert inside[..1] == [inside[0]];
    for k := 1 to |inside|
      invariant gaps == StreamGaps(inside[..k], threshold)
    {
      assert inside[..k + 1][..k] == inside[..k];
      if inside[k] - inside[k - 1] > threshold {
        gaps := gaps + [Gap(inside[k - 1], inside[k])];
      }
    }
    assert inside[..|inside|] == inside;
  }

  method FindGaps(obs: seq<int>, startMs: int, endMs: int, threshold: int) returns (gaps: seq<Gap>)
    ensures gaps == StreamGaps(Points(obs, startMs, endMs), threshold)
  {
    var inside := Inside(obs, startMs, endMs);
    if inside == [] {
      NothingInside(obs, startMs, endMs, threshold);
      return if endMs - startMs > threshold then [Gap(startMs, endMs)] else [];
    }
    TrackerFindsInteriorGaps(obs, startMs, endMs, threshold);
    var leading := if inside[0] - startMs > threshold then [Gap(startMs, inside[0])] else [];
    var interior := InteriorGaps(inside, threshold);
    var last := inside[|inside| - 1];
    gaps := leading + interior + (if endMs - last > threshold then [Gap(last, endMs)] else []);
  }
}
