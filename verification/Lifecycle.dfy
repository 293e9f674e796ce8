/** audit/prospective.py:99-150: connection intervals of a recording session, and
    whether a market was recorded over its full life. */
module Lifecycle {
  import opened Options
  import opened Ordering

  datatype Kind = Connected | Disconnected | ConnectionError | SessionEnd | Subscribed | OtherEvent

  datatype Event = Event(kind: Kind, market: string, ts: int)

  datatype Interval = Interval(lo: int, hi: int)

  predicate TsLe(a: Event, b: Event) { a.ts <= b.ts }

  predicate Opens(e: Event) { e.kind.Connected? }

  predicate Closes(e: Event) { e.kind.Disconnected? || e.kind.ConnectionError? || e.kind.SessionEnd? }

  predicate Boundary(e: Event) { Opens(e) || Closes(e) }

  /** The loop's variables. */
  datatype Scan = Scan(intervals: seq<Interval>, open: Option<int>)

  function Step(st: Scan, e: Event): Scan {
    if Opens(e) then
      Scan(if st.open.Some? then st.intervals + [Interval(st.open.value, e.ts)] else st.intervals, Some(e.ts))
    else if Closes(e) && st.open.Some? then Scan(st.intervals + [Interval(st.open.value, e.ts)], None)
    else st
  }

  function Run(s: seq<Event>): Scan {
    if s == [] then Scan([], None) else Step(Run(s[..|s| - 1]), s[|s| - 1])
  }

  function MaxTs(s: seq<Event>): int
    requires s != []
  {
    if |s| == 1 then s[0].ts
    else if s[0].ts >= MaxTs(s[1..]) then s[0].ts
    else MaxTs(s[1..])
  }

  function InOrder(events: seq<Event>): seq<Event> { SortBy(events, TsLe) }

  /** connection_intervals: an interval still open at the end runs to the last event. */
  function Intervals(events: seq<Event>): seq<Interval> {
    var st := Run(InOrder(events));
    if st.open.Some? then st.intervals + [Interval(st.open.value, MaxTs(events))] else st.intervals
  }

  method ConnectionIntervals(events: seq<Event>) returns (intervals: seq<Interval>)
    ensures intervals == Intervals(events)
  {
    intervals := [];
    var open: Option<int> := None;
    var s := InOrder(events);
    for i := 0 to |s|
      invariant Run(s[..i]) == Scan(intervals, open)
    {
      assert s[..i + 1][..i] == s[..i];
      var e := s[i];
      if Opens(e) {
        if open.Some? {
          intervals := intervals + [Interval(open.value, e.ts)];
        }
        open := Some(e.ts);
      } else if Closes(e) && open.Some? {
        intervals := intervals + [Interval(open.value, e.ts)];
        open := None;
      }
    }
    assert s[..|s|] == s;
    if open.Some? {
      intervals := intervals + [Interval(open.value, MaxTs(events))];
    }
  }

  // -------------------- what the intervals are --------------------

  /** A connect at i whose next boundary is at j. */
  ghost predicate Spans(s: seq<Event>, i: int, j: int) {
    0 <= i < j < |s| && Opens(s[i]) && Boundary(s[j]) && forall k :: i < k < j ==> !Boundary(s[k])
  }

  /** A connect at i with no boundary after it. */
  ghost predicate OpenFrom(s: seq<Event>, i: int) {
    0 <= i < |s| && Opens(s[i]) && forall k :: i < k < |s| ==> !Boundary(s[k])
  }

  ghost predicate ClosedInterval(s: seq<Event>, v: Interval) {
    exists i, j :: Spans(s, i, j) && v == Interval(s[i].ts, s[j].ts)
  }

  ghost predicate OpenSince(s: seq<Event>, t: int) {
    exists i :: OpenFrom(s, i) && s[i].ts == t
  }

  lemma SpansGrow(s: seq<Event>, v: Interval)
    requires s != []
    requires ClosedInterval(s[..|s| - 1], v)
      || (Boundary(s[|s| - 1]) && OpenSince(s[..|s| - 1], v.lo) && v.hi == s[|s| - 1].ts)
    ensures ClosedInterval(s, v)
  {
    var init, n := s[..|s| - 1], |s| - 1;
    if ClosedInterval(init, v) {
      var i, j :| Spans(init, i, j) && v == Interval(init[i].ts, init[j].ts);
      assert Spans(s, i, j);
    } else {
      var i :| OpenFrom(init, i) && init[i].ts == v.lo;
      assert Spans(s, i, n);
    }
  }

  lemma SpansExtends(s: seq<Event>, v: Interval)
    requires s != []
    ensures ClosedInterval(s, v) <==> (
      ClosedInterval(s[..|s| - 1], v)
      || (Boundary(s[|s| - 1]) && OpenSince(s[..|s| - 1], v.lo) && v.hi == s[|s| - 1].ts))
  {
    var init, n := s[..|s| - 1], |s| - 1;
    if ClosedInterval(s, v) {
      var i, j :| Spans(s, i, j) && v == Interval(s[i].ts, s[j].ts);
      if j == n {
        assert OpenFrom(init, i);
      } else {
        assert Spans(init, i, j);
      }
    } else if ClosedInterval(init, v) || (Boundary(s[n]) && OpenSince(init, v.lo) && v.hi == s[n].ts) {
      SpansGrow(s, v);
    }
  }

  lemma OpenAfterBoundary(s: seq<Event>, t: int)
    requires s != [] && Boundary(s[|s| - 1])
    ensures OpenSince(s, t) <==> Opens(s[|s| - 1]) && t == s[|s| - 1].ts
  {
    var n := |s| - 1;
    if Opens(s[n]) && t == s[n].ts {
      assert OpenFrom(s, n);
    }
  }

  lemma OpenFromSame(s: seq<Event>, i: int)
    requires s != [] && !Boundary(s[|s| - 1])
    ensures OpenFrom(s, i) <==> OpenFrom(s[..|s| - 1], i)
  {}

  lemma OpenAfterOther(s: seq<Event>, t: int)
    requires s != [] && !Boundary(s[|s| - 1])
    ensures OpenSince(s, t) <==> OpenSince(s[..|s| - 1], t)
  {
    var init := s[..|s| - 1];
    if OpenSince(s, t) {
      var i :| OpenFrom(s, i) && s[i].ts == t;
      OpenFromSame(s, i);
    }
    if OpenSince(init, t) {
      var i :| OpenFrom(init, i) && init[i].ts == t;
      OpenFromSame(s, i);
    }
  }

  lemma OpenExtends(s: seq<Event>, t: int)
    requires s != []
    ensures OpenSince(s, t) <==>
      if Boundary(s[|s| - 1]) then Opens(s[|s| - 1]) && t == s[|s| - 1].ts else OpenSince(s[..|s| - 1], t)
  {
    if Boundary(s[|s| - 1]) {
      OpenAfterBoundary(s, t);
    } else {
      OpenAfterOther(s, t);
    }
  }

  /** The scan collects exactly the spans from a connect to the next boundary. */
  lemma {:induction false} RunSpans(s: seq<Event>, v: Interval, t: int)
    ensures v in Run(s).intervals <==> ClosedInterval(s, v)
    ensures Run(s).open == Some(t) <==> OpenSince(s, t)
  {
    if s != [] {
      var init := s[..|s| - 1];
      RunSpans(init, v, t);
      RunSpans(init, v, v.lo);
      SpansExtends(s, v);
      OpenExtends(s, t);
    }
  }

  // -------------------- pointwise coverage --------------------

  ghost predicate TimeSorted(s: seq<Event>) {
    forall i, j :: 0 <= i < j < |s| ==> s[i].ts <= s[j].ts
  }

  /** No boundary before t. */
  ghost predicate Quiet(s: seq<Event>, t: int) {
    forall k :: 0 <= k < |s| && Boundary(s[k]) ==> s[k].ts >= t
  }

  /** The connection opened at i reaches t. */
  ghost predicate Reaches(s: seq<Event>, i: int, t: int) {
    0 <= i < |s| && Opens(s[i]) && s[i].ts <= t && Quiet(s[i + 1..], t)
  }

  predicate Within(v: Interval, t: int) { v.lo <= t <= v.hi }

  ghost predicate Covered(events: seq<Event>, t: int) {
    exists v :: v in Intervals(events) && Within(v, t)
  }

  /** Connected at t: some connect at or before t, nothing ending it before t, and an
      event at or after t to show that recording went on. */
  ghost predicate ConnectedAt(events: seq<Event>, t: int) {
    events != [] && t <= MaxTs(events) && exists i :: Reaches(InOrder(events), i, t)
  }

  lemma {:induction false} MaxTsIs(s: seq<Event>)
    requires s != []
    ensures forall e :: e in s ==> e.ts <= MaxTs(s)
    ensures exists e :: e in s && e.ts == MaxTs(s)
  {
    if |s| == 1 {
      assert s[0] in s;
    } else {
      MaxTsIs(s[1..]);
      var e :| e in s[1..] && e.ts == MaxTs(s[1..]);
      assert e in s && s[0] in s;
    }
  }

  lemma InOrderFacts(events: seq<Event>)
    ensures TimeSorted(InOrder(events))
    ensures forall e :: e in InOrder(events) <==> e in events
    ensures |InOrder(events)| == |events|
  {
    SortSorts(events, TsLe);
    SortMembers(events, TsLe);
    SortPermutes(events, TsLe);
    var s := InOrder(events);
    forall i, j | 0 <= i < j < |s| ensures s[i].ts <= s[j].ts {
      assert TsLe(s[i], s[j]);
    }
  }

  lemma {:induction false} NextBoundary(s: seq<Event>, i: int, n: int) returns (j: int)
    requires 0 <= i < n <= |s| && Opens(s[i])
    requires exists k :: i < k < n && Boundary(s[k])
    ensures i < j < n && Spans(s, i, j)
    decreases n
  {
    if exists k :: i < k < n - 1 && Boundary(s[k]) {
      j := NextBoundary(s, i, n - 1);
    } else {
      j := n - 1;
    }
  }

  lemma SpanReaches(s: seq<Event>, i: int, j: int, t: int)
    requires TimeSorted(s) && Spans(s, i, j) && s[i].ts <= t <= s[j].ts
    ensures Reaches(s, i, t)
  {
    var rest := s[i + 1..];
    forall k | 0 <= k < |rest| && Boundary(rest[k]) ensures rest[k].ts >= t {
      assert rest[k] == s[i + 1 + k];
    }
  }

  lemma ConnectedAtIs(events: seq<Event>, v: Interval, t: int)
    requires v in Intervals(events) && Within(v, t)
    ensures ConnectedAt(events, t)
  {
    var s := InOrder(events);
    InOrderFacts(events);
    RunSpans(s, v, v.lo);
    if v in Run(s).intervals {
      var i, j :| Spans(s, i, j) && v == Interval(s[i].ts, s[j].ts);
      SpanReaches(s, i, j, t);
      assert s[j] in s;
      MaxTsIs(events);
    } else {
      var i :| OpenFrom(s, i) && s[i].ts == v.lo;
      assert Reaches(s, i, t);
    }
  }

  /** The intervals cover exactly the instants at which the session was connected. */
  lemma CoveredIffConnected(events: seq<Event>, t: int)
    ensures Covered(events, t) <==> ConnectedAt(events, t)
  {
    if Covered(events, t) {
      var v :| v in Intervals(events) && Within(v, t);
      ConnectedAtIs(events, v, t);
    }
    if ConnectedAt(events, t) {
      var s := InOrder(events);
      var i :| Reaches(s, i, t);
      if exists k :: i < k < |s| && Boundary(s[k]) {
        var j := NextBoundary(s, i, |s|);
        var v := Interval(s[i].ts, s[j].ts);
        assert s[i + 1..][j - i - 1] == s[j];
        RunSpans(s, v, 0);
        assert v in Intervals(events) && Within(v, t);
      } else {
        assert OpenFrom(s, i);
        RunSpans(s, Interval(0, 0), s[i].ts);
        var v := Interval(s[i].ts, MaxTs(events));
        assert v in Intervals(events) && Within(v, t);
      }
    }
  }

  ghost predicate Ordered(vs: seq<Interval>, last: int) {
    && (forall i :: 0 <= i < |vs| ==> vs[i].lo <= vs[i].hi <= last)
    && (forall i, j :: 0 <= i < j < |vs| ==> vs[i].hi <= vs[j].lo)
  }

  lemma OrderedPush(vs: seq<Interval>, v: Interval, last: int)
    requires Ordered(vs, v.lo) && v.lo <= v.hi <= last
    ensures Ordered(vs + [v], last)
  {}

  lemma {:induction false} RunOrdered(s: seq<Event>, last: int)
    requires TimeSorted(s) && forall i :: 0 <= i < |s| ==> s[i].ts <= last
    ensures Ordered(Run(s).intervals, last)
    ensures Run(s).open.Some? ==> Run(s).open.value <= last && Ordered(Run(s).intervals, Run(s).open.value)
  {
    if s != [] {
      var init, e := s[..|s| - 1], s[|s| - 1];
      RunOrdered(init, e.ts);
      var st := Run(init);
      if st.open.Some? {
        OrderedPush(st.intervals, Interval(st.open.value, e.ts), e.ts);
      }
    }
  }

  /** Intervals come in time order and never overlap in more than an endpoint. */
  lemma IntervalsAreOrdered(events: seq<Event>)
    requires events != []
    ensures Ordered(Intervals(events), MaxTs(events))
  {
    var s := InOrder(events);
    InOrderFacts(events);
    MaxTsIs(events);
    forall i | 0 <= i < |s| ensures s[i].ts <= MaxTs(events) {
      assert s[i] in s;
    }
    RunOrdered(s, MaxTs(events));
    var st := Run(s);
    if st.open.Some? {
      OrderedPush(st.intervals, Interval(st.open.value, MaxTs(events)), MaxTs(events));
    }
  }

  // -------------------- a reconnect inside one interval --------------------

  lemma {:induction false} InsertLate(a: Event, p: seq<Event>, rest: seq<Event>)
    requires forall i :: 0 <= i < |p| ==> p[i].ts < a.ts
    ensures InsertBy(a, p + rest, TsLe) == p + InsertBy(a, rest, TsLe)
  {
    if p == [] {
      assert p + rest == rest;
    } else {
      var tail := p[1..];
      forall i | 0 <= i < |tail| ensures tail[i].ts < a.ts {
        assert tail[i] == p[i + 1];
      }
      InsertLate(a, tail, rest);
      assert (p + rest)[0] == p[0] && (p + rest)[1..] == tail + rest;
      assert p + InsertBy(a, rest, TsLe) == [p[0]] + (tail + InsertBy(a, rest, TsLe));
    }
  }

  lemma {:induction false} InsertEarly(a: Event, p: seq<Event>, rest: seq<Event>)
    requires exists i :: 0 <= i < |p| && a.ts <= p[i].ts
    ensures InsertBy(a, p + rest, TsLe) == InsertBy(a, p, TsLe) + rest
  {
    assert (p + rest)[0] == p[0];
    if !TsLe(a, p[0]) {
      var i :| 0 <= i < |p| && a.ts <= p[i].ts;
      assert p[1..][i - 1] == p[i];
      InsertEarly(a, p[1..], rest);
      assert (p + rest)[1..] == p[1..] + rest;
    } else {
      assert [a] + (p + rest) == [a] + p + rest;
    }
  }

  /** Where an event that sits anywhere in the list lands in time order. */
  lemma {:induction false} Lands(a: seq<Event>, x: Event, b: seq<Event>) returns (p: seq<Event>, q: seq<Event>)
    ensures InOrder(a + b) == p + q && InOrder(a + [x] + b) == p + [x] + q
  {
    InOrderFacts(a + [x] + b);
    if a == [] {
      assert a + b == b && a + [x] + b == [x] + b && ([x] + b)[1..] == b;
      p, q := LandsFirst(x, InOrder(b));
    } else {
      var p0, q0 := Lands(a[1..], x, b);
      InOrderFacts(a[1..] + [x] + b);
      assert (a + b)[1..] == a[1..] + b && (a + [x] + b)[1..] == a[1..] + [x] + b;
      p, q := LandsAfter(a[0], p0, x, q0);
    }
  }

  lemma {:induction false} LandsFirst(x: Event, s: seq<Event>) returns (p: seq<Event>, q: seq<Event>)
    ensures s == p + q && InsertBy(x, s, TsLe) == p + [x] + q
  {
    if s == [] || TsLe(x, s[0]) {
      p, q := [], s;
      assert p + [x] + q == [x] + s;
    } else {
      var p0, q0 := LandsFirst(x, s[1..]);
      p, q := [s[0]] + p0, q0;
      assert s == [s[0]] + s[1..];
    }
  }

  lemma LandsAfter(a: Event, p0: seq<Event>, x: Event, q0: seq<Event>) returns (p: seq<Event>, q: seq<Event>)
    requires TimeSorted(p0 + [x] + q0)
    ensures InsertBy(a, p0 + q0, TsLe) == p + q && InsertBy(a, p0 + [x] + q0, TsLe) == p + [x] + q
  {
    assert p0 + [x] + q0 == p0 + ([x] + q0);
    if exists i :: 0 <= i < |p0| && a.ts <= p0[i].ts {
      InsertEarly(a, p0, q0);
      InsertEarly(a, p0, [x] + q0);
      p, q := InsertBy(a, p0, TsLe), q0;
      assert p + ([x] + q0) == p + [x] + q;
    } else {
      InsertLate(a, p0, q0);
      InsertLate(a, p0, [x] + q0);
      if TsLe(a, x) {
        p, q := p0 + [a], q0;
        assert (p0 + [x] + q0)[|p0|] == x;
        assert q0 != [] ==> (p0 + [x] + q0)[|p0| + 1] == q0[0];
        assert InsertBy(a, q0, TsLe) == [a] + q0;
        assert InsertBy(a, [x] + q0, TsLe) == [a] + ([x] + q0);
        assert p0 + ([a] + q0) == p + q;
        assert p0 + ([a] + ([x] + q0)) == p + [x] + q;
      } else {
        p, q := p0, InsertBy(a, q0, TsLe);
        assert ([x] + q0)[1..] == q0;
        assert p0 + ([x] + q) == p + [x] + q;
      }
    }
  }

  ghost predicate Alive(s: seq<Event>, t: int) {
    exists i :: Reaches(s, i, t)
  }

  lemma QuietConcat(a: seq<Event>, b: seq<Event>, t: int)
    ensures Quiet(a + b, t) <==> Quiet(a, t) && Quiet(b, t)
  {
    var s := a + b;
    if Quiet(s, t) {
      forall k | 0 <= k < |a| && Boundary(a[k]) ensures a[k].ts >= t {
        assert s[k] == a[k];
      }
      forall k | 0 <= k < |b| && Boundary(b[k]) ensures b[k].ts >= t {
        assert s[|a| + k] == b[k];
      }
    }
  }

  lemma AliveConcat(a: seq<Event>, b: seq<Event>, t: int)
    ensures Alive(a + b, t) <==> Alive(b, t) || (Alive(a, t) && Quiet(b, t))
  {
    var s := a + b;
    forall i | 0 <= i < |a| ensures Reaches(s, i, t) <==> Reaches(a, i, t) && Quiet(b, t) {
      assert s[i + 1..] == a[i + 1..] + b;
      QuietConcat(a[i + 1..], b, t);
    }
    forall i | 0 <= i < |b| ensures Reaches(s, |a| + i, t) <==> Reaches(b, i, t) {
      assert s[|a| + i + 1..] == b[i + 1..];
    }
    if Alive(s, t) {
      var i :| Reaches(s, i, t);
      assert i < |a| || Reaches(b, i - |a|, t);
    }
  }

  lemma AliveOne(e: Event, t: int)
    ensures Alive([e], t) <==> Opens(e) && e.ts <= t
    ensures Quiet([e], t) <==> (Boundary(e) ==> e.ts >= t)
  {
    assert [e][1..] == [];
    assert Opens(e) && e.ts <= t ==> Reaches([e], 0, t);
    assert Quiet([e], t) ==> [e][0] == e;
  }

  ghost predicate NoBoundary(s: seq<Event>) {
    forall k :: 0 <= k < |s| ==> !Boundary(s[k])
  }

  lemma AliveTrailing(a: seq<Event>, m: seq<Event>, t: int)
    requires NoBoundary(m)
    ensures Alive(a + m, t) <==> Alive(a, t)
  {
    AliveConcat(a, m, t);
  }

  /** The connection opened somewhere in p is still up at its end. */
  ghost predicate UpAfter(p: seq<Event>, lo: int) {
    exists o :: OpenFrom(p, o) && p[o].ts == lo
  }

  lemma UpIsAlive(p: seq<Event>, lo: int, t: int)
    requires UpAfter(p, lo) && lo <= t
    ensures Alive(p, t)
  {
    var o :| OpenFrom(p, o) && p[o].ts == lo;
    assert Reaches(p, o, t);
  }

  ghost predicate NoEarlier(s: seq<Event>, t: int) {
    forall k :: 0 <= k < |s| ==> s[k].ts >= t
  }

  ghost predicate NoLater(s: seq<Event>, t: int) {
    forall k :: 0 <= k < |s| ==> s[k].ts <= t
  }

  lemma AliveIsNotEarlier(q: seq<Event>, from: int, t: int)
    requires NoEarlier(q, from) && Alive(q, t)
    ensures t >= from
  {}

  /** In time order: the pair d, c cuts the open interval (d, c) out of the connected
      time, and nothing else. */
  lemma PairCutsAHole(p: seq<Event>, d: Event, m: seq<Event>, c: Event, q: seq<Event>, lo: int, t: int)
    requires Closes(d) && Opens(c) && lo <= d.ts <= c.ts
    requires UpAfter(p, lo) && NoBoundary(m) && NoEarlier(q, c.ts)
    ensures Alive(p + [d] + m + [c] + q, t) <==> Alive(p + m + q, t) && !(d.ts < t < c.ts)
  {
    AliveConcat(p + m, q, t);
    AliveTrailing(p, m, t);
    AliveConcat(p + [d] + m + [c], q, t);
    AliveConcat(p + [d] + m, [c], t);
    AliveTrailing(p + [d], m, t);
    AliveConcat(p, [d], t);
    AliveOne(d, t);
    AliveOne(c, t);
    if t >= d.ts {
      UpIsAlive(p, lo, t);
    }
    if Alive(q, t) {
      AliveIsNotEarlier(q, c.ts, t);
    }
  }

  /** A connect at i with no boundary before hi after it. */
  ghost predicate OpensUntil(s: seq<Event>, i: int, lo: int, hi: int) {
    && 0 <= i < |s| && Opens(s[i]) && s[i].ts == lo
    && forall k :: i < k < |s| && Boundary(s[k]) ==> s[k].ts >= hi
  }

  lemma SpanOpensUntil(s: seq<Event>, i: int, j: int)
    requires TimeSorted(s) && Spans(s, i, j)
    ensures OpensUntil(s, i, s[i].ts, s[j].ts)
  {
    forall k | i < k < |s| && Boundary(s[k]) ensures s[k].ts >= s[j].ts {
      assert k >= j;
    }
  }

  /** An interval comes from a connect with no boundary before the interval's end. */
  lemma IntervalOpensAt(events: seq<Event>, v: Interval) returns (i: int)
    requires v in Intervals(events)
    ensures OpensUntil(InOrder(events), i, v.lo, v.hi)
  {
    var s := InOrder(events);
    InOrderFacts(events);
    RunSpans(s, v, v.lo);
    if v in Run(s).intervals {
      var j: int;
      i, j :| Spans(s, i, j) && v == Interval(s[i].ts, s[j].ts);
      SpanOpensUntil(s, i, j);
    } else {
      i :| OpenFrom(s, i) && s[i].ts == v.lo;
    }
  }

  /** Inside one interval no boundary happens: what lies before d ends connected. */
  lemma IntervalSplits(s: seq<Event>, i: int, hi: int, p: seq<Event>, m: seq<Event>, q: seq<Event>, d: int, c: int)
    requires s == p + m + q && 0 <= i < |s| && OpensUntil(s, i, s[i].ts, hi) && s[i].ts < d <= c < hi
    requires NoEarlier(m + q, d) && NoLater(p + m, c)
    ensures UpAfter(p, s[i].ts) && NoBoundary(m)
  {
    forall k | |p| <= k < |s| ensures s[k].ts >= d {
      assert s[k] == (m + q)[k - |p|];
    }
    forall k | i < k < |p + m| ensures !Boundary((p + m)[k]) {
      assert s[k] == (p + m)[k];
    }
    forall k | i < k < |p| ensures !Boundary(p[k]) {
      assert (p + m)[k] == p[k];
    }
    assert OpenFrom(p, i);
    forall k | 0 <= k < |m| ensures !Boundary(m[k]) {
      assert m[k] == (p + m)[|p| + k];
    }
  }

  /** x was put somewhere into the list. */
  ghost predicate Inserted(before: seq<Event>, x: Event, after: seq<Event>) {
    exists a, b :: before == a + b && after == a + [x] + b
  }

  lemma InsertedMembers(before: seq<Event>, x: Event, after: seq<Event>)
    requires Inserted(before, x, after)
    ensures forall e :: e in after <==> e in before || e == x
  {}

  lemma MaxTsKept(before: seq<Event>, x: Event, after: seq<Event>)
    requires Inserted(before, x, after) && before != [] && x.ts <= MaxTs(before)
    ensures after != [] && MaxTs(after) == MaxTs(before)
  {
    InsertedMembers(before, x, after);
    MaxTsIs(before);
    assert x in after;
    MaxTsIs(after);
  }

  lemma InsertedLands(before: seq<Event>, x: Event, after: seq<Event>) returns (p: seq<Event>, q: seq<Event>)
    requires Inserted(before, x, after)
    ensures InOrder(before) == p + q && InOrder(after) == p + [x] + q
  {
    var a, b :| before == a + b && after == a + [x] + b;
    p, q := Lands(a, x, b);
  }

  lemma SortedAround(p: seq<Event>, x: Event, q: seq<Event>)
    requires TimeSorted(p + [x] + q)
    ensures NoEarlier(q, x.ts) && NoLater(p, x.ts)
  {
    var s := p + [x] + q;
    assert s[|p|] == x;
    forall k | 0 <= k < |q| ensures q[k].ts >= x.ts {
      assert s[|p| + 1 + k] == q[k];
    }
    forall k | 0 <= k < |p| ensures p[k].ts <= x.ts {
      assert s[k] == p[k];
    }
  }

  /** Two ways to cut one list, the second later: what lies between the cuts. */
  lemma Between(p: seq<Event>, d: Event, q0: seq<Event>, p2: seq<Event>, q: seq<Event>) returns (m: seq<Event>)
    requires p + [d] + q0 == p2 + q && |p| < |p2|
    ensures p2 == p + [d] + m && q0 == m + q
  {
    var s := p + [d] + q0;
    m := p2[|p| + 1..];
    assert s[..|p2|] == p2 && s[|p2|..] == q;
    assert s[|p|] == d && s[..|p|] == p && s[|p| + 1..] == q0;
    assert p2[..|p|] == p && p2[|p|] == d;
    assert q0[..|m|] == m && q0[|m|..] == q;
  }

  lemma CutsInOrder(p: seq<Event>, d: Event, q0: seq<Event>, p2: seq<Event>, q: seq<Event>, later: int)
    requires p + [d] + q0 == p2 + q && NoEarlier(q, later) && d.ts < later
    ensures |p| < |p2|
  {
    var s := p + [d] + q0;
    assert s[|p|] == d;
    forall k | |p2| <= k < |s| ensures s[k].ts >= later {
      assert s[k] == q[k - |p2|];
    }
  }

  lemma NoLaterWithout(p: seq<Event>, d: Event, m: seq<Event>, t: int)
    requires NoLater(p + [d] + m, t)
    ensures NoLater(p + m, t)
  {
    forall k | 0 <= k < |p + m| ensures (p + m)[k].ts <= t {
      assert (p + m)[k] == (p + [d] + m)[if k < |p| then k else k + 1];
    }
  }

  /** Where the pair lands in time order. */
  lemma PairLands(events: seq<Event>, d: Event, half: seq<Event>, c: Event, events': seq<Event>)
    returns (p: seq<Event>, m: seq<Event>, q: seq<Event>)
    requires Inserted(events, d, half) && Inserted(half, c, events') && d.ts < c.ts
    ensures InOrder(events) == p + m + q && InOrder(events') == p + [d] + m + [c] + q
    ensures NoEarlier(m + q, d.ts) && NoEarlier(q, c.ts) && NoLater(p + m, c.ts)
  {
    var q0, p2;
    p, q0 := InsertedLands(events, d, half);
    p2, q := InsertedLands(half, c, events');
    InOrderFacts(half);
    InOrderFacts(events');
    SortedAround(p, d, q0);
    SortedAround(p2, c, q);
    CutsInOrder(p, d, q0, p2, q, c.ts);
    m := Between(p, d, q0, p2, q);
    NoLaterWithout(p, d, m, c.ts);
    assert p + (m + q) == p + m + q;
  }

  lemma NoEventsNoIntervals()
    ensures Intervals([]) == []
  {}

  /** A disconnect and reconnect inside one interval changes the connected time by
      exactly the gap strictly between them. */
  lemma ReconnectCutsAHole(events: seq<Event>, v: Interval, d: Event, half: seq<Event>, c: Event, events': seq<Event>,
      t: int)
    requires v in Intervals(events) && Closes(d) && Opens(c) && v.lo < d.ts < c.ts < v.hi
    requires Inserted(events, d, half) && Inserted(half, c, events')
    ensures Covered(events', t) <==> Covered(events, t) && !(d.ts < t < c.ts)
  {
    var p, m, q := PairLands(events, d, half, c, events');
    var i := IntervalOpensAt(events, v);
    IntervalSplits(InOrder(events), i, v.hi, p, m, q, d.ts, c.ts);
    PairCutsAHole(p, d, m, c, q, v.lo, t);
    CoveredIffConnected(events, t);
    CoveredIffConnected(events', t);
    NoEventsNoIntervals();
    IntervalsAreOrdered(events);
    MaxTsKept(events, d, half);
    MaxTsKept(half, c, events');
  }

  // -------------------- lifecycle --------------------

  function IsSubscribed(market: string, t: int): Event -> bool {
    (e: Event) => e.kind.Subscribed? && e.market == market && e.ts <= t
  }

  function MinTs(s: seq<Event>): int
    requires s != []
  {
    if |s| == 1 then s[0].ts
    else if s[0].ts <= MinTs(s[1..]) then s[0].ts
    else MinTs(s[1..])
  }

  function FirstWithin(vs: seq<Interval>, t: int): Option<Interval> {
    if vs == [] then None else if Within(vs[0], t) then Some(vs[0]) else FirstWithin(vs[1..], t)
  }

  datatype Evidence = Evidence(connectedMs: int, subscribedMs: int, endedMs: int)

  /** book_endpoint: the first session that was subscribed and connected. */
  function BookEndpoint(sessions: seq<seq<Event>>, market: string, t: int): Option<Evidence> {
    if sessions == [] then None
    else
      var subscribed := Filter(sessions[0], IsSubscribed(market, t));
      var v := FirstWithin(Intervals(sessions[0]), t);
      if subscribed != [] && v.Some? then Some(Evidence(v.value.lo, MinTs(subscribed), v.value.hi))
      else BookEndpoint(sessions[1..], market, t)
  }

  predicate BtcEndpoint(sessions: seq<seq<Event>>, t: int) {
    sessions != [] && (FirstWithin(Intervals(sessions[0]), t).Some? || BtcEndpoint(sessions[1..], t))
  }

  datatype Lifecycle = Lifecycle(full: bool, bookFull: bool, btcFull: bool,
      evidence: Option<(Option<Evidence>, Option<Evidence>)>)

  /** classify_market_lifecycle. */
  function Classify(market: string, start: int, end: int, book: seq<seq<Event>>, btc: seq<seq<Event>>): Lifecycle {
    var bookStart, bookEnd := BookEndpoint(book, market, start), BookEndpoint(book, market, end);
    var bookReady := bookStart.Some? && bookEnd.Some?;
    var btcReady := BtcEndpoint(btc, start) && BtcEndpoint(btc, end);
    Lifecycle(
      bookReady && btcReady, bookReady, btcReady,
      if bookStart.Some? || bookEnd.Some? then Some((bookStart, bookEnd)) else None)
  }

  ghost predicate BookReady(session: seq<Event>, market: string, t: int) {
    && ConnectedAt(session, t)
    && exists e :: e in session && e.kind.Subscribed? && e.market == market && e.ts <= t
  }

  lemma {:induction false} FirstWithinIff(vs: seq<Interval>, t: int)
    ensures FirstWithin(vs, t).Some? <==> exists v :: v in vs && Within(v, t)
  {
    if vs != [] {
      FirstWithinIff(vs[1..], t);
      assert vs == [vs[0]] + vs[1..];
    }
  }

  lemma FirstReadyIff(session: seq<Event>, market: string, t: int)
    ensures BookReady(session, market, t)
      <==> Filter(session, IsSubscribed(market, t)) != [] && FirstWithin(Intervals(session), t).Some?
  {
    FirstWithinIff(Intervals(session), t);
    CoveredIffConnected(session, t);
    SubscribedIff(session, market, t);
  }

  lemma {:induction false} BookEndpointIff(sessions: seq<seq<Event>>, market: string, t: int)
    ensures BookEndpoint(sessions, market, t).Some? <==> exists s :: s in sessions && BookReady(s, market, t)
  {
    if sessions != [] {
      BookEndpointIff(sessions[1..], market, t);
      FirstReadyIff(sessions[0], market, t);
      assert sessions == [sessions[0]] + sessions[1..];
    }
  }

  lemma SubscribedIff(s: seq<Event>, market: string, t: int)
    ensures Filter(s, IsSubscribed(market, t)) != []
      <==> exists e :: e in s && e.kind.Subscribed? && e.market == market && e.ts <= t
  {
    FilterMembers(s, IsSubscribed(market, t));
    var kept := Filter(s, IsSubscribed(market, t));
    if kept != [] {
      assert kept[0] in kept;
    }
    if e :| e in s && e.kind.Subscribed? && e.market == market && e.ts <= t {
      assert e in kept;
    }
  }

  lemma {:induction false} MinTsIs(s: seq<Event>)
    requires s != []
    ensures exists e :: e in s && e.ts == MinTs(s)
    ensures forall e :: e in s ==> MinTs(s) <= e.ts
  {
    if |s| == 1 {
      assert s[0] in s;
    } else {
      MinTsIs(s[1..]);
      var e :| e in s[1..] && e.ts == MinTs(s[1..]);
      assert e in s && s[0] in s;
    }
  }

  lemma {:induction false} FirstWithinIs(vs: seq<Interval>, t: int)
    requires FirstWithin(vs, t).Some?
    ensures FirstWithin(vs, t).value in vs && Within(FirstWithin(vs, t).value, t)
  {
    if !Within(vs[0], t) {
      FirstWithinIs(vs[1..], t);
    }
  }

  /** What one session's evidence says: its interval around t, and its first
      subscription to the market. */
  ghost predicate EvidenceOf(session: seq<Event>, market: string, t: int, e: Evidence) {
    && Interval(e.connectedMs, e.endedMs) in Intervals(session) && e.connectedMs <= t <= e.endedMs
    && (exists x :: x in session && x.kind.Subscribed? && x.market == market && x.ts == e.subscribedMs <= t)
    && (forall x :: x in session && x.kind.Subscribed? && x.market == market ==> e.subscribedMs <= x.ts)
  }

  lemma SessionEvidence(session: seq<Event>, market: string, t: int)
    requires Filter(session, IsSubscribed(market, t)) != [] && FirstWithin(Intervals(session), t).Some?
    ensures var v := FirstWithin(Intervals(session), t).value;
      EvidenceOf(session, market, t, Evidence(v.lo, MinTs(Filter(session, IsSubscribed(market, t))), v.hi))
  {
    FirstWithinIs(Intervals(session), t);
    var kept := Filter(session, IsSubscribed(market, t));
    FilterMembers(session, IsSubscribed(market, t));
    MinTsIs(kept);
    assert kept[0] in kept;
    forall x | x in session && x.kind.Subscribed? && x.market == market ensures MinTs(kept) <= x.ts {
      assert x.ts <= t ==> x in kept;
    }
  }

  /** The evidence is that of the first session that was ready at t. */
  lemma {:induction false} EvidenceIsFirstReady(sessions: seq<seq<Event>>, market: string, t: int) returns (k: nat)
    requires BookEndpoint(sessions, market, t).Some?
    ensures k < |sessions| && EvidenceOf(sessions[k], market, t, BookEndpoint(sessions, market, t).value)
    ensures forall j :: 0 <= j < k ==> !BookReady(sessions[j], market, t)
  {
    FirstReadyIff(sessions[0], market, t);
    if BookReady(sessions[0], market, t) {
      SessionEvidence(sessions[0], market, t);
      k := 0;
    } else {
      var rest := EvidenceIsFirstReady(sessions[1..], market, t);
      k := rest + 1;
      forall j | 0 <= j < k ensures !BookReady(sessions[j], market, t) {
        assert j > 0 ==> sessions[j] == sessions[1..][j - 1];
      }
    }
  }

  lemma {:induction false} BtcEndpointIff(sessions: seq<seq<Event>>, t: int)
    ensures BtcEndpoint(sessions, t) <==> exists s :: s in sessions && ConnectedAt(s, t)
  {
    if sessions != [] {
      BtcEndpointIff(sessions[1..], t);
      FirstWithinIff(Intervals(sessions[0]), t);
      CoveredIffConnected(sessions[0], t);
      assert sessions == [sessions[0]] + sessions[1..];
    }
  }

  /** A market has its full life exactly when both feeds were up at both endpoints, the
      book feed subscribed to it by then; the sessions may differ. */
  lemma FullIffReadyAtBothEnds(market: string, start: int, end: int, book: seq<seq<Event>>, btc: seq<seq<Event>>)
    ensures Classify(market, start, end, book, btc).full <==> (
      && (exists s :: s in book && BookReady(s, market, start)) && (exists s :: s in book && BookReady(s, market, end))
      && (exists s :: s in btc && ConnectedAt(s, start)) && (exists s :: s in btc && ConnectedAt(s, end)))
  {
    BookEndpointIff(book, market, start);
    BookEndpointIff(book, market, end);
    BtcEndpointIff(btc, start);
    BtcEndpointIff(btc, end);
  }

  /** `after` is `before` with a disconnect and reconnect added inside one interval,
      the gap between them not reaching over t. */
  ghost predicate Reconnected(before: seq<Event>, after: seq<Event>, start: int, end: int) {
    exists v, d: Event, half, c: Event ::
      && v in Intervals(before) && Closes(d) && Opens(c) && v.lo < d.ts < c.ts < v.hi
      && Inserted(before, d, half) && Inserted(half, c, after)
      && !(d.ts < start < c.ts) && !(d.ts < end < c.ts)
  }

  lemma ReconnectKeepsReady(before: seq<Event>, after: seq<Event>, start: int, end: int, market: string)
    requires Reconnected(before, after, start, end)
    ensures ConnectedAt(after, start) <==> ConnectedAt(before, start)
    ensures ConnectedAt(after, end) <==> ConnectedAt(before, end)
    ensures BookReady(after, market, start) <==> BookReady(before, market, start)
    ensures BookReady(after, market, end) <==> BookReady(before, market, end)
  {
    var v, d: Event, half, c: Event :|
      && v in Intervals(before) && Closes(d) && Opens(c) && v.lo < d.ts < c.ts < v.hi
      && Inserted(before, d, half) && Inserted(half, c, after)
      && !(d.ts < start < c.ts) && !(d.ts < end < c.ts);
    ReconnectCutsAHole(before, v, d, half, c, after, start);
    ReconnectCutsAHole(before, v, d, half, c, after, end);
    CoveredIffConnected(before, start);
    CoveredIffConnected(after, start);
    CoveredIffConnected(before, end);
    CoveredIffConnected(after, end);
    InsertedMembers(before, d, half);
    InsertedMembers(half, c, after);
  }

  lemma {:induction false} BookReplaced(book: seq<seq<Event>>, k: nat, after: seq<Event>, market: string, t: int)
    requires k < |book| && (BookReady(after, market, t) <==> BookReady(book[k], market, t))
    ensures BookEndpoint(book[k := after], market, t).Some? <==> BookEndpoint(book, market, t).Some?
  {
    var book' := book[k := after];
    BookEndpointIff(book, market, t);
    BookEndpointIff(book', market, t);
    forall i | 0 <= i < |book| ensures BookReady(book'[i], market, t) <==> BookReady(book[i], market, t) {}
    if s :| s in book && BookReady(s, market, t) {
      var i :| 0 <= i < |book| && book[i] == s;
      assert book'[i] in book';
    }
    if s :| s in book' && BookReady(s, market, t) {
      var i :| 0 <= i < |book'| && book'[i] == s;
      assert book[i] in book;
    }
  }

  lemma {:induction false} BtcReplaced(btc: seq<seq<Event>>, k: nat, after: seq<Event>, t: int)
    requires k < |btc| && (ConnectedAt(after, t) <==> ConnectedAt(btc[k], t))
    ensures BtcEndpoint(btc[k := after], t) <==> BtcEndpoint(btc, t)
  {
    var btc' := btc[k := after];
    BtcEndpointIff(btc, t);
    BtcEndpointIff(btc', t);
    forall i | 0 <= i < |btc| ensures ConnectedAt(btc'[i], t) <==> ConnectedAt(btc[i], t) {}
    if s :| s in btc && ConnectedAt(s, t) {
      var i :| 0 <= i < |btc| && btc[i] == s;
      assert btc'[i] in btc';
    }
    if s :| s in btc' && ConnectedAt(s, t) {
      var i :| 0 <= i < |btc'| && btc'[i] == s;
      assert btc[i] in btc;
    }
  }

  predicate SameVerdict(a: Lifecycle, b: Lifecycle) {
    a.full == b.full && a.bookFull == b.bookFull && a.btcFull == b.btcFull
  }

  /** A mid-market reconnect of any book or BTC session leaves the verdict alone. */
  lemma ReconnectKeepsLifecycle(
    market: string, start: int, end: int, book: seq<seq<Event>>, btc: seq<seq<Event>>, k: nat, after: seq<Event>)
    ensures k < |book| && Reconnected(book[k], after, start, end) ==>
      SameVerdict(Classify(market, start, end, book[k := after], btc), Classify(market, start, end, book, btc))
    ensures k < |btc| && Reconnected(btc[k], after, start, end) ==>
      SameVerdict(Classify(market, start, end, book, btc[k := after]), Classify(market, start, end, book, btc))
  {
    if k < |book| && Reconnected(book[k], after, start, end) {
      ReconnectKeepsReady(book[k], after, start, end, market);
      BookReplaced(book, k, after, market, start);
      BookReplaced(book, k, after, market, end);
    }
    if k < |btc| && Reconnected(btc[k], after, start, end) {
      ReconnectKeepsReady(btc[k], after, start, end, market);
      BtcReplaced(btc, k, after, start);
      BtcReplaced(btc, k, after, end);
    }
  }

  /** Both halves of the verdict, and the evidence: that of either endpoint, if any. */
  lemma HalvesAndEvidence(market: string, start: int, end: int, book: seq<seq<Event>>, btc: seq<seq<Event>>)
    ensures var r := Classify(market, start, end, book, btc);
      && (r.bookFull <==>
        (exists s :: s in book && BookReady(s, market, start)) && (exists s :: s in book && BookReady(s, market, end)))
      && (r.btcFull <==>
        (exists s :: s in btc && ConnectedAt(s, start)) && (exists s :: s in btc && ConnectedAt(s, end)))
      && (r.evidence.Some? <==>
        (exists s :: s in book && BookReady(s, market, start)) || (exists s :: s in book && BookReady(s, market, end)))
      && (r.evidence.Some? ==>
        r.evidence.value == (BookEndpoint(book, market, start), BookEndpoint(book, market, end)))
  {
    BookEndpointIff(book, market, start);
    BookEndpointIff(book, market, end);
    BtcEndpointIff(btc, start);
    BtcEndpointIff(btc, end);
  }

  /** What each kind of event does to a connection made before it: a loss ends it, another
      connect starts the next interval there, anything else leaves it open. */
  lemma WhatEndsAConnection(a: int, b: int, c: int, kind: Kind, market: string, last: string)
    requires a < b < c
    ensures Intervals([Event(Connected, market, a), Event(kind, market, b), Event(OtherEvent, last, c)]) == match kind
      case Connected => [Interval(a, b), Interval(b, c)]
      case Disconnected => [Interval(a, b)]
      case ConnectionError => [Interval(a, b)]
      case SessionEnd => [Interval(a, b)]
      case Subscribed => [Interval(a, c)]
      case OtherEvent => [Interval(a, c)]
  {
    var x, y, z := Event(Connected, market, a), Event(kind, market, b), Event(OtherEvent, last, c);
    var s := [x, y, z];
    assert s[1..] == [y, z] && [y, z][1..] == [z] && [z][1..] == [];
    assert InOrder(s) == s by {
      assert SortBy([], TsLe) == [] && InsertBy(z, [], TsLe) == [z];
      assert SortBy([z], TsLe) == [z];
      assert InsertBy(y, [z], TsLe) == [y] + [z];
      assert SortBy([y, z], TsLe) == [y, z];
      assert InsertBy(x, [y, z], TsLe) == [x] + [y, z];
    }
    assert s[..2] == [x, y] && [x, y][..1] == [x] && [x][..0] == [];
    assert Run([x]) == Step(Run([]), x) && Run([x, y]) == Step(Run([x]), y) && Run(s) == Step(Run([x, y]), z);
    assert MaxTs([z]) == c && MaxTs([y, z]) == c && MaxTs(s) == c;
  }
}
