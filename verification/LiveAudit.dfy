/** collectors/live_audit.py: the validity state machine and the streaming gap
    tracker. */
module LiveAudit {
  import opened Options

  datatype Validity = Uninitialized | Valid | Desynced

  /** What a recorder sees: a (re)connect, or one derived row. */
  datatype Tick =
    | Connect
    | Seen(isBook: bool, token: Option<string>, ts: int, sane: bool)

  /** The events since the last connect. */
  function SinceConnect(run: seq<Tick>): (s: seq<Tick>)
    ensures forall i :: 0 <= i < |s| ==> s[i].Seen?
  {
    if run == [] then []
    else
      var last := run[|run| - 1];
      if last.Connect? then [] else SinceConnect(run[..|run| - 1]) + [last]
  }

  /** Sane, and not received before its predecessor on this connection. */
  predicate Good(s: seq<Tick>, j: int)
    requires 0 <= j < |s| && forall i :: 0 <= i < |s| ==> s[i].Seen?
  {
    s[j].sane && (j > 0 ==> s[j - 1].ts <= s[j].ts)
  }

  /** A run of good events that starts with a `book` and reaches the end. */
  ghost predicate GoodRunFrom(s: seq<Tick>, k: int)
    requires forall i :: 0 <= i < |s| ==> s[i].Seen?
  {
    0 <= k < |s| && s[k].isBook && forall j :: k <= j < |s| ==> Good(s, j)
  }

  ghost predicate EndsInGoodRun(s: seq<Tick>)
    requires forall i :: 0 <= i < |s| ==> s[i].Seen?
  {
    exists k :: GoodRunFrom(s, k)
  }

  /** BookValidity.apply and connect, one tick at a time. */
  function NextValidity(state: Validity, lastTs: Option<int>, t: Tick): Validity {
    if t.Connect? then Uninitialized
    else if lastTs.Some? && t.ts < lastTs.value then Desynced
    else if !t.sane then Desynced
    else if t.isBook then Valid
    else if state != Valid then Uninitialized
    else Valid
  }

  function LastTs(run: seq<Tick>): Option<int> {
    if run == [] || run[|run| - 1].Connect? then None else Some(run[|run| - 1].ts)
  }

  function ValidityOf(run: seq<Tick>): Validity {
    if run == [] then Uninitialized
    else
      var init := run[..|run| - 1];
      NextValidity(ValidityOf(init), LastTs(init), run[|run| - 1])
  }

  lemma LastTsSince(run: seq<Tick>)
    ensures var s := SinceConnect(run); LastTs(run) == if s == [] then None else Some(s[|s| - 1].ts)
  {}

  /** Appending one event extends or breaks the trailing run. */
  lemma RunExtends(s: seq<Tick>, t: Tick)
    requires t.Seen? && forall i :: 0 <= i < |s| ==> s[i].Seen?
    ensures EndsInGoodRun(s + [t]) <==> Good(s + [t], |s|) && (t.isBook || EndsInGoodRun(s))
  {
    var all := s + [t];
    assert forall j :: 0 <= j < |s| ==> all[j] == s[j] && (Good(all, j) <==> Good(s, j));
    if k :| GoodRunFrom(all, k) {
      assert Good(all, |s|);
      if k < |s| {
        assert GoodRunFrom(s, k);
      }
    }
    if Good(all, |s|) && t.isBook {
      assert GoodRunFrom(all, |s|);
    }
    if Good(all, |s|) && EndsInGoodRun(s) {
      var k :| GoodRunFrom(s, k);
      assert GoodRunFrom(all, k);
    }
  }

  /** Over any run with reconnects the state machine says VALID exactly when the
      events since the last connect end in a good run opened by a `book`. */
  lemma {:induction false} ValidIffGoodRun(run: seq<Tick>)
    ensures ValidityOf(run) == Valid <==> EndsInGoodRun(SinceConnect(run))
  {
    if run != [] && run[|run| - 1].Seen? {
      var init, t := run[..|run| - 1], run[|run| - 1];
      ValidIffGoodRun(init);
      LastTsSince(init);
      RunExtends(SinceConnect(init), t);
    }
  }

  /** It says DESYNCED exactly when the last event since the connect was not good, and
      UNINITIALIZED while there is no good run but the last event, if any, was good. */
  lemma DesyncedIffLastIsBad(run: seq<Tick>)
    ensures var s := SinceConnect(run);
      && (ValidityOf(run) == Desynced <==> s != [] && !Good(s, |s| - 1))
      && (ValidityOf(run) == Uninitialized <==> !EndsInGoodRun(s) && (s != [] ==> Good(s, |s| - 1)))
  {
    ValidIffGoodRun(run);
    if run != [] {
      LastTsSince(run[..|run| - 1]);
    }
  }

  class BookValidity {
    var state: Validity
    var lastTs: Option<int>
    ghost var run: seq<Tick>

    ghost predicate Consistent()
      reads this
    {
      state == ValidityOf(run) && lastTs == LastTs(run)
    }

    constructor ()
      ensures Consistent() && run == []
    {
      state, lastTs, run := Uninitialized, None, [];
    }

    method OnConnect()
      modifies this
      ensures Consistent() && run == old(run) + [Tick.Connect]
    {
      state := Uninitialized;
      lastTs := None;
      run := run + [Tick.Connect];
    }

    /** True exactly when the events since the last connect, this one included,
        end in a good run. */
    method Apply(isBook: bool, receiveTs: int, sane: bool, ghost token: Option<string>) returns (valid: bool)
      requires Consistent()
      modifies this
      ensures Consistent() && run == old(run) + [Seen(isBook, token, receiveTs, sane)]
      ensures valid == (state == Valid)
      ensures valid <==> EndsInGoodRun(SinceConnect(run))
    {
      ghost var before := run;
      run := run + [Seen(isBook, token, receiveTs, sane)];
      assert run[..|run| - 1] == before;
      if lastTs.Some? && receiveTs < lastTs.value {
        state := Desynced;
      } else if !sane {
        state := Desynced;
      } else if isBook {
        state := Valid;
      } else if state != Valid {
        state := Uninitialized;
      }
      lastTs := Some(receiveTs);
      valid := state == Valid;
      ValidIffGoodRun(run);
    }
  }

  // -------------------- streaming gaps --------------------

  datatype Gap = Gap(startMs: int, endMs: int)

  /** The gaps between consecutive observations, as they arrive. */
  function StreamGaps(obs: seq<int>, threshold: int): seq<Gap> {
    if |obs| < 2 then []
    else
      var n := |obs|;
      StreamGaps(obs[..n - 1], threshold)
        + (if obs[n - 1] - obs[n - 2] > threshold then [Gap(obs[n - 2], obs[n - 1])] else [])
  }

  class GapTracker {
    const thresholdMs: int
    var lastMs: Option<int>
    var gaps: seq<Gap>
    ghost var observed: seq<int>

    ghost predicate Consistent()
      reads this
    {
      && gaps == StreamGaps(observed, thresholdMs)
      && lastMs == if observed == [] then None else Some(observed[|observed| - 1])
    }

    constructor (thresholdMs: int)
      ensures Consistent() && observed == [] && this.thresholdMs == thresholdMs
    {
      this.thresholdMs, lastMs, gaps, observed := thresholdMs, None, [], [];
    }

    method Observe(ts: int)
      requires Consistent()
      modifies this
      ensures Consistent() && observed == old(observed) + [ts]
    {
      ghost var before := observed;
      observed := observed + [ts];
      assert observed[..|observed| - 1] == before;
      if lastMs.Some? && ts - lastMs.value > thresholdMs {
        gaps := gaps + [Gap(lastMs.value, ts)];
      }
      lastMs := Some(ts);
    }
  }
}
