/** audit/prospective.py:459-466: checkpoints that fire once. */
module Checkpoints {
  import opened Options
  import opened Ordering

  const CHECKPOINTS := [100, 500, 1000, 5000]

  datatype Call = Call(count: int, manual: Option<int>)

  function IsDue(count: int, triggered: set<int>): int -> bool {
    (point: int) => count >= point && point !in triggered
  }

  function Due(call: Call, triggered: set<int>): seq<int> {
    if call.manual.Some? then [call.manual.value] else Filter(CHECKPOINTS, IsDue(call.count, triggered))
  }

  function SetOf(s: seq<int>): set<int> { set x | x in s }

  /** The stored set after a call: manual calls leave it alone. */
  function After(call: Call, triggered: set<int>): set<int> {
    if call.manual.Some? then triggered else triggered + SetOf(Due(call, triggered))
  }

  function TriggeredBy(calls: seq<Call>): set<int> {
    if calls == [] then {} else After(calls[|calls| - 1], TriggeredBy(calls[..|calls| - 1]))
  }

  /** Some automatic call among these had reached the point. */
  ghost predicate Reached(calls: seq<Call>, point: int) {
    exists k :: 0 <= k < |calls| && Hits(calls[k], point)
  }

  predicate Hits(call: Call, point: int) { call.manual == None && call.count >= point }

  /** The stored set is exactly the checkpoints at or below the running maximum of the
      automatic counts. */
  lemma {:induction false} TriggeredIffReached(calls: seq<Call>, point: int)
    ensures point in TriggeredBy(calls) <==> point in {100, 500, 1000, 5000} && Reached(calls, point)
  {
    if calls != [] {
      var init, call := calls[..|calls| - 1], calls[|calls| - 1];
      TriggeredIffReached(init, point);
      FilterMembers(CHECKPOINTS, IsDue(call.count, TriggeredBy(init)));
      if Reached(init, point) {
        var k :| 0 <= k < |init| && Hits(init[k], point);
        assert calls[k] == init[k];
      }
      if Reached(calls, point) {
        var k :| 0 <= k < |calls| && Hits(calls[k], point);
        assert k < |init| ==> init[k] == calls[k];
      }
    }
  }

  /** In any run from an empty state an automatic call reports a checkpoint exactly when
      it is the first automatic call to reach it: each fires once, none is missed, and
      manual calls in between make no difference. */
  lemma FiresOnFirstReach(calls: seq<Call>, k: nat, point: int)
    requires k < |calls| && calls[k].manual == None
    ensures point in Due(calls[k], TriggeredBy(calls[..k]))
      <==> point in {100, 500, 1000, 5000} && calls[k].count >= point && !Reached(calls[..k], point)
  {
    TriggeredIffReached(calls[..k], point);
    FilterMembers(CHECKPOINTS, IsDue(calls[k].count, TriggeredBy(calls[..k])));
  }

  /** A manual call reports just its own point, whatever was stored, and stores nothing. */
  lemma ManualReportsItself(calls: seq<Call>, count: int, point: int)
    ensures Due(Call(count, Some(point)), TriggeredBy(calls)) == [point]
    ensures TriggeredBy(calls + [Call(count, Some(point))]) == TriggeredBy(calls)
  {
    assert (calls + [Call(count, Some(point))])[..|calls|] == calls;
  }

  /** A point due twice in one run would have been reached twice for the first time. */
  lemma FiresAtMostOnce(calls: seq<Call>, j: nat, k: nat, point: int)
    requires j < k < |calls| && calls[j].manual == None && calls[k].manual == None
    requires point in Due(calls[j], TriggeredBy(calls[..j]))
    ensures point !in Due(calls[k], TriggeredBy(calls[..k]))
  {
    FiresOnFirstReach(calls, j, point);
    FiresOnFirstReach(calls, k, point);
    assert Hits(calls[..k][j], point);
  }

  class CheckpointState {
    var triggered: set<int>

    constructor ()
      ensures triggered == {}
    {
      triggered := {};
    }

    method TriggerCheckpoints(count: int, manual: Option<int>) returns (due: seq<int>)
      modifies this
      ensures due == Due(Call(count, manual), old(triggered))
      ensures triggered == After(Call(count, manual), old(triggered))
    {
      if manual.Some? {
        return [manual.value];
      }
      due := [];
      for i := 0 to |CHECKPOINTS|
        invariant due == Filter(CHECKPOINTS[..i], IsDue(count, triggered)) && triggered == old(triggered)
      {
        assert CHECKPOINTS[..i + 1] == CHECKPOINTS[..i] + [CHECKPOINTS[i]];
        FilterConcat(CHECKPOINTS[..i], [CHECKPOINTS[i]], IsDue(count, triggered));
        if count >= CHECKPOINTS[i] && CHECKPOINTS[i] !in triggered {
          due := due + [CHECKPOINTS[i]];
        }
      }
      assert CHECKPOINTS[..|CHECKPOINTS|] == CHECKPOINTS;
      triggered := triggered + SetOf(due);
    }
  }
}
