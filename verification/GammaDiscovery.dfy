/** collectors/gamma_discovery.py: concurrent `discover` calls. Between two awaits a
    call runs alone, so an interleaving is a sequence of the atomic steps below. */
module GammaDiscovery {
  import opened Options

  /** What the blocking call returned; `marketStartMs` is None for a value
      without that attribute. */
  datatype Market = Market(marketStartMs: Option<int>, payload: int)

  datatype Outcome = Found(market: Market) | NotFound | Error | Cancelled

  datatype Status =
    | Applied | StaleDiscarded | DuplicateSuppressed | Failed | NoResult | TargetMismatch
    | Raised

  /** One `discover` call: waiting for the lock, awaiting the executor while it
      holds the lock, or finished. */
  datatype Phase = Queued | InFlight | Finished(status: Status)
  datatype Call = Call(target: int, generation: nat, phase: Phase)

  /** History of the two events that order the protocol. */
  datatype Mark =
    | NewTarget(target: int, generation: nat)
    | Apply(target: int, generation: nat, call: nat, market: Market)

  datatype Worker = Worker(
    target: Option<int>, generation: nat, applied: set<int>, closed: bool,
    holder: Option<nat>, calls: seq<Call>, history: seq<Mark>)

  const FRESH := Worker(None, 0, {}, false, None, [], [])

  datatype Action = Enter(target: int) | Acquire(call: nat) | Complete(call: nat, outcome: Outcome) | Close

  predicate Current(w: Worker, c: Call) {
    c.generation == w.generation && Some(c.target) == w.target
  }

  predicate ValueFor(m: Market, target: int) {
    m.marketStartMs == None || m.marketStartMs == Some(target)
  }

  /** Lines 86-97: before the first await. A closed worker raises. */
  function Entered(w: Worker, target: int): Worker {
    if w.closed then w
    else
      var v := if w.target == Some(target) then w else
        w.(target := Some(target), generation := w.generation + 1, applied := w.applied * {target},
           history := w.history + [NewTarget(target, w.generation + 1)]);
      v.(calls := v.calls + [Call(target, v.generation, Queued)])
  }

  function Finish(w: Worker, i: nat, status: Status): Worker
    requires i < |w.calls|
  {
    w.(holder := None, calls := w.calls[i := w.calls[i].(phase := Finished(status))])
  }

  /** Lines 99-126: the lock is taken and the call checked before it is submitted. */
  function Acquired(w: Worker, i: nat): Worker
    requires i < |w.calls|
  {
    var c := w.calls[i];
    if !Current(w, c) then Finish(w, i, StaleDiscarded)
    else if c.target in w.applied then Finish(w, i, DuplicateSuppressed)
    else if w.closed then Finish(w, i, Raised)
    else w.(holder := Some(i), calls := w.calls[i := c.(phase := InFlight)])
  }

  /** Lines 128-198: the executor is done and the call checked again. */
  function Completed(w: Worker, i: nat, outcome: Outcome): Worker
    requires i < |w.calls|
  {
    var c := w.calls[i];
    if outcome == Cancelled then Finish(w, i, Raised)
    else if !Current(w, c) then Finish(w, i, StaleDiscarded)
    else match outcome
      case Error => Finish(w, i, Failed)
      case NotFound => Finish(w, i, NoResult)
      case Found(m) =>
        if !ValueFor(m, c.target) then Finish(w, i, TargetMismatch)
        else Finish(w, i, Status.Applied).(
          applied := w.applied + {c.target}, history := w.history + [Apply(c.target, c.generation, i, m)])
  }

  /** Closing the executor cancels a submitted call that has not started. */
  predicate Enabled(w: Worker, a: Action) {
    match a
    case Enter(_) => true
    case Close => true
    case Acquire(i) => i < |w.calls| && w.calls[i].phase == Queued && w.holder == None
    case Complete(i, o) => w.holder == Some(i) && i < |w.calls| && (o == Cancelled ==> w.closed)
  }

  function Next(w: Worker, a: Action): Worker {
    if !Enabled(w, a) then w
    else match a
      case Enter(t) => Entered(w, t)
      case Acquire(i) => Acquired(w, i)
      case Complete(i, o) => Completed(w, i, o)
      case Close => w.(closed := true)
  }

  function Run(w: Worker, actions: seq<Action>): Worker {
    if actions == [] then w else Next(Run(w, actions[..|actions| - 1]), actions[|actions| - 1])
  }

  // -------------------- what every interleaving keeps --------------------

  /** The target in force after a history. */
  function InForce(history: seq<Mark>): Option<(int, nat)> {
    if history == [] then None
    else
      var m := history[|history| - 1];
      if m.NewTarget? then Some((m.target, m.generation)) else InForce(history[..|history| - 1])
  }

  predicate IsApplied(c: Call) { c.phase == Finished(Status.Applied) }

  ghost predicate HasApplied(calls: seq<Call>, generation: nat) {
    exists j :: 0 <= j < |calls| && IsApplied(calls[j]) && calls[j].generation == generation
  }

  lemma AppliedStays(before: seq<Call>, after: seq<Call>)
    requires |before| <= |after|
    requires forall j :: 0 <= j < |before| && IsApplied(before[j]) ==> after[j] == before[j]
    ensures forall g :: HasApplied(before, g) ==> HasApplied(after, g)
  {
    forall g | HasApplied(before, g) ensures HasApplied(after, g) {
      var j :| 0 <= j < |before| && IsApplied(before[j]) && before[j].generation == g;
      assert after[j] == before[j];
    }
  }

  lemma AppliesStay(history: seq<Mark>, before: seq<Call>, after: seq<Call>)
    requires |before| <= |after|
    requires forall j :: 0 <= j < |before| && IsApplied(before[j]) ==> after[j] == before[j]
    requires forall k :: 0 <= k < |history| ==> AppliedInForce(history, before, k)
    ensures forall k :: 0 <= k < |history| ==> AppliedInForce(history, after, k)
  {
    forall k | 0 <= k < |history| ensures AppliedInForce(history, after, k) {
      assert AppliedInForce(history, before, k);
    }
  }

  /** At most one call holds the lock and awaits the executor. */
  ghost predicate LockOk(w: Worker) {
    && (w.holder.Some? ==> w.holder.value < |w.calls| && w.calls[w.holder.value].phase == InFlight)
    && (forall i :: 0 <= i < |w.calls| && w.calls[i].phase == InFlight ==> w.holder == Some(i))
  }

  ghost predicate TargetOk(w: Worker) {
    && InForce(w.history) == (if w.target == None then None else Some((w.target.value, w.generation)))
    && (w.target == None <==> w.generation == 0)
    && (forall t :: t in w.applied ==> w.target == Some(t))
    && (forall k :: 0 <= k < |w.history| ==> w.history[k].generation <= w.generation)
    && (forall k :: 0 <= k < |w.history| && w.history[k].NewTarget? ==> w.history[k].generation > 0)
  }

  ghost predicate CallsOk(w: Worker) {
    forall i :: 0 <= i < |w.calls| ==> var c := w.calls[i];
      && 0 < c.generation <= w.generation
      && (c.generation == w.generation ==> w.target == Some(c.target))
      && (c.phase == InFlight && c.generation == w.generation ==> c.target !in w.applied)
      && (IsApplied(c) && c.generation == w.generation ==> c.target in w.applied)
      && (c.phase == Finished(DuplicateSuppressed) ==> HasApplied(w.calls, c.generation))
  }

  /** The applied set records exactly whether this generation has an applied call. */
  ghost predicate AppliedOk(w: Worker) {
    w.applied != {} ==> HasApplied(w.calls, w.generation)
  }

  ghost predicate OncePerGeneration(w: Worker) {
    forall i, j :: 0 <= i < j < |w.calls| && IsApplied(w.calls[i]) && IsApplied(w.calls[j]) ==>
      w.calls[i].generation != w.calls[j].generation
  }

  ghost predicate AppliedInForce(history: seq<Mark>, calls: seq<Call>, k: nat)
    requires k < |history|
  {
    var m := history[k];
    m.Apply? ==>
      && InForce(history[..k]) == Some((m.target, m.generation))
      && ValueFor(m.market, m.target)
      && m.call < |calls| && IsApplied(calls[m.call])
      && calls[m.call].target == m.target && calls[m.call].generation == m.generation
  }

  /** Every application carries the target and generation in force at that
      instant, a value for that target, and belongs to the call that made it. */
  ghost predicate AppliesInForce(w: Worker) {
    forall k :: 0 <= k < |w.history| ==> AppliedInForce(w.history, w.calls, k)
  }

  /** Each new target opens a generation above every earlier mark. */
  ghost predicate GenerationsRise(w: Worker) {
    forall k, l :: 0 <= k < l < |w.history| ==>
      && w.history[k].generation <= w.history[l].generation
      && (w.history[l].NewTarget? ==> w.history[k].generation < w.history[l].generation)
  }

  ghost predicate Inv(w: Worker) {
    LockOk(w) && TargetOk(w) && CallsOk(w) && AppliedOk(w) && OncePerGeneration(w) && AppliesInForce(w)
      && GenerationsRise(w)
  }

  lemma HistoryGrows(w: Worker, v: Worker, m: Mark)
    requires v.history == w.history + [m]
    ensures v.history[..|w.history|] == w.history
    ensures forall k :: 0 <= k <= |w.history| ==> v.history[..k] == w.history[..k]
  {}

  lemma NewTargetKeeps(w: Worker, target: int)
    requires Inv(w) && w.target != Some(target)
    ensures Inv(w.(target := Some(target), generation := w.generation + 1, applied := w.applied * {target},
      history := w.history + [NewTarget(target, w.generation + 1)]))
  {
    var v := w.(target := Some(target), generation := w.generation + 1, applied := w.applied * {target},
                history := w.history + [NewTarget(target, w.generation + 1)]);
    HistoryGrows(w, v, NewTarget(target, w.generation + 1));
    forall k | 0 <= k < |v.history| ensures AppliedInForce(v.history, v.calls, k) {
      assert k < |w.history| ==> AppliedInForce(w.history, w.calls, k);
    }
    assert v.applied == {};
  }

  lemma NewCallKeeps(w: Worker)
    requires Inv(w) && w.target.Some?
    ensures Inv(w.(calls := w.calls + [Call(w.target.value, w.generation, Queued)]))
  {
    var v := w.(calls := w.calls + [Call(w.target.value, w.generation, Queued)]);
    assert forall i :: 0 <= i < |w.calls| ==> v.calls[i] == w.calls[i];
    AppliedStays(w.calls, v.calls);
    AppliesStay(w.history, w.calls, v.calls);
  }

  lemma EnterKeeps(w: Worker, target: int)
    requires Inv(w)
    ensures Inv(Entered(w, target))
  {
    if !w.closed {
      if w.target == Some(target) {
        NewCallKeeps(w);
      } else {
        NewTargetKeeps(w, target);
        NewCallKeeps(w.(target := Some(target), generation := w.generation + 1, applied := w.applied * {target},
                        history := w.history + [NewTarget(target, w.generation + 1)]));
      }
    }
  }

  /** Moving one call on, without applying it, keeps the invariant. */
  lemma PhaseKeeps(w: Worker, i: nat, phase: Phase, holder: Option<nat>)
    requires Inv(w) && i < |w.calls| && !IsApplied(w.calls[i]) && phase != Finished(Status.Applied)
    requires (w.calls[i].phase == Queued && w.holder == None) || w.holder == Some(i)
    requires holder == if phase == InFlight then Some(i) else None
    requires phase == InFlight ==> Current(w, w.calls[i]) && w.calls[i].target !in w.applied
    requires phase == Finished(DuplicateSuppressed) ==> Current(w, w.calls[i]) && w.calls[i].target in w.applied
    ensures Inv(w.(holder := holder, calls := w.calls[i := w.calls[i].(phase := phase)]))
  {
    var v := w.(holder := holder, calls := w.calls[i := w.calls[i].(phase := phase)]);
    AppliedStays(w.calls, v.calls);
    AppliesStay(w.history, w.calls, v.calls);
  }

  lemma FirstApplication(w: Worker, i: nat)
    requires Inv(w) && w.holder == Some(i) && Current(w, w.calls[i])
    ensures w.applied == {}
    ensures forall k :: 0 <= k < |w.calls| && IsApplied(w.calls[k]) ==> w.calls[k].generation < w.generation
  {
    var target := w.calls[i].target;
    assert target !in w.applied;
    assert forall t :: t in w.applied ==> t == target;
  }

  lemma ApplyKeepsHistory(w: Worker, i: nat, m: Market)
    requires Inv(w) && w.holder == Some(i) && Current(w, w.calls[i]) && ValueFor(m, w.calls[i].target)
    ensures AppliesInForce(Completed(w, i, Found(m)))
  {
    var v := Completed(w, i, Found(m));
    var n := |w.history|;
    forall k | 0 <= k < |v.history| ensures AppliedInForce(v.history, v.calls, k) {
      assert v.history[..k] == w.history[..k];
      if k < n {
        assert AppliedInForce(w.history, w.calls, k);
      } else {
        assert w.history[..k] == w.history;
      }
    }
  }

  lemma ApplyKeeps(w: Worker, i: nat, m: Market)
    requires Inv(w) && w.holder == Some(i) && Current(w, w.calls[i]) && ValueFor(m, w.calls[i].target)
    ensures Inv(Completed(w, i, Found(m)))
  {
    var v := Completed(w, i, Found(m));
    ApplyKeepsHistory(w, i, m);
    FirstApplication(w, i);
    AppliedStays(w.calls, v.calls);
    assert IsApplied(v.calls[i]) && v.calls[i].generation == v.generation;
    assert HasApplied(v.calls, v.generation);
  }

  lemma NextKeeps(w: Worker, a: Action)
    requires Inv(w)
    ensures Inv(Next(w, a))
  {
    if Enabled(w, a) {
      match a {
        case Enter(t) => EnterKeeps(w, t);
        case Acquire(i) =>
          var c := w.calls[i];
          if !Current(w, c) {
            PhaseKeeps(w, i, Finished(StaleDiscarded), None);
          } else if c.target in w.applied {
            PhaseKeeps(w, i, Finished(DuplicateSuppressed), None);
          } else if w.closed {
            PhaseKeeps(w, i, Finished(Raised), None);
          } else {
            PhaseKeeps(w, i, InFlight, Some(i));
          }
        case Complete(i, o) =>
          var c := w.calls[i];
          if o.Found? && Current(w, c) && ValueFor(o.market, c.target) {
            ApplyKeeps(w, i, o.market);
          } else {
            PhaseKeeps(w, i, Completed(w, i, o).calls[i].phase, None);
          }
        case Close =>
      }
    }
  }

  /** Every interleaving of any number of `discover` calls and a close keeps the
      whole invariant. */
  lemma {:induction false} EveryInterleavingKeeps(actions: seq<Action>)
    ensures Inv(Run(FRESH, actions))
  {
    if actions != [] {
      EveryInterleavingKeeps(actions[..|actions| - 1]);
      NextKeeps(Run(FRESH, actions[..|actions| - 1]), actions[|actions| - 1]);
    }
  }

  /** At most one APPLIED result per generation, the applied set never leaves the
      current target, and at most one blocking call is in flight. */
  lemma ExactlyOncePerGeneration(actions: seq<Action>, i: nat, j: nat)
    requires var w := Run(FRESH, actions); i < |w.calls| && j < |w.calls|
    ensures var w := Run(FRESH, actions);
      && (IsApplied(w.calls[i]) && IsApplied(w.calls[j]) && w.calls[i].generation == w.calls[j].generation ==> i == j)
      && (w.calls[i].phase == InFlight && w.calls[j].phase == InFlight ==> i == j)
      && (forall t :: t in w.applied ==> w.target == Some(t))
  {
    EveryInterleavingKeeps(actions);
  }

  /** Whatever targets come and go (A, B, A included): nothing of an older
      generation is applied once a newer target has been set. */
  lemma NoOlderResultAfterNewerTarget(actions: seq<Action>, k: nat, l: nat)
    requires var h := Run(FRESH, actions).history; k < l < |h| && h[k].NewTarget? && h[l].Apply?
    ensures var h := Run(FRESH, actions).history;
      && h[k].generation <= h[l].generation
      && InForce(h[..l]) == Some((h[l].target, h[l].generation))
      && ValueFor(h[l].market, h[l].target)
  {
    EveryInterleavingKeeps(actions);
    var w := Run(FRESH, actions);
    assert AppliedInForce(w.history, w.calls, l);
  }

  /** Nothing is lost either: the call in flight, if still current and answered
      with a market for its target, is applied; and it is the generation's first. */
  lemma CurrentAnswerIsApplied(actions: seq<Action>, i: nat, m: Market)
    requires var w := Run(FRESH, actions);
      w.holder == Some(i) && i < |w.calls| && Current(w, w.calls[i]) && ValueFor(m, w.calls[i].target)
    ensures var w := Run(FRESH, actions);
      var v := Next(w, Complete(i, Found(m)));
      && IsApplied(v.calls[i]) && v.applied == {w.calls[i].target}
      && (forall j :: 0 <= j < |w.calls| && IsApplied(w.calls[j]) ==> w.calls[j].generation < w.calls[i].generation)
  {
    EveryInterleavingKeeps(actions);
    FirstApplication(Run(FRESH, actions), i);
  }

  // -------------------- when a call is submitted, and what its end means --------------------

  /** The targets asked for before the worker was closed, in order. */
  function Entries(actions: seq<Action>): seq<int> {
    if actions == [] then []
    else
      var init, a := actions[..|actions| - 1], actions[|actions| - 1];
      Entries(init) + if a.Enter? && Close !in init then [a.target] else []
  }

  function Targets(calls: seq<Call>): (ts: seq<int>)
    ensures |ts| == |calls| && forall i :: 0 <= i < |calls| ==> ts[i] == calls[i].target
  {
    seq(|calls|, i requires 0 <= i < |calls| => calls[i].target)
  }

  lemma NextTargets(w: Worker, a: Action)
    ensures Targets(Next(w, a).calls) == Targets(w.calls) + if a.Enter? && !w.closed then [a.target] else []
  {}

  /** The calls are the entries, and the worker is closed once a close has been seen. */
  lemma {:induction false} CallsAreEntries(actions: seq<Action>)
    ensures var w := Run(FRESH, actions); Targets(w.calls) == Entries(actions) && (w.closed <==> Close in actions)
  {
    if actions != [] {
      var init, a := actions[..|actions| - 1], actions[|actions| - 1];
      CallsAreEntries(init);
      NextTargets(Run(FRESH, init), a);
      assert actions == init + [a];
    }
  }

  ghost predicate SameStretch(calls: seq<Call>, j: nat)
    requires j + 1 < |calls|
  {
    calls[j + 1].generation == calls[j].generation + if calls[j + 1].target == calls[j].target then 0 else 1
  }

  /** The last entry is what is in force; each change of target opens a generation. */
  ghost predicate Stretches(w: Worker) {
    && (w.calls == [] ==> w.target == None)
    && (w.calls != [] ==>
      w.target == Some(w.calls[|w.calls| - 1].target) && w.generation == w.calls[|w.calls| - 1].generation)
    && (forall j :: 0 <= j < |w.calls| - 1 ==> SameStretch(w.calls, j))
  }

  lemma EnterStretches(w: Worker, target: int)
    requires Inv(w) && Stretches(w)
    ensures Stretches(Entered(w, target))
  {
    var v := Entered(w, target);
    forall j | 0 <= j < |v.calls| - 1 ensures SameStretch(v.calls, j) {
      if j < |w.calls| - 1 {
        assert SameStretch(w.calls, j);
      }
    }
  }

  lemma PhaseStretches(w: Worker, v: Worker)
    requires Stretches(w) && v.target == w.target && v.generation == w.generation && |v.calls| == |w.calls|
    requires forall j :: 0 <= j < |w.calls| ==>
      v.calls[j].target == w.calls[j].target && v.calls[j].generation == w.calls[j].generation
    ensures Stretches(v)
  {
    forall j | 0 <= j < |v.calls| - 1 ensures SameStretch(v.calls, j) {
      assert SameStretch(w.calls, j);
    }
  }

  lemma {:induction false} RunStretches(actions: seq<Action>)
    ensures Stretches(Run(FRESH, actions))
  {
    if actions != [] {
      var init, a := actions[..|actions| - 1], actions[|actions| - 1];
      RunStretches(init);
      EveryInterleavingKeeps(init);
      if a.Enter? {
        EnterStretches(Run(FRESH, init), a.target);
      } else {
        PhaseStretches(Run(FRESH, init), Run(FRESH, actions));
      }
    }
  }

  /** Another target was asked for after this call. */
  ghost predicate Superseded(w: Worker, i: nat)
    requires i < |w.calls|
  {
    exists j :: i < j < |w.calls| && w.calls[j].target != w.calls[i].target
  }

  lemma {:induction false} LaterGenerations(w: Worker, i: nat, j: nat)
    requires Stretches(w) && i <= j < |w.calls|
    ensures w.calls[i].generation <= w.calls[j].generation
    ensures w.calls[i].generation == w.calls[j].generation ==> w.calls[i].target == w.calls[j].target
    decreases j - i
  {
    if i < j {
      LaterGenerations(w, i, j - 1);
      assert SameStretch(w.calls, j - 1);
    }
  }

  lemma {:induction false} SameUpTo(w: Worker, i: nat, j: nat)
    requires Stretches(w) && i <= j < |w.calls|
    requires forall k :: i < k <= j ==> w.calls[k].target == w.calls[i].target
    ensures w.calls[i].generation == w.calls[j].generation
    decreases j - i
  {
    if i < j {
      SameUpTo(w, i, j - 1);
      assert SameStretch(w.calls, j - 1);
    }
  }

  lemma CurrentInStretches(w: Worker, i: nat)
    requires Stretches(w) && i < |w.calls|
    ensures Current(w, w.calls[i]) <==> !Superseded(w, i)
  {
    var last := |w.calls| - 1;
    if Superseded(w, i) {
      var j :| i < j < |w.calls| && w.calls[j].target != w.calls[i].target;
      LaterGenerations(w, i, j);
      LaterGenerations(w, j, last);
    } else {
      SameUpTo(w, i, last);
    }
  }

  /** A call is current until another target is asked for, and never again after. */
  lemma CurrentIffNotSuperseded(actions: seq<Action>, i: nat)
    requires i < |Run(FRESH, actions).calls|
    ensures var w := Run(FRESH, actions); Current(w, w.calls[i]) <==> !Superseded(w, i)
  {
    RunStretches(actions);
    CurrentInStretches(Run(FRESH, actions), i);
  }

  ghost predicate LockFree(w: Worker) {
    forall j :: 0 <= j < |w.calls| ==> w.calls[j].phase != InFlight
  }

  /** Some call of the same generation has been applied. */
  ghost predicate AlreadyApplied(w: Worker, i: nat)
    requires i < |w.calls|
  {
    HasApplied(w.calls, w.calls[i].generation)
  }

  ghost predicate OnlyMoves(w: Worker, v: Worker, i: nat) {
    && |v.calls| == |w.calls|
    && forall j :: 0 <= j < |w.calls| ==>
      v.calls[j] == w.calls[j] || (j == i && v.calls[j] == w.calls[j].(phase := v.calls[j].phase))
  }

  lemma AppliedIffAlready(w: Worker, i: nat)
    requires Inv(w) && i < |w.calls| && Current(w, w.calls[i])
    ensures w.calls[i].target in w.applied <==> AlreadyApplied(w, i)
  {
    if AlreadyApplied(w, i) {
      var j :| 0 <= j < |w.calls| && IsApplied(w.calls[j]) && w.calls[j].generation == w.calls[i].generation;
      assert w.calls[j].target in w.applied;
    }
  }

  /** In any run, a queued call that takes the free lock is submitted if and only if no
      other target was asked for after it, its generation has no applied result and
      nobody has closed the worker; and each refusal has its one reason. */
  lemma AcquireDecides(actions: seq<Action>, i: nat)
    requires var w := Run(FRESH, actions); i < |w.calls| && w.calls[i].phase == Queued && LockFree(w)
    ensures var w := Run(FRESH, actions);
      var v := Next(w, Acquire(i));
      var phase := v.calls[i].phase;
      && OnlyMoves(w, v, i)
      && (phase == InFlight <==> !Superseded(w, i) && !AlreadyApplied(w, i) && Close !in actions)
      && (phase == Finished(StaleDiscarded) <==> Superseded(w, i))
      && (phase == Finished(DuplicateSuppressed) <==> !Superseded(w, i) && AlreadyApplied(w, i))
      && (phase == Finished(Raised) <==> !Superseded(w, i) && !AlreadyApplied(w, i) && Close in actions)
  {
    var w := Run(FRESH, actions);
    EveryInterleavingKeeps(actions);
    CallsAreEntries(actions);
    CurrentIffNotSuperseded(actions, i);
    if Current(w, w.calls[i]) {
      AppliedIffAlready(w, i);
    }
  }

  /** In any run, what a call in flight ends with: each status has its one outcome, and
      a superseded call is discarded whatever the answer. */
  lemma CompleteDecides(actions: seq<Action>, i: nat, o: Outcome)
    requires var w := Run(FRESH, actions); i < |w.calls| && w.calls[i].phase == InFlight
    requires o == Cancelled ==> Close in actions
    ensures var w := Run(FRESH, actions);
      var v := Next(w, Complete(i, o));
      var phase := v.calls[i].phase;
      && OnlyMoves(w, v, i) && LockFree(v) && phase.Finished?
      && (phase.status == Raised <==> o == Cancelled)
      && (phase.status == StaleDiscarded <==> o != Cancelled && Superseded(w, i))
      && (phase.status == Failed <==> o == Error && !Superseded(w, i))
      && (phase.status == NoResult <==> o == NotFound && !Superseded(w, i))
      && (phase.status == TargetMismatch <==>
        o.Found? && o.market.marketStartMs !in {None, Some(w.calls[i].target)} && !Superseded(w, i))
      && (phase.status == Applied <==>
        o.Found? && o.market.marketStartMs in {None, Some(w.calls[i].target)} && !Superseded(w, i))
  {
    EveryInterleavingKeeps(actions);
    CallsAreEntries(actions);
    CurrentIffNotSuperseded(actions, i);
  }

  /** A step moves only the call it names, and that only if it was waiting or in flight. */
  lemma OneCallMoves(w: Worker, a: Action)
    requires LockOk(w)
    ensures var v := Next(w, a);
      && |w.calls| <= |v.calls|
      && forall i :: 0 <= i < |w.calls| && v.calls[i] != w.calls[i] ==>
        || (a == Acquire(i) && w.calls[i].phase == Queued && LockFree(w))
        || (a.Complete? && a.call == i && w.calls[i].phase == InFlight)
  {}

  /** Nothing else moves a call, and a finished call stays as it is. */
  lemma OtherStepsLeaveCalls(actions: seq<Action>, a: Action, i: nat)
    requires var w := Run(FRESH, actions);
      i < |w.calls| && (a == Acquire(i) ==> w.calls[i].phase != Queued || !LockFree(w))
      && (a.Complete? && a.call == i ==> w.calls[i].phase != InFlight)
    ensures var w := Run(FRESH, actions);
      var v := Next(w, a);
      |w.calls| <= |v.calls| && v.calls[i] == w.calls[i]
  {
    EveryInterleavingKeeps(actions);
    OneCallMoves(Run(FRESH, actions), a);
  }

  /** Discovery never gets stuck: a queued call can take the lock, or the call that
      holds it can be answered. */
  lemma NeverStuck(actions: seq<Action>, i: nat, o: Outcome)
    requires i < |Run(FRESH, actions).calls| && Run(FRESH, actions).calls[i].phase == Queued && o != Cancelled
    ensures var w := Run(FRESH, actions);
      if LockFree(w) then Enabled(w, Acquire(i))
      else exists j :: 0 <= j < |w.calls| && w.calls[j].phase == InFlight && Enabled(w, Complete(j, o))
  {
    EveryInterleavingKeeps(actions);
  }

  lemma EnterThenAcquire(w: Worker, t: int)
    requires Inv(w) && w.holder == None && !w.closed && w.target != Some(t)
    ensures var i := |w.calls|;
      var v := Next(Next(w, Enter(t)), Acquire(i));
      v.holder == Some(i) && v.calls == w.calls + [Call(t, v.generation, InFlight)] && v.target == Some(t)
  {
    assert w.applied * {t} == {};
  }

  lemma RunThen(actions: seq<Action>, a: Action)
    ensures Run(FRESH, actions + [a]) == Next(Run(FRESH, actions), a)
  {
    assert (actions + [a])[..|actions|] == actions;
  }

  /** From any moment with a free lock and an open worker, a new target that is asked
      for, submitted and answered with a market of its own is applied. */
  lemma NewTargetIsDiscovered(actions: seq<Action>, t: int, m: Market)
    requires LockFree(Run(FRESH, actions)) && Close !in actions && ValueFor(m, t)
    requires Run(FRESH, actions).target != Some(t)
    ensures var i := |Run(FRESH, actions).calls|;
      var v := Run(FRESH, actions + [Enter(t)] + [Acquire(i)] + [Complete(i, Found(m))]);
      && i < |v.calls| && IsApplied(v.calls[i]) && v.calls[i].target == t
      && v.history != [] && v.history[|v.history| - 1] == Apply(t, v.calls[i].generation, i, m)
  {
    var w := Run(FRESH, actions);
    var i := |w.calls|;
    EveryInterleavingKeeps(actions);
    CallsAreEntries(actions);
    EnterThenAcquire(w, t);
    RunThen(actions, Enter(t));
    RunThen(actions + [Enter(t)], Acquire(i));
    RunThen(actions + [Enter(t)] + [Acquire(i)], Complete(i, Found(m)));
  }

  // -------------------- the worker object --------------------

  class GammaDiscoveryWorker {
    var targetMs: Option<int>
    var generation: nat
    var appliedTargets: set<int>
    var closed: bool
    /** The call inside the lock, and every call made so far. */
    var holder: Option<nat>
    var calls: seq<Call>
    ghost var history: seq<Mark>

    constructor ()
      ensures View() == FRESH
    {
      targetMs, generation, appliedTargets, closed := None, 0, {}, false;
      holder, calls, history := None, [], [];
    }

    ghost function View(): Worker
      reads this
    {
      Worker(targetMs, generation, appliedTargets, closed, holder, calls, history)
    }

    /** Entry of `discover`; None when it raises on a closed worker. */
    method Discover(target: int) returns (call: Option<nat>)
      modifies this
      ensures View() == Next(old(View()), Enter(target))
      ensures call == if old(closed) then None else Some(|old(calls)|)
    {
      if closed {
        return None;
      }
      if targetMs != Some(target) {
        targetMs := Some(target);
        generation := generation + 1;
        appliedTargets := appliedTargets * {target};
        history := history + [NewTarget(target, generation)];
      }
      call := Some(|calls|);
      calls := calls + [Call(target, generation, Queued)];
    }

    method SetPhase(i: nat, phase: Phase)
      requires i < |calls|
      modifies this`calls
      ensures calls == old(calls)[i := old(calls)[i].(phase := phase)]
    {
      calls := calls[i := calls[i].(phase := phase)];
    }

    method LockAcquired(i: nat)
      requires Enabled(View(), Acquire(i))
      modifies this
      ensures View() == Next(old(View()), Acquire(i))
    {
      var c := calls[i];
      if c.generation != generation || Some(c.target) != targetMs {
        SetPhase(i, Finished(StaleDiscarded));
        return;
      }
      if c.target in appliedTargets {
        SetPhase(i, Finished(DuplicateSuppressed));
        return;
      }
      if closed {
        SetPhase(i, Finished(Raised));
        return;
      }
      holder := Some(i);
      SetPhase(i, InFlight);
    }

    method ExecutorDone(i: nat, outcome: Outcome)
      requires Enabled(View(), Complete(i, outcome))
      modifies this
      ensures View() == Next(old(View()), Complete(i, outcome))
    {
      var c := calls[i];
      holder := None;
      if outcome == Cancelled {
        SetPhase(i, Finished(Raised));
        return;
      }
      if c.generation != generation || Some(c.target) != targetMs {
        SetPhase(i, Finished(StaleDiscarded));
        return;
      }
      if outcome == Error {
        SetPhase(i, Finished(Failed));
        return;
      }
      if outcome == NotFound {
        SetPhase(i, Finished(NoResult));
        return;
      }
      var valueTarget := if outcome.market.marketStartMs.Some? then outcome.market.marketStartMs.value else c.target;
      if valueTarget != c.target {
        SetPhase(i, Finished(TargetMismatch));
        return;
      }
      appliedTargets := appliedTargets + {c.target};
      history := history + [Apply(c.target, c.generation, i, outcome.market)];
      SetPhase(i, Finished(Status.Applied));
    }

    method Shutdown()
      modifies this`closed
      ensures View() == Next(old(View()), Close)
    {
      closed := true;
    }
  }
}
