/** Whole runs of collectors/live_storage.py: any appends and closes, and a crash between
    any two of their atomic steps. */
module LiveStorageRuns {
  import opened LiveStorage

  datatype Op = Append(entry: Entry) | Close

  ghost function Do(l: Log, op: Op): (m: Log)
    requires AtRest(l)
    ensures AtRest(m) && SidecarsStay(l, m)
  {
    match op
    case Append(e) =>
      AppendKeeps(l, e);
      Appended(l, e)
    case Close =>
      CloseKeeps(l);
      ClosedLog(l)
  }

  ghost function Run(l: Log, ops: seq<Op>): (m: Log)
    requires AtRest(l)
    ensures AtRest(m)
  {
    if ops == [] then l else Do(Run(l, ops[..|ops| - 1]), ops[|ops| - 1])
  }

  /** The row an operation takes, if any. */
  ghost function Taken(l: Log, op: Op): seq<Entry>
    requires AtRest(l)
  {
    if op.Append? && Accepts(l, op.entry.now) then [op.entry] else []
  }

  /** The rows the run takes; a closed writer refuses rows until its period is over. */
  ghost function Accepted(l: Log, ops: seq<Op>): seq<Entry>
    requires AtRest(l)
  {
    if ops == [] then []
    else
      var init, op := ops[..|ops| - 1], ops[|ops| - 1];
      Accepted(l, init) + Taken(Run(l, init), op)
  }

  /** From l to m exactly these rows were added. */
  ghost predicate Grew(l: Log, m: Log, taken: seq<Entry>) { m.appended == l.appended + taken }

  lemma GrewTwice(l: Log, m: Log, n: Log, a: seq<Entry>, b: seq<Entry>)
    requires Grew(l, m, a) && Grew(m, n, b)
    ensures Grew(l, n, a + b)
  {
    assert l.appended + (a + b) == l.appended + a + b;
  }

  lemma DoAppends(l: Log, op: Op)
    requires AtRest(l)
    ensures Grew(l, Do(l, op), Taken(l, op))
    ensures l.open && op.Append? ==> Do(l, op).open
  {
    if op.Append? {
      AppendKeeps(l, op.entry);
    }
    assert l.appended + [] == l.appended;
  }

  lemma RunLast(l: Log, ops: seq<Op>)
    requires AtRest(l) && ops != []
    ensures var before := Run(l, ops[..|ops| - 1]);
      Run(l, ops) == Do(before, ops[|ops| - 1])
      && Accepted(l, ops) == Accepted(l, ops[..|ops| - 1]) + Taken(before, ops[|ops| - 1])
  {}

  lemma {:induction false} RunAppends(l: Log, ops: seq<Op>)
    requires AtRest(l)
    ensures Grew(l, Run(l, ops), Accepted(l, ops))
  {
    if ops == [] {
      assert l.appended + [] == l.appended;
    } else {
      var init, op := ops[..|ops| - 1], ops[|ops| - 1];
      var before := Run(l, init);
      RunAppends(l, init);
      DoAppends(before, op);
      GrewTwice(l, before, Do(before, op), Accepted(l, init), Taken(before, op));
      RunLast(l, ops);
    }
  }

  lemma StayTwice(l: Log, m: Log, n: Log)
    requires SidecarsStay(l, m) && SidecarsStay(m, n)
    ensures SidecarsStay(l, n)
  {}

  /** No run ever rewrites a sidecar. */
  lemma {:induction false} SidecarsNeverChange(l: Log, ops: seq<Op>)
    requires AtRest(l)
    ensures SidecarsStay(l, Run(l, ops))
  {
    if ops != [] {
      var m := Run(l, ops[..|ops| - 1]);
      SidecarsNeverChange(l, ops[..|ops| - 1]);
      StayTwice(l, m, Do(m, ops[|ops| - 1]));
    }
  }

  ghost predicate Finished(l: Log, f: File) {
    f.entries != [] && f.path in l.sidecars && l.sidecars[f.path] == CleanMeta(f.entries) && WithinLimits(l.limits, f)
  }

  /** Over any run the files in order hold exactly the rows taken; every file but the current
      one is non-empty, was within its limits before each later row, and has the sidecar a
      clean close gives it. */
  lemma EveryRowIsKept(l: Log, ops: seq<Op>)
    requires AtRest(l)
    ensures var m := Run(l, ops);
      && Concatenated(m.files) == Concatenated(l.files) + Accepted(l, ops)
      && forall i :: 0 <= i < |m.files| - 1 ==> Finished(m, m.files[i])
  {
    var m := Run(l, ops);
    RunAppends(l, ops);
    forall i | 0 <= i < |m.files| - 1 ensures Finished(m, m.files[i]) {
      assert FileOk(m.sidecars, m.limits, m.files[i], i == |m.files| - 1);
    }
  }

  function Rows(ops: seq<Op>): seq<Entry> {
    if ops == [] then []
    else Rows(ops[..|ops| - 1]) + (if ops[|ops| - 1].Append? then [ops[|ops| - 1].entry] else [])
  }

  /** An open writer that is not closed takes every row. */
  lemma {:induction false} OpenTakesEveryRow(l: Log, ops: seq<Op>)
    requires AtRest(l) && l.open && forall i :: 0 <= i < |ops| ==> ops[i].Append?
    ensures Run(l, ops).open && Accepted(l, ops) == Rows(ops)
  {
    if ops != [] {
      OpenTakesEveryRow(l, ops[..|ops| - 1]);
      DoAppends(Run(l, ops[..|ops| - 1]), ops[|ops| - 1]);
    }
  }

  // -------------------- the atomic steps of one operation --------------------

  /** Closing: flush, write the sidecar, drop the handle. */
  ghost function CloseVisits(l: Log): seq<Log>
    requires l.files != []
  {
    if l.open then [Flushed(l), WithSidecar(Flushed(l)), ClosedLog(l)] else []
  }

  ghost function RotationVisits(l: Log, now: int): seq<Log>
    requires l.files != []
  {
    if Rotates(l, now) then CloseVisits(l) + [Opened(ClosedLog(l), now)] else []
  }

  ghost function WriteVisits(r: Log, e: Entry): seq<Log>
    requires r.files != [] && r.limits.Valid()
  {
    var w := Written(r, e);
    [w] + if w.count % w.limits.fsyncEvery == 0 then [Flushed(w)] else []
  }

  /** The states an operation passes through, one after each atomic step. */
  ghost function Visits(l: Log, op: Op): seq<Log>
    requires AtRest(l)
  {
    match op
    case Close => CloseVisits(l)
    case Append(e) =>
      if Accepts(l, e.now) then RotationVisits(l, e.now) + WriteVisits(Rotated(l, e.now), e) else []
  }

  /** They lead to where the operation ends. */
  lemma VisitsEndThere(l: Log, op: Op)
    requires AtRest(l)
    ensures Do(l, op) == if Visits(l, op) == [] then l else Visits(l, op)[|Visits(l, op)| - 1]
  {}

  lemma CloseVisitsAreConsistent(l: Log, k: nat)
    requires AtRest(l) && k < |CloseVisits(l)|
    ensures Consistent(CloseVisits(l)[k]) && CloseVisits(l)[k].appended == l.appended
  {
    FlushKeeps(l);
    SidecarKeeps(Flushed(l));
    CloseKeeps(l);
  }

  lemma RotationVisitsAreConsistent(l: Log, now: int, k: nat)
    requires AtRest(l) && Accepts(l, now) && k < |RotationVisits(l, now)|
    ensures Consistent(RotationVisits(l, now)[k]) && RotationVisits(l, now)[k].appended == l.appended
  {
    if k < |CloseVisits(l)| {
      CloseVisitsAreConsistent(l, k);
    } else {
      RotationMakesRoom(l, now);
    }
  }

  lemma WriteVisitsAreConsistent(r: Log, e: Entry, k: nat)
    requires AtRest(r) && r.open && HasRoom(r, e.now) && k < |WriteVisits(r, e)|
    ensures Consistent(WriteVisits(r, e)[k]) && WriteVisits(r, e)[k].appended == r.appended + [e]
  {
    WriteKeeps(r, e);
    FlushKeeps(Written(r, e));
  }

  ghost predicate OneOpLater(l: Log, op: Op, m: Log) {
    m.appended == l.appended || (op.Append? && m.appended == l.appended + [op.entry])
  }

  /** Every state between two atomic steps is consistent, the row written or not yet. */
  lemma VisitsAreConsistent(l: Log, op: Op, k: nat)
    requires AtRest(l) && k < |Visits(l, op)|
    ensures Consistent(Visits(l, op)[k]) && OneOpLater(l, op, Visits(l, op)[k])
  {
    match op
    case Close => CloseVisitsAreConsistent(l, k);
    case Append(e) =>
      var n := |RotationVisits(l, e.now)|;
      if k < n {
        RotationVisitsAreConsistent(l, e.now, k);
      } else {
        RotationMakesRoom(l, e.now);
        WriteVisitsAreConsistent(Rotated(l, e.now), e, k - n);
      }
  }

  // -------------------- a crash anywhere --------------------

  /** The state after k atomic steps of an operation. */
  ghost function After(m: Log, op: Op, k: nat): Log
    requires AtRest(m) && k <= |Visits(m, op)|
  {
    if k == 0 then m else Visits(m, op)[k - 1]
  }

  /** The rows a crash leaves in the files, in order. */
  function SurvivingRows(l: Log, kept: nat): seq<Entry>
    requires l.files != [] && kept <= |l.Current().entries|
  {
    Concatenated(l.files[..|l.files| - 1]) + l.Current().entries[..kept]
  }

  lemma SurvivorsArePrefix(l: Log, kept: nat)
    requires Consistent(l) && l.flushed <= kept <= |l.Current().entries|
    ensures SurvivingRows(l, kept) <= l.appended
    ensures |l.appended| - |SurvivingRows(l, kept)| == |l.Current().entries| - kept
  {
    var before, current := Concatenated(l.files[..|l.files| - 1]), l.Current().entries;
    assert l.appended == before + current;
    assert current == current[..kept] + current[kept..];
  }

  lemma AfterIsConsistent(m: Log, op: Op, k: nat)
    requires AtRest(m) && k <= |Visits(m, op)|
    ensures Consistent(After(m, op, k)) && OneOpLater(m, op, After(m, op, k))
  {
    if k > 0 {
      VisitsAreConsistent(m, op, k - 1);
    }
  }

  /** Crash anywhere: after any run of appends and closes from a writer at rest, and any
      number of atomic steps of the next one, with any tail of a half-written row. What
      survives is a prefix of the rows written that holds every durable one, and with
      non-zero timestamps a sweep gives each file the count, first and last of a clean close
      of its surviving rows, leaving the sidecars already there alone. */
  lemma CrashAnywhere(
      start: Log, ops: seq<Op>, m: Log, op: Op, k: nat, l: Log,
      kept: nat, tail: seq<Line>, disk: Files, mtime: map<Path, int>, now: int, i: nat)
    requires AtRest(start) && m == Run(start, ops) && k <= |Visits(m, op)| && l == After(m, op, k)
    requires CrashDisk(l, kept, tail, disk) && i < |l.files|
    requires forall j :: 0 <= j < |l.files[i].entries| ==> Stamped(l.files[i].entries[j].row)
    ensures m.appended == start.appended + Accepted(start, ops)
    ensures OneOpLater(m, op, l)
    ensures Consistent(l) && SurvivingRows(l, kept) <= l.appended
    ensures |l.appended| - |SurvivingRows(l, kept)| <= |l.Current().entries| - l.flushed
    ensures SweptClean(l, kept, tail, disk, mtime, now, i)
  {
    RunAppends(start, ops);
    AfterIsConsistent(m, op, k);
    SurvivorsArePrefix(l, kept);
    CrashRecovery(l, kept, tail, disk, mtime, now, i);
  }

  // -------------------- how much a crash can lose, and when files change --------------------

  /** An open writer has flushed at the last multiple of fsyncEvery, a closed one at the end. */
  ghost predicate FlushedInTime(l: Log) {
    && l.limits.Valid()
    && l.count - l.flushed == if l.open then l.count % l.limits.fsyncEvery else 0
  }

  lemma CountOn(count: nat, every: nat)
    requires every >= 1
    ensures (count + 1) % every == if count % every + 1 == every then 0 else count % every + 1
  {
    var q, r := count / every, count % every;
    assert count == q * every + r;
    if r + 1 == every {
      assert count + 1 == (q + 1) * every;
      Remainder(count + 1, q + 1, 0, every);
    } else {
      Remainder(count + 1, q, r + 1, every);
    }
  }

  lemma ProductGrows(a: nat, b: nat, every: nat)
    ensures a <= b ==> a * every <= b * every
    ensures a * every == (a - 1) * every + every
  {}

  lemma Remainder(x: nat, q: nat, r: nat, every: nat)
    requires r < every && x == q * every + r
    ensures x % every == r
  {
    var k, s := x / every, x % every;
    assert x == k * every + s;
    ProductGrows(k + 1, q, every);
    ProductGrows(q + 1, k, every);
  }

  lemma RotationFlushes(l: Log, now: int, r: Log)
    requires AtRest(l) && FlushedInTime(l) && r == Rotated(l, now)
    ensures FlushedInTime(r) && r.limits == l.limits
  {
    assert 0 % l.limits.fsyncEvery == 0;
  }

  lemma WriteFlushes(r: Log, e: Entry, w: Log)
    requires r.files != [] && r.open && FlushedInTime(r) && w == Written(r, e)
    ensures w.count - w.flushed <= w.limits.fsyncEvery
    ensures FlushedInTime(if w.count % w.limits.fsyncEvery == 0 then Flushed(w) else w)
  {
    CountOn(r.count, r.limits.fsyncEvery);
  }

  lemma AppendFlushes(l: Log, e: Entry)
    requires AtRest(l) && FlushedInTime(l)
    ensures FlushedInTime(Appended(l, e)) && Appended(l, e).limits == l.limits
  {
    if Accepts(l, e.now) {
      var r := Rotated(l, e.now);
      RotationMakesRoom(l, e.now);
      RotationFlushes(l, e.now, r);
      WriteFlushes(r, e, Written(r, e));
    }
  }

  lemma DoFlushes(l: Log, op: Op)
    requires AtRest(l) && FlushedInTime(l)
    ensures FlushedInTime(Do(l, op)) && Do(l, op).limits == l.limits
  {
    if op.Append? {
      AppendFlushes(l, op.entry);
    }
  }

  lemma {:induction false} RunFlushes(l: Log, ops: seq<Op>)
    requires AtRest(l) && FlushedInTime(l)
    ensures FlushedInTime(Run(l, ops)) && Run(l, ops).limits == l.limits
  {
    if ops != [] {
      var init, op := ops[..|ops| - 1], ops[|ops| - 1];
      RunFlushes(l, init);
      DoFlushes(Run(l, init), op);
    }
  }

  ghost predicate FewUnflushed(l: Log, every: nat) { l.count - l.flushed <= every }

  lemma CloseVisitsAreFlushed(l: Log, k: nat)
    requires AtRest(l) && FlushedInTime(l) && k < |CloseVisits(l)|
    ensures FewUnflushed(CloseVisits(l)[k], l.limits.fsyncEvery)
  {}

  lemma RotationVisitsAreFlushed(l: Log, now: int, k: nat)
    requires AtRest(l) && FlushedInTime(l) && k < |RotationVisits(l, now)|
    ensures FewUnflushed(RotationVisits(l, now)[k], l.limits.fsyncEvery)
  {
    if k < |CloseVisits(l)| {
      CloseVisitsAreFlushed(l, k);
    }
  }

  lemma WriteVisitsAreFlushed(r: Log, e: Entry, k: nat)
    requires r.files != [] && r.open && FlushedInTime(r) && k < |WriteVisits(r, e)|
    ensures FewUnflushed(WriteVisits(r, e)[k], r.limits.fsyncEvery)
  {
    WriteFlushes(r, e, Written(r, e));
  }

  lemma VisitsAreFlushed(m: Log, op: Op, k: nat)
    requires AtRest(m) && FlushedInTime(m) && k < |Visits(m, op)|
    ensures FewUnflushed(Visits(m, op)[k], m.limits.fsyncEvery)
  {
    match op
    case Close => CloseVisitsAreFlushed(m, k);
    case Append(e) =>
      var n := |RotationVisits(m, e.now)|;
      if k < n {
        RotationVisitsAreFlushed(m, e.now, k);
      } else {
        RotationMakesRoom(m, e.now);
        RotationFlushes(m, e.now, Rotated(m, e.now));
        WriteVisitsAreFlushed(Rotated(m, e.now), e, k - n);
      }
  }

  /** What these lemmas start from holds of a new writer. */
  lemma NewWriter(session: string, limits: Limits, now: int)
    requires limits.Valid()
    ensures var l := StartLog(session, limits, now);
      AtRest(l) && FlushedInTime(l) && NoEarlyRotation(l) && NamedByHour(l)
  {
    StartIsAtRest(session, limits, now);
  }

  lemma InTimeIsFew(l: Log)
    requires FlushedInTime(l)
    ensures l.count - l.flushed < l.limits.fsyncEvery
  {}

  lemma LostIsUnflushed(l: Log, kept: nat)
    requires Consistent(l) && l.flushed <= kept <= |l.Current().entries|
    ensures 0 <= |l.appended| - |SurvivingRows(l, kept)| <= l.count - l.flushed
  {
    SurvivorsArePrefix(l, kept);
  }

  lemma AfterIsFlushed(m: Log, op: Op, k: nat, l: Log)
    requires AtRest(m) && FlushedInTime(m) && k <= |Visits(m, op)| && l == After(m, op, k)
    ensures Consistent(l) && FewUnflushed(l, m.limits.fsyncEvery)
    ensures k == 0 ==> l.count - l.flushed < m.limits.fsyncEvery
  {
    AfterIsConsistent(m, op, k);
    if k == 0 {
      InTimeIsFew(m);
    } else {
      VisitsAreFlushed(m, op, k - 1);
    }
  }

  /** A crash at any point of any run from a new writer on loses no more than fsyncEvery
      rows, and between two calls fewer than that. */
  lemma CrashLosesFewRows(start: Log, ops: seq<Op>, m: Log, op: Op, k: nat, l: Log, kept: nat)
    requires AtRest(start) && FlushedInTime(start) && m == Run(start, ops)
    requires k <= |Visits(m, op)| && l == After(m, op, k)
    requires l.files != [] && l.flushed <= kept <= |l.Current().entries|
    ensures var lost := |l.appended| - |SurvivingRows(l, kept)|;
      0 <= lost <= start.limits.fsyncEvery && (k == 0 ==> lost < start.limits.fsyncEvery)
  {
    RunFlushes(start, ops);
    AfterIsFlushed(m, op, k, l);
    LostIsUnflushed(l, kept);
  }

  /** File i was given up because it was full or its period was over. */
  ghost predicate GivenUpInTime(limits: Limits, files: seq<File>, i: nat)
    requires i + 1 < |files|
  {
    || ByteSize(files[i].entries) >= limits.maxBytes
    || files[i + 1].openedAt - files[i].openedAt >= limits.rotationMs
  }

  ghost predicate NoEarlyRotation(l: Log) {
    forall i :: 0 <= i < |l.files| - 1 ==> GivenUpInTime(l.limits, l.files, i)
  }

  lemma RotationIsInTime(l: Log, now: int)
    requires AtRest(l) && NoEarlyRotation(l)
    ensures NoEarlyRotation(Rotated(l, now)) && Rotated(l, now).files != []
  {
    var r := Rotated(l, now);
    forall i | 0 <= i < |r.files| - 1 ensures GivenUpInTime(r.limits, r.files, i) {
      if i < |l.files| - 1 {
        assert GivenUpInTime(l.limits, l.files, i);
      }
    }
  }

  lemma WriteIsInTime(r: Log, e: Entry)
    requires r.files != [] && NoEarlyRotation(r)
    ensures NoEarlyRotation(Written(r, e))
  {
    var w := Written(r, e);
    forall i | 0 <= i < |w.files| - 1 ensures GivenUpInTime(w.limits, w.files, i) {
      assert GivenUpInTime(r.limits, r.files, i);
    }
  }

  /** No run gives a file up before it is full or its period is over. */
  lemma {:induction false} FilesChangeOnlyWhenDue(l: Log, ops: seq<Op>)
    requires AtRest(l) && NoEarlyRotation(l)
    ensures NoEarlyRotation(Run(l, ops))
  {
    if ops != [] {
      var init, op := ops[..|ops| - 1], ops[|ops| - 1];
      var before := Run(l, init);
      FilesChangeOnlyWhenDue(l, init);
      if op.Append? && Accepts(before, op.entry.now) {
        RotationIsInTime(before, op.entry.now);
        WriteIsInTime(Rotated(before, op.entry.now), op.entry);
      }
    }
  }

  /** A closed writer takes a row if and only if its file has rows and its period is over;
      it then opens a new file for the row. */
  lemma ClosedWriterReopens(l: Log, e: Entry)
    requires AtRest(l) && !l.open
    ensures var m := Do(l, Append(e));
      if l.Current().entries != [] && e.now - l.Current().openedAt >= l.limits.rotationMs
      then m.open && |m.files| == |l.files| + 1 && m.Current().entries == [e] && m.Current().openedAt == e.now
      else m == l
  {}

  /** The file is named by the hour it was opened in. */
  predicate HourOf(f: File) {
    f.path.hour * 3600000 <= f.openedAt < (f.path.hour + 1) * 3600000
  }

  ghost predicate NamedByHour(l: Log) {
    forall i :: 0 <= i < |l.files| ==> HourOf(l.files[i])
  }

  lemma RotationIsNamed(l: Log, now: int, r: Log)
    requires AtRest(l) && NamedByHour(l) && r == Rotated(l, now)
    ensures NamedByHour(r) && r.files != []
  {
    forall i | 0 <= i < |r.files| ensures HourOf(r.files[i]) {
      assert i < |l.files| ==> HourOf(l.files[i]);
    }
  }

  lemma WriteIsNamed(r: Log, e: Entry, w: Log)
    requires r.files != [] && NamedByHour(r) && w == Written(r, e)
    ensures NamedByHour(w)
  {
    forall i | 0 <= i < |w.files| ensures HourOf(w.files[i]) {
      assert HourOf(r.files[i]);
    }
  }

  /** Over any run each file is named by the hour it was opened in. */
  lemma {:induction false} FilesAreNamedByHour(l: Log, ops: seq<Op>)
    requires AtRest(l) && NamedByHour(l)
    ensures NamedByHour(Run(l, ops))
  {
    if ops != [] {
      var init, op := ops[..|ops| - 1], ops[|ops| - 1];
      var before := Run(l, init);
      FilesAreNamedByHour(l, init);
      if op.Append? && Accepts(before, op.entry.now) {
        var r := Rotated(before, op.entry.now);
        RotationIsNamed(before, op.entry.now, r);
        WriteIsNamed(r, op.entry, Written(r, op.entry));
      }
    }
  }
}
