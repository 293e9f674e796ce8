/** The publication boundary of collectors/prospective_std0_trades.py: the durable
    steps of `_append_new`, and what a crash between two of them can leave. */
module Publication {
  import opened Storage

  /** What both stores hold at one instant: the log lines written and how many
      of them are durable, the keys this connection sees and the committed ones. */
  datatype Disk = Disk(lines: seq<Record>, flushed: nat, keys: set<string>, committed: set<string>)

  datatype Op = Write(record: Record) | Flush | Insert(key: string) | Commit

  function Do(d: Disk, op: Op): Disk {
    match op
    case Write(r) => d.(lines := d.lines + [r])
    case Flush => d.(flushed := |d.lines|)
    case Insert(k) => d.(keys := d.keys + {k})
    case Commit => d.(committed := d.keys)
  }

  function DoAll(d: Disk, ops: seq<Op>): Disk {
    if ops == [] then d else Do(DoAll(d, ops[..|ops| - 1]), ops[|ops| - 1])
  }

  function FreshRecords(records: seq<Record>, known: set<string>): seq<Record> {
    if records == [] then []
    else (if records[0].identity in known then [] else [records[0]]) + FreshRecords(records[1..], known)
  }

  function Writes(rs: seq<Record>): seq<Op> {
    seq(|rs|, i requires 0 <= i < |rs| => Write(rs[i]))
  }

  function Inserts(rs: seq<Record>): seq<Op> {
    seq(|rs|, i requires 0 <= i < |rs| => Insert(rs[i].identity))
  }

  function Steps(rs: seq<Record>): seq<Op> {
    Writes(rs) + [Flush] + Inserts(rs) + [Commit]
  }

  /** The durable steps of `_append_new`, in the order the code takes them. */
  function AppendOps(d: Disk, staged: seq<Record>): seq<Op> {
    var rs := FreshRecords(staged, d.keys);
    if rs == [] then [] else Steps(rs)
  }

  /** Nothing buffered, nothing uncommitted, and the log holds each registered
      identity exactly once. */
  ghost predicate AtRest(d: Disk) {
    && d.flushed == |d.lines|
    && d.keys == d.committed == IdSet(d.lines)
    && DistinctIds(d.lines)
  }

  lemma {:induction false} FreshRecordsMembers(records: seq<Record>, known: set<string>)
    ensures forall r :: r in FreshRecords(records, known) <==> r in records && r.identity !in known
    ensures |FreshRecords(records, known)| <= |records|
  {
    if records != [] {
      FreshRecordsMembers(records[1..], known);
      assert records == [records[0]] + records[1..];
    }
  }

  lemma FreshRecordsIds(records: seq<Record>, known: set<string>)
    ensures IdSet(FreshRecords(records, known)) == IdSet(records) - known
  {
    FreshRecordsMembers(records, known);
  }

  lemma {:induction false} FreshRecordsDistinct(records: seq<Record>, known: set<string>)
    requires DistinctIds(records)
    ensures DistinctIds(FreshRecords(records, known))
  {
    if records != [] {
      var rest := records[1..];
      assert forall i :: 0 <= i < |rest| ==> rest[i] == records[i + 1];
      FreshRecordsDistinct(rest, known);
      FreshRecordsMembers(rest, known);
      forall r | r in FreshRecords(rest, known) ensures r.identity != records[0].identity {
        var j :| 0 <= j < |rest| && rest[j] == r;
      }
    }
  }

  lemma {:induction false} FreshRecordsKeys(records: seq<Record>, known: set<string>)
    ensures Identities(FreshRecords(records, known)) == FreshKeys(Identities(records), known)
  {
    if records != [] {
      FreshRecordsKeys(records[1..], known);
      assert Identities(records)[1..] == Identities(records[1..]);
    }
  }

  lemma DistinctConcat(a: seq<Record>, b: seq<Record>)
    requires DistinctIds(a) && DistinctIds(b) && IdSet(a) !! IdSet(b)
    ensures DistinctIds(a + b)
  {
    forall i, j | 0 <= i < |a| && 0 <= j < |b| ensures a[i].identity != b[j].identity {
      assert a[i].identity in IdSet(a) && b[j].identity in IdSet(b);
    }
  }

  lemma {:induction false} DoAllConcat(d: Disk, a: seq<Op>, b: seq<Op>)
    ensures DoAll(d, a + b) == DoAll(DoAll(d, a), b)
  {
    if b == [] {
      assert a + b == a;
    } else {
      assert (a + b)[..|a + b| - 1] == a + b[..|b| - 1];
      DoAllConcat(d, a, b[..|b| - 1]);
    }
  }

  lemma {:induction false} DoWrites(d: Disk, rs: seq<Record>)
    ensures DoAll(d, Writes(rs)) == d.(lines := d.lines + rs)
  {
    if rs != [] {
      var init := rs[..|rs| - 1];
      assert Writes(rs)[..|rs| - 1] == Writes(init);
      DoWrites(d, init);
      assert rs == init + [rs[|rs| - 1]];
    } else {
      assert d.lines + rs == d.lines;
    }
  }

  lemma {:induction false} DoInserts(d: Disk, rs: seq<Record>)
    ensures DoAll(d, Inserts(rs)) == d.(keys := d.keys + IdSet(rs))
  {
    if rs != [] {
      var init := rs[..|rs| - 1];
      assert Inserts(rs)[..|rs| - 1] == Inserts(init);
      DoInserts(d, init);
      assert rs == init + [rs[|rs| - 1]];
      IdSetConcat(init, [rs[|rs| - 1]]);
      assert IdSet([rs[|rs| - 1]]) == {rs[|rs| - 1].identity};
    }
  }

  /** The disk after k steps of publishing `rs`, in closed form. */
  function Partway(d: Disk, rs: seq<Record>, k: nat): Disk
    requires k <= |Steps(rs)|
  {
    var n := |rs|;
    if k <= n then d.(lines := d.lines + rs[..k])
    else if k <= 2 * n + 1 then
      Disk(d.lines + rs, |d.lines| + n, d.keys + IdSet(rs[..k - n - 1]), d.committed)
    else
      Disk(d.lines + rs, |d.lines| + n, d.keys + IdSet(rs), d.keys + IdSet(rs))
  }

  lemma StepsToFlush(d: Disk, rs: seq<Record>)
    ensures DoAll(d, Writes(rs) + [Flush]) == d.(lines := d.lines + rs, flushed := |d.lines| + |rs|)
  {
    DoWrites(d, rs);
    assert (Writes(rs) + [Flush])[..|rs|] == Writes(rs);
  }

  lemma StepsToInsert(d: Disk, rs: seq<Record>, m: nat)
    requires m <= |rs|
    ensures DoAll(d, Writes(rs) + [Flush] + Inserts(rs[..m]))
      == Disk(d.lines + rs, |d.lines| + |rs|, d.keys + IdSet(rs[..m]), d.committed)
  {
    StepsToFlush(d, rs);
    DoAllConcat(d, Writes(rs) + [Flush], Inserts(rs[..m]));
    DoInserts(DoAll(d, Writes(rs) + [Flush]), rs[..m]);
  }

  lemma StepsInFull(d: Disk, rs: seq<Record>)
    ensures DoAll(d, Steps(rs))
      == Disk(d.lines + rs, |d.lines| + |rs|, d.keys + IdSet(rs), d.keys + IdSet(rs))
  {
    assert rs[..|rs|] == rs;
    StepsToInsert(d, rs, |rs|);
    var init := Writes(rs) + [Flush] + Inserts(rs);
    assert Steps(rs)[..|Steps(rs)| - 1] == init;
  }

  lemma PartwayIsReached(d: Disk, rs: seq<Record>, k: nat)
    requires k <= |Steps(rs)|
    ensures DoAll(d, Steps(rs)[..k]) == Partway(d, rs, k)
  {
    if k <= |rs| {
      assert Steps(rs)[..k] == Writes(rs[..k]);
      DoWrites(d, rs[..k]);
    } else if k <= 2 * |rs| + 1 {
      var m := k - |rs| - 1;
      StepsToInsert(d, rs, m);
      assert Steps(rs)[..k] == Writes(rs) + [Flush] + Inserts(rs[..m]);
    } else {
      StepsInFull(d, rs);
      assert Steps(rs)[..k] == Steps(rs);
    }
  }

  lemma IdSetPrefix(rs: seq<Record>, m: nat)
    requires m <= |rs|
    ensures IdSet(rs[..m]) <= IdSet(rs)
  {
    IdSetConcat(rs[..m], rs[m..]);
    assert rs == rs[..m] + rs[m..];
  }

  lemma KeysHaveLines(d: Disk, rs: seq<Record>, k: nat)
    requires AtRest(d) && k <= |Steps(rs)|
    ensures Partway(d, rs, k).committed <= Partway(d, rs, k).keys <= IdSet(Partway(d, rs, k).lines)
  {
    IdSetConcat(d.lines, rs);
    if k <= |rs| {
      IdSetConcat(d.lines, rs[..k]);
    } else if k <= 2 * |rs| + 1 {
      IdSetPrefix(rs, k - |rs| - 1);
    }
  }

  /** Whatever part of the unflushed tail is lost, the lines that were there stay, and so
      do those of a finished publication. */
  lemma CommittedHaveLines(d: Disk, rs: seq<Record>, k: nat, kept: nat)
    requires AtRest(d) && k <= |Steps(rs)| && Partway(d, rs, k).flushed <= kept <= |Partway(d, rs, k).lines|
    ensures var e := Partway(d, rs, k); e.committed <= IdSet(e.lines[..kept]) && d.lines <= e.lines[..kept]
  {
    var e := Partway(d, rs, k);
    assert e.lines[..kept] == d.lines + e.lines[|d.lines|..kept];
    IdSetConcat(d.lines, e.lines[|d.lines|..kept]);
    if k == |Steps(rs)| {
      assert e.lines[..kept] == d.lines + rs;
      IdSetConcat(d.lines, rs);
    }
  }

  /** After any prefix of the steps every key this connection sees has its line; and
      whatever part of the unflushed tail a crash keeps, so has every committed key. */
  lemma RegistryNeverAheadOfLog(d: Disk, staged: seq<Record>, k: nat, kept: nat)
    requires AtRest(d) && k <= |AppendOps(d, staged)|
    requires var e := DoAll(d, AppendOps(d, staged)[..k]); e.flushed <= kept <= |e.lines|
    ensures var e := DoAll(d, AppendOps(d, staged)[..k]);
      && e.committed <= e.keys <= IdSet(e.lines)
      && e.committed <= IdSet(e.lines[..kept]) && d.lines <= e.lines[..kept]
  {
    var rs := FreshRecords(staged, d.keys);
    if rs == [] {
      assert d.lines[..kept] == d.lines;
    } else {
      PartwayIsReached(d, rs, k);
      KeysHaveLines(d, rs, k);
      CommittedHaveLines(d, rs, k, kept);
    }
  }

  lemma AppendOpsInFull(d: Disk, staged: seq<Record>)
    ensures var rs := FreshRecords(staged, d.keys);
      DoAll(d, AppendOps(d, staged)) ==
        if rs == [] then d else Disk(d.lines + rs, |d.lines| + |rs|, d.keys + IdSet(rs), d.keys + IdSet(rs))
  {
    StepsInFull(d, FreshRecords(staged, d.keys));
  }

  /** Publishing in full: the fresh identities and nothing else, once each. */
  lemma PublishKeepsExactlyOnce(d: Disk, staged: seq<Record>)
    requires AtRest(d) && DistinctIds(staged)
    ensures var e := DoAll(d, AppendOps(d, staged));
      && AtRest(e)
      && e.lines == d.lines + FreshRecords(staged, d.keys)
      && e.keys == d.keys + IdSet(staged)
  {
    var rs := FreshRecords(staged, d.keys);
    AppendOpsInFull(d, staged);
    FreshRecordsIds(staged, d.keys);
    FreshRecordsDistinct(staged, d.keys);
    IdSetConcat(d.lines, rs);
    DistinctConcat(d.lines, rs);
    if rs == [] {
      assert d.lines + rs == d.lines;
      assert IdSet(rs) == {};
    }
  }

  /** A crash after k steps that keeps `kept` lines; the reopened stores see only
      what is durable. */
  function AfterCrash(e: Disk, kept: nat): Disk
    requires kept <= |e.lines|
  {
    Disk(e.lines[..kept], kept, e.committed, e.committed)
  }

  lemma RetryRepeats(d: Disk, rs: seq<Record>, kept: nat, e: Disk)
    requires |d.lines| < kept <= |d.lines| + |rs|
    requires e.lines == (d.lines + rs)[..kept] + rs
    ensures !DistinctIds(e.lines)
  {
    assert e.lines[|d.lines|] == rs[0] && e.lines[kept] == rs[0];
  }

  /** Retrying a window after a crash leaves the log exactly-once if and only if
      no new line survived or the key commit had already happened. */
  lemma RetryAfterCrash(d: Disk, staged: seq<Record>, k: nat, kept: nat)
    requires AtRest(d) && DistinctIds(staged) && k <= |AppendOps(d, staged)|
    requires var e := DoAll(d, AppendOps(d, staged)[..k]); e.flushed <= kept <= |e.lines|
    ensures var e := DoAll(d, AppendOps(d, staged)[..k]);
      var c := AfterCrash(e, kept);
      AtRest(DoAll(c, AppendOps(c, staged))) <==> (kept == |d.lines| || k == |AppendOps(d, staged)|)
  {
    var ops := AppendOps(d, staged);
    var rs := FreshRecords(staged, d.keys);
    var e := DoAll(d, ops[..k]);
    var c := AfterCrash(e, kept);
    if k == |ops| {
      assert ops[..k] == ops;
      PublishKeepsExactlyOnce(d, staged);
      assert e.lines[..kept] == e.lines;
      PublishKeepsExactlyOnce(c, staged);
    } else {
      PartwayIsReached(d, rs, k);
      if kept == |d.lines| {
        assert c.lines == d.lines;
        assert c == d;
        PublishKeepsExactlyOnce(d, staged);
      } else {
        assert c.keys == d.keys;
        assert e.lines[..kept] == (d.lines + rs)[..kept];
        AppendOpsInFull(c, staged);
        RetryRepeats(d, rs, kept, DoAll(c, AppendOps(c, staged)));
      }
    }
  }

  lemma OneRowLogged(r: Record, d: Disk, ops: seq<Op>)
    requires d == Disk([], 0, {}, {}) && ops == AppendOps(d, [r])
    ensures |ops| == 4 && DoAll(d, ops[..2]) == Disk([r], 1, {}, {})
  {
    var rs := [r];
    assert rs[1..] == [] && FreshRecords([], d.keys) == [];
    assert FreshRecords(rs, d.keys) == rs;
    PartwayIsReached(d, rs, 2);
    assert rs[..0] == [] && IdSet(rs[..0]) == {};
  }

  /** One such crash: the line is durable, its key is not; the retry writes it again. */
  lemma RetryCanRepeat(r: Record)
    ensures var d, staged := Disk([], 0, {}, {}), [r];
      var e := DoAll(d, AppendOps(d, staged)[..2]);
      && AtRest(d) && e.flushed == |e.lines| == 1
      && !AtRest(DoAll(AfterCrash(e, 1), AppendOps(AfterCrash(e, 1), staged)))
  {
    var d := Disk([], 0, {}, {});
    OneRowLogged(r, d, AppendOps(d, [r]));
    assert AtRest(d);
    RetryAfterCrash(d, [r], 2, 1);
  }

  // -------------------- an exception without a crash --------------------

  /** An exception leaves `_append_new` after k steps; recording the failed run then
      commits whatever keys had been inserted. */
  function AfterException(e: Disk): Disk { e.(committed := e.keys) }

  /** Also then every committed key has a durable line, and a batch whose flush never came
      is without its keys. */
  lemma ExceptionCommitsOnlyLoggedKeys(d: Disk, staged: seq<Record>, k: nat)
    requires AtRest(d) && k <= |AppendOps(d, staged)|
    ensures var e := AfterException(DoAll(d, AppendOps(d, staged)[..k]));
      && e.flushed <= |e.lines| && e.committed <= IdSet(e.lines[..e.flushed])
      && (e.flushed < |e.lines| ==> e.committed == d.keys && e.flushed == |d.lines|)
  {
    var rs := FreshRecords(staged, d.keys);
    if rs == [] {
      assert d.lines[..d.flushed] == d.lines;
    } else {
      PartwayIsReached(d, rs, k);
      var e := Partway(d, rs, k);
      if k <= |rs| {
        assert e.lines[..e.flushed] == d.lines;
      } else {
        assert e.lines[..e.flushed] == d.lines + rs;
        IdSetConcat(d.lines, rs);
        IdSetPrefix(rs, if k <= 2 * |rs| + 1 then k - |rs| - 1 else |rs|);
      }
    }
  }

  lemma StillFresh(staged: seq<Record>, known: set<string>, keys: set<string>, r: Record)
    requires r in FreshRecords(staged, known) && r.identity !in keys
    ensures r in FreshRecords(staged, keys)
  {
    FreshRecordsMembers(staged, known);
    FreshRecordsMembers(staged, keys);
  }

  lemma TwiceIsNotOnce(lines: seq<Record>, more: seq<Record>, r: Record)
    requires r in lines && r in more
    ensures !DistinctIds(lines + more)
  {
    var i :| 0 <= i < |lines| && lines[i] == r;
    var j :| 0 <= j < |more| && more[j] == r;
    assert (lines + more)[i] == r && (lines + more)[|lines| + j] == r;
  }

  /** A record whose line is there and whose key is not. */
  lemma HalfPublished(d: Disk, rs: seq<Record>, k: nat) returns (r: Record)
    requires AtRest(d) && DistinctIds(rs) && IdSet(rs) !! d.keys && 0 < k <= 2 * |rs|
    ensures r in rs && r in Partway(d, rs, k).lines && r.identity !in Partway(d, rs, k).keys
  {
    if k <= |rs| {
      r := rs[0];
      assert r.identity in IdSet(rs);
      assert Partway(d, rs, k).lines[|d.lines|] == r;
    } else {
      var m := k - |rs| - 1;
      r := rs[m];
      assert r.identity in IdSet(rs);
      assert Partway(d, rs, k).lines[|d.lines| + m] == r;
    }
  }

  lemma HalfRetry(d: Disk, staged: seq<Record>, k: nat, e: Disk)
    requires AtRest(d) && DistinctIds(staged) && 0 < k <= 2 * |FreshRecords(staged, d.keys)|
    requires e == AfterException(Partway(d, FreshRecords(staged, d.keys), k))
    ensures !AtRest(DoAll(e, AppendOps(e, staged)))
  {
    var rs := FreshRecords(staged, d.keys);
    FreshRecordsDistinct(staged, d.keys);
    FreshRecordsIds(staged, d.keys);
    var r := HalfPublished(d, rs, k);
    StillFresh(staged, d.keys, e.keys, r);
    AppendOpsInFull(e, staged);
    TwiceIsNotOnce(e.lines, FreshRecords(staged, e.keys), r);
  }

  /** Retrying in the same process after an exception keeps the log exactly-once if and
      only if no line had been written or every key had been inserted. */
  lemma RetryAfterException(d: Disk, staged: seq<Record>, k: nat)
    requires AtRest(d) && DistinctIds(staged) && k <= |AppendOps(d, staged)|
    ensures var e := AfterException(DoAll(d, AppendOps(d, staged)[..k]));
      AtRest(DoAll(e, AppendOps(e, staged))) <==> k == 0 || k >= 2 * |FreshRecords(staged, d.keys)| + 1
  {
    var rs := FreshRecords(staged, d.keys);
    var e := AfterException(DoAll(d, AppendOps(d, staged)[..k]));
    if k == 0 {
      PublishKeepsExactlyOnce(d, staged);
    } else {
      PartwayIsReached(d, rs, k);
      if k <= 2 * |rs| {
        HalfRetry(d, staged, k, e);
      } else {
        FullyKeyed(d, staged, e);
      }
    }
  }

  lemma FullyKeyed(d: Disk, staged: seq<Record>, e: Disk)
    requires AtRest(d) && DistinctIds(staged)
    requires var rs := FreshRecords(staged, d.keys);
      e == Disk(d.lines + rs, |d.lines| + |rs|, d.keys + IdSet(rs), d.keys + IdSet(rs))
    ensures AtRest(DoAll(e, AppendOps(e, staged)))
  {
    AppendOpsInFull(d, staged);
    PublishKeepsExactlyOnce(d, staged);
    PublishKeepsExactlyOnce(e, staged);
  }
}
