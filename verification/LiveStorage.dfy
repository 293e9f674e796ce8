/** collectors/live_storage.py: the rotating raw log with its close sidecars, and
    the recovery of files a crash left without one. */
module LiveStorage {
  import opened Options

  /** A raw row: its two timestamp fields and the length of its encoded line. */
  datatype Row = Row(receiveMs: Option<int>, timestampMs: Option<int>, bytes: nat, body: string)

  /** A row as appended, with the clock reading of that append. */
  datatype Entry = Entry(row: Row, now: int)

  /** A line of a file: a whole row, text that is not JSON, white space, or bytes that
      are not UTF-8 text. */
  datatype Line = Intact(row: Row) | Torn | Blank | Garbled

  /** Hour slot, session and sequence number, as they appear in the file name. */
  datatype Path = Path(hour: int, session: string, sequence: nat)

  /** The part of a sidecar that describes the content. The digest stands for its
      content: hashing is taken to be injective. */
  datatype Meta = Meta(
    count: nat, first: Option<int>, last: Option<int>, digest: seq<Line>,
    recovered: bool, parseErrors: nat)
  {
    predicate Integrity() { parseErrors == 0 }

    ghost predicate Describes(other: Meta) {
      count == other.count && first == other.first && last == other.last && digest == other.digest
    }
  }

  /** Python truth of an integer field. */
  predicate Truthy(x: Option<int>) { x.Some? && x.value != 0 }

  /** `receive_timestamp_ms or timestamp_ms or now`. */
  function AppendStamp(e: Entry): int {
    if Truthy(e.row.receiveMs) then e.row.receiveMs.value
    else if Truthy(e.row.timestampMs) then e.row.timestampMs.value
    else e.now
  }

  /** `receive_timestamp_ms or timestamp_ms`, which may be None. */
  function RecoveryStamp(r: Row): Option<int> {
    if Truthy(r.receiveMs) then r.receiveMs else r.timestampMs
  }

  function LinesOf(entries: seq<Entry>): (lines: seq<Line>)
    ensures Readable(lines)
  {
    seq(|entries|, i requires 0 <= i < |entries| => Intact(entries[i].row))
  }

  function ByteSize(entries: seq<Entry>): nat {
    if entries == [] then 0 else ByteSize(entries[..|entries| - 1]) + entries[|entries| - 1].row.bytes
  }

  function FirstStamp(entries: seq<Entry>): Option<int> {
    if entries == [] then None else Some(AppendStamp(entries[0]))
  }

  function LastStamp(entries: seq<Entry>): Option<int> {
    if entries == [] then None else Some(AppendStamp(entries[|entries| - 1]))
  }

  /** The sidecar of a clean close. */
  function CleanMeta(entries: seq<Entry>): Meta {
    Meta(|entries|, FirstStamp(entries), LastStamp(entries), LinesOf(entries), false, 0)
  }

  // -------------------- recovery --------------------

  /** The file can be read as text; if not, reading it raises. */
  predicate Readable(lines: seq<Line>) { Garbled !in lines }

  /** Scanning a file line by line. */
  function Scan(lines: seq<Line>): Meta
    requires Readable(lines)
  {
    if lines == [] then Meta(0, None, None, [], true, 0)
    else
      var m := Scan(lines[..|lines| - 1]);
      match lines[|lines| - 1]
      case Blank => m
      case Torn => m.(parseErrors := m.parseErrors + 1)
      case Intact(r) =>
        var first := if m.first == None then RecoveryStamp(r) else m.first;
        m.(count := m.count + 1, first := first, last := RecoveryStamp(r))
  }

  function Recovered(lines: seq<Line>): Meta
    requires Readable(lines)
  {
    Scan(lines).(digest := lines)
  }

  predicate Stamped(r: Row) { Truthy(r.receiveMs) || Truthy(r.timestampMs) }

  lemma {:induction false} ScanIntact(entries: seq<Entry>)
    ensures var m := Scan(LinesOf(entries));
      && m.count == |entries| && m.parseErrors == 0
      && (entries != [] ==> m.last == RecoveryStamp(entries[|entries| - 1].row))
      && (entries != [] && RecoveryStamp(entries[0].row).Some? ==> m.first == RecoveryStamp(entries[0].row))
  {
    if entries != [] {
      var init := entries[..|entries| - 1];
      assert LinesOf(entries)[..|entries| - 1] == LinesOf(init);
      ScanIntact(init);
    }
  }

  /** With non-zero timestamps recovery gives exactly the count, first, last and
      digest that a clean close of the same rows would have given. */
  lemma RecoveryEqualsCleanClose(entries: seq<Entry>)
    requires forall i :: 0 <= i < |entries| ==> Stamped(entries[i].row)
    ensures Recovered(LinesOf(entries)).Describes(CleanMeta(entries))
    ensures Recovered(LinesOf(entries)).Integrity()
  {
    ScanIntact(entries);
    if entries == [] {
      assert LinesOf(entries) == [];
    }
  }

  /** The last timestamps agree if and only if the last row carries one, or carries
      a literal zero written while the clock read zero. */
  lemma LastAgreesIffStamped(entries: seq<Entry>)
    requires entries != []
    ensures var e := entries[|entries| - 1];
      Recovered(LinesOf(entries)).last == CleanMeta(entries).last
      <==> Stamped(e.row) || (e.row.timestampMs == Some(0) && e.now == 0)
  {
    ScanIntact(entries);
  }

  /** The first timestamp recovery finds: rows without one are passed over. */
  function FirstKnown(entries: seq<Entry>): Option<int> {
    if entries == [] then None
    else if RecoveryStamp(entries[0].row).Some? then RecoveryStamp(entries[0].row)
    else FirstKnown(entries[1..])
  }

  lemma {:induction false} FirstKnownPush(entries: seq<Entry>, e: Entry)
    ensures FirstKnown(entries + [e])
      == if FirstKnown(entries) != None then FirstKnown(entries) else RecoveryStamp(e.row)
  {
    if entries == [] {
      assert ([] + [e])[1..] == [];
    } else {
      assert (entries + [e])[1..] == entries[1..] + [e];
      FirstKnownPush(entries[1..], e);
    }
  }

  lemma {:induction false} ScanFirst(entries: seq<Entry>)
    ensures Scan(LinesOf(entries)).first == FirstKnown(entries)
  {
    if entries != [] {
      var init, e := entries[..|entries| - 1], entries[|entries| - 1];
      assert LinesOf(entries)[..|entries| - 1] == LinesOf(init);
      ScanFirst(init);
      FirstKnownPush(init, e);
      assert entries == init + [e];
    }
  }

  /** The first timestamps agree if and only if the first row carries one, or the first one
      that recovery finds happens to be the clock reading of the first append. */
  lemma FirstAgreesIff(entries: seq<Entry>)
    requires entries != []
    ensures Recovered(LinesOf(entries)).first == CleanMeta(entries).first
      <==> Stamped(entries[0].row) || FirstKnown(entries) == Some(entries[0].now)
  {
    ScanFirst(entries);
  }

  predicate EndsAgree(entries: seq<Entry>)
    requires entries != []
  {
    var first, last := entries[0], entries[|entries| - 1];
    && (Stamped(first.row) || FirstKnown(entries) == Some(first.now))
    && (Stamped(last.row) || (last.row.timestampMs == Some(0) && last.now == 0))
  }

  /** Recovery reproduces the clean sidecar exactly under both conditions; count and digest
      always agree. */
  lemma RecoveryIsCleanIff(entries: seq<Entry>)
    ensures Recovered(LinesOf(entries)).Integrity()
    ensures Recovered(LinesOf(entries)).Describes(CleanMeta(entries)) <==> entries == [] || EndsAgree(entries)
  {
    ScanIntact(entries);
    if entries == [] {
      assert LinesOf(entries) == [];
    } else {
      FirstAgreesIff(entries);
      LastAgreesIffStamped(entries);
    }
  }

  /** The rows of the lines that parse, in order. */
  function RowsIn(lines: seq<Line>): seq<Row> {
    if lines == [] then []
    else RowsIn(lines[..|lines| - 1]) + match lines[|lines| - 1] case Intact(r) => [r] case _ => []
  }

  /** The timestamp of the first row that has one. */
  function FirstFound(rows: seq<Row>): Option<int> {
    if rows == [] then None
    else if RecoveryStamp(rows[0]).Some? then RecoveryStamp(rows[0])
    else FirstFound(rows[1..])
  }

  function LastFound(rows: seq<Row>): Option<int> {
    if rows == [] then None else RecoveryStamp(rows[|rows| - 1])
  }

  lemma {:induction false} FirstFoundPush(rows: seq<Row>, r: Row)
    ensures FirstFound(rows + [r]) == if FirstFound(rows).Some? then FirstFound(rows) else RecoveryStamp(r)
  {
    if rows == [] {
      assert ([] + [r])[1..] == [];
    } else {
      assert (rows + [r])[1..] == rows[1..] + [r];
      FirstFoundPush(rows[1..], r);
    }
  }

  lemma RowsInLast(init: seq<Line>, last: Line)
    ensures RowsIn(init + [last]) == RowsIn(init) + if last.Intact? then [last.row] else []
  {
    assert (init + [last])[..|init|] == init;
  }

  lemma FirstFoundStep(rows: seq<Row>, last: Line)
    ensures var all := rows + if last.Intact? then [last.row] else [];
      && FirstFound(all)
        == (if last.Intact? && FirstFound(rows).None? then RecoveryStamp(last.row) else FirstFound(rows))
      && LastFound(all) == (if last.Intact? then RecoveryStamp(last.row) else LastFound(rows))
  {
    if last.Intact? {
      FirstFoundPush(rows, last.row);
    } else {
      assert rows + [] == rows;
    }
  }

  lemma {:induction false} ScanRows(lines: seq<Line>)
    requires Readable(lines)
    ensures var m, rows := Scan(lines), RowsIn(lines);
      m.count == |rows| && m.first == FirstFound(rows) && m.last == LastFound(rows)
  {
    if lines != [] {
      var init, last := lines[..|lines| - 1], lines[|lines| - 1];
      ScanRows(init);
      assert lines == init + [last];
      RowsInLast(init, last);
      FirstFoundStep(RowsIn(init), last);
    }
  }

  lemma {:induction false} ScanErrors(lines: seq<Line>)
    requires Readable(lines)
    ensures var m := Scan(lines);
      && m.parseErrors == multiset(lines)[Torn] && m.recovered
      && m.count + m.parseErrors + multiset(lines)[Blank] == |lines|
  {
    if lines != [] {
      var init, last := lines[..|lines| - 1], lines[|lines| - 1];
      ScanErrors(init);
      assert lines == init + [last];
    }
  }

  /** Whatever text lines a file holds: the intact ones are the rows counted and give the
      first and last timestamp, the torn ones are the parse errors, and every other line is
      blank; the integrity is OK if and only if no line is torn. */
  lemma ScanAccountsForEveryLine(lines: seq<Line>)
    requires Readable(lines)
    ensures var m := Recovered(lines);
      && m.count == |RowsIn(lines)| && m.parseErrors == multiset(lines)[Torn]
      && m.count + m.parseErrors + multiset(lines)[Blank] == |lines|
      && m.first == FirstFound(RowsIn(lines)) && m.last == LastFound(RowsIn(lines))
      && m.digest == lines && m.recovered
      && (m.Integrity() <==> Torn !in lines)
  {
    ScanRows(lines);
    ScanErrors(lines);
  }

  lemma {:induction false} RowsInConcat(a: seq<Line>, b: seq<Line>)
    ensures RowsIn(a + b) == RowsIn(a) + RowsIn(b)
  {
    if b == [] {
      assert a + b == a;
    } else {
      var init := b[..|b| - 1];
      assert (a + b)[..|a + b| - 1] == a + init;
      RowsInConcat(a, init);
    }
  }

  lemma RowsWithout(a: seq<Line>, junk: Line, b: seq<Line>)
    requires !junk.Intact?
    ensures RowsIn(a + [junk] + b) == RowsIn(a + b)
  {
    RowsInConcat(a + [junk], b);
    RowsInLast(a, junk);
    RowsInConcat(a, b);
  }

  /** A torn or blank line, wherever it stands, changes neither the count nor the first or
      last timestamp; a torn one is one more parse error. */
  lemma JunkLinesDoNotCount(a: seq<Line>, junk: Line, b: seq<Line>)
    requires Readable(a + [junk] + b) && Readable(a + b) && !junk.Intact?
    ensures var with, without := Recovered(a + [junk] + b), Recovered(a + b);
      && with.count == without.count && with.first == without.first && with.last == without.last
      && with.parseErrors == without.parseErrors + if junk == Torn then 1 else 0
  {
    RowsWithout(a, junk, b);
    ScanAccountsForEveryLine(a + [junk] + b);
    ScanAccountsForEveryLine(a + b);
    assert multiset(a + [junk] + b) == multiset(a + b) + multiset{junk};
  }

  type Files = map<Path, seq<Line>>
  type Sidecars = map<Path, Meta>

  /** The files a sweep repairs: no sidecar, and not modified within the grace. */
  predicate Orphan(sidecars: Sidecars, mtime: map<Path, int>, now: int, graceMs: int, p: Path) {
    p !in sidecars && !(graceMs > 0 && p in mtime && now - mtime[p] < graceMs)
  }

  /** finalize_orphan_sidecars, as the sidecars it leaves when it does not raise. */
  function Finalize(files: Files, sidecars: Sidecars, mtime: map<Path, int>, now: int, graceMs: int): Sidecars {
    sidecars + map p | p in files && Orphan(sidecars, mtime, now, graceMs, p) && Readable(files[p])
      :: Recovered(files[p])
  }

  /** An orphan that cannot be read: the sweep raises when it comes to it. */
  predicate Blocks(
      files: Files, sidecars: Sidecars, mtime: map<Path, int>, now: int, graceMs: int, p: Path)
  {
    p in files && Orphan(sidecars, mtime, now, graceMs, p) && !Readable(files[p])
  }

  ghost predicate Clear(
      files: Files, sidecars: Sidecars, mtime: map<Path, int>, now: int, graceMs: int, paths: seq<Path>)
  {
    forall i :: 0 <= i < |paths| ==> !Blocks(files, sidecars, mtime, now, graceMs, paths[i])
  }

  lemma SweepTwice(files: Files, sidecars: Sidecars, mtime: map<Path, int>, now: int, graceMs: int, after: Sidecars)
    requires after == Finalize(files, sidecars, mtime, now, graceMs)
    ensures Finalize(files, after, mtime, now, graceMs) == after
  {
    forall p | p in files && Readable(files[p]) ensures !Orphan(after, mtime, now, graceMs, p) {
      assert p !in sidecars && Orphan(after, mtime, now, graceMs, p) ==> Orphan(sidecars, mtime, now, graceMs, p);
    }
    var again := Finalize(files, after, mtime, now, graceMs);
    assert forall p :: p in again <==> p in after;
  }

  /** A sweep never touches an existing sidecar, describes each orphan it can read by its
      content once the grace since its last change is over and never before, and a second
      sweep at the same instant finds nothing to do. */
  lemma FinalizeIsSafe(files: Files, sidecars: Sidecars, mtime: map<Path, int>, now: int, graceMs: int)
    ensures var after := Finalize(files, sidecars, mtime, now, graceMs);
      && (forall p :: p in sidecars ==> p in after && after[p] == sidecars[p])
      && (forall p :: p in after && p !in sidecars ==>
        p in files && Readable(files[p]) && after[p] == Recovered(files[p]))
      && (graceMs <= 0 ==> forall p :: p in files && Readable(files[p]) ==> p in after)
      && (forall p :: p in files && Readable(files[p]) && p in mtime && mtime[p] + graceMs <= now ==> p in after)
      && (forall p :: p in mtime && now < mtime[p] + graceMs && p !in sidecars && graceMs > 0 ==> p !in after)
      && Finalize(files, after, mtime, now, graceMs) == after
  {
    SweepTwice(files, sidecars, mtime, now, graceMs, Finalize(files, sidecars, mtime, now, graceMs));
  }

  function Only(files: Files, paths: seq<Path>): Files {
    map p | p in files && p in paths :: files[p]
  }

  lemma OnlyOneMore(files: Files, paths: seq<Path>, p: Path)
    requires p in files
    ensures Only(files, paths + [p]) == Only(files, paths)[p := files[p]]
  {}

  /** Entry by entry: a sidecar is kept, an orphan that can be read is described. */
  ghost predicate Swept(
      files: Files, sidecars: Sidecars, mtime: map<Path, int>, now: int, graceMs: int, after: Sidecars)
  {
    forall p :: SweptAt(files, sidecars, mtime, now, graceMs, after, p)
  }

  ghost predicate SweptAt(
      files: Files, sidecars: Sidecars, mtime: map<Path, int>, now: int, graceMs: int, after: Sidecars, p: Path)
  {
    if p in sidecars then p in after && after[p] == sidecars[p]
    else if p in files && Orphan(sidecars, mtime, now, graceMs, p) && Readable(files[p])
    then p in after && after[p] == Recovered(files[p])
    else p !in after
  }

  lemma FinalizeIsSwept(files: Files, sidecars: Sidecars, mtime: map<Path, int>, now: int, graceMs: int)
    ensures Swept(files, sidecars, mtime, now, graceMs, Finalize(files, sidecars, mtime, now, graceMs))
  {}

  lemma SweptIsFinalize(
      files: Files, sidecars: Sidecars, mtime: map<Path, int>, now: int, graceMs: int, a: Sidecars, b: Sidecars)
    requires Swept(files, sidecars, mtime, now, graceMs, a) && Swept(files, sidecars, mtime, now, graceMs, b)
    ensures a == b
  {
    forall p ensures p in a <==> p in b {
      assert SweptAt(files, sidecars, mtime, now, graceMs, a, p);
      assert SweptAt(files, sidecars, mtime, now, graceMs, b, p);
    }
    forall p | p in a ensures a[p] == b[p] {
      assert SweptAt(files, sidecars, mtime, now, graceMs, a, p);
      assert SweptAt(files, sidecars, mtime, now, graceMs, b, p);
    }
  }

  lemma FinalizePut(files: Files, sidecars: Sidecars, mtime: map<Path, int>, now: int, graceMs: int, p: Path,
      lines: seq<Line>, before: Sidecars, after: Sidecars)
    requires p in files ==> files[p] == lines
    requires Swept(files, sidecars, mtime, now, graceMs, before)
    requires after
      == if p !in sidecars && Orphan(sidecars, mtime, now, graceMs, p) && Readable(lines)
      then before[p := Recovered(lines)]
      else before
    ensures Swept(files[p := lines], sidecars, mtime, now, graceMs, after)
  {
    var all := files[p := lines];
    forall q ensures SweptAt(all, sidecars, mtime, now, graceMs, after, q) {
      assert SweptAt(files, sidecars, mtime, now, graceMs, before, q);
    }
  }

  /** One more file of the listing. */
  lemma FinalizeOneMore(files: Files, sidecars: Sidecars, mtime: map<Path, int>, now: int, graceMs: int,
      paths: seq<Path>, p: Path, before: Sidecars, after: Sidecars)
    requires p in files && before == Finalize(Only(files, paths), sidecars, mtime, now, graceMs)
    requires after == Finalize(Only(files, paths + [p]), sidecars, mtime, now, graceMs)
    ensures p in before || !Orphan(sidecars, mtime, now, graceMs, p) ==> after == before
    ensures Orphan(sidecars, mtime, now, graceMs, p) && Readable(files[p]) ==> after == before[p := Recovered(files[p])]
  {
    OnlyOneMore(files, paths, p);
    var next := if Orphan(sidecars, mtime, now, graceMs, p) && Readable(files[p])
      then before[p := Recovered(files[p])] else before;
    FinalizeIsSwept(Only(files, paths), sidecars, mtime, now, graceMs);
    FinalizePut(Only(files, paths), sidecars, mtime, now, graceMs, p, files[p], before, next);
    FinalizeIsSwept(Only(files, paths + [p]), sidecars, mtime, now, graceMs);
    SweptIsFinalize(Only(files, paths + [p]), sidecars, mtime, now, graceMs, after, next);
    assert SweptAt(Only(files, paths), sidecars, mtime, now, graceMs, before, p);
  }

  /** The sweep has dealt with the first i files of the listing. */
  ghost predicate SweptUpTo(files: Files, sidecars: Sidecars, mtime: map<Path, int>, now: int, graceMs: int,
      paths: seq<Path>, i: nat, after: Sidecars)
    requires i <= |paths|
  {
    && Clear(files, sidecars, mtime, now, graceMs, paths[..i])
    && after == Finalize(Only(files, paths[..i]), sidecars, mtime, now, graceMs)
  }

  /** It stops at file n, the first orphan that cannot be read. */
  ghost predicate StoppedAt(files: Files, sidecars: Sidecars, mtime: map<Path, int>, now: int, graceMs: int,
      paths: seq<Path>, n: nat, after: Sidecars)
    requires n < |paths|
  {
    SweptUpTo(files, sidecars, mtime, now, graceMs, paths, n, after)
      && Blocks(files, sidecars, mtime, now, graceMs, paths[n])
  }

  /** What file i needs: nothing, a sidecar, or it stops the sweep. */
  lemma SweepStep(files: Files, sidecars: Sidecars, mtime: map<Path, int>, now: int, graceMs: int,
      paths: seq<Path>, i: nat, after: Sidecars)
    requires i < |paths| && paths[i] in files && SweptUpTo(files, sidecars, mtime, now, graceMs, paths, i, after)
    ensures sidecars.Keys <= after.Keys
    ensures paths[i] in after || !Orphan(sidecars, mtime, now, graceMs, paths[i]) ==>
      SweptUpTo(files, sidecars, mtime, now, graceMs, paths, i + 1, after)
    ensures paths[i] !in after && Orphan(sidecars, mtime, now, graceMs, paths[i]) ==>
      if Readable(files[paths[i]])
      then SweptUpTo(files, sidecars, mtime, now, graceMs, paths, i + 1, after[paths[i] := Recovered(files[paths[i]])])
      else Blocks(files, sidecars, mtime, now, graceMs, paths[i])
  {
    var path := paths[i];
    var next := Finalize(Only(files, paths[..i + 1]), sidecars, mtime, now, graceMs);
    assert paths[..i + 1] == paths[..i] + [path];
    FinalizeOneMore(files, sidecars, mtime, now, graceMs, paths[..i], path, after, next);
  }

  class RecoverySweep {
    var sidecars: Sidecars

    constructor (sidecars: Sidecars)
      ensures this.sidecars == sidecars
    {
      this.sidecars := sidecars;
    }

    /** `paths` is the directory listing the sweep walks; None stands for the exception of
        reading a file that is not text, which leaves what was described before it. */
    method FinalizeOrphanSidecars(files: Files, paths: seq<Path>, mtime: map<Path, int>, now: int, graceMs: int)
      returns (repaired: Option<seq<Path>>)
      requires forall p :: p in paths <==> p in files
      modifies this
      ensures repaired.Some? <==> Clear(files, old(sidecars), mtime, now, graceMs, paths)
      ensures repaired.Some? ==> sidecars == Finalize(files, old(sidecars), mtime, now, graceMs)
      ensures repaired.Some? ==> forall p :: p in repaired.value <==> p in sidecars && p !in old(sidecars)
      ensures repaired.None? ==> exists n: nat ::
        n < |paths| && StoppedAt(files, old(sidecars), mtime, now, graceMs, paths, n, sidecars)
    {
      var made: seq<Path> := [];
      ghost var before := sidecars;
      for i := 0 to |paths|
        invariant SweptUpTo(files, before, mtime, now, graceMs, paths, i, sidecars)
        invariant forall p :: p in made <==> p in sidecars && p !in before
      {
        var path := paths[i];
        SweepStep(files, before, mtime, now, graceMs, paths, i, sidecars);
        if path in sidecars {
          continue;
        }
        if graceMs > 0 && path in mtime && now - mtime[path] < graceMs {
          continue;
        }
        var meta := ScanFile(files[path]);
        if meta == None {
          assert StoppedAt(files, before, mtime, now, graceMs, paths, i, sidecars);
          return None;
        }
        sidecars := sidecars[path := meta.value];
        made := made + [path];
      }
      assert paths[..|paths|] == paths && Only(files, paths) == files;
      repaired := Some(made);
    }

    static method ScanFile(lines: seq<Line>) returns (meta: Option<Meta>)
      ensures meta == if Readable(lines) then Some(Recovered(lines)) else None
    {
      var count: nat, first, last, parseErrors: nat := 0, None, None, 0;
      for i := 0 to |lines|
        invariant Readable(lines[..i])
        invariant Scan(lines[..i]) == Meta(count, first, last, [], true, parseErrors)
      {
        assert lines[..i + 1] == lines[..i] + [lines[i]];
        match lines[i] {
          case Garbled =>
            return None;
          case Blank =>
          case Torn => parseErrors := parseErrors + 1;
          case Intact(row) =>
            count := count + 1;
            var ts := RecoveryStamp(row);
            first := if first == None then ts else first;
            last := ts;
        }
      }
      assert lines[..|lines|] == lines;
      meta := Some(Meta(count, first, last, lines, true, parseErrors));
    }
  }

  // -------------------- the writer --------------------

  datatype Limits = Limits(rotationMs: int, maxBytes: int, fsyncEvery: nat) {
    ghost predicate Valid() { fsyncEvery >= 1 }
  }

  datatype File = File(path: Path, openedAt: int, entries: seq<Entry>)

  /** The writer's fields and the files it has created, the current one last.
      `flushed` counts the rows of the current file an fsync has made durable;
      `appended` is the history of every row accepted. */
  datatype Log = Log(
    session: string, limits: Limits, files: seq<File>, sidecars: Sidecars, open: bool,
    count: nat, first: Option<int>, last: Option<int>, flushed: nat, appended: seq<Entry>)
  {
    function Current(): File
      requires files != []
    {
      files[|files| - 1]
    }
  }

  /** The rows of the files in order. */
  function Concatenated(files: seq<File>): seq<Entry> {
    if files == [] then [] else Concatenated(files[..|files| - 1]) + files[|files| - 1].entries
  }

  ghost predicate Fits(limits: Limits, f: File, k: int)
    requires 0 <= k < |f.entries|
  {
    ByteSize(f.entries[..k]) < limits.maxBytes && f.entries[k].now - f.openedAt < limits.rotationMs
  }

  /** Every row but a file's first was written while the file was below the byte
      limit and inside its rotation period. */
  ghost predicate WithinLimits(limits: Limits, f: File) {
    forall k :: 1 <= k < |f.entries| ==> Fits(limits, f, k)
  }

  ghost predicate FileOk(sidecars: Sidecars, limits: Limits, f: File, current: bool) {
    && WithinLimits(limits, f)
    && (f.path in sidecars ==> sidecars[f.path] == CleanMeta(f.entries))
    && (!current ==> f.path in sidecars && f.entries != [])
  }

  ghost predicate AllFilesOk(l: Log) {
    forall i :: 0 <= i < |l.files| ==> FileOk(l.sidecars, l.limits, l.files[i], i == |l.files| - 1)
  }

  ghost predicate Named(l: Log) {
    && l.files != [] && l.limits.Valid()
    && (forall i :: 0 <= i < |l.files| ==> l.files[i].path.session == l.session && l.files[i].path.sequence == i + 1)
  }

  ghost predicate Counted(l: Log)
    requires l.files != []
  {
    var rows := l.Current().entries;
    && l.count == |rows| && l.first == FirstStamp(rows) && l.last == LastStamp(rows) && l.flushed <= |rows|
    && (l.Current().path in l.sidecars ==> l.flushed == |rows|)
  }

  /** What holds between any two steps, and so is what a crash leaves behind: the
      files concatenate to the appended rows, each sidecar describes its file, and
      only the current file can be without one. */
  ghost predicate Consistent(l: Log) {
    && Named(l) && Counted(l)
    && Concatenated(l.files) == l.appended
    && (forall p :: p in l.sidecars ==> 1 <= p.sequence <= |l.files|)
    && AllFilesOk(l)
  }

  /** Between calls, the current file has its sidecar exactly when it is closed. */
  ghost predicate AtRest(l: Log) {
    Consistent(l) && (l.open <==> l.Current().path !in l.sidecars)
  }

  function StartLog(session: string, limits: Limits, now: int): Log {
    Log(session, limits, [File(Path(now / 3600000, session, 1), now, [])], map[], true, 0, None, None, 0, [])
  }

  function Opened(l: Log, now: int): Log {
    l.(files := l.files + [File(Path(now / 3600000, l.session, |l.files| + 1), now, [])],
       open := true, count := 0, first := None, last := None, flushed := 0)
  }

  function Flushed(l: Log): Log { l.(flushed := l.count) }

  function WithSidecar(l: Log): Log
    requires l.files != []
  {
    var meta := Meta(l.count, l.first, l.last, LinesOf(l.Current().entries), false, 0);
    l.(sidecars := l.sidecars[l.Current().path := meta])
  }

  function ClosedLog(l: Log): Log
    requires l.files != []
  {
    if l.open then WithSidecar(Flushed(l)).(open := false) else l
  }

  function Written(l: Log, e: Entry): Log
    requires l.files != []
  {
    var f := l.Current();
    l.(files := l.files[..|l.files| - 1] + [f.(entries := f.entries + [e])],
       count := l.count + 1, first := if l.first == None then Some(AppendStamp(e)) else l.first,
       last := Some(AppendStamp(e)), appended := l.appended + [e])
  }

  predicate Due(l: Log, now: int)
    requires l.files != []
  {
    now - l.Current().openedAt >= l.limits.rotationMs
  }

  predicate Rotates(l: Log, now: int)
    requires l.files != []
  {
    l.count > 0 && (Due(l, now) || (l.open && ByteSize(l.Current().entries) >= l.limits.maxBytes))
  }

  /** A closed writer takes a row only by reopening, once its period is over. */
  predicate Accepts(l: Log, now: int)
    requires l.files != []
  {
    l.open || (l.count > 0 && Due(l, now))
  }

  function Rotated(l: Log, now: int): Log
    requires l.files != []
  {
    if Rotates(l, now) then Opened(ClosedLog(l), now) else l
  }

  function Appended(l: Log, e: Entry): Log
    requires l.files != [] && l.limits.Valid()
  {
    if !Accepts(l, e.now) then l
    else
      var w := Written(Rotated(l, e.now), e);
      if w.count % w.limits.fsyncEvery == 0 then Flushed(w) else w
  }

  // -------------------- each step keeps the files consistent --------------------

  lemma StartIsAtRest(session: string, limits: Limits, now: int)
    requires limits.Valid()
    ensures AtRest(StartLog(session, limits, now))
  {
    var l := StartLog(session, limits, now);
    assert l.files[..0] == [] && Concatenated([]) == [];
  }

  lemma OpenKeeps(l: Log, now: int)
    requires Consistent(l) && l.Current().path in l.sidecars && l.count > 0
    ensures AtRest(Opened(l, now))
  {
    var o := Opened(l, now);
    var n := |l.files|;
    assert o.files[..n] == l.files && o.files[n].path.sequence == n + 1;
    forall i | 0 <= i < n + 1 ensures FileOk(o.sidecars, o.limits, o.files[i], i == n) {
      if i < n {
        assert FileOk(l.sidecars, l.limits, l.files[i], i == n - 1);
      }
    }
  }

  lemma FlushKeeps(l: Log)
    requires Consistent(l)
    ensures Consistent(Flushed(l))
  {}

  ghost predicate SidecarsStay(l: Log, m: Log) {
    forall p :: p in l.sidecars ==> p in m.sidecars && m.sidecars[p] == l.sidecars[p]
  }

  lemma SidecarKeeps(l: Log)
    requires Consistent(l) && l.flushed == l.count
    ensures Consistent(WithSidecar(l)) && l.Current().path in WithSidecar(l).sidecars
    ensures SidecarsStay(l, WithSidecar(l))
  {
    var w := WithSidecar(l);
    var n := |l.files| - 1;
    assert FileOk(l.sidecars, l.limits, l.files[n], true);
    assert w.sidecars[l.Current().path] == CleanMeta(l.Current().entries);
    forall i | 0 <= i < n + 1 ensures FileOk(w.sidecars, w.limits, w.files[i], i == n) {
      assert FileOk(l.sidecars, l.limits, l.files[i], i == n);
      assert i < n ==> l.files[i].path.sequence != l.files[n].path.sequence;
    }
  }

  lemma CloseKeeps(l: Log)
    requires AtRest(l)
    ensures AtRest(ClosedLog(l)) && !ClosedLog(l).open && l.Current().path in ClosedLog(l).sidecars
    ensures SidecarsStay(l, ClosedLog(l))
  {
    if l.open {
      FlushKeeps(l);
      SidecarKeeps(Flushed(l));
    }
  }

  lemma LimitsExtend(limits: Limits, f: File, e: Entry)
    requires WithinLimits(limits, f)
    requires f.entries != [] ==> ByteSize(f.entries) < limits.maxBytes && e.now - f.openedAt < limits.rotationMs
    ensures WithinLimits(limits, f.(entries := f.entries + [e]))
  {
    var g := f.(entries := f.entries + [e]);
    forall k | 1 <= k < |g.entries| ensures Fits(limits, g, k) {
      assert g.entries[..k] == f.entries[..k];
      if k == |f.entries| {
        assert f.entries[..k] == f.entries;
      } else {
        assert Fits(limits, f, k);
      }
    }
  }

  lemma WriteKeepsRows(l: Log, e: Entry)
    requires Consistent(l)
    ensures Concatenated(Written(l, e).files) == l.appended + [e]
  {
    var w, n := Written(l, e), |l.files| - 1;
    assert w.files[..n] == l.files[..n];
    var before := Concatenated(l.files[..n]);
    assert before + (l.Current().entries + [e]) == before + l.Current().entries + [e];
  }

  ghost predicate HasRoom(l: Log, now: int)
    requires l.files != []
  {
    l.count > 0 ==> ByteSize(l.Current().entries) < l.limits.maxBytes && !Due(l, now)
  }

  lemma WriteKeepsFiles(l: Log, e: Entry)
    requires l.files != [] && AllFilesOk(l) && l.Current().path !in l.sidecars
    requires l.Current().entries != [] ==> ByteSize(l.Current().entries) < l.limits.maxBytes && !Due(l, e.now)
    ensures AllFilesOk(Written(l, e))
  {
    var w, n, f := Written(l, e), |l.files| - 1, l.Current();
    assert FileOk(l.sidecars, l.limits, l.files[n], true);
    LimitsExtend(l.limits, f, e);
    assert w.files[n] == f.(entries := f.entries + [e]);
    forall i | 0 <= i < n + 1 ensures FileOk(w.sidecars, w.limits, w.files[i], i == n) {
      if i < n {
        assert FileOk(l.sidecars, l.limits, l.files[i], i == n);
        assert w.files[i] == l.files[i];
      }
    }
  }

  lemma WriteKeepsNames(l: Log, e: Entry)
    requires Named(l) && Counted(l) && l.Current().path !in l.sidecars
    ensures Named(Written(l, e)) && Counted(Written(l, e))
    ensures Written(l, e).Current().path == l.Current().path
  {
    var w, n := Written(l, e), |l.files| - 1;
    assert w.files[n].entries == l.files[n].entries + [e];
    assert forall i :: 0 <= i < n + 1 ==> w.files[i].path == l.files[i].path;
  }

  lemma WriteKeeps(l: Log, e: Entry)
    requires AtRest(l) && l.open && HasRoom(l, e.now)
    ensures AtRest(Written(l, e))
  {
    WriteKeepsRows(l, e);
    WriteKeepsFiles(l, e);
    WriteKeepsNames(l, e);
    assert |Written(l, e).files| == |l.files|;
  }

  lemma RotationMakesRoom(l: Log, now: int)
    requires AtRest(l) && Accepts(l, now)
    ensures var r := Rotated(l, now);
      AtRest(r) && r.open && HasRoom(r, now) && r.appended == l.appended && SidecarsStay(l, r)
  {
    if Rotates(l, now) {
      CloseKeeps(l);
      OpenKeeps(ClosedLog(l), now);
    }
  }

  /** Appending keeps everything at rest; an accepted row is appended, a refused
      one changes nothing; no sidecar is ever rewritten. */
  lemma AppendKeeps(l: Log, e: Entry)
    requires AtRest(l)
    ensures var a := Appended(l, e);
      && AtRest(a) && SidecarsStay(l, a)
      && (if Accepts(l, e.now) then a.open && a.appended == l.appended + [e] else a == l)
  {
    if Accepts(l, e.now) {
      RotationMakesRoom(l, e.now);
      var r := Rotated(l, e.now);
      WriteKeeps(r, e);
      var w := Written(r, e);
      assert w.open && w.sidecars == r.sidecars && w.appended == l.appended + [e];
      FlushKeeps(w);
      assert AtRest(Flushed(w));
      assert Appended(l, e) == w || Appended(l, e) == Flushed(w);
    }
  }

  // -------------------- a crash between any two steps --------------------

  /** What survives of file i: a prefix of the current file, no shorter than what
      was durable; all of the others. */
  function Surviving(l: Log, kept: nat, i: nat): seq<Entry>
    requires i < |l.files| && kept <= |l.Current().entries|
  {
    if i == |l.files| - 1 then l.files[i].entries[..kept] else l.files[i].entries
  }

  /** What a crash may leave behind the last whole row: nothing, or a piece of the next
      row, which may end inside a character. */
  predicate TailOk(tail: seq<Line>) { tail in {[], [Torn], [Garbled]} }

  /** The lines of file i after the crash; only the current file can have a tail. */
  function CrashLines(l: Log, kept: nat, tail: seq<Line>, i: nat): seq<Line>
    requires i < |l.files| && kept <= |l.Current().entries|
  {
    LinesOf(Surviving(l, kept, i)) + if i == |l.files| - 1 then tail else []
  }

  ghost predicate CrashDisk(l: Log, kept: nat, tail: seq<Line>, disk: Files) {
    && l.files != [] && l.flushed <= kept <= |l.Current().entries|
    && TailOk(tail) && (tail != [] ==> kept < |l.Current().entries|)
    && (forall i :: 0 <= i < |l.files| ==>
         l.files[i].path in disk && disk[l.files[i].path] == CrashLines(l, kept, tail, i))
  }

  /** The sidecar tells of these rows what a clean close would, and of the lines on disk
      their digest and whether one is torn. */
  ghost predicate Tells(m: Meta, rows: seq<Entry>, lines: seq<Line>) {
    && m.count == |rows| && m.first == FirstStamp(rows) && m.last == LastStamp(rows)
    && m.digest == lines && (m.Integrity() <==> Torn !in lines)
  }

  lemma TailTells(rows: seq<Entry>, tail: seq<Line>, lines: seq<Line>)
    requires forall k :: 0 <= k < |rows| ==> Stamped(rows[k].row)
    requires tail in {[], [Torn]} && lines == LinesOf(rows) + tail
    ensures Readable(lines) && Tells(Recovered(lines), rows, lines)
    ensures tail == [] ==> Recovered(lines).Describes(CleanMeta(rows))
  {
    RecoveryEqualsCleanClose(rows);
    ScanAccountsForEveryLine(lines);
    if tail == [] {
      assert lines == LinesOf(rows);
    } else {
      assert lines == LinesOf(rows) + [Torn] + [] && LinesOf(rows) + [] == LinesOf(rows);
      JunkLinesDoNotCount(LinesOf(rows), Torn, []);
    }
  }

  /** Only the current file can be unreadable, and then it has no sidecar. */
  ghost predicate CutInCharacter(l: Log, tail: seq<Line>, i: nat) {
    tail == [Garbled] && i == |l.files| - 1
  }

  /** A file with a sidecar loses nothing. */
  lemma ClosedSurvives(l: Log, kept: nat, tail: seq<Line>, disk: Files, i: nat)
    requires Consistent(l) && CrashDisk(l, kept, tail, disk) && i < |l.files| && l.files[i].path in l.sidecars
    ensures var path, rows := l.files[i].path, Surviving(l, kept, i);
      && !CutInCharacter(l, tail, i) && disk[path] == LinesOf(rows)
      && Tells(l.sidecars[path], rows, disk[path]) && l.sidecars[path].Describes(CleanMeta(rows))
  {
    var path, rows := l.files[i].path, Surviving(l, kept, i);
    assert FileOk(l.sidecars, l.limits, l.files[i], i == |l.files| - 1);
    assert rows == l.files[i].entries;
    assert disk[path] == LinesOf(rows);
  }

  /** What a sweep makes of file i: the count, first and last of a clean close of its
      surviving rows with the digest of its lines, a torn tail flagged, all clean data where
      there is no tail; a sidecar already there stays; a file cut inside a character blocks
      the sweep. */
  ghost predicate SweptClean(
      l: Log, kept: nat, tail: seq<Line>, disk: Files, mtime: map<Path, int>, now: int, i: nat)
    requires i < |l.files| && kept <= |l.Current().entries| && l.files[i].path in disk
  {
    var after := Finalize(disk, l.sidecars, mtime, now, 0);
    var path, rows := l.files[i].path, Surviving(l, kept, i);
    if CutInCharacter(l, tail, i) then Blocks(disk, l.sidecars, mtime, now, 0, path)
    else
      && path in after && Tells(after[path], rows, disk[path])
      && (tail == [] ==> after[path].Describes(CleanMeta(rows)))
      && (path in l.sidecars ==> after[path] == l.sidecars[path])
  }

  lemma CutBlocks(l: Log, kept: nat, tail: seq<Line>, disk: Files, mtime: map<Path, int>, now: int, i: nat)
    requires Consistent(l) && CrashDisk(l, kept, tail, disk) && i < |l.files|
    requires l.files[i].path !in l.sidecars && CutInCharacter(l, tail, i)
    ensures Blocks(disk, l.sidecars, mtime, now, 0, l.files[i].path)
  {
    assert disk[l.files[i].path][|Surviving(l, kept, i)|] == Garbled;
  }

  lemma OpenIsSwept(l: Log, kept: nat, tail: seq<Line>, disk: Files, mtime: map<Path, int>, now: int, i: nat,
      after: Sidecars)
    requires Consistent(l) && CrashDisk(l, kept, tail, disk) && i < |l.files|
    requires l.files[i].path !in l.sidecars && !CutInCharacter(l, tail, i)
    requires forall k :: 0 <= k < |l.files[i].entries| ==> Stamped(l.files[i].entries[k].row)
    requires SweptAt(disk, l.sidecars, mtime, now, 0, after, l.files[i].path)
    ensures var path, rows := l.files[i].path, Surviving(l, kept, i);
      path in after && Tells(after[path], rows, disk[path])
      && (tail == [] ==> after[path].Describes(CleanMeta(rows)))
  {
    TailTells(Surviving(l, kept, i), if i == |l.files| - 1 then tail else [], disk[l.files[i].path]);
  }

  /** After a crash in a consistent state, whatever half-written row it left. */
  lemma CrashRecovery(
      l: Log, kept: nat, tail: seq<Line>, disk: Files, mtime: map<Path, int>, now: int, i: nat)
    requires Consistent(l) && CrashDisk(l, kept, tail, disk) && i < |l.files|
    requires forall k :: 0 <= k < |l.files[i].entries| ==> Stamped(l.files[i].entries[k].row)
    ensures SweptClean(l, kept, tail, disk, mtime, now, i)
  {
    var path := l.files[i].path;
    var after := Finalize(disk, l.sidecars, mtime, now, 0);
    FinalizeIsSwept(disk, l.sidecars, mtime, now, 0);
    assert SweptAt(disk, l.sidecars, mtime, now, 0, after, path);
    if path in l.sidecars {
      ClosedSurvives(l, kept, tail, disk, i);
    } else if CutInCharacter(l, tail, i) {
      CutBlocks(l, kept, tail, disk, mtime, now, i);
    } else {
      OpenIsSwept(l, kept, tail, disk, mtime, now, i, after);
    }
  }

  // -------------------- the writer object --------------------

  class RotatingNDJSON {
    const session: string
    const limits: Limits
    var files: seq<File>
    var sidecars: Sidecars
    var open: bool
    var count: nat
    var first: Option<int>
    var last: Option<int>
    var flushed: nat
    ghost var appended: seq<Entry>

    ghost function View(): Log
      reads this
    {
      Log(session, limits, files, sidecars, open, count, first, last, flushed, appended)
    }

    constructor (session: string, limits: Limits, now: int)
      requires limits.Valid()
      ensures View() == StartLog(session, limits, now) && AtRest(View())
    {
      this.session, this.limits := session, limits;
      files := [File(Path(now / 3600000, session, 1), now, [])];
      sidecars, open, count, first, last, flushed, appended := map[], true, 0, None, None, 0, [];
      new;
      StartIsAtRest(session, limits, now);
    }

    method Open(now: int)
      modifies this
      ensures View() == Opened(old(View()), now)
    {
      files := files + [File(Path(now / 3600000, session, |files| + 1), now, [])];
      open, count, first, last, flushed := true, 0, None, None, 0;
    }

    method Flush()
      modifies this
      ensures View() == Flushed(old(View()))
    {
      flushed := count;
    }

    /** Does nothing once closed. */
    method CloseCurrent()
      requires files != []
      modifies this
      ensures View() == ClosedLog(old(View()))
    {
      if !open {
        return;
      }
      Flush();
      var f := files[|files| - 1];
      sidecars := sidecars[f.path := Meta(count, first, last, LinesOf(f.entries), false, 0)];
      open := false;
    }

    method Write(e: Entry)
      requires files != []
      modifies this
      ensures View() == Written(old(View()), e)
    {
      var f := files[|files| - 1];
      files := files[..|files| - 1] + [f.(entries := f.entries + [e])];
      first := if first == None then Some(AppendStamp(e)) else first;
      last := Some(AppendStamp(e));
      count := count + 1;
      appended := appended + [e];
    }

    /** Close the current file and open the next one, if it is time. */
    method Rotate(now: int)
      requires files != [] && Accepts(View(), now)
      modifies this
      ensures View() == Rotated(old(View()), now)
    {
      var due := now - files[|files| - 1].openedAt >= limits.rotationMs;
      if count > 0 && (due || ByteSize(files[|files| - 1].entries) >= limits.maxBytes) {
        CloseCurrent();
        Open(now);
      }
    }

    method WriteAndFlush(e: Entry)
      requires files != [] && limits.Valid()
      modifies this
      ensures var w := Written(old(View()), e);
        View() == if w.count % w.limits.fsyncEvery == 0 then Flushed(w) else w
    {
      Write(e);
      if count % limits.fsyncEvery == 0 {
        Flush();
      }
    }

    /** False stands for the exception of writing to a closed file. */
    method Append(row: Row, now: int) returns (ok: bool)
      requires AtRest(View())
      modifies this
      ensures View() == Appended(old(View()), Entry(row, now)) && AtRest(View())
      ensures ok <==> Accepts(old(View()), now)
    {
      AppendKeeps(View(), Entry(row, now));
      ok := open || (count > 0 && now - files[|files| - 1].openedAt >= limits.rotationMs);
      if ok {
        Rotate(now);
        WriteAndFlush(Entry(row, now));
      }
    }

    method Close()
      requires AtRest(View())
      modifies this
      ensures View() == ClosedLog(old(View())) && AtRest(View()) && !open
    {
      CloseKeeps(View());
      CloseCurrent();
    }
  }
}
