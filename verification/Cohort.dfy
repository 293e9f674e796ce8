/** audit/prospective.py:28-40, 313-370: the append-only cohort manifest. */
module Cohort {
  import opened Options
  import opened Ordering

  const PRIMARY_COLLECTOR_VERSION := "phase2a_prospective_v4"

  /** A candidate row: the fields the manifest looks at, already as text where the
      source takes `str(...)`, and everything else. */
  datatype Row = Row(
    conditionId: string, predictionTs: string, cutoffMode: Option<string>,
    collectorVersion: Option<string>, marketStartMs: Option<int>, rest: string)

  datatype Item = Item(row: Row, cohortVersion: string, observationId: string)

  datatype CohortData = CohortData(createdAt: string, observations: seq<Item>, preserved: bool,
      modelEligible: Option<bool>)

  datatype Primary = Primary(version: string, startMs: int, startMarket: string, reason: string)

  datatype Payload = Payload(schemaVersion: int, primary: Option<Primary>, cohorts: map<string, CohortData>)

  datatype Counts = Counts(inserted: nat, duplicates: nat, excludedVersion: nat, excludedBeforeStart: nat, total: nat)

  /** The text observation_identity hashes; the hash itself is taken as injective. */
  function IdentityKey(condition: string, prediction: string, cutoff: string, version: string): string {
    condition + "|" + prediction + "|" + cutoff + "|" + version
  }

  function ObservationId(row: Row, version: string): string {
    var cutoff := if row.cutoffMode.Some? then row.cutoffMode.value else "cutoff_1";
    IdentityKey(row.conditionId, row.predictionTs, cutoff, version)
  }

  lemma CutAtBar(a: string, rest: string, b: string, other: string)
    requires '|' !in a && '|' !in b && a + "|" + rest == b + "|" + other
    ensures a == b && rest == other
  {
    var s, t := a + "|" + rest, b + "|" + other;
    assert s[|a|] == '|' && t[|b|] == '|';
    forall i | 0 <= i < |a| ensures s[i] != '|' {
      assert s[i] == a[i];
    }
    forall i | 0 <= i < |b| ensures t[i] != '|' {
      assert t[i] == b[i];
    }
    assert |a| == |b|;
    assert a == s[..|a|] && b == t[..|b|];
    assert rest == s[|a| + 1..] && other == t[|b| + 1..];
  }

  function Bars(s: string): nat { multiset(s)['|'] }

  /** The bars of a key: those of its fields and the three that join them. */
  lemma KeyBars(c: string, p: string, m: string, v: string)
    ensures Bars(IdentityKey(c, p, m, v)) == Bars(c) + Bars(p) + Bars(m) + Bars(v) + 3
  {
    assert multiset(IdentityKey(c, p, m, v))
      == multiset(c) + multiset("|") + multiset(p) + multiset("|") + multiset(m) + multiset("|") + multiset(v);
  }

  /** Keys whose fields hold no bar are equal only when all four parts are. */
  lemma IdentityIsInjective(c: string, p: string, m: string, v: string, c': string, p': string, m': string, v': string)
    requires '|' !in c && '|' !in p && '|' !in m && '|' !in c' && '|' !in p' && '|' !in m'
    ensures IdentityKey(c, p, m, v) == IdentityKey(c', p', m', v') <==> c == c' && p == p' && m == m' && v == v'
  {
    if IdentityKey(c, p, m, v) == IdentityKey(c', p', m', v') {
      assert IdentityKey(c, p, m, v) == c + "|" + (p + "|" + (m + "|" + v));
      assert IdentityKey(c', p', m', v') == c' + "|" + (p' + "|" + (m' + "|" + v'));
      CutAtBar(c, p + "|" + (m + "|" + v), c', p' + "|" + (m' + "|" + v'));
      CutAtBar(p, m + "|" + v, p', m' + "|" + v');
      CutAtBar(m, v, m', v');
    }
  }

  /** Fields with bars give a key with more bars than fields without. */
  lemma NoBarNoCollision(c: string, p: string, m: string, v: string, c': string, p': string, m': string)
    requires '|' !in c && '|' !in p && '|' !in m && IdentityKey(c', p', m', v) == IdentityKey(c, p, m, v)
    ensures c' == c && p' == p && m' == m
  {
    assert '|' !in c' && '|' !in p' && '|' !in m' by {
      KeyBars(c, p, m, v);
      KeyBars(c', p', m', v);
      assert Bars(c) == Bars(p) == Bars(m) == 0;
    }
    IdentityIsInjective(c, p, m, v, c', p', m', v);
  }

  lemma BarSplits(s: string) returns (a: string, b: string)
    requires '|' in s
    ensures s == a + "|" + b
  {
    var i :| 0 <= i < |s| && s[i] == '|';
    a, b := s[..i], s[i + 1..];
    assert s == s[..i] + [s[i]] + s[i + 1..];
  }

  /** A bar in any field gives a second reading: cut there and shift what follows. */
  lemma BarCollides(c: string, p: string, m: string, v: string) returns (c': string, p': string, m': string)
    requires '|' in c || '|' in p || '|' in m
    ensures (c', p', m') != (c, p, m) && IdentityKey(c', p', m', v) == IdentityKey(c, p, m, v)
  {
    if '|' in c {
      var a, b := BarSplits(c);
      c', p', m' := a, b, p + "|" + m;
      assert |c'| < |c|;
    } else if '|' in p {
      var a, b := BarSplits(p);
      c', p', m' := c + "|" + a, b, m;
      assert |c'| > |c|;
    } else {
      var a, b := BarSplits(m);
      c', p', m' := c, p + "|" + a, b;
      assert |p'| > |p|;
    }
  }

  /** No other condition, prediction time and cutoff have this key. */
  ghost predicate NamesOneObservation(c: string, p: string, m: string, v: string) {
    forall c', p', m' :: IdentityKey(c', p', m', v) == IdentityKey(c, p, m, v) ==> c' == c && p' == p && m' == m
  }

  /** Within one cohort version a key names one observation if and only if the
      condition, the prediction time and the cutoff mode hold no bar. */
  lemma IdentityIsInjectiveIff(c: string, p: string, m: string, v: string)
    ensures NamesOneObservation(c, p, m, v) <==> '|' !in c && '|' !in p && '|' !in m
  {
    if '|' !in c && '|' !in p && '|' !in m {
      forall c', p', m' | IdentityKey(c', p', m', v) == IdentityKey(c, p, m, v) ensures c' == c && p' == p && m' == m {
        NoBarNoCollision(c, p, m, v, c', p', m');
      }
    } else {
      var c', p', m' := BarCollides(c, p, m, v);
    }
  }

  /** One such pair. */
  lemma BarsCanCollide()
    ensures IdentityKey("a|b", "c", "m", "v") == IdentityKey("a", "b", "c|m", "v")
    ensures !NamesOneObservation("a|b", "c", "m", "v")
  {
    IdentityIsInjectiveIff("a|b", "c", "m", "v");
    assert "a|b"[1] == '|';
  }

  predicate NoBars(row: Row) {
    '|' !in row.conditionId && '|' !in row.predictionTs && (row.cutoffMode.Some? ==> '|' !in row.cutoffMode.value)
  }

  /** Rows without bars share an id in two cohorts exactly when they agree on the condition,
      the prediction time and the cutoff mode, a missing one being cutoff_1, and the cohorts
      are the same; the rest of the row does not matter. */
  lemma SameIdIff(a: Row, b: Row, v: string, w: string)
    requires NoBars(a) && NoBars(b)
    ensures ObservationId(a, v) == ObservationId(b, w) <==>
      && a.conditionId == b.conditionId && a.predictionTs == b.predictionTs && v == w
      && (a.cutoffMode == b.cutoffMode || {a.cutoffMode, b.cutoffMode} == {None, Some("cutoff_1")})
  {
    var m := if a.cutoffMode.Some? then a.cutoffMode.value else "cutoff_1";
    var n := if b.cutoffMode.Some? then b.cutoffMode.value else "cutoff_1";
    assert '|' !in "cutoff_1";
    IdentityIsInjective(a.conditionId, a.predictionTs, m, v, b.conditionId, b.predictionTs, n, w);
    CutoffsAgree(a.cutoffMode, b.cutoffMode, m, n);
  }

  lemma CutoffsAgree(a: Option<string>, b: Option<string>, m: string, n: string)
    requires m == (if a.Some? then a.value else "cutoff_1") && n == (if b.Some? then b.value else "cutoff_1")
    ensures m == n <==> a == b || {a, b} == {None, Some("cutoff_1")}
  {
    assert None in {a, b} <==> a.None? || b.None?;
    assert Some("cutoff_1") in {a, b} <==> a == Some("cutoff_1") || b == Some("cutoff_1");
  }

  /** The text that is hashed, once spelled out. */
  lemma IdText(rest: string)
    ensures ObservationId(Row("c", "p", Some("m"), None, None, rest), "v") == "c|p|m|v"
  {}

  // -------------------- upsert on values --------------------

  predicate Gated(primary: Option<Primary>, version: string) {
    primary.Some? && primary.value.version == version
  }

  predicate WrongVersion(primary: Option<Primary>, version: string, row: Row) {
    Gated(primary, version) && row.collectorVersion != Some(PRIMARY_COLLECTOR_VERSION)
  }

  predicate TooEarly(primary: Option<Primary>, version: string, row: Row) {
    Gated(primary, version) && (if row.marketStartMs.Some? then row.marketStartMs.value else -1) < primary.value.startMs
  }

  /** What the frozen primary cohort may take in. */
  predicate Admissible(primary: Option<Primary>, version: string, row: Row) {
    !WrongVersion(primary, version, row) && !TooEarly(primary, version, row)
  }

  function Ids(items: seq<Item>): set<string> { set x | x in items :: x.observationId }

  /** The loop's variables. */
  datatype Upserting = Upserting(items: seq<Item>, inserted: nat, duplicates: nat, excludedVersion: nat,
      excludedBeforeStart: nat)

  function TakeRow(u: Upserting, primary: Option<Primary>, version: string, row: Row): Upserting {
    var id := ObservationId(row, version);
    if WrongVersion(primary, version, row) then u.(excludedVersion := u.excludedVersion + 1)
    else if TooEarly(primary, version, row) then u.(excludedBeforeStart := u.excludedBeforeStart + 1)
    else if id in Ids(u.items) then u.(duplicates := u.duplicates + 1)
    else u.(items := u.items + [Item(row, version, id)], inserted := u.inserted + 1)
  }

  function TakeRows(items: seq<Item>, primary: Option<Primary>, version: string, rows: seq<Row>): Upserting {
    if rows == [] then Upserting(items, 0, 0, 0, 0)
    else TakeRow(TakeRows(items, primary, version, rows[..|rows| - 1]), primary, version, rows[|rows| - 1])
  }

  function CohortIn(p: Payload, version: string, now: string): CohortData {
    if version in p.cohorts then p.cohorts[version] else CohortData(now, [], false, None)
  }

  function Observations(p: Payload, version: string): seq<Item> {
    if version in p.cohorts then p.cohorts[version].observations else []
  }

  function Upserted(p: Payload, rows: seq<Row>, version: string, now: string): Payload {
    var cohort := CohortIn(p, version, now);
    var items := TakeRows(cohort.observations, p.primary, version, rows).items;
    p.(cohorts := p.cohorts[version := cohort.(observations := items)])
  }

  function UpsertCounts(p: Payload, rows: seq<Row>, version: string): Counts {
    var u := TakeRows(Observations(p, version), p.primary, version, rows);
    Counts(u.inserted, u.duplicates, u.excludedVersion, u.excludedBeforeStart, |u.items|)
  }

  ghost predicate UniqueIds(items: seq<Item>) {
    forall i, j :: 0 <= i < j < |items| ==> items[i].observationId != items[j].observationId
  }

  function AdmissibleIds(primary: Option<Primary>, version: string, rows: seq<Row>): set<string> {
    set r | r in rows && Admissible(primary, version, r) :: ObservationId(r, version)
  }

  /** An item upsert may add: an admissible input row under its own id. */
  ghost predicate ComesFrom(x: Item, primary: Option<Primary>, version: string, rows: seq<Row>) {
    x.row in rows && Admissible(primary, version, x.row) && x == Item(x.row, version, ObservationId(x.row, version))
  }

  ghost predicate Accounted(u: Upserting, items: seq<Item>, rows: seq<Row>) {
    && u.inserted + u.duplicates + u.excludedVersion + u.excludedBeforeStart == |rows|
    && |u.items| == |items| + u.inserted && items <= u.items
  }

  ghost predicate NewItemsComeFrom(u: Upserting, from: nat, primary: Option<Primary>, version: string, rows: seq<Row>) {
    forall i :: from <= i < |u.items| ==> ComesFrom(u.items[i], primary, version, rows)
  }

  lemma AdmissibleIdsGrow(primary: Option<Primary>, version: string, rows: seq<Row>)
    requires rows != []
    ensures AdmissibleIds(primary, version, rows) == AdmissibleIds(primary, version, rows[..|rows| - 1])
      + (if Admissible(primary, version, rows[|rows| - 1]) then {ObservationId(rows[|rows| - 1], version)} else {})
  {
    var init, r := rows[..|rows| - 1], rows[|rows| - 1];
    assert rows == init + [r];
    forall x | x in AdmissibleIds(primary, version, init) ensures x in AdmissibleIds(primary, version, rows) {
      var q :| q in init && Admissible(primary, version, q) && ObservationId(q, version) == x;
      assert q in rows;
    }
    if Admissible(primary, version, r) {
      assert r in rows;
    }
  }

  lemma PushIds(items: seq<Item>, x: Item)
    ensures Ids(items + [x]) == Ids(items) + {x.observationId}
  {
    var all := items + [x];
    forall id | id in Ids(items) ensures id in Ids(all) {
      var y :| y in items && y.observationId == id;
      assert y in all;
    }
    assert x in all;
  }

  lemma PushUnique(items: seq<Item>, x: Item)
    requires UniqueIds(items) && x.observationId !in Ids(items)
    ensures UniqueIds(items + [x])
  {
    forall i | 0 <= i < |items| ensures items[i].observationId != x.observationId {
      assert items[i] in items;
    }
  }

  /** What one call does: only appends, only admissible rows under fresh ids, every row
      in exactly one counter; afterwards the ids are the old ones and all admissible ones. */
  lemma {:induction false} TakeRowsFacts(items: seq<Item>, primary: Option<Primary>, version: string, rows: seq<Row>)
    ensures var u := TakeRows(items, primary, version, rows);
      && Accounted(u, items, rows)
      && NewItemsComeFrom(u, |items|, primary, version, rows)
      && Ids(u.items) == Ids(items) + AdmissibleIds(primary, version, rows)
      && (UniqueIds(items) ==> UniqueIds(u.items))
  {
    if rows != [] {
      var init, r := rows[..|rows| - 1], rows[|rows| - 1];
      TakeRowsFacts(items, primary, version, init);
      var before := TakeRows(items, primary, version, init);
      TakeRowFacts(before, items, primary, version, rows, TakeRow(before, primary, version, r));
      AdmissibleIdsGrow(primary, version, rows);
    }
  }

  lemma TakeRowFacts(
    before: Upserting, items: seq<Item>, primary: Option<Primary>, version: string, rows: seq<Row>, after: Upserting)
    requires rows != [] && after == TakeRow(before, primary, version, rows[|rows| - 1])
    requires Accounted(before, items, rows[..|rows| - 1])
    requires NewItemsComeFrom(before, |items|, primary, version, rows[..|rows| - 1])
    ensures Accounted(after, items, rows)
    ensures NewItemsComeFrom(after, |items|, primary, version, rows)
    ensures Ids(after.items) == Ids(before.items)
      + (if Admissible(primary, version, rows[|rows| - 1]) then {ObservationId(rows[|rows| - 1], version)} else {})
    ensures UniqueIds(before.items) ==> UniqueIds(after.items)
  {
    var r := rows[|rows| - 1];
    var x := Item(r, version, ObservationId(r, version));
    assert r in rows;
    PushIds(before.items, x);
    if UniqueIds(before.items) && x.observationId !in Ids(before.items) {
      PushUnique(before.items, x);
    }
    forall i | |items| <= i < |before.items| ensures ComesFrom(before.items[i], primary, version, rows) {
      assert ComesFrom(before.items[i], primary, version, rows[..|rows| - 1]);
    }
  }

  function HasWrongVersion(primary: Option<Primary>, version: string): Row -> bool {
    (r: Row) => WrongVersion(primary, version, r)
  }

  function ComesTooEarly(primary: Option<Primary>, version: string): Row -> bool {
    (r: Row) => !WrongVersion(primary, version, r) && TooEarly(primary, version, r)
  }

  /** The counters: rows of another collector version, then rows of too early a market,
      are excluded, each under its own counter; the rest is inserted or a duplicate. */
  lemma {:induction false} CountersOfTakeRows(
      items: seq<Item>, primary: Option<Primary>, version: string, rows: seq<Row>)
    ensures var u := TakeRows(items, primary, version, rows);
      && u.excludedVersion == |Filter(rows, HasWrongVersion(primary, version))|
      && u.excludedBeforeStart == |Filter(rows, ComesTooEarly(primary, version))|
  {
    if rows != [] {
      var init, r := rows[..|rows| - 1], rows[|rows| - 1];
      CountersOfTakeRows(items, primary, version, init);
      assert rows == init + [r] && [r][1..] == [];
      FilterConcat(init, [r], HasWrongVersion(primary, version));
      FilterConcat(init, [r], ComesTooEarly(primary, version));
    }
  }

  /** What is admissible: any row outside the frozen cohort, and in it the rows of the frozen
      collector version whose market starts no earlier than the frozen start. */
  lemma AdmissibleIff(primary: Option<Primary>, version: string, row: Row)
    ensures Admissible(primary, version, row) <==> (
      primary.Some? && version == primary.value.version ==>
        && row.collectorVersion == Some(PRIMARY_COLLECTOR_VERSION)
        && (if row.marketStartMs.Some? then row.marketStartMs.value >= primary.value.startMs
            else primary.value.startMs <= -1))
  {}

  /** With every admissible id already there, a call adds nothing. */
  lemma {:induction false} NothingNew(items: seq<Item>, primary: Option<Primary>, version: string, rows: seq<Row>)
    requires AdmissibleIds(primary, version, rows) <= Ids(items)
    ensures var u := TakeRows(items, primary, version, rows); u.items == items && u.inserted == 0
  {
    if rows != [] {
      AdmissibleIdsGrow(primary, version, rows);
      NothingNew(items, primary, version, rows[..|rows| - 1]);
    }
  }

  /** Idempotent: a second call with the same rows changes nothing and inserts nothing. */
  lemma UpsertTwice(p: Payload, rows: seq<Row>, version: string, now: string, later: string)
    ensures var once := Upserted(p, rows, version, now);
      && Upserted(once, rows, version, later) == once
      && UpsertCounts(once, rows, version).inserted == 0
  {
    var once := Upserted(p, rows, version, now);
    TakeRowsFacts(CohortIn(p, version, now).observations, p.primary, version, rows);
    NothingNew(once.cohorts[version].observations, p.primary, version, rows);
    assert once.cohorts[version := once.cohorts[version]] == once.cohorts;
  }

  /** The first upsert of a version creates its cohort, unmarked and with its date; later ones
      change nothing of it but the observations; other cohorts stay as they are. */
  lemma UpsertCreatesOnce(p: Payload, rows: seq<Row>, version: string, now: string, other: string)
    ensures var after := Upserted(p, rows, version, now);
      && version in after.cohorts && after.primary == p.primary && after.schemaVersion == p.schemaVersion
      && (version !in p.cohorts ==>
        var c := after.cohorts[version]; c.createdAt == now && !c.preserved && c.modelEligible == None)
      && (version in p.cohorts ==>
        after.cohorts[version].(observations := p.cohorts[version].observations) == p.cohorts[version])
      && (other != version ==> (other in after.cohorts <==> other in p.cohorts))
      && (other != version && other in p.cohorts ==> after.cohorts[other] == p.cohorts[other])
  {}

  // -------------------- whole runs --------------------

  /** FreezePrimary with these values, or an upsert. */
  datatype Call = Freeze(primary: Primary) | Upsert(rows: seq<Row>, version: string, now: string)

  function FrozenCohorts(cohorts: map<string, CohortData>, version: string): map<string, CohortData> {
    map v | v in cohorts :: cohorts[v].(preserved := true, modelEligible := Some(v == version))
  }

  function Frozen(p: Payload, primary: Primary): Payload {
    var schema := if p.schemaVersion < 2 then 2 else p.schemaVersion;
    Payload(schema, Some(primary), FrozenCohorts(p.cohorts, primary.version))
  }

  /** A call that raises leaves the payload alone. */
  function Do(p: Payload, call: Call): Payload {
    match call
    case Freeze(primary) => if p.primary.Some? && p.primary.value != primary then p else Frozen(p, primary)
    case Upsert(rows, version, now) => Upserted(p, rows, version, now)
  }

  function DoAll(p: Payload, calls: seq<Call>): Payload {
    if calls == [] then p else Do(DoAll(p, calls[..|calls| - 1]), calls[|calls| - 1])
  }

  /** What stays true of a cohort grown from `start` under a frozen primary. */
  ghost predicate GrownFrom(start: Payload, p: Payload, version: string) {
    var first, now := Observations(start, version), Observations(p, version);
    && p.primary == start.primary
    && first <= now
    && (UniqueIds(first) ==> UniqueIds(now))
    && forall i :: |first| <= i < |now| ==>
         Admissible(start.primary, version, now[i].row) && now[i].cohortVersion == version
  }

  lemma UpsertGrows(start: Payload, p: Payload, rows: seq<Row>, target: string, now: string, version: string)
    requires GrownFrom(start, p, version)
    ensures GrownFrom(start, Upserted(p, rows, target, now), version)
  {
    var items := Observations(p, version);
    if target == version {
      TakeRowsFacts(items, p.primary, version, rows);
      var u := TakeRows(items, p.primary, version, rows);
      forall i | |Observations(start, version)| <= i < |u.items|
        ensures Admissible(start.primary, version, u.items[i].row) && u.items[i].cohortVersion == version
      {
        if i < |items| {
          assert u.items[i] == items[i];
        } else {
          assert ComesFrom(u.items[i], p.primary, version, rows);
        }
      }
    }
  }

  /** Once a primary is frozen, any run of calls only appends to every cohort, keeps ids
      unique, adds to the primary cohort only rows of the frozen collector version and
      start, and never changes the primary. */
  lemma {:induction false} RunsOnlyAppend(start: Payload, calls: seq<Call>, version: string)
    requires start.primary.Some?
    ensures GrownFrom(start, DoAll(start, calls), version)
  {
    if calls != [] {
      RunsOnlyAppend(start, calls[..|calls| - 1], version);
      var p := DoAll(start, calls[..|calls| - 1]);
      match calls[|calls| - 1]
      case Freeze(primary) => {}
      case Upsert(rows, target, now) => UpsertGrows(start, p, rows, target, now, version);
    }
  }

  /** Before or after a freeze, from an empty manifest or not: ids stay unique. */
  lemma {:induction false} RunsKeepIdsUnique(start: Payload, calls: seq<Call>, version: string)
    requires UniqueIds(Observations(start, version))
    ensures UniqueIds(Observations(DoAll(start, calls), version))
  {
    if calls != [] {
      RunsKeepIdsUnique(start, calls[..|calls| - 1], version);
      var p := DoAll(start, calls[..|calls| - 1]);
      match calls[|calls| - 1]
      case Freeze(primary) => {}
      case Upsert(rows, target, now) => TakeRowsFacts(Observations(p, target), p.primary, target, rows);
    }
  }

  /** A cohort as the freeze marks it: kept for good, and a model cohort only if primary. */
  ghost predicate Marked(p: Payload, primary: Primary, version: string)
    requires version in p.cohorts
  {
    p.cohorts[version].preserved && p.cohorts[version].modelEligible == Some(version == primary.version)
  }

  /** A freeze marks every cohort there is and touches no observation; no later call takes
      a mark away or changes it. */
  lemma {:induction false} MarksStay(start: Payload, primary: Primary, calls: seq<Call>, version: string)
    requires start.primary.None? || start.primary == Some(primary)
    requires version in start.cohorts
    ensures var p := DoAll(Do(start, Freeze(primary)), calls);
      version in p.cohorts && Marked(p, primary, version) && p.primary == Some(primary)
    ensures Observations(Do(start, Freeze(primary)), version) == Observations(start, version)
    ensures var schema := Do(start, Freeze(primary)).schemaVersion;
      schema >= 2 && schema >= start.schemaVersion && (schema == 2 || schema == start.schemaVersion)
  {
    if calls != [] {
      MarksStay(start, primary, calls[..|calls| - 1], version);
    }
  }

  // -------------------- the class --------------------

  class CohortManifest {
    var payload: Payload
    var file: Option<Payload>

    constructor (onDisk: Option<Payload>)
      ensures file == onDisk
      ensures payload == if onDisk.Some? then onDisk.value else Payload(2, None, map[])
    {
      file := onDisk;
      payload := if onDisk.Some? then onDisk.value else Payload(2, None, map[]);
    }

    /** Raises exactly when something else is already frozen, and then writes nothing. */
    method FreezePrimary(primary: Primary) returns (ok: bool)
      modifies this
      ensures ok <==> (old(payload.primary) == None || old(payload.primary) == Some(primary))
      ensures payload == Do(old(payload), Freeze(primary))
      ensures file == if ok then Some(payload) else old(file)
    {
      if payload.primary.Some? && payload.primary.value != primary {
        return false;
      }
      payload := Frozen(payload, primary);
      file := Some(payload);
      return true;
    }

    method Upsert(rows: seq<Row>, version: string, now: string) returns (counts: Counts)
      modifies this
      ensures payload == Do(old(payload), Call.Upsert(rows, version, now)) && file == Some(payload)
      ensures counts == UpsertCounts(old(payload), rows, version)
    {
      var cohort := CohortIn(payload, version, now);
      var items := cohort.observations;
      var existing := Ids(items);
      var inserted, duplicates, excludedVersion, excludedBeforeStart := 0, 0, 0, 0;
      for i := 0 to |rows|
        invariant existing == Ids(items)
        invariant TakeRows(cohort.observations, payload.primary, version, rows[..i])
          == Upserting(items, inserted, duplicates, excludedVersion, excludedBeforeStart)
        invariant payload == old(payload)
      {
        assert rows[..i + 1][..i] == rows[..i];
        var row := rows[i];
        if WrongVersion(payload.primary, version, row) {
          excludedVersion := excludedVersion + 1;
          continue;
        }
        if TooEarly(payload.primary, version, row) {
          excludedBeforeStart := excludedBeforeStart + 1;
          continue;
        }
        var id := ObservationId(row, version);
        if id in existing {
          duplicates := duplicates + 1;
          continue;
        }
        PushIds(items, Item(row, version, id));
        items := items + [Item(row, version, id)];
        existing := existing + {id};
        inserted := inserted + 1;
      }
      assert rows[..|rows|] == rows;
      payload := payload.(cohorts := payload.cohorts[version := cohort.(observations := items)]);
      file := Some(payload);
      counts := Counts(inserted, duplicates, excludedVersion, excludedBeforeStart, |items|);
    }
  }
}
