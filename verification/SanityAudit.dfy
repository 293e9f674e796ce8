/** The two sanity audits: audit/prospective.py:261-279 and its refinement
    audit/sanity_audit_v2.py:59-115. */
module SanityAudit {
  import opened Options
  import opened Ordering

  const PRICE_FIELDS := ["opp_best_bid", "opp_best_ask", "opp_mid"]
  const BTC_FIELDS := ["btc_start_price", "btc_last_price", "btc_cutoff_price"]
  const OBI_CHANGE_FIELDS := ["pm_obi_change_1s", "pm_obi_change_5s"]
  const MAX_DETAILS := 100

  datatype Problem = InvalidNumericValue | NonfiniteValue

  /** A float: finite, or one of the special values. */
  datatype Reading = Finite(x: real) | NaN | Infinite(up: bool)

  /** A field's value: null, a number, a text with what parsing makes of it, a bool, or
      something that is none of these. */
  datatype Value = Null | Numeric(r: Reading) | Text(parsed: Option<Reading>) | Truth(b: bool) | Other

  /** `float(value)`; None where it raises. */
  function Read(v: Value): Option<Reading> {
    match v
    case Numeric(r) => Some(r)
    case Text(parsed) => parsed
    case Truth(b) => Some(Finite(if b then 1.0 else 0.0))
    case _ => None
  }

  /** `_finite_number`: a bool is not a number, and neither is a special value. */
  function FiniteNumber(v: Value): Option<real> {
    match v
    case Numeric(r) => if r.Finite? then Some(r.x) else None
    case Text(parsed) => if parsed.Some? && parsed.value.Finite? then Some(parsed.value.x) else None
    case _ => None
  }

  function ProblemOf(v: Value): Problem {
    if (v.Numeric? && !v.r.Finite?) || (v.Text? && v.parsed.Some? && !v.parsed.value.Finite?)
    then NonfiniteValue
    else InvalidNumericValue
  }

  datatype Field = Field(name: string, value: Value)

  /** A row in dictionary order, `condition_id` apart. */
  datatype Row = Row(conditionId: string, fields: seq<Field>)

  ghost predicate DistinctNames(fields: seq<Field>) {
    forall i, j :: 0 <= i < j < |fields| ==> fields[i].name != fields[j].name
  }

  /** `row.get(name)`. */
  function Lookup(fields: seq<Field>, name: string): Value {
    if fields == [] then Null
    else if fields[0].name == name then fields[0].value
    else Lookup(fields[1..], name)
  }

  /** `sub in name`. */
  predicate Contains(name: string, sub: string) {
    exists i :: 0 <= i <= |name| - |sub| && At(name, sub, i)
  }

  predicate At(name: string, sub: string, i: int)
    requires 0 <= i <= |name| - |sub|
  {
    name[i..i + |sub|] == sub
  }

  /** `low <= r <= high`, false for the special values. */
  predicate Within(r: Reading, low: real, high: real) { r.Finite? && low <= r.x <= high }

  /** `r < 0`. */
  predicate Below0(r: Reading) {
    match r
    case Finite(x) => x < 0.0
    case NaN => false
    case Infinite(up) => !up
  }

  /** `a > b`. */
  predicate Greater(a: Reading, b: Reading) {
    !a.NaN? && !b.NaN? && a != b && (
      if a.Infinite? then a.up else if b.Infinite? then !b.up else a.x > b.x)
  }

  predicate PriceBad(r: Reading) { !Within(r, 0.0, 1.0) }
  predicate BtcBad(r: Reading) { Below0(r) || r == Finite(0.0) }
  predicate Outside(r: Reading, bound: real) { !Within(r, -bound, bound) }

  // -------------------- version 1 --------------------

  datatype Violation = Violation(conditionId: string, field: string, values: seq<Value>)

  /** Present, convertible, and bad. */
  predicate Offends(v: Value, bad: Reading -> bool) {
    Read(v).Some? && bad(Read(v).value)
  }

  /** A loop over some field names, checking `row.get(name)`. */
  function Named(row: Row, names: seq<string>, bad: Reading -> bool): seq<Violation> {
    if names == [] then []
    else
      var last := names[|names| - 1];
      var value := Lookup(row.fields, last);
      Named(row, names[..|names| - 1], bad)
        + (if Offends(value, bad) then [Violation(row.conditionId, last, [value])] else [])
  }

  predicate ItemBad(f: Field) {
    || (Contains(f.name, "depth") && Offends(f.value, Below0))
    || (Contains(f.name, "obi") && Offends(f.value, (r: Reading) => Outside(r, 1.0)))
  }

  /** The loop over `row.items()`. */
  function Items(row: Row, n: nat): seq<Violation>
    requires n <= |row.fields|
  {
    if n == 0 then []
    else
      var f := row.fields[n - 1];
      Items(row, n - 1) + (if ItemBad(f) then [Violation(row.conditionId, f.name, [f.value])] else [])
  }

  predicate CrossedV1(row: Row) {
    var bid, ask := Read(Lookup(row.fields, "opp_best_bid")), Read(Lookup(row.fields, "opp_best_ask"));
    bid.Some? && ask.Some? && Greater(bid.value, ask.value)
  }

  function CrossedViolation(row: Row): Violation {
    Violation(row.conditionId, "crossed_book", [Lookup(row.fields, "opp_best_bid"), Lookup(row.fields, "opp_best_ask")])
  }

  /** What version 1 reports of one row, in order. */
  function RowV1(row: Row): seq<Violation> {
    Named(row, PRICE_FIELDS, PriceBad)
      + (if CrossedV1(row) then [CrossedViolation(row)] else [])
      + Items(row, |row.fields|)
      + Named(row, BTC_FIELDS, BtcBad)
  }

  function AllV1(rows: seq<Row>): seq<Violation> {
    if rows == [] then [] else AllV1(rows[..|rows| - 1]) + RowV1(rows[|rows| - 1])
  }

  /** `float` raises on this value. */
  predicate Unreadable(v: Value) { !v.Null? && Read(v) == None }

  ghost predicate NamedReadable(row: Row, names: seq<string>) {
    forall i :: 0 <= i < |names| ==> !Unreadable(Lookup(row.fields, names[i]))
  }

  predicate ItemReadable(f: Field) {
    Contains(f.name, "depth") || Contains(f.name, "obi") ==> !Unreadable(f.value)
  }

  /** Version 1 gets through the row: every value it converts can be converted. */
  ghost predicate Readable(row: Row) {
    && NamedReadable(row, PRICE_FIELDS) && NamedReadable(row, BTC_FIELDS)
    && forall i :: 0 <= i < |row.fields| ==> ItemReadable(row.fields[i])
  }

  datatype Report<V> = Report(pass: bool, violationCount: nat, violations: seq<V>)

  function Kept<V>(all: seq<V>): seq<V> {
    if |all| <= MAX_DETAILS then all else all[..MAX_DETAILS]
  }

  method CheckNamed(row: Row, names: seq<string>, bad: Reading -> bool) returns (ok: bool, found: seq<Violation>)
    ensures ok <==> NamedReadable(row, names)
    ensures ok ==> found == Named(row, names, bad)
  {
    found := [];
    for i := 0 to |names|
      invariant found == Named(row, names[..i], bad)
      invariant forall j :: 0 <= j < i ==> !Unreadable(Lookup(row.fields, names[j]))
    {
      assert names[..i + 1][..i] == names[..i];
      var value := Lookup(row.fields, names[i]);
      if Unreadable(value) {
        return false, found;
      }
      if Offends(value, bad) {
        found := found + [Violation(row.conditionId, names[i], [value])];
      }
    }
    assert names[..|names|] == names;
    ok := true;
  }

  method CheckItems(row: Row) returns (ok: bool, found: seq<Violation>)
    ensures ok <==> forall i :: 0 <= i < |row.fields| ==> ItemReadable(row.fields[i])
    ensures ok ==> found == Items(row, |row.fields|)
  {
    found := [];
    for i := 0 to |row.fields|
      invariant found == Items(row, i) && forall j :: 0 <= j < i ==> ItemReadable(row.fields[j])
    {
      if !ItemReadable(row.fields[i]) {
        return false, found;
      }
      if ItemBad(row.fields[i]) {
        found := found + [Violation(row.conditionId, row.fields[i].name, [row.fields[i].value])];
      }
    }
    ok := true;
  }

  method CheckRow(row: Row) returns (ok: bool, found: seq<Violation>)
    ensures ok <==> Readable(row)
    ensures ok ==> found == RowV1(row)
  {
    var prices, items, btc;
    ok, prices := CheckNamed(row, PRICE_FIELDS, PriceBad);
    if !ok {
      return false, [];
    }
    var crossed := if CrossedV1(row) then [CrossedViolation(row)] else [];
    ok, items := CheckItems(row);
    if !ok {
      return false, [];
    }
    ok, btc := CheckNamed(row, BTC_FIELDS, BtcBad);
    found := prices + crossed + items + btc;
  }

  /** sanity_audit; None where converting a value raises. */
  method AuditV1(rows: seq<Row>) returns (report: Option<Report<Violation>>)
    ensures report == None <==> exists i :: 0 <= i < |rows| && !Readable(rows[i])
    ensures report.Some? ==> report.value == Report(AllV1(rows) == [], |AllV1(rows)|, Kept(AllV1(rows)))
  {
    var failures: seq<Violation> := [];
    for i := 0 to |rows|
      invariant failures == AllV1(rows[..i]) && forall j :: 0 <= j < i ==> Readable(rows[j])
    {
      assert rows[..i + 1][..i] == rows[..i];
      var ok, found := CheckRow(rows[i]);
      if !ok {
        return None;
      }
      failures := failures + found;
    }
    assert rows[..|rows|] == rows;
    report := Some(Report(failures == [], |failures|, Kept(failures)));
  }

  // -------------------- version 2 --------------------

  datatype Reason = NotUsable(problem: Problem) | OutOfRange | CrossedBook

  datatype Finding = Finding(rowIndex: nat, conditionId: string, field: string, values: seq<Value>, reason: Reason)

  predicate Governed(f: Field) {
    f.name in PRICE_FIELDS || f.name in BTC_FIELDS || Contains(f.name, "obi") || Contains(f.name, "depth")
  }

  function Bound(name: string): real { if name in OBI_CHANGE_FIELDS then 2.0 else 1.0 }

  predicate BadV2(f: Field) {
    FiniteNumber(f.value).Some? && (
      var r := Finite(FiniteNumber(f.value).value);
      || (f.name in PRICE_FIELDS && PriceBad(r))
      || (f.name in BTC_FIELDS && BtcBad(r))
      || (Contains(f.name, "depth") && Below0(r))
      || (Contains(f.name, "obi") && Outside(r, Bound(f.name))))
  }

  predicate NameLe(a: Field, b: Field) { StringLe(a.name, b.name) }

  function GovernedFields(row: Row): seq<Field> {
    SortBy(Filter(row.fields, Governed), NameLe)
  }

  function FieldFinding(index: nat, row: Row, f: Field): seq<Finding> {
    if f.value.Null? then []
    else if FiniteNumber(f.value) == None then
      [Finding(index, row.conditionId, f.name, [f.value], NotUsable(ProblemOf(f.value)))]
    else if BadV2(f) then [Finding(index, row.conditionId, f.name, [f.value], OutOfRange)]
    else []
  }

  function FieldFindings(index: nat, row: Row, fields: seq<Field>): seq<Finding> {
    if fields == [] then []
    else FieldFindings(index, row, fields[..|fields| - 1]) + FieldFinding(index, row, fields[|fields| - 1])
  }

  /** The `numbers` dictionary after some fields. */
  function NumbersOf(fields: seq<Field>): map<string, real> {
    if fields == [] then map[]
    else
      var f, numbers := fields[|fields| - 1], NumbersOf(fields[..|fields| - 1]);
      if FiniteNumber(f.value).Some? then numbers[f.name := FiniteNumber(f.value).value] else numbers
  }

  predicate Crossed(numbers: map<string, real>) {
    && "opp_best_bid" in numbers && "opp_best_ask" in numbers
    && numbers["opp_best_bid"] > numbers["opp_best_ask"]
  }

  function CrossedFinding(index: nat, row: Row): Finding {
    Finding(index, row.conditionId, "crossed_book",
            [Lookup(row.fields, "opp_best_bid"), Lookup(row.fields, "opp_best_ask")], CrossedBook)
  }

  /** What version 2 finds in one row, in order. */
  function RowV2(index: nat, row: Row): seq<Finding> {
    FieldFindings(index, row, GovernedFields(row))
      + (if Crossed(NumbersOf(GovernedFields(row))) then [CrossedFinding(index, row)] else [])
  }

  function AllV2(rows: seq<Row>): seq<Finding> {
    if rows == [] then [] else AllV2(rows[..|rows| - 1]) + RowV2(|rows| - 1, rows[|rows| - 1])
  }

  predicate Present(f: Field) { !f.value.Null? }

  function Checked(rows: seq<Row>): nat {
    if rows == [] then 0
    else Checked(rows[..|rows| - 1]) + |Filter(GovernedFields(rows[|rows| - 1]), Present)|
  }

  datatype ReportV2 = ReportV2(rowCount: nat, checkedCount: nat, report: Report<Finding>, truncated: bool)

  /** The `add` helper's variables: the count, and the violations kept so far. */
  datatype Log = Log(count: nat, kept: seq<Finding>)

  function Add(log: Log, x: Finding): Log {
    Log(log.count + 1, if |log.kept| < MAX_DETAILS then log.kept + [x] else log.kept)
  }

  ghost predicate Records(log: Log, all: seq<Finding>) { log == Log(|all|, Kept(all)) }

  lemma AddRecords(log: Log, all: seq<Finding>, x: Finding)
    requires Records(log, all)
    ensures Records(Add(log, x), all + [x])
  {}

  lemma FilterPresent(fields: seq<Field>, f: Field)
    ensures |Filter(fields + [f], Present)| == |Filter(fields, Present)| + if Present(f) then 1 else 0
  {
    FilterConcat(fields, [f], Present);
    assert [f][1..] == [];
  }

  method Report1(log: Log, ghost all: seq<Finding>, x: Finding) returns (after: Log)
    requires Records(log, all)
    ensures Records(after, all + [x])
  {
    AddRecords(log, all, x);
    after := Add(log, x);
  }

  /** The body of the inner loop. */
  method AuditField(index: nat, row: Row, f: Field, log: Log, ghost all: seq<Finding>) returns (after: Log)
    requires Records(log, all)
    ensures Records(after, all + FieldFinding(index, row, f))
  {
    assert all + [] == all;
    if f.value.Null? {
      after := log;
    } else if FiniteNumber(f.value) == None {
      after := Report1(log, all, Finding(index, row.conditionId, f.name, [f.value], NotUsable(ProblemOf(f.value))));
    } else if BadV2(f) {
      after := Report1(log, all, Finding(index, row.conditionId, f.name, [f.value], OutOfRange));
    } else {
      after := log;
    }
  }

  lemma FindingsPush(index: nat, row: Row, fields: seq<Field>, f: Field, all: seq<Finding>)
    ensures all + FieldFindings(index, row, fields + [f])
      == all + FieldFindings(index, row, fields) + FieldFinding(index, row, f)
  {
    assert (fields + [f])[..|fields|] == fields;
  }

  lemma NumbersPush(fields: seq<Field>, f: Field)
    ensures NumbersOf(fields + [f])
      == if FiniteNumber(f.value).Some? then NumbersOf(fields)[f.name := FiniteNumber(f.value).value]
         else NumbersOf(fields)
  {
    assert (fields + [f])[..|fields|] == fields;
  }

  /** The inner loop, over the governed fields in name order. */
  method AuditFields(index: nat, row: Row, log: Log, ghost all: seq<Finding>)
    returns (after: Log, checked: nat, numbers: map<string, real>)
    requires Records(log, all)
    ensures Records(after, all + FieldFindings(index, row, GovernedFields(row)))
    ensures checked == |Filter(GovernedFields(row), Present)| && numbers == NumbersOf(GovernedFields(row))
  {
    var fields := GovernedFields(row);
    after, checked, numbers := log, 0, map[];
    assert all + [] == all;
    for i := 0 to |fields|
      invariant Records(after, all + FieldFindings(index, row, fields[..i]))
      invariant checked == |Filter(fields[..i], Present)| && numbers == NumbersOf(fields[..i])
    {
      var f := fields[i];
      assert fields[..i + 1] == fields[..i] + [f];
      FilterPresent(fields[..i], f);
      FindingsPush(index, row, fields[..i], f, all);
      NumbersPush(fields[..i], f);
      after := AuditField(index, row, f, after, all + FieldFindings(index, row, fields[..i]));
      if f.value.Null? {
        continue;
      }
      checked := checked + 1;
      if FiniteNumber(f.value).Some? {
        numbers := numbers[f.name := FiniteNumber(f.value).value];
      }
    }
    assert fields[..|fields|] == fields;
  }

  /** sanity_audit_v2: the counts cover every row; the first 100 violations are kept. */
  method AuditV2(rows: seq<Row>) returns (result: ReportV2)
    ensures result == ReportV2(
      |rows|, Checked(rows), Report(AllV2(rows) == [], |AllV2(rows)|, Kept(AllV2(rows))), |AllV2(rows)| > MAX_DETAILS)
  {
    var log, checked := Log(0, []), 0;
    for i := 0 to |rows|
      invariant Records(log, AllV2(rows[..i])) && checked == Checked(rows[..i])
    {
      assert rows[..i + 1][..i] == rows[..i];
      ghost var all, found := AllV2(rows[..i]), FieldFindings(i, rows[i], GovernedFields(rows[i]));
      var n, numbers;
      log, n, numbers := AuditFields(i, rows[i], log, all);
      checked := checked + n;
      if Crossed(numbers) {
        log := Report1(log, all + found, CrossedFinding(i, rows[i]));
        assert all + found + [CrossedFinding(i, rows[i])] == all + (found + [CrossedFinding(i, rows[i])]);
      } else {
        assert all + (found + []) == all + found;
      }
    }
    assert rows[..|rows|] == rows;
    result := ReportV2(|rows|, checked, Report(log.count == 0, log.count, log.kept), log.count > |log.kept|);
  }

  // -------------------- counting fields --------------------

  function Count(fields: seq<Field>, p: Field -> bool): nat {
    if fields == [] then 0 else Count(fields[1..], p) + (if p(fields[0]) then 1 else 0)
  }

  lemma {:induction false} CountConcat(a: seq<Field>, b: seq<Field>, p: Field -> bool)
    ensures Count(a + b, p) == Count(a, p) + Count(b, p)
  {
    if a == [] {
      assert a + b == b;
    } else {
      assert (a + b)[1..] == a[1..] + b;
      CountConcat(a[1..], b, p);
    }
  }

  lemma CountPush(fields: seq<Field>, f: Field, p: Field -> bool)
    ensures Count(fields + [f], p) == Count(fields, p) + if p(f) then 1 else 0
  {
    CountConcat(fields, [f], p);
    assert [f][1..] == [];
  }

  predicate SplitsAt(f: Field, p: Field -> bool, q: Field -> bool, r: Field -> bool) {
    (p(f) <==> q(f) || r(f)) && !(q(f) && r(f))
  }

  lemma {:induction false} CountSplit(fields: seq<Field>, p: Field -> bool, q: Field -> bool, r: Field -> bool)
    requires forall f :: f in fields ==> SplitsAt(f, p, q, r)
    ensures Count(fields, p) == Count(fields, q) + Count(fields, r)
  {
    if fields != [] {
      assert SplitsAt(fields[0], p, q, r);
      CountSplit(fields[1..], p, q, r);
    }
  }

  lemma {:induction false} CountFilter(fields: seq<Field>, p: Field -> bool, q: Field -> bool)
    requires forall f :: f in fields && q(f) ==> p(f)
    ensures Count(Filter(fields, p), q) == Count(fields, q)
  {
    if fields != [] {
      CountFilter(fields[1..], p, q);
      if p(fields[0]) {
        assert ([fields[0]] + Filter(fields[1..], p))[1..] == Filter(fields[1..], p);
      }
    }
  }

  lemma {:induction false} CountInsert(f: Field, fields: seq<Field>, p: Field -> bool)
    ensures Count(InsertBy(f, fields, NameLe), p) == Count(fields, p) + if p(f) then 1 else 0
  {
    if fields != [] {
      CountInsert(f, fields[1..], p);
      assert ([f] + fields)[1..] == fields;
    }
  }

  lemma {:induction false} CountSort(fields: seq<Field>, p: Field -> bool)
    ensures Count(SortBy(fields, NameLe), p) == Count(fields, p)
  {
    if fields != [] {
      CountSort(fields[1..], p);
      CountInsert(fields[0], SortBy(fields[1..], NameLe), p);
    }
  }

  // -------------------- lookups --------------------

  lemma {:induction false} LookupIff(fields: seq<Field>, name: string, v: Value)
    requires DistinctNames(fields) && !v.Null?
    ensures Lookup(fields, name) == v <==> Field(name, v) in fields
  {
    if fields != [] {
      LookupIff(fields[1..], name, v);
      assert fields == [fields[0]] + fields[1..];
      if Field(name, v) in fields[1..] {
        var i :| 0 <= i < |fields[1..]| && fields[1..][i] == Field(name, v);
        assert fields[i + 1].name == name;
      }
    }
  }

  predicate IsNamed(f: Field, names: seq<string>, bad: Reading -> bool) {
    f.name in names && Offends(f.value, bad)
  }

  function NamedIn(names: seq<string>, bad: Reading -> bool): Field -> bool {
    (f: Field) => IsNamed(f, names, bad)
  }

  lemma {:induction false} CountNone(fields: seq<Field>, name: string, bad: Reading -> bool)
    requires forall i :: 0 <= i < |fields| ==> fields[i].name != name
    ensures Count(fields, NamedIn([name], bad)) == 0 && Lookup(fields, name) == Null
  {
    if fields != [] {
      CountNone(fields[1..], name, bad);
    }
  }

  lemma {:induction false} CountOneName(fields: seq<Field>, name: string, bad: Reading -> bool)
    requires DistinctNames(fields)
    ensures Count(fields, NamedIn([name], bad))
      == if Offends(Lookup(fields, name), bad) then 1 else 0
  {
    if fields != [] {
      if fields[0].name == name {
        CountNone(fields[1..], name, bad);
      } else {
        CountOneName(fields[1..], name, bad);
      }
    }
  }

  ghost predicate Different(names: seq<string>) {
    forall i, j :: 0 <= i < j < |names| ==> names[i] != names[j]
  }

  /** Looking up a list of names one by one counts the offending fields. */
  lemma {:induction false} NamedCounts(row: Row, names: seq<string>, bad: Reading -> bool)
    requires DistinctNames(row.fields) && Different(names)
    ensures |Named(row, names, bad)| == Count(row.fields, NamedIn(names, bad))
  {
    if names == [] {
      NobodyIsNamed(row.fields, bad);
    } else {
      var init, last := names[..|names| - 1], names[|names| - 1];
      NamedCounts(row, init, bad);
      CountOneName(row.fields, last, bad);
      assert names == init + [last];
      CountSplit(row.fields, NamedIn(names, bad), NamedIn(init, bad), NamedIn([last], bad));
    }
  }

  lemma {:induction false} NobodyIsNamed(fields: seq<Field>, bad: Reading -> bool)
    ensures Count(fields, NamedIn([], bad)) == 0
  {
    if fields != [] {
      NobodyIsNamed(fields[1..], bad);
    }
  }

  lemma {:induction false} ItemsCount(row: Row, n: nat)
    requires n <= |row.fields|
    ensures |Items(row, n)| == Count(row.fields[..n], ItemBad)
  {
    if n > 0 {
      ItemsCount(row, n - 1);
      CountPush(row.fields[..n - 1], row.fields[n - 1], ItemBad);
      assert row.fields[..n] == row.fields[..n - 1] + [row.fields[n - 1]];
    }
  }

  lemma {:induction false} FindingsCount(index: nat, row: Row, fields: seq<Field>)
    requires forall i :: 0 <= i < |fields| ==> Proper(fields[i].value)
    ensures |FieldFindings(index, row, fields)| == Count(fields, BadV2)
  {
    if fields != [] {
      var init, f := fields[..|fields| - 1], fields[|fields| - 1];
      FindingsCount(index, row, init);
      CountPush(init, f, BadV2);
      assert fields == init + [f];
    }
  }

  lemma LastIsNew(fields: seq<Field>, f: Field)
    requires DistinctNames(fields + [f])
    ensures DistinctNames(fields)
    ensures forall g :: g in fields ==> g.name != f.name
  {
    var all := fields + [f];
    forall i | 0 <= i < |fields| ensures fields[i].name != f.name {
      assert all[i].name != all[|fields|].name;
    }
    forall i, j | 0 <= i < j < |fields| ensures fields[i].name != fields[j].name {
      assert all[i].name != all[j].name;
    }
  }

  lemma {:induction false} LookupPush(fields: seq<Field>, f: Field, name: string)
    requires DistinctNames(fields + [f])
    ensures Lookup(fields + [f], name) == if f.name == name then f.value else Lookup(fields, name)
  {
    LastIsNew(fields, f);
    if fields == [] {
      assert ([] + [f])[1..] == [];
    } else {
      assert (fields + [f])[1..] == fields[1..] + [f];
      assert fields[0] in fields;
      forall i, j | 0 <= i < j < |fields[1..] + [f]|
        ensures (fields[1..] + [f])[i].name != (fields[1..] + [f])[j].name
      {
        assert (fields + [f])[i + 1].name != (fields + [f])[j + 1].name;
      }
      LookupPush(fields[1..], f, name);
    }
  }

  /** `numbers.get(name)` against `row.get(name)`. */
  ghost predicate Agrees(numbers: map<string, real>, name: string, v: Value) {
    if FiniteNumber(v).Some? then name in numbers && numbers[name] == FiniteNumber(v).value else name !in numbers
  }

  lemma {:induction false} NumbersIs(fields: seq<Field>, name: string)
    requires DistinctNames(fields)
    ensures Agrees(NumbersOf(fields), name, Lookup(fields, name))
  {
    if fields != [] {
      var init, f := fields[..|fields| - 1], fields[|fields| - 1];
      assert fields == init + [f];
      LastIsNew(init, f);
      NumbersIs(init, name);
      LookupPush(init, f, name);
      NumbersPush(init, f);
      if f.name == name {
        NumbersNamed(init, name);
      }
    }
  }

  lemma {:induction false} NumbersNamed(fields: seq<Field>, name: string)
    requires forall g :: g in fields ==> g.name != name
    ensures name !in NumbersOf(fields)
  {
    if fields != [] {
      NumbersNamed(fields[..|fields| - 1], name);
    }
  }

  lemma {:induction false} FilterDistinct(fields: seq<Field>)
    requires DistinctNames(fields)
    ensures DistinctNames(Filter(fields, Governed))
  {
    if fields != [] {
      FilterDistinct(fields[1..]);
      FilterMembers(fields[1..], Governed);
      var rest := Filter(fields[1..], Governed);
      forall i | 0 <= i < |rest| ensures rest[i].name != fields[0].name {
        assert rest[i] in rest;
        var j :| 0 <= j < |fields[1..]| && fields[1..][j] == rest[i];
        assert fields[j + 1] == rest[i];
      }
    }
  }

  lemma {:induction false} InsertDistinct(f: Field, fields: seq<Field>)
    requires DistinctNames(fields) && forall i :: 0 <= i < |fields| ==> fields[i].name != f.name
    ensures DistinctNames(InsertBy(f, fields, NameLe))
  {
    if fields != [] && !NameLe(f, fields[0]) {
      var rest := InsertBy(f, fields[1..], NameLe);
      InsertDistinct(f, fields[1..]);
      InsertPermutes(f, fields[1..], NameLe);
      forall j | 0 <= j < |rest| ensures rest[j].name != fields[0].name {
        assert rest[j] in multiset(rest);
        assert rest[j] == f || rest[j] in fields[1..];
      }
    }
  }

  lemma {:induction false} SortDistinct(fields: seq<Field>)
    requires DistinctNames(fields)
    ensures DistinctNames(SortBy(fields, NameLe))
  {
    if fields != [] {
      var rest := SortBy(fields[1..], NameLe);
      SortDistinct(fields[1..]);
      SortMembers(fields[1..], NameLe);
      forall i | 0 <= i < |rest| ensures rest[i].name != fields[0].name {
        assert rest[i] in rest;
        var j :| 0 <= j < |fields[1..]| && fields[1..][j] == rest[i];
        assert fields[j + 1] == rest[i];
      }
      InsertDistinct(fields[0], rest);
    }
  }

  lemma GovernedFieldsFacts(row: Row)
    requires DistinctNames(row.fields)
    ensures DistinctNames(GovernedFields(row))
    ensures forall f :: f in GovernedFields(row) <==> f in row.fields && Governed(f)
  {
    var kept := Filter(row.fields, Governed);
    FilterDistinct(row.fields);
    FilterMembers(row.fields, Governed);
    SortDistinct(kept);
    SortMembers(kept, NameLe);
  }

  lemma LookupSame(a: seq<Field>, b: seq<Field>, name: string)
    requires DistinctNames(a) && DistinctNames(b)
    requires forall v :: Field(name, v) in a <==> Field(name, v) in b
    ensures Lookup(a, name) == Lookup(b, name)
  {
    if !Lookup(a, name).Null? {
      LookupIff(a, name, Lookup(a, name));
      LookupIff(b, name, Lookup(a, name));
    } else if !Lookup(b, name).Null? {
      LookupIff(a, name, Lookup(b, name));
      LookupIff(b, name, Lookup(b, name));
    }
  }

  /** Both audits see the same best bid and ask. */
  lemma SameQuote(row: Row, name: string)
    requires DistinctNames(row.fields) && name in PRICE_FIELDS
    ensures Agrees(NumbersOf(GovernedFields(row)), name, Lookup(row.fields, name))
  {
    GovernedFieldsFacts(row);
    forall v ensures Field(name, v) in GovernedFields(row) <==> Field(name, v) in row.fields {
      assert Governed(Field(name, v));
    }
    LookupSame(GovernedFields(row), row.fields, name);
    NumbersIs(GovernedFields(row), name);
  }

  /** Null, or a finite number to both audits. */
  predicate Proper(v: Value) { v.Null? || FiniteNumber(v).Some? }

  lemma ProperLookup(row: Row, name: string)
    requires Usable(row) && (name in PRICE_FIELDS || name in BTC_FIELDS)
    ensures Proper(Lookup(row.fields, name))
  {
    var v := Lookup(row.fields, name);
    if !v.Null? {
      LookupIff(row.fields, name, v);
      var i :| 0 <= i < |row.fields| && row.fields[i] == Field(name, v);
      assert Governed(row.fields[i]);
    }
  }

  /** Version 1 does not raise on a row with proper values. */
  lemma UsableIsReadable(row: Row)
    requires Usable(row)
    ensures Readable(row)
  {
    forall i | 0 <= i < |PRICE_FIELDS| ensures !Unreadable(Lookup(row.fields, PRICE_FIELDS[i])) {
      ProperLookup(row, PRICE_FIELDS[i]);
    }
    forall i | 0 <= i < |BTC_FIELDS| ensures !Unreadable(Lookup(row.fields, BTC_FIELDS[i])) {
      ProperLookup(row, BTC_FIELDS[i]);
    }
    forall i | 0 <= i < |row.fields| ensures ItemReadable(row.fields[i]) {
      assert Governed(row.fields[i]) ==> Proper(row.fields[i].value);
    }
  }

  lemma SameCrossing(row: Row)
    requires Usable(row)
    ensures CrossedV1(row) <==> Crossed(NumbersOf(GovernedFields(row)))
  {
    assert PRICE_FIELDS[0] == "opp_best_bid" && PRICE_FIELDS[1] == "opp_best_ask";
    SameQuote(row, "opp_best_bid");
    SameQuote(row, "opp_best_ask");
    ProperLookup(row, "opp_best_bid");
    ProperLookup(row, "opp_best_ask");
  }

  // -------------------- the field names --------------------

  lemma NoPair(name: string, sub: string)
    requires |sub| >= 2 && forall i :: 0 <= i < |name| - 1 ==> name[i] != sub[0] || name[i + 1] != sub[1]
    ensures !Contains(name, sub)
  {
    forall i | 0 <= i <= |name| - |sub| ensures !At(name, sub, i) {
      assert name[i..i + |sub|][0] == name[i] && name[i..i + |sub|][1] == name[i + 1];
    }
  }

  lemma PlainName(name: string)
    requires name in PRICE_FIELDS || name in BTC_FIELDS
    ensures !Contains(name, "obi") && !Contains(name, "depth")
  {
    NoPair(name, "obi");
    NoPair(name, "depth");
  }

  lemma ObiChangeName(name: string)
    requires name in OBI_CHANGE_FIELDS
    ensures Contains(name, "obi") && !Contains(name, "depth")
    ensures name !in PRICE_FIELDS && name !in BTC_FIELDS
  {
    assert name[3..6] == "obi";
    assert At(name, "obi", 3);
    NoPair(name, "depth");
  }

  // -------------------- refinement --------------------

  predicate PriceOrBtcBad(f: Field) {
    IsNamed(f, PRICE_FIELDS, PriceBad) || IsNamed(f, BTC_FIELDS, BtcBad)
  }

  /** What either part of version 1 reports about a field. */
  predicate BadV1(f: Field) { PriceOrBtcBad(f) || ItemBad(f) }

  /** The readings version 2 newly allows: one of the two change fields, beyond 1 but
      within 2 in size. */
  predicate Widened(f: Field) {
    f.name in OBI_CHANGE_FIELDS && FiniteNumber(f.value).Some? && (
      var r := Finite(FiniteNumber(f.value).value);
      Outside(r, 1.0) && !Outside(r, 2.0))
  }

  ghost predicate Usable(row: Row) {
    && DistinctNames(row.fields)
    && forall i :: 0 <= i < |row.fields| && Governed(row.fields[i]) ==> Proper(row.fields[i].value)
  }

  lemma VersionsDiffer(f: Field)
    requires Governed(f) ==> Proper(f.value)
    ensures SplitsAt(f, BadV1, BadV2, Widened)
    ensures SplitsAt(f, BadV1, PriceOrBtcBad, ItemBad)
    ensures SplitsAt(f, PriceOrBtcBad, NamedIn(PRICE_FIELDS, PriceBad), NamedIn(BTC_FIELDS, BtcBad))
  {
    if f.name in PRICE_FIELDS || f.name in BTC_FIELDS {
      PlainName(f.name);
    }
    if f.name in OBI_CHANGE_FIELDS {
      ObiChangeName(f.name);
    }
  }

  /** One row: version 1 reports exactly the widened readings more than version 2. */
  lemma RowsDiffer(index: nat, row: Row)
    requires Usable(row)
    ensures |RowV1(row)| == |RowV2(index, row)| + Count(row.fields, Widened)
  {
    RowV1Counts(row);
    RowV2Counts(index, row);
    SameCrossing(row);
    forall f | f in row.fields ensures SplitsAt(f, BadV1, BadV2, Widened) {
      VersionsDiffer(f);
    }
    CountSplit(row.fields, BadV1, BadV2, Widened);
  }

  lemma RowV1Counts(row: Row)
    requires Usable(row)
    ensures |RowV1(row)| == Count(row.fields, BadV1) + if CrossedV1(row) then 1 else 0
  {
    NamedCounts(row, PRICE_FIELDS, PriceBad);
    NamedCounts(row, BTC_FIELDS, BtcBad);
    ItemsCount(row, |row.fields|);
    assert row.fields[..|row.fields|] == row.fields;
    forall f | f in row.fields
      ensures SplitsAt(f, BadV1, PriceOrBtcBad, ItemBad)
      ensures SplitsAt(f, PriceOrBtcBad, NamedIn(PRICE_FIELDS, PriceBad), NamedIn(BTC_FIELDS, BtcBad))
    {
      VersionsDiffer(f);
    }
    CountSplit(row.fields, BadV1, PriceOrBtcBad, ItemBad);
    CountSplit(row.fields, PriceOrBtcBad, NamedIn(PRICE_FIELDS, PriceBad), NamedIn(BTC_FIELDS, BtcBad));
  }

  lemma RowV2Counts(index: nat, row: Row)
    requires Usable(row)
    ensures |RowV2(index, row)|
      == Count(row.fields, BadV2) + if Crossed(NumbersOf(GovernedFields(row))) then 1 else 0
  {
    GovernedFieldsFacts(row);
    var fields := GovernedFields(row);
    forall i | 0 <= i < |fields| ensures Proper(fields[i].value) {
      assert fields[i] in fields;
    }
    FindingsCount(index, row, fields);
    CountSort(Filter(row.fields, Governed), BadV2);
    CountFilter(row.fields, Governed, BadV2);
  }

  function CountWidened(rows: seq<Row>): nat {
    if rows == [] then 0 else CountWidened(rows[..|rows| - 1]) + Count(rows[|rows| - 1].fields, Widened)
  }

  ghost predicate AllUsable(rows: seq<Row>) {
    forall i :: 0 <= i < |rows| ==> Usable(rows[i])
  }

  lemma UsableParts(rows: seq<Row>)
    requires AllUsable(rows) && rows != []
    ensures AllUsable(rows[..|rows| - 1]) && Usable(rows[|rows| - 1])
  {}

  lemma SizeV1(rows: seq<Row>, found: seq<Violation>)
    requires rows != [] && found == RowV1(rows[|rows| - 1])
    ensures |AllV1(rows)| == |AllV1(rows[..|rows| - 1])| + |found|
  {
    assert AllV1(rows) == AllV1(rows[..|rows| - 1]) + found;
  }

  lemma SizeV2(rows: seq<Row>, found: seq<Finding>)
    requires rows != [] && found == RowV2(|rows| - 1, rows[|rows| - 1])
    ensures |AllV2(rows)| == |AllV2(rows[..|rows| - 1])| + |found|
  {
    assert AllV2(rows) == AllV2(rows[..|rows| - 1]) + found;
  }

  lemma {:induction false} SizesDiffer(rows: seq<Row>)
    requires AllUsable(rows)
    ensures |AllV1(rows)| == |AllV2(rows)| + CountWidened(rows)
  {
    if rows != [] {
      var init, last := rows[..|rows| - 1], rows[|rows| - 1];
      UsableParts(rows);
      SizesDiffer(init);
      RowsDiffer(|init|, last);
      SizeV1(rows, RowV1(last));
      SizeV2(rows, RowV2(|init|, last));
    }
  }

  /** Over any rows with usable values, version 1 counts exactly the widened readings
      more than version 2, and does not raise; so whatever passes version 1 passes
      version 2. */
  lemma V2RefinesV1(rows: seq<Row>)
    requires AllUsable(rows)
    ensures |AllV1(rows)| == |AllV2(rows)| + CountWidened(rows)
    ensures AllV1(rows) == [] ==> AllV2(rows) == []
    ensures forall i :: 0 <= i < |rows| ==> Readable(rows[i])
  {
    SizesDiffer(rows);
    forall i | 0 <= i < |rows| ensures Readable(rows[i]) {
      UsableIsReadable(rows[i]);
    }
  }

  // -------------------- what a pass means --------------------

  /** A governed value as the audit wants it: absent, or a finite number in its range. */
  ghost predicate FieldOk(f: Field) {
    f.value.Null? || (FiniteNumber(f.value).Some? && InRange(f.name, FiniteNumber(f.value).value))
  }

  ghost predicate InRange(name: string, x: real) {
    && (name in ["opp_best_bid", "opp_best_ask", "opp_mid"] ==> 0.0 <= x <= 1.0)
    && (name in ["btc_start_price", "btc_last_price", "btc_cutoff_price"] ==> x > 0.0)
    && (Contains(name, "depth") ==> x >= 0.0)
    && (Contains(name, "obi") ==>
      if name == "pm_obi_change_1s" || name == "pm_obi_change_5s" then -2.0 <= x <= 2.0 else -1.0 <= x <= 1.0)
  }

  ghost predicate Quotes(row: Row, name: string, x: real) {
    exists f :: f in row.fields && f.name == name && FiniteNumber(f.value) == Some(x)
  }

  /** Every governed value is in order and the best bid is not above the best ask. */
  ghost predicate RowOk(row: Row) {
    && (forall f :: f in row.fields && Governed(f) ==> FieldOk(f))
    && (forall bid, ask :: Quotes(row, "opp_best_bid", bid) && Quotes(row, "opp_best_ask", ask) ==> bid <= ask)
  }

  lemma FieldFindingIff(index: nat, row: Row, f: Field)
    requires Governed(f)
    ensures FieldFinding(index, row, f) == [] <==> FieldOk(f)
  {}

  lemma {:induction false} FieldFindingsIff(index: nat, row: Row, fields: seq<Field>)
    requires forall f :: f in fields ==> Governed(f)
    ensures FieldFindings(index, row, fields) == [] <==> forall f :: f in fields ==> FieldOk(f)
  {
    if fields != [] {
      var init, last := fields[..|fields| - 1], fields[|fields| - 1];
      FieldFindingsIff(index, row, init);
      FieldFindingIff(index, row, last);
      assert fields == init + [last];
    }
  }

  lemma QuotesIff(row: Row, name: string, x: real)
    requires DistinctNames(row.fields) && name in PRICE_FIELDS
    ensures Quotes(row, name, x) <==>
      name in NumbersOf(GovernedFields(row)) && NumbersOf(GovernedFields(row))[name] == x
  {
    SameQuote(row, name);
    var v := Lookup(row.fields, name);
    if f :| f in row.fields && f.name == name && FiniteNumber(f.value) == Some(x) {
      LookupIff(row.fields, name, f.value);
    }
    if FiniteNumber(v) == Some(x) {
      LookupIff(row.fields, name, v);
    }
  }

  lemma CrossedIff(row: Row)
    requires DistinctNames(row.fields)
    ensures Crossed(NumbersOf(GovernedFields(row))) <==>
      exists bid, ask :: Quotes(row, "opp_best_bid", bid) && Quotes(row, "opp_best_ask", ask) && bid > ask
  {
    var numbers := NumbersOf(GovernedFields(row));
    if Crossed(numbers) {
      QuotesIff(row, "opp_best_bid", numbers["opp_best_bid"]);
      QuotesIff(row, "opp_best_ask", numbers["opp_best_ask"]);
    }
    if bid, ask :| Quotes(row, "opp_best_bid", bid) && Quotes(row, "opp_best_ask", ask) && bid > ask {
      QuotesIff(row, "opp_best_bid", bid);
      QuotesIff(row, "opp_best_ask", ask);
    }
  }

  lemma RowV2PassIff(index: nat, row: Row)
    requires DistinctNames(row.fields)
    ensures RowV2(index, row) == [] <==> RowOk(row)
  {
    GovernedFieldsFacts(row);
    FieldFindingsIff(index, row, GovernedFields(row));
    CrossedIff(row);
  }

  /** Version 2 passes if and only if in every row each present governed value is a finite
      number in its range and the best bid is not above the best ask. */
  lemma {:induction false} PassMeansInRange(rows: seq<Row>)
    requires forall i :: 0 <= i < |rows| ==> DistinctNames(rows[i].fields)
    ensures AllV2(rows) == [] <==> forall i :: 0 <= i < |rows| ==> RowOk(rows[i])
  {
    if rows != [] {
      var init, n := rows[..|rows| - 1], |rows| - 1;
      PassMeansInRange(init);
      RowV2PassIff(n, rows[n]);
      assert forall i :: 0 <= i < n ==> init[i] == rows[i];
    }
  }

  /** A number that is not finite, or a text of one. */
  predicate Special(v: Value) {
    v in {Numeric(NaN), Numeric(Infinite(true)), Numeric(Infinite(false)),
      Text(Some(NaN)), Text(Some(Infinite(true))), Text(Some(Infinite(false)))}
  }

  /** What a finding of a field says: where it is, and whether the value is out of range, not
      finite, or no number at all. */
  lemma FindingSaysWhy(index: nat, row: Row, f: Field)
    requires FieldFinding(index, row, f) != []
    ensures var all := FieldFinding(index, row, f);
      && |all| == 1 && all[0].rowIndex == index && all[0].conditionId == row.conditionId
      && all[0].field == f.name && all[0].values == [f.value]
      && (all[0].reason == OutOfRange <==> FiniteNumber(f.value).Some?)
      && (all[0].reason == NotUsable(NonfiniteValue) <==> Special(f.value))
      && (all[0].reason == NotUsable(InvalidNumericValue) <==>
        FiniteNumber(f.value).None? && !Special(f.value))
  {}

  ghost predicate Names(x: Finding, index: nat, row: Row) {
    x.rowIndex == index && x.conditionId == row.conditionId
  }

  lemma {:induction false} FieldFindingsName(index: nat, row: Row, fields: seq<Field>, x: Finding)
    requires x in FieldFindings(index, row, fields)
    ensures Names(x, index, row)
  {
    if x !in FieldFinding(index, row, fields[|fields| - 1]) {
      FieldFindingsName(index, row, fields[..|fields| - 1], x);
    }
  }

  /** Every finding names the row it was made in. */
  lemma {:induction false} FindingsNameTheirRow(rows: seq<Row>, x: Finding)
    requires x in AllV2(rows)
    ensures x.rowIndex < |rows| && x.conditionId == rows[x.rowIndex].conditionId
    ensures x in RowV2(x.rowIndex, rows[x.rowIndex])
  {
    var n := |rows| - 1;
    if x in RowV2(n, rows[n]) {
      if x in FieldFindings(n, rows[n], GovernedFields(rows[n])) {
        FieldFindingsName(n, rows[n], GovernedFields(rows[n]), x);
      }
    } else {
      FindingsNameTheirRow(rows[..n], x);
    }
  }

  /** A bool where a price is wanted: version 1 reads it as 0 or 1, version 2 refuses it. */
  lemma BoolsAreNumbersToVersion1(b: bool)
    ensures var f := Field("btc_last_price", Truth(b));
      && (Offends(f.value, BtcBad) <==> !b) && !Unreadable(f.value)
      && FieldFinding(0, Row("c", [f]), f)
        == [Finding(0, "c", "btc_last_price", [Truth(b)], NotUsable(InvalidNumericValue))]
  {}
}
