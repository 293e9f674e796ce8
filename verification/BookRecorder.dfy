/** collectors/polymarket_book.py, lines 499-575: the recorder's hooks, which flag
    every derived row with the state of the book it was derived from. */
module BookRecorder {
  import opened Options
  import opened OrderBook
  import opened LiveAudit

  /** `_row_sane`. */
  predicate RowSane(r: Row) {
    && (r.bestBid.Some? ==> 0.0 <= r.bestBid.value <= 1.0)
    && (r.bestAsk.Some? ==> 0.0 <= r.bestAsk.value <= 1.0)
    && (r.bestBid.Some? && r.bestAsk.Some? ==> r.bestBid.value <= r.bestAsk.value)
  }

  function TickOf(r: Row, ts: int): Tick {
    Seen(r.isBook, r.token, ts, RowSane(r))
  }

  function Ticks(rows: seq<Row>, ts: int): seq<Tick> {
    seq(|rows|, i requires 0 <= i < |rows| => TickOf(rows[i], ts))
  }

  /** Tokens with a `book` row since the last connect; an empty id is no token. */
  function Snapshots(run: seq<Tick>): set<string> {
    set t | t in SinceConnect(run) && t.isBook && t.token.Some? && t.token.value != "" :: t.token.value
  }

  ghost predicate EveryTokenSnapshotted(run: seq<Tick>, tokens: set<string>) {
    forall token :: token in tokens ==> token != "" && SnapshotOf(run, token)
  }

  ghost predicate SnapshotOf(run: seq<Tick>, token: string) {
    exists i :: 0 <= i < |SinceConnect(run)| && SinceConnect(run)[i].isBook && SinceConnect(run)[i].token == Some(token)
  }

  /** When a row that is the last event of the run may be flagged valid. */
  ghost predicate UsableAt(run: seq<Tick>, tokens: set<string>) {
    EveryTokenSnapshotted(run, tokens) && EndsInGoodRun(SinceConnect(run))
  }

  lemma SnapshotsSuffice(run: seq<Tick>, tokens: set<string>)
    ensures tokens <= Snapshots(run) <==> EveryTokenSnapshotted(run, tokens)
  {
    var s := SinceConnect(run);
    if tokens <= Snapshots(run) {
      forall token | token in tokens
        ensures token != "" && exists i :: 0 <= i < |s| && s[i].isBook && s[i].token == Some(token)
      {
        assert token in Snapshots(run);
        var t :| t in s && t.isBook && t.token == Some(token);
      }
    }
    if EveryTokenSnapshotted(run, tokens) {
      forall token | token in tokens ensures token in Snapshots(run) {
        var i :| 0 <= i < |s| && s[i].isBook && s[i].token == Some(token);
        assert s[i] in s;
      }
    }
  }

  lemma SnapshotsGrow(run: seq<Tick>, t: Tick)
    requires t.Seen?
    ensures Snapshots(run + [t])
      == Snapshots(run) + (if t.isBook && t.token.Some? && t.token.value != "" then {t.token.value} else {})
  {
    assert (run + [t])[..|run|] == run;
    assert SinceConnect(run + [t]) == SinceConnect(run) + [t];
  }

  datatype FlaggedRow = FlaggedRow(row: Row, status: Validity, valid: bool)

  lemma FrameFrom(books: Books, events: seq<Event>, i: nat)
    requires i < |events|
    ensures var first := HandleEvent(books, events[i]);
      HandleFrame(books, events[i..])
        == (HandleFrame(first.0, events[i + 1..]).0, first.1 + HandleFrame(first.0, events[i + 1..]).1)
  {
    assert events[i..][1..] == events[i + 1..];
  }

  /** Rows so far and the rest of the frame, before and after its next event. */
  lemma FrameStep(all: (Books, seq<Row>), rows: seq<Row>, books: Books, events: seq<Event>, i: nat)
    requires i < |events| && all.0 == HandleFrame(books, events[i..]).0
    requires all.1 == rows + HandleFrame(books, events[i..]).1
    ensures var first := HandleEvent(books, events[i]);
      && all.0 == HandleFrame(first.0, events[i + 1..]).0
      && all.1 == rows + first.1 + HandleFrame(first.0, events[i + 1..]).1
  {
    FrameFrom(books, events, i);
  }

  ghost predicate FlaggedAs(f: FlaggedRow, row: Row, run: seq<Tick>, tokens: set<string>) {
    && f.row == row && (f.valid <==> UsableAt(run, tokens)) && (f.status == Valid <==> f.valid)
    && f.status == if EveryTokenSnapshotted(run, tokens) then ValidityOf(run) else Uninitialized
  }

  ghost predicate AllFlagged(rows: seq<FlaggedRow>, derived: seq<Row>, run: seq<Tick>, n: nat, tokens: set<string>)
    requires |rows| <= |derived| && n + |rows| <= |run|
  {
    forall k :: 0 <= k < |rows| ==> FlaggedAs(rows[k], derived[k], run[..n + k + 1], tokens)
  }

  lemma OneMoreFlagged(rows: seq<FlaggedRow>, f: FlaggedRow, derived: seq<Row>, run: seq<Tick>, n: nat,
      tokens: set<string>)
    requires |rows| < |derived| && n + |rows| < |run| && AllFlagged(rows, derived, run, n, tokens)
    requires FlaggedAs(f, derived[|rows|], run[..n + |rows| + 1], tokens)
    ensures AllFlagged(rows + [f], derived, run, n, tokens)
  {}

  class BookState {
    var books: Books

    constructor (tokens: set<string>)
      ensures books == map t | t in tokens :: EMPTY_BOOK
    {
      books := map t | t in tokens :: EMPTY_BOOK;
    }

    /** BookState.apply. */
    method Apply(e: Event) returns (row: Row)
      requires !e.Batch?
      modifies this
      ensures books == OrderBook.Apply(old(books), e) && row == RowFor(books, e)
    {
      var token := TokenOf(e);
      if token.Some? && token.value in books {
        var book := books[token.value];
        match e {
          case Book(_, _, buy, bids, sell, asks) =>
            book := book.(bids := FromLevels(Or(buy, bids)));
            book := book.(asks := FromLevels(Or(sell, asks)));
          case PriceChange(_, _, changes) =>
            for i := 0 to |changes|
              invariant ApplyChanges(book, changes[i..]) == ApplyChanges(books[token.value], changes)
            {
              assert changes[i..][1..] == changes[i + 1..];
              book := ApplyChange(book, changes[i]);
            }
          case LastTrade(_, _, price, size, side) =>
            book := ApplyTrade(book, price, size, side);
          case Other(_, _) =>
        }
        books := books[token.value := book];
      }
      row := RowFor(books, e);
    }

    /** The expansion of one batched `price_changes` event. */
    method HandleBatch(e: Event) returns (rows: seq<Row>)
      requires e.Batch?
      modifies this
      ensures (books, rows) == HandleChanges(old(books), e, e.priceChanges)
    {
      rows := [];
      ghost var all := HandleChanges(books, e, e.priceChanges);
      for j := 0 to |e.priceChanges|
        invariant all.0 == HandleChanges(books, e, e.priceChanges[j..]).0
        invariant all.1 == rows + HandleChanges(books, e, e.priceChanges[j..]).1
      {
        assert e.priceChanges[j..][1..] == e.priceChanges[j + 1..];
        ghost var rest := HandleChanges(books, e, e.priceChanges[j..]).1;
        var row := Apply(Expand(e, e.priceChanges[j]));
        assert rest == [row] + HandleChanges(books, e, e.priceChanges[j + 1..]).1;
        rows := rows + [row];
      }
      assert e.priceChanges[|e.priceChanges|..] == [];
      assert rows + [] == rows;
    }

    method HandleOne(e: Event) returns (rows: seq<Row>)
      modifies this
      ensures (books, rows) == HandleEvent(old(books), e)
    {
      if e.Batch? {
        rows := HandleBatch(e);
      } else {
        var row := Apply(e);
        rows := [row];
      }
    }

    /** handle_raw_text. */
    method HandleRawText(events: seq<Event>) returns (rows: seq<Row>)
      modifies this
      ensures (books, rows) == HandleFrame(old(books), events)
    {
      rows := [];
      ghost var all := HandleFrame(books, events);
      for i := 0 to |events|
        invariant all.0 == HandleFrame(books, events[i..]).0
        invariant all.1 == rows + HandleFrame(books, events[i..]).1
      {
        FrameStep(all, rows, books, events, i);
        var made := HandleOne(events[i]);
        rows := rows + made;
      }
      assert events[|events|..] == [];
      assert rows + [] == rows;
    }
  }

  class BookRecorder {
    const tokens: set<string>
    var state: BookState
    const validity: BookValidity
    var snapshotTokens: set<string>

    ghost predicate Ready()
      reads this, validity
    {
      && validity.Consistent()
      && snapshotTokens == Snapshots(validity.run)
    }

    constructor (tokens: set<string>)
      ensures Ready() && fresh(validity) && fresh(state) && validity.run == [] && this.tokens == tokens
    {
      this.tokens := tokens;
      state := new BookState(tokens);
      validity := new BookValidity();
      snapshotTokens := {};
    }

    /** Every (re)connect starts from empty books and no snapshot. */
    method OnConnect()
      requires Ready()
      modifies this, validity
      ensures Ready() && validity.run == old(validity.run) + [Connect]
      ensures fresh(state) && state.books == (map t | t in tokens :: EMPTY_BOOK)
    {
      state := new BookState(tokens);
      validity.OnConnect();
      snapshotTokens := {};
      assert SinceConnect(validity.run) == [];
    }

    /** The body of the row loop of `_on_text`. */
    method FlagRow(row: Row, receiveTs: int) returns (flagged: FlaggedRow)
      requires Ready()
      modifies this`snapshotTokens, validity
      ensures Ready() && validity.run == old(validity.run) + [TickOf(row, receiveTs)]
      ensures FlaggedAs(flagged, row, validity.run, tokens)
    {
      SnapshotsGrow(validity.run, TickOf(row, receiveTs));
      if row.isBook && row.token.Some? && row.token.value != "" {
        snapshotTokens := snapshotTokens + {row.token.value};
      }
      var valid := validity.Apply(row.isBook, receiveTs, RowSane(row), row.token);
      var snapshotReady := tokens <= snapshotTokens;
      SnapshotsSuffice(validity.run, tokens);
      flagged := FlaggedRow(row, if snapshotReady then validity.state else Uninitialized, valid && snapshotReady);
    }

    method FlagRows(derived: seq<Row>, receiveTs: int) returns (rows: seq<FlaggedRow>)
      requires Ready()
      modifies this`snapshotTokens, validity
      ensures Ready() && |rows| == |derived|
      ensures validity.run == old(validity.run) + Ticks(derived, receiveTs)
      ensures AllFlagged(rows, derived, validity.run, |old(validity.run)|, tokens)
    {
      rows := [];
      ghost var n, all := |validity.run|, validity.run + Ticks(derived, receiveTs);
      for i := 0 to |derived|
        invariant Ready() && |rows| == i
        invariant validity.run == all[..n + i]
        invariant AllFlagged(rows, derived, all, n, tokens)
      {
        assert all[..n + i + 1] == all[..n + i] + [TickOf(derived[i], receiveTs)];
        var flagged := FlagRow(derived[i], receiveTs);
        OneMoreFlagged(rows, flagged, derived, all, n, tokens);
        rows := rows + [flagged];
      }
      assert all[..n + |derived|] == all;
    }

    /** One text frame. Each row is flagged valid exactly when, since the last
        connect, every subscribed token has had a `book` and the events up to this
        row end in a good run. */
    method OnText(events: seq<Event>, receiveTs: int) returns (rows: seq<FlaggedRow>)
      requires Ready()
      modifies this`snapshotTokens, state, validity
      ensures Ready()
      ensures |rows| == |HandleFrame(old(state.books), events).1|
      ensures state.books == HandleFrame(old(state.books), events).0
      ensures validity.run == old(validity.run) + Ticks(HandleFrame(old(state.books), events).1, receiveTs)
      ensures AllFlagged(rows, HandleFrame(old(state.books), events).1, validity.run, |old(validity.run)|, tokens)
    {
      var derived := state.HandleRawText(events);
      rows := FlagRows(derived, receiveTs);
    }
  }
}
