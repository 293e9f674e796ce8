/** What the derived rows of collectors/polymarket_book.py show, row by row, over any
    stream of frames. */
module BookRows {
  import opened Options
  import opened OrderBook
  import opened LiveAudit
  import BookRecorder

  /** The events of a stream with every batch dealt out, one event per change. */
  function Dealt(events: seq<Event>): seq<Event> {
    if events == [] then []
    else
      var e := events[0];
      (if e.Batch? then DealtChanges(e.tokenId, e.priceChanges) else [e]) + Dealt(events[1..])
  }

  function DealtChanges(tokenId: Option<string>, changes: seq<Change>): seq<Event> {
    seq(|changes|, j requires 0 <= j < |changes| => PriceChange(changes[j].assetId, tokenId, [changes[j]]))
  }

  ghost predicate NoBatch(events: seq<Event>) {
    forall i :: 0 <= i < |events| ==> !events[i].Batch?
  }

  lemma {:induction false} DealtHasNoBatch(events: seq<Event>)
    ensures NoBatch(Dealt(events))
  {
    if events != [] {
      DealtHasNoBatch(events[1..]);
    }
  }

  /** Frames follow one another: a stream of frames is one long frame. */
  lemma {:induction false} FramesConcat(books: Books, a: seq<Event>, b: seq<Event>)
    ensures var first := HandleFrame(books, a);
      var second := HandleFrame(first.0, b);
      HandleFrame(books, a + b) == (second.0, first.1 + second.1)
    decreases a
  {
    if a == [] {
      assert a + b == b;
      assert [] + HandleFrame(books, b).1 == HandleFrame(books, b).1;
    } else {
      assert (a + b)[1..] == a[1..] + b;
      var event := HandleEvent(books, a[0]);
      FramesConcat(event.0, a[1..], b);
      var first := HandleFrame(event.0, a[1..]);
      var second := HandleFrame(first.0, b);
      assert event.1 + (first.1 + second.1) == (event.1 + first.1) + second.1;
    }
  }

  lemma {:induction false} DealtBatch(books: Books, e: Event, changes: seq<Change>)
    requires e.Batch?
    ensures HandleChanges(books, e, changes) == HandleFrame(books, DealtChanges(e.tokenId, changes))
    decreases changes
  {
    if changes != [] {
      var deal := DealtChanges(e.tokenId, changes);
      assert deal[1..] == DealtChanges(e.tokenId, changes[1..]);
      DealtBatch(Apply(books, deal[0]), e, changes[1..]);
    }
  }

  lemma SingleEvent(books: Books, e: Event)
    requires !e.Batch?
    ensures HandleFrame(books, [e]) == (Apply(books, e), [RowFor(Apply(books, e), e)])
  {
    var after := Apply(books, e);
    assert [e][1..] == [];
    assert HandleFrame(after, []) == (after, []);
    assert [RowFor(after, e)] + [] == [RowFor(after, e)];
  }

  /** Dealing the batches out changes neither books nor rows. */
  lemma {:induction false} DealtIsTheSame(books: Books, events: seq<Event>)
    ensures HandleFrame(books, events) == HandleFrame(books, Dealt(events))
    decreases events
  {
    if events != [] {
      var e := events[0];
      var deal := if e.Batch? then DealtChanges(e.tokenId, e.priceChanges) else [e];
      if e.Batch? {
        DealtBatch(books, e, e.priceChanges);
      } else {
        SingleEvent(books, e);
      }
      DealtIsTheSame(HandleEvent(books, e).0, events[1..]);
      FramesConcat(books, deal, Dealt(events[1..]));
    }
  }

  /** Row k of a stream without batches is made from the book after event k. */
  lemma {:induction false} RowAt(books: Books, deal: seq<Event>, k: nat)
    requires NoBatch(deal) && k < |deal|
    ensures |HandleFrame(books, deal).1| == |deal|
    ensures HandleFrame(books, deal).1[k] == RowFor(HandleFrame(books, deal[..k + 1]).0, deal[k])
  {
    var init, last := deal[..|deal| - 1], deal[|deal| - 1];
    assert deal == init + [last];
    FramesConcat(books, init, [last]);
    SingleEvent(HandleFrame(books, init).0, last);
    if k < |init| {
      RowAt(books, init, k);
      assert init[..k + 1] == deal[..k + 1];
    } else {
      assert deal[..k + 1] == deal;
      RowCount(books, init);
    }
  }

  lemma {:induction false} RowCount(books: Books, deal: seq<Event>)
    requires NoBatch(deal)
    ensures |HandleFrame(books, deal).1| == |deal|
    decreases deal
  {
    if deal != [] {
      RowCount(Apply(books, deal[0]), deal[1..]);
    }
  }

  // -------------------- what a row shows --------------------

  /** The highest (lowest) of the prices, none when there are none. */
  ghost predicate IsBest(best: Option<real>, prices: set<real>, highest: bool) {
    && (best.None? <==> prices == {})
    && (best.Some? ==> best.value in prices && forall p :: p in prices ==> !Better(p, best.value, highest))
  }

  /** At most three live levels with their sizes, best first, none skipped between. */
  ghost predicate TopLevels(list: seq<(real, real)>, live: Levels, highest: bool) {
    && |list| <= 3
    && (forall i :: 0 <= i < |list| ==> list[i].0 in live && live[list[i].0] == list[i].1)
    && (forall i, j :: 0 <= i < j < |list| ==> Better(list[i].0, list[j].0, highest))
    && (forall i, p :: 0 <= i < |list| && p in live && Better(p, list[i].0, highest) ==> Lists(list, p))
  }

  ghost predicate Lists(list: seq<(real, real)>, price: real) {
    exists i :: 0 <= i < |list| && list[i].0 == price
  }

  /** All live levels or the first three, unless the kept book holds a dead level. */
  ghost predicate FullDepth(list: seq<(real, real)>, live: Levels, kept: Levels) {
    |list| == 3 || |list| == |live| || exists p :: p in kept && kept[p] <= 0.0
  }

  // -------------------- the last trade --------------------

  predicate TradeOfToken(e: Event, token: string) {
    e.LastTrade? && TokenOf(e) == Some(token)
  }

  /** The side of the latest trade event. */
  function ShownSide(token: string, events: seq<Event>): Option<string> {
    if events == [] then None
    else
      var init, e := events[..|events| - 1], events[|events| - 1];
      if TradeOfToken(e, token) then e.side else ShownSide(token, init)
  }

  function ValueOf(f: Field): Option<real> {
    if f.Number? then Some(f.value) else None
  }

  /** The price of the latest trade event whose price could be read, or was absent. */
  function ShownPrice(token: string, events: seq<Event>): Option<real> {
    if events == [] then None
    else
      var init, e := events[..|events| - 1], events[|events| - 1];
      if TradeOfToken(e, token) && e.price != Malformed then ValueOf(e.price) else ShownPrice(token, init)
  }

  /** The size of the latest trade event of which that holds for the price and the size. */
  function ShownSize(token: string, events: seq<Event>): Option<real> {
    if events == [] then None
    else
      var init, e := events[..|events| - 1], events[|events| - 1];
      if TradeOfToken(e, token) && e.price != Malformed && e.size != Malformed then ValueOf(e.size)
      else ShownSize(token, init)
  }

  lemma ChangesKeepTrade(b: TokenBook, changes: seq<Change>)
    ensures var c := ApplyChanges(b, changes);
      c.lastPrice == b.lastPrice && c.lastSize == b.lastSize && c.lastSide == b.lastSide
    decreases changes
  {
    if changes != [] {
      ChangesKeepTrade(ApplyChange(b, changes[0]), changes[1..]);
    }
  }

  ghost predicate TradeShown(token: string, events: seq<Event>, b: TokenBook) {
    && b.lastPrice == ShownPrice(token, events) && b.lastSize == ShownSize(token, events)
    && b.lastSide == ShownSide(token, events)
  }

  lemma OneEventShowsTrade(books: Books, token: string, init: seq<Event>, e: Event, after: Books)
    requires !e.Batch? && token in books && TradeShown(token, init, books[token]) && after == Apply(books, e)
    ensures token in after && TradeShown(token, init + [e], after[token])
  {
    assert (init + [e])[..|init|] == init;
    if e.PriceChange? {
      ChangesKeepTrade(books[token], e.changes);
    }
  }

  lemma {:induction false} KeptShowsTrade(books: Books, token: string, events: seq<Event>)
    requires NoBatch(events) && token in books && books[token] == EMPTY_BOOK
    ensures var kept := HandleFrame(books, events).0; token in kept && TradeShown(token, events, kept[token])
  {
    if events != [] {
      var init, e := events[..|events| - 1], events[|events| - 1];
      KeptShowsTrade(books, token, init);
      var before := HandleFrame(books, init).0;
      OneEventShowsTrade(before, token, init, e, Apply(before, e));
      assert events == init + [e];
      FramesConcat(books, init, [e]);
      SingleEvent(before, e);
    }
  }

  /** The row made from event e, at the end of the events `upto`. */
  ghost predicate RowShows(row: Row, e: Event, books: Books, upto: seq<Event>) {
    && row.isBook == e.Book? && row.token == TokenOf(e)
    && (if row.token.Some? && row.token.value in books then
          var live := ReferenceFrame(Reference(map[], map[]), row.token.value, upto);
          var kept := HandleFrame(books, upto).0;
          && row.token.value in kept
          && IsBest(row.bestBid, live.bids.Keys, true) && IsBest(row.bestAsk, live.asks.Keys, false)
          && row.bids.Some? && TopLevels(row.bids.value, live.bids, true)
          && row.asks.Some? && TopLevels(row.asks.value, live.asks, false)
          && FullDepth(row.bids.value, live.bids, kept[row.token.value].bids)
          && FullDepth(row.asks.value, live.asks, kept[row.token.value].asks)
          && row.lastPrice == ShownPrice(row.token.value, upto) && row.lastSize == ShownSize(row.token.value, upto)
          && row.lastSide == ShownSide(row.token.value, upto)
        else
          && row.bestBid.None? && row.bestAsk.None? && row.bids.None? && row.asks.None?
          && row.lastPrice.None? && row.lastSize.None? && row.lastSide.None?)
  }

  lemma BestIsBest(levels: Levels, highest: bool)
    ensures IsBest(BestOf(LivePrices(levels), highest), Live(levels).Keys, highest)
  {
    assert Live(levels).Keys == LivePrices(levels);
  }

  ghost predicate ShownAt(list: seq<(real, real)>, prices: seq<real>, live: Levels, i: int)
    requires 0 <= i < |list|
  {
    list[i].0 in prices && list[i].0 in live && live[list[i].0] == list[i].1
  }

  lemma {:induction false} KeepLiveMembers(levels: Levels, prices: seq<real>)
    requires Stored(levels, prices)
    ensures var list := KeepLive(levels, prices);
      |list| <= |prices| && forall i :: 0 <= i < |list| ==> ShownAt(list, prices, Live(levels), i)
  {
    if prices != [] {
      var rest := prices[1..];
      var list, tail := KeepLive(levels, prices), KeepLive(levels, rest);
      KeepLiveMembers(levels, rest);
      forall i | 0 <= i < |list| ensures ShownAt(list, prices, Live(levels), i) {
        var k := i - (|list| - |tail|);
        if k >= 0 {
          assert list[i] == tail[k] && ShownAt(tail, rest, Live(levels), k);
        }
      }
    }
  }

  lemma {:induction false} KeepLiveOrder(levels: Levels, prices: seq<real>, highest: bool)
    requires Stored(levels, prices) && BestFirst(prices, highest)
    ensures var list := KeepLive(levels, prices);
      forall i, j :: 0 <= i < j < |list| ==> Better(list[i].0, list[j].0, highest)
  {
    if prices != [] {
      var rest := prices[1..];
      var tail := KeepLive(levels, rest);
      assert BestFirst(rest, highest);
      KeepLiveOrder(levels, rest, highest);
      KeepLiveMembers(levels, rest);
      forall i | 0 <= i < |tail| ensures Better(prices[0], tail[i].0, highest) {
        assert ShownAt(tail, rest, Live(levels), i);
        var k :| 0 <= k < |rest| && rest[k] == tail[i].0;
        assert prices[k + 1] == rest[k];
      }
    }
  }

  lemma {:induction false} KeepLiveLists(levels: Levels, prices: seq<real>, p: real)
    requires Stored(levels, prices) && p in prices && p in Live(levels)
    ensures Lists(KeepLive(levels, prices), p)
  {
    var list := KeepLive(levels, prices);
    if p == prices[0] {
      assert list[0].0 == p;
    } else {
      var tail := KeepLive(levels, prices[1..]);
      KeepLiveLists(levels, prices[1..], p);
      var i :| 0 <= i < |tail| && tail[i].0 == p;
      assert list[i + |list| - |tail|] == tail[i];
    }
  }

  lemma CutKeepsBetter(levels: Levels, r: seq<real>, cut: seq<real>, p: real, q: real, highest: bool)
    requires r == Ordered(levels.Keys, highest) && cut == Take(r, 3) && BestFirst(r, highest)
    requires p in levels && q in cut && Better(p, q, highest)
    ensures p in cut
  {
    assert p in r;
    var k :| 0 <= k < |r| && r[k] == p;
    var m :| 0 <= m < |cut| && cut[m] == q;
    assert cut[m] == r[m];
    assert m < k ==> Better(r[m], r[k], highest);
    assert cut[k] == p;
  }

  lemma SortedLevelsShow(levels: Levels, highest: bool)
    ensures TopLevels(SortedLevels(levels, 3, highest), Live(levels), highest)
  {
    var r := Ordered(levels.Keys, highest);
    var cut := Take(r, 3);
    OrderedIsSorted(levels.Keys, highest);
    OrderedIsStored(levels, highest);
    KeepLiveMembers(levels, cut);
    KeepLiveOrder(levels, cut, highest);
    var list := SortedLevels(levels, 3, highest);
    forall i | 0 <= i < |list| ensures list[i].0 in Live(levels) && Live(levels)[list[i].0] == list[i].1 {
      assert ShownAt(list, cut, Live(levels), i);
    }
    forall i, p | 0 <= i < |list| && p in Live(levels) && Better(p, list[i].0, highest) ensures Lists(list, p) {
      assert ShownAt(list, cut, Live(levels), i);
      CutKeepsBetter(levels, r, cut, p, list[i].0, highest);
      KeepLiveLists(levels, cut, p);
    }
  }

  lemma SortedLevelsAreDeep(levels: Levels, highest: bool)
    ensures FullDepth(SortedLevels(levels, 3, highest), Live(levels), levels)
  {
    if forall p :: p in levels ==> levels[p] > 0.0 {
      var r := Ordered(levels.Keys, highest);
      OrderedIsStored(levels, highest);
      KeepLiveLength(levels, Take(r, 3));
      assert Live(levels) == levels;
      assert |levels.Keys| == |levels|;
    }
  }

  lemma BookShows(b: TokenBook, live: Reference)
    requires live == LiveBook(b)
    ensures IsBest(BestBid(b), live.bids.Keys, true) && IsBest(BestAsk(b), live.asks.Keys, false)
    ensures TopLevels(SortedLevels(b.bids, 3, true), live.bids, true)
    ensures TopLevels(SortedLevels(b.asks, 3, false), live.asks, false)
    ensures FullDepth(SortedLevels(b.bids, 3, true), live.bids, b.bids)
    ensures FullDepth(SortedLevels(b.asks, 3, false), live.asks, b.asks)
  {
    BestIsBest(b.bids, true);
    BestIsBest(b.asks, false);
    SortedLevelsShow(b.bids, true);
    SortedLevelsShow(b.asks, false);
    SortedLevelsAreDeep(b.bids, true);
    SortedLevelsAreDeep(b.asks, false);
  }

  lemma {:induction false} FrameKeepsTokens(books: Books, events: seq<Event>)
    requires NoBatch(events)
    ensures HandleFrame(books, events).0.Keys == books.Keys
    decreases events
  {
    if events != [] {
      FrameKeepsTokens(Apply(books, events[0]), events[1..]);
    }
  }

  lemma RowIsShown(books: Books, e: Event, upto: seq<Event>, row: Row)
    requires NoBatch(upto) && (forall t :: t in books ==> books[t] == EMPTY_BOOK)
    requires row == RowFor(HandleFrame(books, upto).0, e)
    ensures RowShows(row, e, books, upto)
  {
    var kept := HandleFrame(books, upto).0;
    FrameKeepsTokens(books, upto);
    assert LiveBook(EMPTY_BOOK) == Reference(map[], map[]);
    if Subscribed(kept, e) {
      var token := TokenOf(e).value;
      FrameKeepsLive(books, token, upto);
      KeptShowsTrade(books, token, upto);
      BookShows(kept[token], ReferenceFrame(Reference(map[], map[]), token, upto));
    }
  }

  /** Over any stream of frames from empty books there is one row per event, a batch
      dealt into its changes, and at its own position each row of a subscribed token
      shows the highest bid and lowest ask of the book that deletes dead levels, its top
      levels and the last trade; a row of any other token shows nothing. */
  lemma RowsShowTheBook(books: Books, events: seq<Event>)
    requires forall t :: t in books ==> books[t] == EMPTY_BOOK
    ensures var rows := HandleFrame(books, events).1;
      var deal := Dealt(events);
      |rows| == |deal| && forall k :: 0 <= k < |rows| ==> RowShows(rows[k], deal[k], books, deal[..k + 1])
  {
    var deal := Dealt(events);
    DealtHasNoBatch(events);
    DealtIsTheSame(books, events);
    RowCount(books, deal);
    var rows := HandleFrame(books, deal).1;
    forall k | 0 <= k < |rows| ensures RowShows(rows[k], deal[k], books, deal[..k + 1]) {
      RowAt(books, deal, k);
      RowIsShown(books, deal[k], deal[..k + 1], rows[k]);
    }
  }

  ghost predicate Uncrossed(live: Reference) {
    forall b, a :: b in live.bids && a in live.asks ==> b <= a
  }

  /** No price is beyond one end of [0, 1] and, if there is a price, not all are beyond
      the other: the best of them lies within. */
  ghost predicate BestWithin(prices: set<real>, highest: bool) {
    prices == {} || ((exists p :: p in prices && 0.0 <= p <= 1.0) && forall p :: p in prices ==>
      if highest then p <= 1.0 else 0.0 <= p)
  }

  /** A row is sane if and only if its live book is not crossed and its best prices are
      probabilities. */
  lemma SaneIffUncrossed(row: Row, e: Event, books: Books, upto: seq<Event>)
    requires RowShows(row, e, books, upto) && row.token.Some? && row.token.value in books
    ensures var live := ReferenceFrame(Reference(map[], map[]), row.token.value, upto);
      BookRecorder.RowSane(row) <==>
        Uncrossed(live) && BestWithin(live.bids.Keys, true) && BestWithin(live.asks.Keys, false)
  {
    var live := ReferenceFrame(Reference(map[], map[]), row.token.value, upto);
    BestWithinIff(row.bestBid, live.bids.Keys, true);
    BestWithinIff(row.bestAsk, live.asks.Keys, false);
    if row.bestBid.Some? && row.bestAsk.Some? {
      assert row.bestBid.value in live.bids && row.bestAsk.value in live.asks;
      assert Uncrossed(live) <==> row.bestBid.value <= row.bestAsk.value;
    }
  }

  lemma BestWithinIff(best: Option<real>, prices: set<real>, highest: bool)
    requires IsBest(best, prices, highest)
    ensures BestWithin(prices, highest) <==> best.None? || 0.0 <= best.value <= 1.0
  {}

  // -------------------- what a valid row means --------------------

  /** A row as it was received. */
  datatype Received = Received(row: Row, ts: int)

  function TicksOf(seen: seq<Received>): seq<Tick> {
    seq(|seen|, i requires 0 <= i < |seen| => BookRecorder.TickOf(seen[i].row, seen[i].ts))
  }

  /** From a `book` row k on, every row is sane and none was received before its predecessor. */
  ghost predicate SoundFrom(seen: seq<Received>, k: int) {
    0 <= k < |seen| && seen[k].row.isBook && forall j :: k <= j < |seen| ==> SoundAt(seen, j)
  }

  ghost predicate SoundAt(seen: seq<Received>, j: int)
    requires 0 <= j < |seen|
  {
    BookRecorder.RowSane(seen[j].row) && (j > 0 ==> seen[j - 1].ts <= seen[j].ts)
  }

  ghost predicate SnapshotSeen(seen: seq<Received>, token: string) {
    exists i :: 0 <= i < |seen| && seen[i].row.isBook && seen[i].row.token == Some(token)
  }

  lemma {:induction false} SinceLastConnect(run: seq<Tick>, ticks: seq<Tick>)
    requires forall i :: 0 <= i < |ticks| ==> ticks[i].Seen?
    ensures SinceConnect(run + [Tick.Connect] + ticks) == ticks
  {
    var all := run + [Tick.Connect] + ticks;
    if ticks == [] {
      assert all == run + [Tick.Connect];
    } else {
      var init := ticks[..|ticks| - 1];
      SinceLastConnect(run, init);
      assert all[..|all| - 1] == run + [Tick.Connect] + init;
      assert ticks == init + [ticks[|ticks| - 1]];
    }
  }

  lemma SoundIffGood(seen: seq<Received>, k: int)
    ensures SoundFrom(seen, k) <==> GoodRunFrom(TicksOf(seen), k)
  {
    var s := TicksOf(seen);
    forall j | 0 <= j < |seen| ensures Good(s, j) <==> SoundAt(seen, j) {
      assert s[j] == BookRecorder.TickOf(seen[j].row, seen[j].ts);
      assert j > 0 ==> s[j - 1] == BookRecorder.TickOf(seen[j - 1].row, seen[j - 1].ts);
    }
  }

  /** After a connect and these rows, the last of them may be flagged valid if and only if
      every subscribed token has had a `book` row and the rows are sound from a `book` on. */
  lemma ValidMeansSound(run: seq<Tick>, seen: seq<Received>, tokens: set<string>)
    ensures BookRecorder.UsableAt(run + [Tick.Connect] + TicksOf(seen), tokens) <==> (
      && (forall token :: token in tokens ==> token != "" && SnapshotSeen(seen, token))
      && exists k :: SoundFrom(seen, k))
  {
    var all, s := run + [Tick.Connect] + TicksOf(seen), TicksOf(seen);
    SinceLastConnect(run, s);
    forall token ensures SnapshotSeen(seen, token) <==> BookRecorder.SnapshotOf(all, token) {
      if i :| 0 <= i < |seen| && seen[i].row.isBook && seen[i].row.token == Some(token) {
        assert s[i].isBook && s[i].token == Some(token);
      }
    }
    forall k ensures SoundFrom(seen, k) <==> GoodRunFrom(s, k) {
      SoundIffGood(seen, k);
    }
  }
}
