/** collectors/polymarket_book.py, lines 57-252: the incremental book of each
    outcome token, kept with zero-size levels, and the rows derived from it. */
module OrderBook {
  import opened Options
  import opened Ordering

  type Levels = map<real, real>

  /** One entry of a levels array; None where float() would fail. */
  datatype Level = Level(price: Option<real>, size: Option<real>)

  datatype Side = Buy | Sell | OtherSide

  datatype Change = Change(assetId: Option<string>, price: Option<real>, size: Option<real>, side: Side)

  /** A JSON number field: absent, not a number, or a number. */
  datatype Field = Missing | Malformed | Number(value: real)

  /** An event with its two possible token fields. A missing array is empty. */
  datatype Event =
    | Book(assetId: Option<string>, tokenId: Option<string>,
           buyLevels: seq<Level>, bids: seq<Level>, sellLevels: seq<Level>, asks: seq<Level>)
    | PriceChange(assetId: Option<string>, tokenId: Option<string>, changes: seq<Change>)
    | Batch(assetId: Option<string>, tokenId: Option<string>, priceChanges: seq<Change>)
    | LastTrade(assetId: Option<string>, tokenId: Option<string>, price: Field, size: Field, side: Option<string>)
    | Other(assetId: Option<string>, tokenId: Option<string>)

  datatype TokenBook = TokenBook(
    bids: Levels, asks: Levels,
    lastPrice: Option<real>, lastSize: Option<real>, lastSide: Option<string>)

  type Books = map<string, TokenBook>

  const EMPTY_BOOK := TokenBook(map[], map[], None, None, None)

  // -------------------- best prices --------------------

  lemma {:induction false} TopExists(s: set<real>)
    requires s != {}
    ensures exists m :: m in s && forall x :: x in s ==> x <= m
  {
    var y := Member(s);
    var rest := s - {y};
    if rest == {} {
      assert s == {y};
    } else {
      TopExists(rest);
      var m :| m in rest && forall x :: x in rest ==> x <= m;
      var top := if m <= y then y else m;
      assert forall x :: x in s ==> x == y || x in rest;
      assert top in s && forall x :: x in s ==> x <= top;
    }
  }

  lemma {:induction false} BottomExists(s: set<real>)
    requires s != {}
    ensures exists m :: m in s && forall x :: x in s ==> m <= x
  {
    var y := Member(s);
    var rest := s - {y};
    if rest == {} {
      assert s == {y};
    } else {
      BottomExists(rest);
      var m :| m in rest && forall x :: x in rest ==> m <= x;
      var bottom := if y <= m then y else m;
      assert forall x :: x in s ==> x == y || x in rest;
      assert bottom in s && forall x :: x in s ==> bottom <= x;
    }
  }

  /** The best price of a set: highest for bids, lowest for asks. */
  function Best(s: set<real>, highest: bool): (m: real)
    requires s != {}
    ensures m in s && forall x :: x in s ==> (if highest then x <= m else m <= x)
  {
    if highest then
      TopExists(s);
      var m :| m in s && forall x :: x in s ==> x <= m;
      m
    else
      BottomExists(s);
      var m :| m in s && forall x :: x in s ==> m <= x;
      m
  }

  function BestOf(s: set<real>, highest: bool): Option<real> {
    if s == {} then None else Some(Best(s, highest))
  }

  function LivePrices(levels: Levels): set<real> {
    set p | p in levels && levels[p] > 0.0
  }

  function BestBid(b: TokenBook): Option<real> { BestOf(LivePrices(b.bids), true) }

  function BestAsk(b: TokenBook): Option<real> { BestOf(LivePrices(b.asks), false) }

  // -------------------- applying one event --------------------

  /** `dict(parse_levels(...))`: bad entries are skipped, the last price wins. */
  function FromLevels(levels: seq<Level>): Levels {
    if levels == [] then map[]
    else
      var rest, l := FromLevels(levels[..|levels| - 1]), levels[|levels| - 1];
      if l.price.Some? && l.size.Some? then rest[l.price.value := l.size.value] else rest
  }

  function Or(first: seq<Level>, second: seq<Level>): seq<Level> {
    if first != [] then first else second
  }

  function ApplyChange(b: TokenBook, c: Change): TokenBook {
    if c.price.None? || c.size.None? then b
    else match c.side
      case Buy => b.(bids := b.bids[c.price.value := c.size.value])
      case Sell => b.(asks := b.asks[c.price.value := c.size.value])
      case OtherSide => b
  }

  function ApplyChanges(b: TokenBook, changes: seq<Change>): TokenBook
    decreases changes
  {
    if changes == [] then b else ApplyChanges(ApplyChange(b, changes[0]), changes[1..])
  }

  /** A malformed price stops the assignment of both; a malformed size keeps the
      price just assigned; the side is always taken. */
  function ApplyTrade(b: TokenBook, price: Field, size: Field, side: Option<string>): TokenBook {
    var priced := match price
      case Missing => b.(lastPrice := None)
      case Malformed => b
      case Number(x) => b.(lastPrice := Some(x));
    var sized := if price == Malformed then b else match size
      case Missing => priced.(lastSize := None)
      case Malformed => priced
      case Number(x) => priced.(lastSize := Some(x));
    sized.(lastSide := side)
  }

  function ApplyToBook(b: TokenBook, e: Event): TokenBook {
    match e
    case Book(_, _, buy, bids, sell, asks) => b.(bids := FromLevels(Or(buy, bids)), asks := FromLevels(Or(sell, asks)))
    case PriceChange(_, _, changes) => ApplyChanges(b, changes)
    case LastTrade(_, _, price, size, side) => ApplyTrade(b, price, size, side)
    case Batch(_, _, _) => b
    case Other(_, _) => b
  }

  /** `asset_id or token_id`: an empty string counts as missing. */
  function TokenOf(e: Event): Option<string> {
    if e.assetId.Some? && e.assetId.value != "" then e.assetId else e.tokenId
  }

  predicate Subscribed(books: Books, e: Event) {
    TokenOf(e).Some? && TokenOf(e).value in books
  }

  function Apply(books: Books, e: Event): Books {
    if Subscribed(books, e) then books[TokenOf(e).value := ApplyToBook(books[TokenOf(e).value], e)] else books
  }

  // -------------------- derived rows and frames --------------------

  datatype Row = Row(
    isBook: bool, token: Option<string>,
    bestBid: Option<real>, bestAsk: Option<real>,
    bids: Option<seq<(real, real)>>, asks: Option<seq<(real, real)>>,
    lastPrice: Option<real>, lastSize: Option<real>, lastSide: Option<string>)

  function Ordered(s: set<real>, highest: bool): (r: seq<real>)
    ensures |r| == |s| && forall p :: p in r <==> p in s
  {
    if s == {} then []
    else
      var m := Best(s, highest);
      [m] + Ordered(s - {m}, highest)
  }

  predicate Stored(levels: Levels, prices: seq<real>) {
    forall i :: 0 <= i < |prices| ==> prices[i] in levels
  }

  function KeepLive(levels: Levels, prices: seq<real>): seq<(real, real)>
    requires Stored(levels, prices)
  {
    if prices == [] then []
    else (if levels[prices[0]] > 0.0 then [(prices[0], levels[prices[0]])] else []) + KeepLive(levels, prices[1..])
  }

  function Take<T>(s: seq<T>, n: nat): seq<T> {
    if |s| <= n then s else s[..n]
  }

  /** `_sorted_levels`: sort, cut to the limit, then drop the zero-size levels. */
  function SortedLevels(levels: Levels, limit: nat, highest: bool): seq<(real, real)> {
    var r := Ordered(levels.Keys, highest);
    assert forall i :: 0 <= i < |r| ==> r[i] in r;
    KeepLive(levels, Take(r, limit))
  }

  function RowFor(books: Books, e: Event): Row {
    if Subscribed(books, e) then
      var b := books[TokenOf(e).value];
      var bids, asks := SortedLevels(b.bids, 3, true), SortedLevels(b.asks, 3, false);
      Row(
        e.Book?, TokenOf(e), BestBid(b), BestAsk(b), Some(bids), Some(asks), b.lastPrice, b.lastSize, b.lastSide)
    else Row(e.Book?, TokenOf(e), None, None, None, None, None, None, None)
  }

  /** The single-change event a batched frame is expanded into. */
  function Expand(e: Event, c: Change): Event
    requires e.Batch?
  {
    PriceChange(c.assetId, e.tokenId, [c])
  }

  function HandleChanges(books: Books, e: Event, changes: seq<Change>): (Books, seq<Row>)
    requires e.Batch?
    decreases changes
  {
    if changes == [] then (books, [])
    else
      var after := Apply(books, Expand(e, changes[0]));
      var rest := HandleChanges(after, e, changes[1..]);
      (rest.0, [RowFor(after, Expand(e, changes[0]))] + rest.1)
  }

  function HandleEvent(books: Books, e: Event): (Books, seq<Row>) {
    if e.Batch? then HandleChanges(books, e, e.priceChanges)
    else (Apply(books, e), [RowFor(Apply(books, e), e)])
  }

  /** One frame: its events in order. Keepalives and non-JSON text have none. */
  function HandleFrame(books: Books, events: seq<Event>): (Books, seq<Row>)
    decreases events
  {
    if events == [] then (books, [])
    else
      var first := HandleEvent(books, events[0]);
      var rest := HandleFrame(first.0, events[1..]);
      (rest.0, first.1 + rest.1)
  }

  // -------------------- the reference book --------------------

  /** A book that never stores a dead level. */
  datatype Reference = Reference(bids: Levels, asks: Levels)

  function SetLevel(levels: Levels, price: real, size: real): Levels {
    if size > 0.0 then levels[price := size] else levels - {price}
  }

  function ReferenceLevels(levels: seq<Level>): Levels {
    if levels == [] then map[]
    else
      var rest, l := ReferenceLevels(levels[..|levels| - 1]), levels[|levels| - 1];
      if l.price.Some? && l.size.Some? then SetLevel(rest, l.price.value, l.size.value) else rest
  }

  function ReferenceChange(b: Reference, c: Change): Reference {
    if c.price.None? || c.size.None? then b
    else match c.side
      case Buy => b.(bids := SetLevel(b.bids, c.price.value, c.size.value))
      case Sell => b.(asks := SetLevel(b.asks, c.price.value, c.size.value))
      case OtherSide => b
  }

  function ReferenceChanges(b: Reference, changes: seq<Change>): Reference
    decreases changes
  {
    if changes == [] then b else ReferenceChanges(ReferenceChange(b, changes[0]), changes[1..])
  }

  /** The reference sees every event of the frame with the changes of a batch
      already dealt to their tokens. */
  function ReferenceStep(b: Reference, token: string, e: Event): Reference {
    match e
    case Batch(_, _, changes) => ReferenceBatch(b, token, e, changes)
    case Book(_, _, buy, bids, sell, asks) =>
      if TokenOf(e) == Some(token)
      then Reference(
        ReferenceLevels(if buy == [] then bids else buy), ReferenceLevels(if sell == [] then asks else sell))
      else b
    case PriceChange(_, _, changes) =>
      if TokenOf(e) == Some(token) then ReferenceChanges(b, changes) else b
    case LastTrade(_, _, _, _, _) => b
    case Other(_, _) => b
  }

  function ReferenceBatch(b: Reference, token: string, e: Event, changes: seq<Change>): Reference
    requires e.Batch?
    decreases changes
  {
    if changes == [] then b
    else
      var after := if TokenOf(Expand(e, changes[0])) == Some(token) then ReferenceChange(b, changes[0]) else b;
      ReferenceBatch(after, token, e, changes[1..])
  }

  function ReferenceFrame(b: Reference, token: string, events: seq<Event>): Reference
    decreases events
  {
    if events == [] then b else ReferenceFrame(ReferenceStep(b, token, events[0]), token, events[1..])
  }

  function Live(levels: Levels): Levels {
    map p | p in levels && levels[p] > 0.0 :: levels[p]
  }

  function LiveBook(b: TokenBook): Reference {
    Reference(Live(b.bids), Live(b.asks))
  }

  lemma LiveSet(levels: Levels, price: real, size: real)
    ensures Live(levels[price := size]) == SetLevel(Live(levels), price, size)
  {}

  lemma {:induction false} LiveFromLevels(levels: seq<Level>)
    ensures Live(FromLevels(levels)) == ReferenceLevels(levels)
  {
    if levels != [] {
      var init, l := levels[..|levels| - 1], levels[|levels| - 1];
      LiveFromLevels(init);
      if l.price.Some? && l.size.Some? {
        LiveSet(FromLevels(init), l.price.value, l.size.value);
      }
    }
  }

  lemma LiveChange(b: TokenBook, c: Change)
    ensures LiveBook(ApplyChange(b, c)) == ReferenceChange(LiveBook(b), c)
  {
    if c.price.Some? && c.size.Some? {
      LiveSet(b.bids, c.price.value, c.size.value);
      LiveSet(b.asks, c.price.value, c.size.value);
    }
  }

  lemma {:induction false} LiveChanges(b: TokenBook, changes: seq<Change>)
    ensures LiveBook(ApplyChanges(b, changes)) == ReferenceChanges(LiveBook(b), changes)
    decreases changes
  {
    if changes != [] {
      LiveChange(b, changes[0]);
      LiveChanges(ApplyChange(b, changes[0]), changes[1..]);
    }
  }

  lemma LiveApply(books: Books, token: string, e: Event)
    requires token in books && !e.Batch?
    ensures Apply(books, e).Keys == books.Keys
    ensures LiveBook(Apply(books, e)[token]) == ReferenceStep(LiveBook(books[token]), token, e)
  {
    match e
    case Book(_, _, buy, bids, sell, asks) =>
      LiveFromLevels(Or(buy, bids));
      LiveFromLevels(Or(sell, asks));
    case PriceChange(_, _, changes) =>
      LiveChanges(books[token], changes);
    case LastTrade(_, _, _, _, _) =>
    case Other(_, _) =>
  }

  lemma OneChange(b: TokenBook, c: Change)
    ensures ApplyChanges(b, [c]) == ApplyChange(b, c)
  {
    assert [c][1..] == [];
  }

  lemma {:induction false} LiveBatch(books: Books, token: string, e: Event, changes: seq<Change>)
    requires token in books && e.Batch?
    ensures HandleChanges(books, e, changes).0.Keys == books.Keys
    ensures LiveBook(HandleChanges(books, e, changes).0[token])
      == ReferenceBatch(LiveBook(books[token]), token, e, changes)
    decreases changes
  {
    if changes != [] {
      var single := Expand(e, changes[0]);
      OneChange(books[token], changes[0]);
      LiveChange(books[token], changes[0]);
      LiveBatch(Apply(books, single), token, e, changes[1..]);
    }
  }

  lemma {:induction false} FrameKeepsLive(books: Books, token: string, events: seq<Event>)
    requires token in books
    ensures HandleFrame(books, events).0.Keys == books.Keys
    ensures LiveBook(HandleFrame(books, events).0[token]) == ReferenceFrame(LiveBook(books[token]), token, events)
    decreases events
  {
    if events != [] {
      if events[0].Batch? {
        LiveBatch(books, token, events[0], events[0].priceChanges);
      } else {
        LiveApply(books, token, events[0]);
      }
      FrameKeepsLive(HandleEvent(books, events[0]).0, token, events[1..]);
    }
  }

  /** Any stream of events, from an empty book: keeping zero-size levels gives the
      best bid and ask of a book that deletes them. */
  lemma TombstonesAreInvisible(books: Books, token: string, events: seq<Event>)
    requires token in books && books[token] == EMPTY_BOOK
    ensures var after := HandleFrame(books, events).0;
      var reference := ReferenceFrame(Reference(map[], map[]), token, events);
      && token in after
      && BestBid(after[token]) == BestOf(reference.bids.Keys, true)
      && BestAsk(after[token]) == BestOf(reference.asks.Keys, false)
  {
    FrameKeepsLive(books, token, events);
    assert LiveBook(EMPTY_BOOK) == Reference(map[], map[]);
    var b := HandleFrame(books, events).0[token];
    assert Live(b.bids).Keys == LivePrices(b.bids);
    assert Live(b.asks).Keys == LivePrices(b.asks);
  }

  // -------------------- batches and independence --------------------

  /** The frames that send the changes of a batch one at a time. */
  function OneByOne(e: Event, changes: seq<Change>): seq<Event>
    requires e.Batch?
  {
    if changes == [] then [] else [e.(priceChanges := [changes[0]])] + OneByOne(e, changes[1..])
  }

  lemma HandleSingle(books: Books, e: Event, c: Change)
    requires e.Batch?
    ensures var single := Expand(e, c);
      HandleEvent(books, e.(priceChanges := [c])) == (Apply(books, single), [RowFor(Apply(books, single), single)])
  {
    var f := e.(priceChanges := [c]);
    assert [c][1..] == [] && Expand(f, c) == Expand(e, c);
    var after := Apply(books, Expand(e, c));
    assert HandleChanges(after, f, []) == (after, []);
    var all := HandleChanges(books, f, f.priceChanges);
    assert f.priceChanges[1..] == [];
    assert all == (after, [RowFor(after, Expand(e, c))] + []);
    assert [RowFor(after, Expand(e, c))] + [] == [RowFor(after, Expand(e, c))];
  }

  /** A batched frame is the same as sending each change in a frame of its own:
      same books, same rows in the same order. */
  lemma {:induction false} BatchIsOneAtATime(books: Books, e: Event, changes: seq<Change>)
    requires e.Batch?
    ensures HandleChanges(books, e, changes) == HandleFrame(books, OneByOne(e, changes))
    decreases changes
  {
    if changes != [] {
      BatchIsOneAtATime(Apply(books, Expand(e, changes[0])), e, changes[1..]);
      HandleSingle(books, e, changes[0]);
      assert OneByOne(e, changes)[1..] == OneByOne(e, changes[1..]);
    }
  }

  /** Changes of one token batched together leave the book that the older
      one-token `changes` message leaves. */
  lemma {:induction false} BatchMatchesLegacyMessage(books: Books, e: Event, token: string, changes: seq<Change>)
    requires e.Batch? && token != "" && token in books
    requires forall c :: c in changes ==> c.assetId == Some(token)
    ensures HandleChanges(books, e, changes).0 == Apply(books, PriceChange(Some(token), None, changes))
    decreases changes
  {
    if changes == [] {
      assert books[token := books[token]] == books;
    } else {
      var single := Expand(e, changes[0]);
      OneChange(books[token], changes[0]);
      BatchMatchesLegacyMessage(Apply(books, single), e, token, changes[1..]);
    }
  }

  /** An event for one token never touches another token's book. */
  lemma OtherBooksUntouched(books: Books, e: Event, other: string)
    requires TokenOf(e) != Some(other)
    ensures other in Apply(books, e) <==> other in books
    ensures other in books ==> Apply(books, e)[other] == books[other]
  {}

  lemma EventsOnDifferentTokensCommute(books: Books, e: Event, f: Event)
    requires TokenOf(e) != TokenOf(f)
    ensures Apply(Apply(books, e), f) == Apply(Apply(books, f), e)
  {}

  // -------------------- the persisted levels --------------------

  predicate Better(p: real, q: real, highest: bool) {
    if highest then p > q else p < q
  }

  ghost predicate BestFirst(r: seq<real>, highest: bool) {
    forall i, j :: 0 <= i < j < |r| ==> Better(r[i], r[j], highest)
  }

  lemma BestThenRest(m: real, rest: seq<real>, highest: bool)
    requires BestFirst(rest, highest) && forall p :: p in rest ==> Better(m, p, highest)
    ensures BestFirst([m] + rest, highest)
  {
    assert forall j :: 0 <= j < |rest| ==> rest[j] in rest;
  }

  lemma {:induction false} OrderedIsSorted(s: set<real>, highest: bool)
    ensures BestFirst(Ordered(s, highest), highest)
  {
    if s != {} {
      var m := Best(s, highest);
      OrderedIsSorted(s - {m}, highest);
      BestThenRest(m, Ordered(s - {m}, highest), highest);
    }
  }

  lemma OrderedIsStored(levels: Levels, highest: bool)
    ensures Stored(levels, Ordered(levels.Keys, highest))
  {
    var r := Ordered(levels.Keys, highest);
    assert forall i :: 0 <= i < |r| ==> r[i] in r;
  }

  predicate AllLive(levels: Levels, prices: seq<real>)
    requires Stored(levels, prices)
  {
    forall i :: 0 <= i < |prices| ==> levels[prices[i]] > 0.0
  }

  predicate AllDead(levels: Levels, prices: seq<real>)
    requires Stored(levels, prices)
  {
    forall i :: 0 <= i < |prices| ==> levels[prices[i]] <= 0.0
  }

  lemma {:induction false} KeepLiveLength(levels: Levels, prices: seq<real>)
    requires Stored(levels, prices)
    ensures |KeepLive(levels, prices)| <= |prices|
    ensures |KeepLive(levels, prices)| == |prices| <==> AllLive(levels, prices)
    ensures KeepLive(levels, prices) == [] <==> AllDead(levels, prices)
  {
    if prices != [] {
      KeepLiveLength(levels, prices[1..]);
      assert AllLive(levels, prices) <==> levels[prices[0]] > 0.0 && AllLive(levels, prices[1..]) by {
        assert forall i :: 0 < i < |prices| ==> prices[i] == prices[1..][i - 1];
      }
      assert AllDead(levels, prices) <==> levels[prices[0]] <= 0.0 && AllDead(levels, prices[1..]) by {
        assert forall i :: 0 < i < |prices| ==> prices[i] == prices[1..][i - 1];
      }
    }
  }

  lemma {:induction false} FirstKept(levels: Levels, prices: seq<real>) returns (i: nat)
    requires Stored(levels, prices) && KeepLive(levels, prices) != []
    ensures i < |prices| && levels[prices[i]] > 0.0 && prices[i] == KeepLive(levels, prices)[0].0
    ensures forall j :: 0 <= j < i ==> levels[prices[j]] <= 0.0
  {
    if levels[prices[0]] > 0.0 {
      i := 0;
    } else {
      var k := FirstKept(levels, prices[1..]);
      assert forall j :: 0 < j < |prices| ==> prices[j] == prices[1..][j - 1];
      i := k + 1;
    }
  }

  lemma FirstLiveIsBest(levels: Levels, r: seq<real>, i: nat, highest: bool)
    requires BestFirst(r, highest) && i < |r| && Stored(levels, r) && forall p :: p in levels ==> p in r
    requires forall j :: 0 <= j < i ==> levels[r[j]] <= 0.0
    ensures forall p :: p in LivePrices(levels) ==> !Better(p, r[i], highest)
  {
    forall p | p in LivePrices(levels) ensures !Better(p, r[i], highest) {
      var k :| 0 <= k < |r| && r[k] == p;
      assert i <= k;
      assert i < k ==> Better(r[i], r[k], highest);
    }
  }

  lemma FirstKeptIsBest(levels: Levels, r: seq<real>, limit: nat, highest: bool)
    requires BestFirst(r, highest) && Stored(levels, r) && forall p :: p in levels ==> p in r
    requires KeepLive(levels, Take(r, limit)) != []
    ensures var first := KeepLive(levels, Take(r, limit))[0].0;
      first in LivePrices(levels) && forall p :: p in LivePrices(levels) ==> !Better(p, first, highest)
  {
    var cut := Take(r, limit);
    var i := FirstKept(levels, cut);
    forall j | 0 <= j <= i ensures cut[j] == r[j] {}
    FirstLiveIsBest(levels, r, i, highest);
  }

  /** The persisted list, when it has a level at all, starts at the best price. */
  lemma PersistedListStartsAtBest(levels: Levels, limit: nat, highest: bool)
    requires SortedLevels(levels, limit, highest) != []
    ensures Some(SortedLevels(levels, limit, highest)[0].0) == BestOf(LivePrices(levels), highest)
  {
    OrderedIsSorted(levels.Keys, highest);
    OrderedIsStored(levels, highest);
    FirstKeptIsBest(levels, Ordered(levels.Keys, highest), limit, highest);
  }

  lemma StoredConcat(levels: Levels, a: seq<real>, b: seq<real>)
    requires Stored(levels, a) && Stored(levels, b)
    ensures Stored(levels, a + b)
  {}

  lemma KeepLiveFirst(levels: Levels, prices: seq<real>, rest: seq<real>)
    requires Stored(levels, prices) && prices != [] && rest == prices[1..]
    ensures Stored(levels, rest)
    ensures KeepLive(levels, prices)
      == (if levels[prices[0]] > 0.0 then [(prices[0], levels[prices[0]])] else []) + KeepLive(levels, rest)
  {
    assert [] + KeepLive(levels, rest) == KeepLive(levels, rest);
  }

  lemma {:induction false} KeepLiveConcat(levels: Levels, a: seq<real>, b: seq<real>)
    requires Stored(levels, a) && Stored(levels, b)
    ensures Stored(levels, a + b)
    ensures KeepLive(levels, a + b) == KeepLive(levels, a) + KeepLive(levels, b)
  {
    StoredConcat(levels, a, b);
    if a == [] {
      assert a + b == b;
    } else {
      var rest := a[1..];
      assert (a + b)[1..] == rest + b;
      KeepLiveFirst(levels, a, rest);
      KeepLiveFirst(levels, a + b, rest + b);
      KeepLiveConcat(levels, rest, b);
    }
  }

  lemma TakeAppended<T>(a: seq<T>, b: seq<T>, limit: nat)
    requires |a| <= limit
    ensures a == Take(a + b, limit) <==> |a| == limit || b == []
  {
    if b == [] {
      assert a + b == a;
    } else if |a| < limit {
      assert |Take(a + b, limit)| > |a|;
    }
  }

  lemma CutThenDrop(levels: Levels, cut: seq<real>, rest: seq<real>, limit: nat)
    requires Stored(levels, cut) && Stored(levels, rest)
    requires |cut| <= limit && (|cut| < limit ==> rest == [])
    ensures Stored(levels, cut + rest)
    ensures KeepLive(levels, cut) == Take(KeepLive(levels, cut + rest), limit)
      <==> AllLive(levels, cut) || AllDead(levels, rest)
  {
    KeepLiveConcat(levels, cut, rest);
    KeepLiveLength(levels, cut);
    KeepLiveLength(levels, rest);
    TakeAppended(KeepLive(levels, cut), KeepLive(levels, rest), limit);
  }

  /** Cutting before dropping dead levels: the persisted list is the first `limit`
      live levels exactly when the cut holds no dead level or nothing live lies
      beyond it. */
  lemma PersistedListIsTopLiveIff(levels: Levels, limit: nat, highest: bool)
    ensures var r := Ordered(levels.Keys, highest);
      && Stored(levels, r)
      && (SortedLevels(levels, limit, highest) == Take(KeepLive(levels, r), limit)
          <==> AllLive(levels, Take(r, limit)) || AllDead(levels, r[|Take(r, limit)|..]))
  {
    var r := Ordered(levels.Keys, highest);
    OrderedIsStored(levels, highest);
    var cut := Take(r, limit);
    assert r == cut + r[|cut|..];
    CutThenDrop(levels, cut, r[|cut|..], limit);
  }

  lemma BestComesFirst(s: set<real>, best: real)
    requires best in s && forall p :: p in s ==> p <= best
    ensures |Ordered(s, true)| > 0 && Ordered(s, true)[0] == best
    ensures forall i :: 0 < i < |Ordered(s, true)| ==> Ordered(s, true)[i] in s && Ordered(s, true)[i] != best
  {
    OrderedIsSorted(s, true);
    var r := Ordered(s, true);
    assert best in r && r[0] in r;
    forall i | 0 < i < |r| ensures r[i] in s && r[i] != best {
      assert r[i] in r && Better(r[0], r[i], true);
    }
  }

  /** Four bids with a dead one on top: the cut to three persists two live levels although
      there are three. */
  lemma DeadTopHidesALevel()
    ensures var levels: Levels := map[0.9 := 0.0, 0.8 := 1.0, 0.7 := 1.0, 0.6 := 1.0];
      var r := Ordered(levels.Keys, true);
      Stored(levels, r) && SortedLevels(levels, 3, true) != Take(KeepLive(levels, r), 3)
  {
    var levels: Levels := map[0.9 := 0.0, 0.8 := 1.0, 0.7 := 1.0, 0.6 := 1.0];
    var r := Ordered(levels.Keys, true);
    assert levels.Keys == {0.9, 0.8, 0.7, 0.6} && |{0.9, 0.8, 0.7, 0.6}| == 4;
    BestComesFirst(levels.Keys, 0.9);
    PersistedListIsTopLiveIff(levels, 3, true);
    assert Take(r, 3)[0] == 0.9 && r[3..][0] == r[3];
  }
}
