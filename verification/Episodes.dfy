/** events/episode_builder.py: the frozen rule that chains BUY fills of one market
    and direction into episodes. */
module Episodes {
  import opened Options
  import opened Ordering

  const EPISODE_RULE := "v1_3sec"

  datatype Fill = Fill(
    fillId: string, isBuy: bool, timestampMs: Option<int>, size: Option<real>, price: Option<real>,
    conditionId: Option<string>, outcome: Option<string>)

  datatype Reason = TimestampInvalid | FieldIncomplete

  datatype Key = Key(market: string, direction: string)

  datatype InvalidFill = InvalidFill(fillId: string, conditionId: Option<string>, reason: Reason)

  datatype Episode = Episode(
    key: Key, startMs: int, endMs: int, totalShares: real, totalDollars: real, vwap: real, members: seq<string>)

  /** validate_buy_fill. */
  function Validate(f: Fill): Option<Reason> {
    if f.timestampMs.None? then Some(TimestampInvalid)
    else if f.size.None? || f.size.value <= 0.0 then Some(FieldIncomplete)
    else if f.price.None? || !(0.0 <= f.price.value <= 1.0) then Some(FieldIncomplete)
    else if f.conditionId.None? || f.outcome.None? then Some(FieldIncomplete)
    else None
  }

  predicate Usable(f: Fill) { f.isBuy && Validate(f) == None }

  /** A usable fill: its fields are all present. */
  datatype Trade = Trade(fillId: string, ts: int, size: real, price: real, key: Key)

  function TradeOf(f: Fill): (t: Trade)
    requires Usable(f)
    ensures t.size > 0.0 && 0.0 <= t.price <= 1.0
  {
    Trade(f.fillId, f.timestampMs.value, f.size.value, f.price.value, Key(f.conditionId.value, f.outcome.value))
  }

  function Ts(t: Trade): int { t.ts }
  function Shares(t: Trade): real { t.size }
  function Dollars(t: Trade): real { t.price * t.size }
  function KeyOf(t: Trade): Key { t.key }

  predicate FillLe(a: Trade, b: Trade) {
    Ts(a) < Ts(b) || (Ts(a) == Ts(b) && StringLe(a.fillId, b.fillId))
  }

  predicate KeyLe(a: Key, b: Key) {
    if a.market != b.market then StringLe(a.market, b.market) else StringLe(a.direction, b.direction)
  }

  predicate EpisodeLe(a: Episode, b: Episode) {
    if a.key != b.key then KeyLe(a.key, b.key) else a.startMs <= b.startMs
  }

  function UsableFills(fills: seq<Fill>): seq<Trade> {
    if fills == [] then []
    else UsableFills(fills[..|fills| - 1]) + (if Usable(fills[|fills| - 1]) then [TradeOf(fills[|fills| - 1])] else [])
  }

  function InvalidFills(fills: seq<Fill>): seq<InvalidFill> {
    if fills == [] then []
    else
      var f := fills[|fills| - 1];
      InvalidFills(fills[..|fills| - 1])
        + (if f.isBuy && Validate(f).Some? then [InvalidFill(f.fillId, f.conditionId, Validate(f).value)] else [])
  }

  function InGroup(k: Key): Trade -> bool { (f: Trade) => KeyOf(f) == k }

  function Keys(fills: seq<Trade>): set<Key> { set f | f in fills :: KeyOf(f) }

  // -------------------- chaining one group --------------------

  /** The loop's variables: the chunks already closed, and the current one. */
  datatype Building = Building(closed: seq<seq<Trade>>, current: seq<Trade>)

  function Feed(b: Building, x: Trade, window: int): Building {
    if b.current != [] && Ts(x) - Ts(b.current[|b.current| - 1]) > window
    then Building(b.closed + [b.current], [x])
    else Building(b.closed, b.current + [x])
  }

  /** The greedy chain over fills in time order: a gap above the window starts a
      new chunk. */
  function Fold(s: seq<Trade>, window: int): Building {
    if s == [] then Building([], []) else Feed(Fold(s[..|s| - 1], window), s[|s| - 1], window)
  }

  function Chain(s: seq<Trade>, window: int): seq<seq<Trade>> {
    var b := Fold(s, window);
    if b.current == [] then b.closed else b.closed + [b.current]
  }

  /** The number of breaks before position p: which chunk it falls in. */
  function ChunkOf(s: seq<Trade>, window: int, p: nat): nat
    requires p < |s|
  {
    if p == 0 then 0 else ChunkOf(s, window, p - 1) + (if Ts(s[p]) - Ts(s[p - 1]) > window then 1 else 0)
  }

  lemma {:induction false} ChunkOfPrefix(s: seq<Trade>, window: int, p: nat)
    requires p < |s| - 1
    ensures ChunkOf(s[..|s| - 1], window, p) == ChunkOf(s, window, p)
  {
    if p > 0 {
      ChunkOfPrefix(s, window, p - 1);
    }
  }

  ghost predicate InChunk(s: seq<Trade>, window: int, c: int, x: Trade) {
    exists p :: 0 <= p < |s| && s[p] == x && ChunkOf(s, window, p) == c
  }

  lemma InChunkExtends(s: seq<Trade>, window: int, c: int, x: Trade)
    requires s != []
    ensures InChunk(s, window, c, x)
      <==> InChunk(s[..|s| - 1], window, c, x) || (x == s[|s| - 1] && c == ChunkOf(s, window, |s| - 1))
  {
    var init := s[..|s| - 1];
    if InChunk(init, window, c, x) {
      var p :| 0 <= p < |init| && init[p] == x && ChunkOf(init, window, p) == c;
      ChunkOfPrefix(s, window, p);
      assert s[p] == x;
    }
    if p :| 0 <= p < |s| && s[p] == x && ChunkOf(s, window, p) == c && p < |s| - 1 {
      ChunkOfPrefix(s, window, p);
      assert init[p] == x;
    }
  }

  lemma {:induction false} FoldCurrent(s: seq<Trade>, window: int)
    ensures s == [] ==> Fold(s, window) == Building([], [])
    ensures s != [] ==> var b := Fold(s, window);
      && b.current != [] && b.current[|b.current| - 1] == s[|s| - 1]
      && |b.closed| == ChunkOf(s, window, |s| - 1)
  {
    if |s| > 1 {
      var init := s[..|s| - 1];
      FoldCurrent(init, window);
      ChunkOfPrefix(s, window, |s| - 2);
    } else if |s| == 1 {
      assert s[..0] == [];
    }
  }

  lemma {:induction false} FoldByChunk(s: seq<Trade>, window: int, x: Trade)
    ensures var b := Fold(s, window);
      && (forall c :: 0 <= c < |b.closed| ==> (x in b.closed[c] <==> InChunk(s, window, c, x)))
      && (x in b.current <==> InChunk(s, window, |b.closed|, x))
  {
    if s != [] {
      var init, y := s[..|s| - 1], s[|s| - 1];
      FoldByChunk(init, window, x);
      FoldCurrent(init, window);
      FoldCurrent(s, window);
      var before, b := Fold(init, window), Fold(s, window);
      forall c | 0 <= c <= |b.closed|
        ensures InChunk(s, window, c, x) <==> InChunk(init, window, c, x) || (x == y && c == |b.closed|)
      {
        InChunkExtends(s, window, c, x);
      }
      if |b.closed| > |before.closed| {
        NoChunkBeyond(init, window, |b.closed|, x);
      }
    }
  }

  /** Chunk c of the chain holds exactly the fills at the positions numbered c. */
  lemma ChainByChunk(s: seq<Trade>, window: int, x: Trade)
    ensures s != [] ==> |Chain(s, window)| == ChunkOf(s, window, |s| - 1) + 1
    ensures forall c :: 0 <= c < |Chain(s, window)| ==> (x in Chain(s, window)[c] <==> InChunk(s, window, c, x))
  {
    FoldCurrent(s, window);
    FoldByChunk(s, window, x);
  }

  lemma {:induction false} ChunkOfRises(s: seq<Trade>, window: int, p: nat, q: nat)
    requires p <= q < |s|
    ensures ChunkOf(s, window, p) <= ChunkOf(s, window, q)
    decreases q - p
  {
    if p < q {
      ChunkOfRises(s, window, p, q - 1);
    }
  }

  lemma NoChunkBeyond(s: seq<Trade>, window: int, c: int, x: Trade)
    requires s == [] || c > ChunkOf(s, window, |s| - 1)
    ensures !InChunk(s, window, c, x)
  {
    if InChunk(s, window, c, x) {
      var p :| 0 <= p < |s| && s[p] == x && ChunkOf(s, window, p) == c;
      ChunkOfRises(s, window, p, |s| - 1);
    }
  }

  function Flatten(chunks: seq<seq<Trade>>): seq<Trade> {
    if chunks == [] then [] else Flatten(chunks[..|chunks| - 1]) + chunks[|chunks| - 1]
  }

  ghost predicate NoEmptyChunk(chunks: seq<seq<Trade>>) {
    forall c :: 0 <= c < |chunks| ==> chunks[c] != []
  }

  lemma FlattenPush(chunks: seq<seq<Trade>>, chunk: seq<Trade>)
    ensures Flatten(chunks + [chunk]) == Flatten(chunks) + chunk
  {
    assert (chunks + [chunk])[..|chunks|] == chunks;
  }

  function Held(b: Building): seq<Trade> { Flatten(b.closed) + b.current }

  lemma FeedHolds(b: Building, s: seq<Trade>, x: Trade, window: int)
    requires Held(b) == s
    ensures Held(Feed(b, x, window)) == s + [x]
  {
    FlattenPush(b.closed, b.current);
    assert Flatten(b.closed) + (b.current + [x]) == Flatten(b.closed) + b.current + [x];
  }

  lemma EmptyHolds()
    ensures Held(Building([], [])) == []
  {}

  ghost predicate Holds(b: Building, s: seq<Trade>) { Held(b) == s }

  lemma FeedKeeps(b: Building, s: seq<Trade>, window: int)
    requires s != [] && Holds(b, s[..|s| - 1])
    ensures Holds(Feed(b, s[|s| - 1], window), s)
  {
    FeedHolds(b, s[..|s| - 1], s[|s| - 1], window);
    assert s == s[..|s| - 1] + [s[|s| - 1]];
  }

  lemma {:induction false} FoldHolds(s: seq<Trade>, window: int)
    ensures Holds(Fold(s, window), s)
  {
    if s == [] {
      EmptyHolds();
    } else {
      var before := Fold(s[..|s| - 1], window);
      FoldHolds(s[..|s| - 1], window);
      FeedKeeps(before, s, window);
      assert Fold(s, window) == Feed(before, s[|s| - 1], window);
    }
  }

  lemma {:induction false} FoldNoEmptyChunk(s: seq<Trade>, window: int)
    ensures NoEmptyChunk(Fold(s, window).closed)
  {
    if s != [] {
      FoldNoEmptyChunk(s[..|s| - 1], window);
    }
  }

  lemma ChainFlattens(s: seq<Trade>, window: int)
    ensures Flatten(Chain(s, window)) == s && NoEmptyChunk(Chain(s, window))
  {
    FoldHolds(s, window);
    FoldNoEmptyChunk(s, window);
    var b := Fold(s, window);
    FlattenPush(b.closed, b.current);
    assert Flatten(b.closed) + [] == Flatten(b.closed);
  }

  /** Neighbours in a chunk are at most the window apart. */
  ghost predicate Tight(chunk: seq<Trade>, window: int) {
    forall i, j :: 0 <= i && j == i + 1 < |chunk| ==> Ts(chunk[j]) - Ts(chunk[i]) <= window
  }

  predicate Apart(a: seq<Trade>, b: seq<Trade>, window: int) {
    a != [] && b != [] && Ts(b[0]) - Ts(a[|a| - 1]) > window
  }

  ghost predicate FollowsRule(chunks: seq<seq<Trade>>, window: int) {
    && (forall c :: 0 <= c < |chunks| ==> chunks[c] != [] && Tight(chunks[c], window))
    && (forall c, d :: 0 <= c && d == c + 1 < |chunks| ==> Apart(chunks[c], chunks[d], window))
  }

  lemma RulePush(chunks: seq<seq<Trade>>, chunk: seq<Trade>, window: int)
    requires FollowsRule(chunks, window) && chunk != [] && Tight(chunk, window)
    requires chunks != [] ==> Apart(chunks[|chunks| - 1], chunk, window)
    ensures FollowsRule(chunks + [chunk], window)
  {}

  ghost predicate RuleSoFar(b: Building, window: int) {
    && FollowsRule(b.closed, window) && Tight(b.current, window)
    && (b.current != [] && b.closed != [] ==> Apart(b.closed[|b.closed| - 1], b.current, window))
    && (b.current == [] ==> b.closed == [])
  }

  lemma FeedFollowsRule(b: Building, x: Trade, window: int)
    requires RuleSoFar(b, window)
    ensures RuleSoFar(Feed(b, x, window), window)
  {
    if b.current != [] {
      RulePush(b.closed, b.current, window);
    }
  }

  lemma {:induction false} FoldFollowsRule(s: seq<Trade>, window: int)
    ensures RuleSoFar(Fold(s, window), window)
  {
    if s != [] {
      FoldFollowsRule(s[..|s| - 1], window);
      FeedFollowsRule(Fold(s[..|s| - 1], window), s[|s| - 1], window);
    }
  }

  /** The frozen rule: a gap of the window or less keeps two neighbours together, a
      larger one starts a new chunk. */
  lemma ChainFollowsRule(s: seq<Trade>, window: int)
    ensures FollowsRule(Chain(s, window), window)
  {
    FoldFollowsRule(s, window);
    var b := Fold(s, window);
    if b.current != [] {
      RulePush(b.closed, b.current, window);
    }
  }

  /** A chunk is a stretch of what was chained. */
  lemma {:induction false} ChunkIsStretch(chunks: seq<seq<Trade>>, c: nat) returns (p: nat)
    requires c < |chunks|
    ensures p + |chunks[c]| <= |Flatten(chunks)| && Flatten(chunks)[p..p + |chunks[c]|] == chunks[c]
  {
    var init, last := chunks[..|chunks| - 1], chunks[|chunks| - 1];
    if c == |init| {
      p := |Flatten(init)|;
    } else {
      p := ChunkIsStretch(init, c);
    }
  }

  // -------------------- connected components --------------------

  ghost predicate TimeSorted(s: seq<Trade>) {
    forall i, j :: 0 <= i < j < |s| ==> Ts(s[i]) <= Ts(s[j])
  }

  /** Fills no further apart than the window are never split. */
  lemma {:induction false} CloseStayTogether(s: seq<Trade>, window: int, p: nat, q: nat)
    requires TimeSorted(s) && p <= q < |s| && Ts(s[q]) - Ts(s[p]) <= window
    ensures ChunkOf(s, window, p) == ChunkOf(s, window, q)
    decreases q - p
  {
    if p < q {
      CloseStayTogether(s, window, p, q - 1);
    }
  }

  /** One step of the gap relation: same market and direction, within the window. */
  predicate Near(a: Trade, b: Trade, window: int) {
    KeyOf(a) == KeyOf(b) && -window <= Ts(a) - Ts(b) <= window
  }

  predicate StepAt(path: seq<Trade>, window: int, i: int)
    requires 0 <= i < |path| - 1
  {
    Near(path[i], path[i + 1], window)
  }

  ghost predicate Path(fills: seq<Trade>, window: int, path: seq<Trade>, x: Trade, y: Trade) {
    && path != [] && path[0] == x && path[|path| - 1] == y
    && (forall i :: 0 <= i < |path| ==> path[i] in fills)
    && (forall i :: 0 <= i < |path| - 1 ==> StepAt(path, window, i))
  }

  /** x and y are in the same connected component of the gap relation. */
  ghost predicate Linked(fills: seq<Trade>, window: int, x: Trade, y: Trade) {
    exists path :: Path(fills, window, path, x, y)
  }

  function Group(fills: seq<Trade>, k: Key): seq<Trade> {
    SortBy(Filter(fills, InGroup(k)), FillLe)
  }

  function Chunks(fills: seq<Trade>, window: int, k: Key): seq<seq<Trade>> {
    Chain(Group(fills, k), window)
  }

  ghost predicate ShareChunk(fills: seq<Trade>, window: int, x: Trade, y: Trade) {
    exists k, c :: 0 <= c < |Chunks(fills, window, k)| && x in Chunks(fills, window, k)[c]
      && y in Chunks(fills, window, k)[c]
  }

  lemma FillLeOrder()
    ensures TotalPreorder(FillLe)
  {
    StringLeOrder();
  }

  lemma GroupFacts(fills: seq<Trade>, k: Key)
    ensures SortedBy(Group(fills, k), FillLe) && TimeSorted(Group(fills, k))
    ensures forall f :: f in Group(fills, k) <==> f in fills && KeyOf(f) == k
  {
    FillLeOrder();
    var kept := Filter(fills, InGroup(k));
    FilterMembers(fills, InGroup(k));
    SortSorts(kept, FillLe);
    SortMembers(kept, FillLe);
    var s := Group(fills, k);
    forall i, j | 0 <= i < j < |s| ensures Ts(s[i]) <= Ts(s[j]) {
      assert FillLe(s[i], s[j]);
    }
  }

  lemma NearStaysInChunk(fills: seq<Trade>, window: int, k: Key, p: nat, z: Trade) returns (q: nat)
    requires p < |Group(fills, k)| && z in fills && Near(Group(fills, k)[p], z, window)
    ensures q < |Group(fills, k)| && Group(fills, k)[q] == z
    ensures ChunkOf(Group(fills, k), window, q) == ChunkOf(Group(fills, k), window, p)
  {
    var s := Group(fills, k);
    GroupFacts(fills, k);
    assert s[p] in s;
    assert z in s;
    q :| 0 <= q < |s| && s[q] == z;
    if p <= q {
      CloseStayTogether(s, window, p, q);
    } else {
      CloseStayTogether(s, window, q, p);
    }
  }

  lemma PathTail(fills: seq<Trade>, window: int, path: seq<Trade>, x: Trade, y: Trade)
    requires Path(fills, window, path, x, y) && |path| > 1
    ensures Path(fills, window, path[1..], path[1], y) && Near(x, path[1], window) && path[1] in fills
  {
    var rest := path[1..];
    assert StepAt(path, window, 0);
    forall i | 0 <= i < |rest| - 1 ensures StepAt(rest, window, i) {
      assert StepAt(path, window, i + 1);
    }
  }

  /** Walking along a path never leaves the chunk. */
  lemma {:induction false} PathStaysInChunk(fills: seq<Trade>, window: int, path: seq<Trade>, x: Trade, y: Trade,
      k: Key, p: nat)
    requires Path(fills, window, path, x, y)
    requires p < |Group(fills, k)| && Group(fills, k)[p] == x
    ensures InChunk(Group(fills, k), window, ChunkOf(Group(fills, k), window, p), y)
    decreases |path|
  {
    if |path| == 1 {
      assert Group(fills, k)[p] == y;
    } else {
      PathTail(fills, window, path, x, y);
      var q := NearStaysInChunk(fills, window, k, p, path[1]);
      PathStaysInChunk(fills, window, path[1..], path[1], y, k, q);
    }
  }

  ghost predicate OneGroup(s: seq<Trade>, fills: seq<Trade>, k: Key) {
    && TimeSorted(s)
    && (forall i :: 0 <= i < |s| ==> s[i] in fills && KeyOf(s[i]) == k)
  }

  lemma SameChunkNear(s: seq<Trade>, fills: seq<Trade>, window: int, k: Key, p: nat, q: nat, i: nat)
    requires OneGroup(s, fills, k) && p <= i < q < |s| && ChunkOf(s, window, p) == ChunkOf(s, window, q)
    ensures Near(s[i], s[i + 1], window)
  {
    ChunkOfRises(s, window, p, i);
    ChunkOfRises(s, window, i + 1, q);
    assert ChunkOf(s, window, i + 1) == ChunkOf(s, window, i);
    assert Ts(s[i]) <= Ts(s[i + 1]);
  }

  lemma LinkedExtends(fills: seq<Trade>, window: int, x: Trade, y: Trade, z: Trade)
    requires Linked(fills, window, x, y) && Near(y, z, window) && z in fills
    ensures Linked(fills, window, x, z)
  {
    var path :| Path(fills, window, path, x, y);
    var longer := path + [z];
    forall i | 0 <= i < |longer| - 1 ensures StepAt(longer, window, i) {
      assert i < |path| - 1 ==> StepAt(path, window, i);
    }
    assert Path(fills, window, longer, x, z);
  }

  /** A stretch of one chunk is a path. */
  lemma {:induction false} ChunkIsPath(s: seq<Trade>, fills: seq<Trade>, window: int, k: Key, p: nat, q: nat)
    requires OneGroup(s, fills, k) && p <= q < |s| && ChunkOf(s, window, p) == ChunkOf(s, window, q)
    ensures Linked(fills, window, s[p], s[q])
    decreases q - p
  {
    if p == q {
      assert Path(fills, window, [s[p]], s[p], s[p]);
    } else {
      ChunkOfRises(s, window, p, q - 1);
      assert ChunkOf(s, window, q - 1) <= ChunkOf(s, window, q);
      ChunkIsPath(s, fills, window, k, p, q - 1);
      SameChunkNear(s, fills, window, k, p, q, q - 1);
      LinkedExtends(fills, window, s[p], s[q - 1], s[q]);
    }
  }

  lemma GroupIsOne(fills: seq<Trade>, k: Key)
    ensures OneGroup(Group(fills, k), fills, k)
  {
    GroupFacts(fills, k);
    var s := Group(fills, k);
    assert forall i :: 0 <= i < |s| ==> s[i] in s;
  }

  lemma LinkedBackwards(fills: seq<Trade>, window: int, x: Trade, y: Trade)
    requires Linked(fills, window, x, y)
    ensures Linked(fills, window, y, x)
  {
    var path :| Path(fills, window, path, x, y);
    var n := |path|;
    var back := seq(n, i requires 0 <= i < n => path[n - 1 - i]);
    forall i | 0 <= i < n - 1 ensures StepAt(back, window, i) {
      assert StepAt(path, window, n - 2 - i);
    }
    assert Path(fills, window, back, y, x);
  }

  lemma SharedMeansLinked(fills: seq<Trade>, window: int, x: Trade, y: Trade)
    requires ShareChunk(fills, window, x, y)
    ensures Linked(fills, window, x, y)
  {
    var k, c :| 0 <= c < |Chunks(fills, window, k)| && x in Chunks(fills, window, k)[c]
      && y in Chunks(fills, window, k)[c];
    var s := Group(fills, k);
    ChainByChunk(s, window, x);
    ChainByChunk(s, window, y);
    assert InChunk(s, window, c, x) && InChunk(s, window, c, y);
    var p :| 0 <= p < |s| && s[p] == x && ChunkOf(s, window, p) == c;
    var q :| 0 <= q < |s| && s[q] == y && ChunkOf(s, window, q) == c;
    GroupIsOne(fills, k);
    if p <= q {
      ChunkIsPath(s, fills, window, k, p, q);
    } else {
      ChunkIsPath(s, fills, window, k, q, p);
      LinkedBackwards(fills, window, y, x);
    }
  }

  lemma ChunkHolds(s: seq<Trade>, window: int, c: nat, x: Trade)
    requires InChunk(s, window, c, x)
    ensures c < |Chain(s, window)| && x in Chain(s, window)[c]
  {
    ChainByChunk(s, window, x);
    var p :| 0 <= p < |s| && s[p] == x && ChunkOf(s, window, p) == c;
    ChunkOfRises(s, window, p, |s| - 1);
  }

  lemma LinkedMeansShared(fills: seq<Trade>, window: int, x: Trade, y: Trade)
    requires x in fills && Linked(fills, window, x, y)
    ensures ShareChunk(fills, window, x, y)
  {
    var path :| Path(fills, window, path, x, y);
    var k := KeyOf(x);
    var s := Group(fills, k);
    GroupFacts(fills, k);
    assert x in s;
    var p :| 0 <= p < |s| && s[p] == x;
    var c := ChunkOf(s, window, p);
    PathStaysInChunk(fills, window, path, x, y, k, p);
    assert InChunk(s, window, c, x);
    ChunkHolds(s, window, c, x);
    ChunkHolds(s, window, c, y);
    assert x in Chunks(fills, window, k)[c] && y in Chunks(fills, window, k)[c];
  }

  /** Chunks are the connected components of the gap relation. */
  lemma ChunksAreComponents(fills: seq<Trade>, window: int, x: Trade, y: Trade)
    requires x in fills
    ensures ShareChunk(fills, window, x, y) <==> Linked(fills, window, x, y)
  {
    if ShareChunk(fills, window, x, y) {
      SharedMeansLinked(fills, window, x, y);
    }
    if Linked(fills, window, x, y) {
      LinkedMeansShared(fills, window, x, y);
    }
  }

  // -------------------- totals --------------------

  function TotalOf(fills: seq<Trade>, amount: Trade -> real): real {
    if fills == [] then 0.0 else TotalOf(fills[..|fills| - 1], amount) + amount(fills[|fills| - 1])
  }

  lemma {:induction false} TotalConcat(a: seq<Trade>, b: seq<Trade>, amount: Trade -> real)
    ensures TotalOf(a + b, amount) == TotalOf(a, amount) + TotalOf(b, amount)
  {
    if b == [] {
      assert a + b == a;
    } else {
      assert (a + b)[..|a + b| - 1] == a + b[..|b| - 1];
      TotalConcat(a, b[..|b| - 1], amount);
    }
  }

  lemma TotalOfOne(x: Trade, amount: Trade -> real)
    ensures TotalOf([x], amount) == amount(x)
  {
    assert [x][..0] == [];
  }

  lemma TotalWithout(before: seq<Trade>, x: Trade, after: seq<Trade>, amount: Trade -> real)
    ensures TotalOf(before + [x] + after, amount) == TotalOf(before + after, amount) + amount(x)
  {
    TotalConcat(before + [x], after, amount);
    TotalConcat(before, [x], amount);
    TotalConcat(before, after, amount);
    TotalOfOne(x, amount);
  }

  lemma {:induction false} TotalPermutes(a: seq<Trade>, b: seq<Trade>, amount: Trade -> real)
    requires multiset(a) == multiset(b)
    ensures TotalOf(a, amount) == TotalOf(b, amount)
  {
    assert |multiset(a)| == |a| && |multiset(b)| == |b|;
    if a != [] {
      var x := a[|a| - 1];
      InitMultiset(a);
      var i := RemoveOne(b, x);
      TotalPermutes(a[..|a| - 1], b[..i] + b[i + 1..], amount);
      TotalWithout(b[..i], x, b[i + 1..], amount);
    }
  }

  ghost predicate PricedWithin(chunk: seq<Trade>, lo: real, hi: real) {
    forall i :: 0 <= i < |chunk| ==> lo <= chunk[i].price <= hi && chunk[i].size > 0.0
  }

  lemma AddBetween(lo: real, hi: real, shares: real, dollars: real, price: real, size: real)
    requires lo * shares <= dollars <= hi * shares && lo <= price <= hi && size > 0.0
    ensures lo * (shares + size) <= dollars + price * size <= hi * (shares + size)
  {
    assert (price - lo) * size >= 0.0 && (hi - price) * size >= 0.0;
    assert lo * (shares + size) == lo * shares + lo * size;
    assert hi * (shares + size) == hi * shares + hi * size;
  }

  /** The dollars of a chunk lie between its extreme prices times its shares. */
  lemma {:induction false} DollarsBetweenPrices(chunk: seq<Trade>, lo: real, hi: real)
    requires PricedWithin(chunk, lo, hi)
    ensures lo * TotalOf(chunk, Shares) <= TotalOf(chunk, Dollars) <= hi * TotalOf(chunk, Shares)
    ensures TotalOf(chunk, Shares) >= 0.0 && (chunk != [] ==> TotalOf(chunk, Shares) > 0.0)
  {
    if chunk != [] {
      var init, x := chunk[..|chunk| - 1], chunk[|chunk| - 1];
      DollarsBetweenPrices(init, lo, hi);
      var shares, dollars := TotalOf(init, Shares), TotalOf(init, Dollars);
      assert TotalOf(chunk, Shares) == shares + x.size;
      assert TotalOf(chunk, Dollars) == dollars + x.price * x.size;
      AddBetween(lo, hi, shares, dollars, x.price, x.size);
    }
  }

  lemma NegativeTimesPositive(a: real, b: real)
    requires a < 0.0 && b > 0.0
    ensures a * b < 0.0
  {}

  lemma QuotientBetween(lo: real, hi: real, shares: real, dollars: real)
    requires shares > 0.0 && lo * shares <= dollars <= hi * shares
    ensures lo <= dollars / shares <= hi
  {
    var v := dollars / shares;
    assert v * shares == dollars;
    if v < lo {
      NegativeTimesPositive(v - lo, shares);
      assert false;
    }
    if v > hi {
      NegativeTimesPositive(hi - v, shares);
      assert false;
    }
  }

  function Ids(fills: seq<Trade>): seq<string> {
    seq(|fills|, i requires 0 <= i < |fills| => fills[i].fillId)
  }

  /** _make_episode. */
  function MakeEpisode(k: Key, chunk: seq<Trade>): Episode
    requires chunk != []
  {
    var shares, dollars := TotalOf(chunk, Shares), TotalOf(chunk, Dollars);
    Episode(
      k, Ts(chunk[0]), Ts(chunk[|chunk| - 1]), shares, dollars,
      if shares > 0.0 then dollars / shares else 0.0, Ids(chunk))
  }

  /** An episode spans its fills, and the next one of the same key starts more than
      the window after it ends. */
  lemma EpisodeSpansItsFills(fills: seq<Trade>, window: int, k: Key, c: nat)
    requires c < |Chunks(fills, window, k)|
    ensures Chunks(fills, window, k)[c] != []
    ensures var chunk := Chunks(fills, window, k)[c];
      var e := MakeEpisode(k, chunk);
      && |e.members| == |chunk|
      && (forall i :: 0 <= i < |chunk| ==> e.startMs <= Ts(chunk[i]) <= e.endMs && e.members[i] == chunk[i].fillId)
      && (forall i :: 0 <= i < |chunk| ==> KeyOf(chunk[i]) == k)
    ensures c + 1 < |Chunks(fills, window, k)| ==>
      Chunks(fills, window, k)[c + 1] != []
      && MakeEpisode(k, Chunks(fills, window, k)[c + 1]).startMs
        > MakeEpisode(k, Chunks(fills, window, k)[c]).endMs + window
  {
    var s, chunks := Group(fills, k), Chunks(fills, window, k);
    GroupFacts(fills, k);
    ChainFlattens(s, window);
    ChainFollowsRule(s, window);
    var p := ChunkIsStretch(chunks, c);
    forall i | 0 <= i < |chunks[c]|
      ensures Ts(chunks[c][0]) <= Ts(chunks[c][i]) <= Ts(chunks[c][|chunks[c]| - 1]) && KeyOf(chunks[c][i]) == k
    {
      assert chunks[c][i] == s[p + i] && chunks[c][0] == s[p] && chunks[c][|chunks[c]| - 1] == s[p + |chunks[c]| - 1];
      assert s[p + i] in s;
    }
  }

  /** The vwap lies between any bounds on the member prices; the share total is
      positive, so the source's NaN branch is never taken. */
  lemma VwapBetweenPrices(k: Key, chunk: seq<Trade>, lo: real, hi: real)
    requires chunk != [] && PricedWithin(chunk, lo, hi)
    ensures MakeEpisode(k, chunk).totalShares > 0.0 && lo <= MakeEpisode(k, chunk).vwap <= hi
  {
    DollarsBetweenPrices(chunk, lo, hi);
    QuotientBetween(lo, hi, TotalOf(chunk, Shares), TotalOf(chunk, Dollars));
  }

  // -------------------- all groups --------------------

  lemma KeyLeOrder()
    ensures TotalPreorder(KeyLe) && Antisymmetric(KeyLe)
  {
    StringLeOrder();
  }

  function Least(ks: set<Key>): (k: Key)
    requires ks != {}
    ensures k in ks && forall j :: j in ks ==> KeyLe(k, j)
  {
    KeyLeOrder();
    LeastExists(ks, KeyLe);
    var k :| k in ks && forall j :: j in ks ==> KeyLe(k, j);
    k
  }

  /** `sorted(groups)`. */
  function SortedKeys(ks: set<Key>): (s: seq<Key>)
    ensures |s| == |ks| && forall k :: k in s <==> k in ks
  {
    if ks == {} then []
    else
      var k := Least(ks);
      [k] + SortedKeys(ks - {k})
  }

  function GroupEpisodes(k: Key, chunks: seq<seq<Trade>>): seq<Episode>
    requires NoEmptyChunk(chunks)
  {
    seq(|chunks|, c requires 0 <= c < |chunks| => MakeEpisode(k, chunks[c]))
  }

  function ChunkEpisodes(fills: seq<Trade>, window: int, k: Key): seq<Episode> {
    ChainFlattens(Group(fills, k), window);
    GroupEpisodes(k, Chunks(fills, window, k))
  }

  function EpisodesFor(fills: seq<Trade>, window: int, keys: seq<Key>): seq<Episode> {
    if keys == [] then []
    else EpisodesFor(fills, window, keys[..|keys| - 1]) + ChunkEpisodes(fills, window, keys[|keys| - 1])
  }

  /** build_episodes on the usable fills: by sorted key, then the final sort. */
  function Build(fills: seq<Trade>, window: int): seq<Episode> {
    SortBy(EpisodesFor(fills, window, SortedKeys(Keys(fills))), EpisodeLe)
  }

  function FillsFor(fills: seq<Trade>, window: int, keys: seq<Key>): seq<Trade> {
    if keys == [] then []
    else FillsFor(fills, window, keys[..|keys| - 1]) + Flatten(Chunks(fills, window, keys[|keys| - 1]))
  }

  ghost predicate DistinctKeys(keys: seq<Key>) {
    forall i, j :: 0 <= i < j < |keys| ==> keys[i] != keys[j]
  }

  lemma {:induction false} FilterCount(fills: seq<Trade>, k: Key, x: Trade)
    ensures multiset(Filter(fills, InGroup(k)))[x] == if KeyOf(x) == k then multiset(fills)[x] else 0
  {
    if fills != [] {
      FilterCount(fills[1..], k, x);
      assert fills == [fills[0]] + fills[1..];
    }
  }

  lemma GroupCount(fills: seq<Trade>, window: int, k: Key, x: Trade)
    ensures multiset(Flatten(Chunks(fills, window, k)))[x] == if KeyOf(x) == k then multiset(fills)[x] else 0
  {
    ChainFlattens(Group(fills, k), window);
    SortPermutes(Filter(fills, InGroup(k)), FillLe);
    FilterCount(fills, k, x);
  }

  lemma {:induction false} FillsForCount(fills: seq<Trade>, window: int, keys: seq<Key>, x: Trade)
    requires DistinctKeys(keys)
    ensures multiset(FillsFor(fills, window, keys))[x] == if KeyOf(x) in keys then multiset(fills)[x] else 0
  {
    if keys != [] {
      var init, k := keys[..|keys| - 1], keys[|keys| - 1];
      FillsForCount(fills, window, init, x);
      GroupCount(fills, window, k, x);
      assert keys == init + [k];
      assert k !in init;
      var head, tail := FillsFor(fills, window, init), Flatten(Chunks(fills, window, k));
      assert multiset(head + tail) == multiset(head) + multiset(tail);
    }
  }

  lemma PrependDistinct(k: Key, rest: seq<Key>)
    requires DistinctKeys(rest) && k !in rest
    ensures DistinctKeys([k] + rest)
  {}

  lemma {:induction false} SortedKeysDistinct(ks: set<Key>)
    ensures DistinctKeys(SortedKeys(ks))
  {
    if ks != {} {
      var k := Least(ks);
      SortedKeysDistinct(ks - {k});
      PrependDistinct(k, SortedKeys(ks - {k}));
    }
  }

  /** The chunks of all groups hold each usable fill, as often as it was given. */
  lemma ChunksPartitionFills(fills: seq<Trade>, window: int)
    ensures multiset(FillsFor(fills, window, SortedKeys(Keys(fills)))) == multiset(fills)
  {
    var keys := SortedKeys(Keys(fills));
    SortedKeysDistinct(Keys(fills));
    forall x: Trade ensures multiset(FillsFor(fills, window, keys))[x] == multiset(fills)[x] {
      FillsForCount(fills, window, keys, x);
      if x in fills {
        assert KeyOf(x) in Keys(fills);
      }
    }
  }

  function EpisodeShares(es: seq<Episode>): real {
    if es == [] then 0.0 else EpisodeShares(es[1..]) + es[0].totalShares
  }

  function EpisodeDollars(es: seq<Episode>): real {
    if es == [] then 0.0 else EpisodeDollars(es[1..]) + es[0].totalDollars
  }

  lemma EpisodeTotalsPush(es: seq<Episode>, e: Episode)
    ensures EpisodeShares(es + [e]) == EpisodeShares(es) + e.totalShares
    ensures EpisodeDollars(es + [e]) == EpisodeDollars(es) + e.totalDollars
  {
    EpisodeTotalsConcat(es, [e]);
    assert [e][1..] == [];
  }

  lemma GroupEpisodesLast(k: Key, chunks: seq<seq<Trade>>)
    requires NoEmptyChunk(chunks) && chunks != []
    ensures NoEmptyChunk(chunks[..|chunks| - 1]) && chunks[|chunks| - 1] != []
    ensures GroupEpisodes(k, chunks)
      == GroupEpisodes(k, chunks[..|chunks| - 1]) + [MakeEpisode(k, chunks[|chunks| - 1])]
  {}

  lemma {:induction false} GroupEpisodesTotal(k: Key, chunks: seq<seq<Trade>>)
    requires NoEmptyChunk(chunks)
    ensures EpisodeShares(GroupEpisodes(k, chunks)) == TotalOf(Flatten(chunks), Shares)
    ensures EpisodeDollars(GroupEpisodes(k, chunks)) == TotalOf(Flatten(chunks), Dollars)
  {
    if chunks != [] {
      var init, last := chunks[..|chunks| - 1], chunks[|chunks| - 1];
      GroupEpisodesLast(k, chunks);
      GroupEpisodesTotal(k, init);
      EpisodeTotalsPush(GroupEpisodes(k, init), MakeEpisode(k, last));
      TotalConcat(Flatten(init), last, Shares);
      TotalConcat(Flatten(init), last, Dollars);
    }
  }

  lemma {:induction false} EpisodeTotalsConcat(a: seq<Episode>, b: seq<Episode>)
    ensures EpisodeShares(a + b) == EpisodeShares(a) + EpisodeShares(b)
    ensures EpisodeDollars(a + b) == EpisodeDollars(a) + EpisodeDollars(b)
  {
    if a == [] {
      assert a + b == b;
    } else {
      assert (a + b)[1..] == a[1..] + b;
      EpisodeTotalsConcat(a[1..], b);
    }
  }

  lemma {:induction false} EpisodesForTotal(fills: seq<Trade>, window: int, keys: seq<Key>)
    ensures EpisodeShares(EpisodesFor(fills, window, keys)) == TotalOf(FillsFor(fills, window, keys), Shares)
    ensures EpisodeDollars(EpisodesFor(fills, window, keys)) == TotalOf(FillsFor(fills, window, keys), Dollars)
  {
    if keys != [] {
      var init, k := keys[..|keys| - 1], keys[|keys| - 1];
      EpisodesForTotal(fills, window, init);
      ChainFlattens(Group(fills, k), window);
      GroupEpisodesTotal(k, Chunks(fills, window, k));
      EpisodeTotalsConcat(EpisodesFor(fills, window, init), ChunkEpisodes(fills, window, k));
      TotalConcat(FillsFor(fills, window, init), Flatten(Chunks(fills, window, k)), Shares);
      TotalConcat(FillsFor(fills, window, init), Flatten(Chunks(fills, window, k)), Dollars);
    }
  }

  lemma {:induction false} InsertKeepsTotals(e: Episode, es: seq<Episode>)
    ensures EpisodeShares(InsertBy(e, es, EpisodeLe)) == EpisodeShares(es) + e.totalShares
    ensures EpisodeDollars(InsertBy(e, es, EpisodeLe)) == EpisodeDollars(es) + e.totalDollars
  {
    if es != [] {
      InsertKeepsTotals(e, es[1..]);
      assert ([e] + es)[1..] == es;
    }
  }

  lemma {:induction false} SortKeepsTotals(es: seq<Episode>)
    ensures EpisodeShares(SortBy(es, EpisodeLe)) == EpisodeShares(es)
    ensures EpisodeDollars(SortBy(es, EpisodeLe)) == EpisodeDollars(es)
  {
    if es != [] {
      SortKeepsTotals(es[1..]);
      InsertKeepsTotals(es[0], SortBy(es[1..], EpisodeLe));
    }
  }

  /** Conservation: the episodes hold all the shares and dollars of the fills. */
  lemma TotalsAreConserved(fills: seq<Trade>, window: int)
    ensures EpisodeShares(Build(fills, window)) == TotalOf(fills, Shares)
    ensures EpisodeDollars(Build(fills, window)) == TotalOf(fills, Dollars)
  {
    var keys := SortedKeys(Keys(fills));
    SortKeepsTotals(EpisodesFor(fills, window, keys));
    EpisodesForTotal(fills, window, keys);
    ChunksPartitionFills(fills, window);
    TotalPermutes(FillsFor(fills, window, keys), fills, Shares);
    TotalPermutes(FillsFor(fills, window, keys), fills, Dollars);
  }

  // -------------------- input order --------------------

  ghost predicate DistinctFills(fills: seq<Trade>) {
    forall i, j :: 0 <= i < j < |fills| ==> fills[i].fillId != fills[j].fillId
  }

  lemma SameElements(a: seq<Trade>, b: seq<Trade>)
    requires multiset(a) == multiset(b)
    ensures forall x :: x in a <==> x in b
  {
    forall x ensures x in a <==> x in b {
      assert x in multiset(a) <==> x in multiset(b);
    }
  }

  lemma SameGroup(a: seq<Trade>, b: seq<Trade>, k: Key)
    requires multiset(a) == multiset(b) && DistinctFills(a)
    ensures Group(a, k) == Group(b, k)
  {
    var fa, fb := Filter(a, InGroup(k)), Filter(b, InGroup(k));
    forall x: Trade ensures multiset(fa)[x] == multiset(fb)[x] {
      FilterCount(a, k, x);
      FilterCount(b, k, x);
    }
    assert multiset(fa) == multiset(fb);
    SortPermutes(fa, FillLe);
    SortPermutes(fb, FillLe);
    GroupFacts(a, k);
    GroupFacts(b, k);
    var s := Group(a, k);
    forall i, j | 0 <= i < |s| && 0 <= j < |s| && FillLe(s[i], s[j]) && FillLe(s[j], s[i]) ensures s[i] == s[j] {
      StringLeTotal(s[i].fillId, s[j].fillId);
      assert s[i] in s && s[j] in s;
      var p :| 0 <= p < |a| && a[p] == s[i];
      var q :| 0 <= q < |a| && a[q] == s[j];
      assert p == q;
    }
    SortedUnique(Group(a, k), Group(b, k), FillLe);
  }

  lemma {:induction false} SameEpisodesFor(a: seq<Trade>, b: seq<Trade>, window: int, keys: seq<Key>)
    requires multiset(a) == multiset(b) && DistinctFills(a)
    ensures EpisodesFor(a, window, keys) == EpisodesFor(b, window, keys)
  {
    if keys != [] {
      SameGroup(a, b, keys[|keys| - 1]);
      SameEpisodesFor(a, b, window, keys[..|keys| - 1]);
    }
  }

  /** With distinct fill ids the result does not depend on the order of the fills. */
  lemma SameBuild(a: seq<Trade>, b: seq<Trade>, window: int)
    requires multiset(a) == multiset(b) && DistinctFills(a)
    ensures Build(a, window) == Build(b, window)
  {
    SameElements(a, b);
    assert Keys(a) == Keys(b);
    SameEpisodesFor(a, b, window, SortedKeys(Keys(a)));
  }

  // -------------------- the builder --------------------

  datatype BuildResult = BuildResult(episodes: seq<Episode>, invalid: seq<InvalidFill>)

  ghost predicate GroupedBy(groups: map<Key, seq<Trade>>, fills: seq<Trade>) {
    && groups.Keys == Keys(fills)
    && forall k :: k in groups ==> groups[k] == Filter(fills, InGroup(k))
  }

  function AddToGroup(groups: map<Key, seq<Trade>>, t: Trade): map<Key, seq<Trade>> {
    groups[t.key := (if t.key in groups then groups[t.key] else []) + [t]]
  }

  lemma GroupsGrow(groups: map<Key, seq<Trade>>, fills: seq<Trade>, t: Trade)
    requires GroupedBy(groups, fills)
    ensures GroupedBy(AddToGroup(groups, t), fills + [t])
  {
    var all, after := fills + [t], AddToGroup(groups, t);
    assert Keys(all) == Keys(fills) + {t.key} by {
      forall k | k in Keys(fills) ensures k in Keys(all) {
        var q :| q in fills && KeyOf(q) == k;
        assert q in all;
      }
      assert t in all && KeyOf(t) == t.key;
    }
    forall k | k in after ensures after[k] == Filter(all, InGroup(k)) {
      FilterConcat(fills, [t], InGroup(k));
      assert Filter([t], InGroup(k)) == if t.key == k then [t] else [];
      if k !in groups {
        FilterNone(fills, InGroup(k));
      }
      assert Filter(fills, InGroup(k)) + [] == Filter(fills, InGroup(k));
    }
  }

  lemma GroupEpisodesPush(k: Key, chunks: seq<seq<Trade>>, chunk: seq<Trade>)
    requires chunk != [] && NoEmptyChunk(chunks)
    ensures GroupEpisodes(k, chunks + [chunk]) == GroupEpisodes(k, chunks) + [MakeEpisode(k, chunk)]
  {}

  /** The inner loop of build_episodes, over one sorted group. */
  method ChainGroup(k: Key, ordered: seq<Trade>, window: int) returns (episodes: seq<Episode>)
    ensures NoEmptyChunk(Chain(ordered, window))
    ensures episodes == GroupEpisodes(k, Chain(ordered, window))
  {
    episodes := [];
    var current: seq<Trade> := [];
    ghost var closed: seq<seq<Trade>> := [];
    for i := 0 to |ordered|
      invariant Fold(ordered[..i], window) == Building(closed, current)
      invariant NoEmptyChunk(closed) && episodes == GroupEpisodes(k, closed)
    {
      assert ordered[..i + 1][..i] == ordered[..i];
      if current != [] && ordered[i].ts - current[|current| - 1].ts > window {
        GroupEpisodesPush(k, closed, current);
        episodes := episodes + [MakeEpisode(k, current)];
        closed := closed + [current];
        current := [];
        assert current + [ordered[i]] == [ordered[i]];
      }
      current := current + [ordered[i]];
    }
    assert ordered[..|ordered|] == ordered;
    if current != [] {
      GroupEpisodesPush(k, closed, current);
      episodes := episodes + [MakeEpisode(k, current)];
    }
  }

  /** The first loop of build_episodes. */
  method GroupFills(fills: seq<Fill>) returns (invalid: seq<InvalidFill>, groups: map<Key, seq<Trade>>)
    ensures invalid == InvalidFills(fills) && GroupedBy(groups, UsableFills(fills))
  {
    invalid, groups := [], map[];
    for i := 0 to |fills|
      invariant invalid == InvalidFills(fills[..i])
      invariant GroupedBy(groups, UsableFills(fills[..i]))
    {
      assert fills[..i + 1][..i] == fills[..i];
      ghost var before := UsableFills(fills[..i]);
      var f := fills[i];
      if f.isBuy {
        if Validate(f).Some? {
          invalid := invalid + [InvalidFill(f.fillId, f.conditionId, Validate(f).value)];
        } else {
          GroupsGrow(groups, before, TradeOf(f));
          groups := AddToGroup(groups, TradeOf(f));
          assert UsableFills(fills[..i + 1]) == before + [TradeOf(f)];
        }
      }
      if !Usable(f) {
        assert UsableFills(fills[..i + 1]) == before + [] == before;
      }
    }
    assert fills[..|fills|] == fills;
  }

  method KeyEpisodes(groups: map<Key, seq<Trade>>, ghost usable: seq<Trade>, window: int, k: Key)
      returns (episodes: seq<Episode>)
    requires GroupedBy(groups, usable) && k in groups
    ensures episodes == ChunkEpisodes(usable, window, k)
  {
    episodes := ChainGroup(k, SortBy(groups[k], FillLe), window);
  }

  /** The outer loop of build_episodes, over the groups in key order. */
  method EpisodesByKey(groups: map<Key, seq<Trade>>, ghost usable: seq<Trade>, window: int, keys: seq<Key>)
    returns (episodes: seq<Episode>)
    requires GroupedBy(groups, usable) && forall j :: 0 <= j < |keys| ==> keys[j] in groups
    ensures episodes == EpisodesFor(usable, window, keys)
  {
    episodes := [];
    for j := 0 to |keys|
      invariant episodes == EpisodesFor(usable, window, keys[..j])
    {
      assert keys[..j + 1][..j] == keys[..j];
      var made := KeyEpisodes(groups, usable, window, keys[j]);
      episodes := episodes + made;
    }
    assert keys[..|keys|] == keys;
  }

  /** build_episodes; None for a rule other than the frozen one. */
  method BuildEpisodes(fills: seq<Fill>, window: int, rule: string) returns (result: Option<BuildResult>)
    ensures result == None <==> rule != EPISODE_RULE
    ensures result.Some? ==> result.value == BuildResult(Build(UsableFills(fills), window), InvalidFills(fills))
  {
    if rule != EPISODE_RULE {
      return None;
    }
    var invalid, groups := GroupFills(fills);
    var keys := SortedKeys(groups.Keys);
    assert forall j :: 0 <= j < |keys| ==> keys[j] in keys;
    var episodes := EpisodesByKey(groups, UsableFills(fills), window, keys);
    return Some(BuildResult(SortBy(episodes, EpisodeLe), invalid));
  }
}
