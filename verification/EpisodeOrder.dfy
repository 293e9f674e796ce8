/** The order in which events/episode_builder.py returns its episodes, and which fills
    it takes. */
module EpisodeOrder {
  import opened Options
  import opened Ordering
  import opened Episodes

  /** The first k chunks take up the start of the flattened fills. */
  lemma {:induction false} FlattenPrefix(chunks: seq<seq<Trade>>, k: nat)
    requires k <= |chunks|
    ensures Flatten(chunks[..k]) <= Flatten(chunks)
  {
    if k == |chunks| {
      assert chunks[..k] == chunks;
    } else {
      var init := chunks[..|chunks| - 1];
      FlattenPrefix(init, k);
      assert init[..k] == chunks[..k];
    }
  }

  lemma ChunkPosition(chunks: seq<seq<Trade>>, d: nat)
    requires d < |chunks|
    ensures var p := |Flatten(chunks[..d])|;
      p + |chunks[d]| <= |Flatten(chunks)| && Flatten(chunks)[p..p + |chunks[d]|] == chunks[d]
  {
    var upto := chunks[..d + 1];
    FlattenPrefix(chunks, d + 1);
    assert upto[..d] == chunks[..d];
    var p := |Flatten(chunks[..d])|;
    assert Flatten(upto) == Flatten(chunks[..d]) + chunks[d];
    assert Flatten(chunks)[..|Flatten(upto)|] == Flatten(upto);
  }

  /** Of two chunks of a time-sorted list the earlier one ends no later than the other starts. */
  lemma ChunksInTime(chunks: seq<seq<Trade>>, c: nat, d: nat)
    requires TimeSorted(Flatten(chunks)) && NoEmptyChunk(chunks) && c < d < |chunks|
    ensures Ts(chunks[c][|chunks[c]| - 1]) <= Ts(chunks[d][0])
    ensures Ts(chunks[c][0]) <= Ts(chunks[d][0])
  {
    var s := Flatten(chunks);
    var p, q := |Flatten(chunks[..c])|, |Flatten(chunks[..d])|;
    ChunkPosition(chunks, c);
    ChunkPosition(chunks, d);
    ChunkPosition(chunks[..d], c);
    assert chunks[..d][..c] == chunks[..c];
    assert p + |chunks[c]| <= q;
    assert chunks[c][|chunks[c]| - 1] == s[p + |chunks[c]| - 1] && chunks[c][0] == s[p] && chunks[d][0] == s[q];
  }

  /** Market before market, then direction before direction. */
  predicate KeyBefore(a: Key, b: Key) {
    a != b && StringLe(a.market, b.market) && (a.market == b.market ==> StringLe(a.direction, b.direction))
  }

  /** What stands before what in the returned list. */
  predicate Precedes(a: Episode, b: Episode, window: int) {
    if a.key == b.key then b.startMs > a.endMs + window && b.startMs >= a.startMs else KeyBefore(a.key, b.key)
  }

  ghost predicate AllPrecede(es: seq<Episode>, window: int) {
    forall i, j :: 0 <= i < j < |es| ==> Precedes(es[i], es[j], window)
  }

  lemma ChunksApart(chunks: seq<seq<Trade>>, window: int, c: nat, d: nat)
    requires TimeSorted(Flatten(chunks)) && FollowsRule(chunks, window) && c < d < |chunks|
    ensures Ts(chunks[d][0]) > Ts(chunks[c][|chunks[c]| - 1]) + window
    ensures Ts(chunks[c][0]) <= Ts(chunks[d][0])
  {
    ChunksInTime(chunks, c, d);
    assert Apart(chunks[c], chunks[c + 1], window);
    if c + 1 < d {
      ChunksInTime(chunks, c + 1, d);
    }
  }

  lemma MadeInOrder(k: Key, a: seq<Trade>, b: seq<Trade>, window: int)
    requires a != [] && b != [] && Ts(b[0]) > Ts(a[|a| - 1]) + window && Ts(a[0]) <= Ts(b[0])
    ensures Precedes(MakeEpisode(k, a), MakeEpisode(k, b), window)
  {}

  lemma KeyEpisodesPrecede(fills: seq<Trade>, window: int, k: Key)
    ensures AllPrecede(ChunkEpisodes(fills, window, k), window)
    ensures forall e :: e in ChunkEpisodes(fills, window, k) ==> e.key == k
  {
    var es := ChunkEpisodes(fills, window, k);
    var chunks := Chunks(fills, window, k);
    GroupFacts(fills, k);
    ChainFlattens(Group(fills, k), window);
    ChainFollowsRule(Group(fills, k), window);
    forall c, d | 0 <= c < d < |es| ensures Precedes(es[c], es[d], window) {
      ChunksApart(chunks, window, c, d);
      MadeInOrder(k, chunks[c], chunks[d], window);
    }
  }

  lemma ConcatPrecede(a: seq<Episode>, b: seq<Episode>, window: int)
    requires AllPrecede(a, window) && AllPrecede(b, window)
    requires forall x, y :: x in a && y in b ==> Precedes(x, y, window)
    ensures AllPrecede(a + b, window)
  {
    var all := a + b;
    forall i, j | 0 <= i < j < |all| ensures Precedes(all[i], all[j], window) {
      if i < |a| <= j {
        assert all[i] in a && all[j] in b;
      }
    }
  }

  ghost predicate KeysInOrder(keys: seq<Key>) {
    forall i, j :: 0 <= i < j < |keys| ==> KeyBefore(keys[i], keys[j])
  }

  lemma {:induction false} SortedKeysInOrder(ks: set<Key>)
    ensures KeysInOrder(SortedKeys(ks))
  {
    if ks != {} {
      var k := Least(ks);
      var rest := SortedKeys(ks - {k});
      SortedKeysInOrder(ks - {k});
      forall j | 0 <= j < |rest| ensures KeyBefore(k, rest[j]) {
        assert rest[j] in rest && KeyLe(k, rest[j]);
        StringLeTotal(k.market, rest[j].market);
      }
    }
  }

  lemma {:induction false} EpisodesForPrecede(fills: seq<Trade>, window: int, keys: seq<Key>)
    requires KeysInOrder(keys)
    ensures AllPrecede(EpisodesFor(fills, window, keys), window)
    ensures forall e :: e in EpisodesFor(fills, window, keys) ==> e.key in keys
  {
    if keys != [] {
      var init, k := keys[..|keys| - 1], keys[|keys| - 1];
      EpisodesForPrecede(fills, window, init);
      KeyEpisodesPrecede(fills, window, k);
      var a, b := EpisodesFor(fills, window, init), ChunkEpisodes(fills, window, k);
      forall x, y | x in a && y in b ensures Precedes(x, y, window) {
        var i :| 0 <= i < |init| && init[i] == x.key;
        assert KeyBefore(keys[i], keys[|init|]);
      }
      ConcatPrecede(a, b, window);
      assert keys == init + [k];
    }
  }

  lemma {:induction false} SortedStays(es: seq<Episode>)
    requires SortedBy(es, EpisodeLe)
    ensures SortBy(es, EpisodeLe) == es
  {
    if es != [] {
      SortedStays(es[1..]);
      forall y | y in es[1..] ensures EpisodeLe(es[0], y) {
        var i :| 0 <= i < |es| - 1 && es[1..][i] == y;
        assert EpisodeLe(es[0], es[i + 1]);
      }
      InsertFront(es[0], es[1..], EpisodeLe);
      assert es == [es[0]] + es[1..];
    }
  }

  /** The returned list goes by market, then direction, then time, and the episodes of
      one market and direction lie more than the window apart; the groups taken in key
      order give it without the final sort. */
  lemma EpisodesInOrder(fills: seq<Trade>, window: int)
    ensures AllPrecede(Build(fills, window), window)
    ensures Build(fills, window) == EpisodesFor(fills, window, SortedKeys(Keys(fills)))
  {
    var es := EpisodesFor(fills, window, SortedKeys(Keys(fills)));
    SortedKeysInOrder(Keys(fills));
    EpisodesForPrecede(fills, window, SortedKeys(Keys(fills)));
    forall i, j | 0 <= i < j < |es| ensures EpisodeLe(es[i], es[j]) {
      assert Precedes(es[i], es[j], window);
      StringLeTotal(es[i].key.market, es[j].key.market);
    }
    SortedStays(es);
  }

  // -------------------- which fills are taken --------------------

  /** A BUY fill with every field there and in range. */
  predicate CompleteBuy(f: Fill) {
    && f.isBuy && f.timestampMs.Some? && f.conditionId.Some? && f.outcome.Some?
    && f.size.Some? && f.size.value > 0.0
    && f.price.Some? && 0.0 <= f.price.value <= 1.0
  }

  /** A complete BUY fill is taken with its own fields; any other BUY fill is reported,
      a missing time before everything else; a SELL fill is neither. */
  ghost predicate Placed(f: Fill, taken: seq<Trade>, reported: seq<InvalidFill>) {
    && (CompleteBuy(f) ==>
      Trade(
        f.fillId, f.timestampMs.value, f.size.value, f.price.value, Key(f.conditionId.value, f.outcome.value)) in taken)
    && (f.isBuy && !CompleteBuy(f) ==>
      InvalidFill(
        f.fillId, f.conditionId, if f.timestampMs.None? then Reason.TimestampInvalid else FieldIncomplete) in reported)
  }

  ghost predicate FromComplete(fills: seq<Fill>, t: Trade) {
    exists f :: f in fills && CompleteBuy(f) && t.fillId == f.fillId && t.ts == f.timestampMs.value
      && t.size == f.size.value && t.price == f.price.value
      && t.key == Key(f.conditionId.value, f.outcome.value)
  }

  ghost predicate FromOtherBuy(fills: seq<Fill>, x: InvalidFill) {
    exists f :: f in fills && f.isBuy && !CompleteBuy(f) && x.fillId == f.fillId && x.conditionId == f.conditionId
  }

  /** Every fill finds its place, and nothing else is taken or reported. */
  lemma {:induction false} EveryFillIsPlaced(fills: seq<Fill>)
    ensures forall f :: f in fills ==> Placed(f, UsableFills(fills), InvalidFills(fills))
    ensures forall t :: t in UsableFills(fills) ==> FromComplete(fills, t)
    ensures forall x :: x in InvalidFills(fills) ==> FromOtherBuy(fills, x)
  {
    if fills != [] {
      var init, last := fills[..|fills| - 1], fills[|fills| - 1];
      EveryFillIsPlaced(init);
      assert fills == init + [last];
      forall f | f in fills ensures Placed(f, UsableFills(fills), InvalidFills(fills)) {
        assert f in init ==> Placed(f, UsableFills(init), InvalidFills(init));
      }
      forall t | t in UsableFills(fills) ensures FromComplete(fills, t) {
        if t in UsableFills(init) {
          assert FromComplete(init, t);
        }
      }
      forall x | x in InvalidFills(fills) ensures FromOtherBuy(fills, x) {
        if x in InvalidFills(init) {
          assert FromOtherBuy(init, x);
        }
      }
    }
  }
}
