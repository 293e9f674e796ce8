/** What build_episodes promises of the episodes it returns. */
module EpisodeResults {
  import opened Ordering
  import opened Episodes

  // -------------------- the returned episodes --------------------

  ghost predicate MadeFrom(fills: seq<Trade>, window: int, e: Episode, k: Key, c: int) {
    && 0 <= c < |Chunks(fills, window, k)| && Chunks(fills, window, k)[c] != []
    && e == MakeEpisode(k, Chunks(fills, window, k)[c])
  }

  lemma InChunkEpisodes(fills: seq<Trade>, window: int, k: Key, e: Episode)
    ensures e in ChunkEpisodes(fills, window, k) <==> exists c :: MadeFrom(fills, window, e, k, c)
  {
    ChainFlattens(Group(fills, k), window);
    var es := ChunkEpisodes(fills, window, k);
    if e in es {
      var c :| 0 <= c < |es| && es[c] == e;
      assert MadeFrom(fills, window, e, k, c);
    }
    if c :| MadeFrom(fills, window, e, k, c) {
      assert es[c] == e;
    }
  }

  lemma {:induction false} InEpisodesFor(fills: seq<Trade>, window: int, keys: seq<Key>, e: Episode)
    ensures e in EpisodesFor(fills, window, keys) <==> exists k :: k in keys && e in ChunkEpisodes(fills, window, k)
  {
    if keys != [] {
      var init, last := keys[..|keys| - 1], keys[|keys| - 1];
      InEpisodesFor(fills, window, init, e);
      assert keys == init + [last];
    }
  }

  lemma NoFillsNoChunks(fills: seq<Trade>, window: int, k: Key)
    requires k !in Keys(fills)
    ensures Chunks(fills, window, k) == []
  {
    FilterNone(fills, InGroup(k));
  }

  /** The returned episodes are exactly those made from the chunks of the groups. */
  lemma BuiltFromChunks(fills: seq<Trade>, window: int, e: Episode)
    ensures e in Build(fills, window) <==> exists k, c :: MadeFrom(fills, window, e, k, c)
  {
    var keys := SortedKeys(Keys(fills));
    SortMembers(EpisodesFor(fills, window, keys), EpisodeLe);
    InEpisodesFor(fills, window, keys, e);
    forall k ensures e in ChunkEpisodes(fills, window, k) <==> exists c :: MadeFrom(fills, window, e, k, c) {
      InChunkEpisodes(fills, window, k, e);
    }
    if k, c :| MadeFrom(fills, window, e, k, c) {
      if k !in Keys(fills) {
        NoFillsNoChunks(fills, window, k);
      }
      assert k in keys && e in ChunkEpisodes(fills, window, k);
    }
  }

  lemma InGroupFills(fills: seq<Trade>, window: int, k: Key, c: nat, x: Trade)
    requires c < |Chunks(fills, window, k)| && x in Chunks(fills, window, k)[c]
    ensures x in fills && KeyOf(x) == k
  {
    var s := Group(fills, k);
    ChainByChunk(s, window, x);
    GroupFacts(fills, k);
    assert InChunk(s, window, c, x);
    var p :| 0 <= p < |s| && s[p] == x && ChunkOf(s, window, p) == c;
    assert s[p] in s;
  }

  lemma IdsMember(chunk: seq<Trade>, id: string)
    ensures id in Ids(chunk) <==> exists x :: x in chunk && x.fillId == id
  {
    if id in Ids(chunk) {
      var i :| 0 <= i < |chunk| && Ids(chunk)[i] == id;
      assert chunk[i] in chunk;
    }
    if x :| x in chunk && x.fillId == id {
      var i :| 0 <= i < |chunk| && chunk[i] == x;
      assert Ids(chunk)[i] == id;
    }
  }

  lemma SameId(fills: seq<Trade>, x: Trade, y: Trade)
    requires DistinctFills(fills) && x in fills && y in fills && x.fillId == y.fillId
    ensures x == y
  {
    var i :| 0 <= i < |fills| && fills[i] == x;
    var j :| 0 <= j < |fills| && fills[j] == y;
    assert i == j;
  }

  lemma MemberIsFill(fills: seq<Trade>, window: int, e: Episode, k: Key, c: nat, x: Trade)
    requires DistinctFills(fills) && x in fills && MadeFrom(fills, window, e, k, c)
    ensures x.fillId in e.members <==> x in Chunks(fills, window, k)[c]
  {
    var chunk := Chunks(fills, window, k)[c];
    IdsMember(chunk, x.fillId);
    if y :| y in chunk && y.fillId == x.fillId {
      InGroupFills(fills, window, k, c, y);
      SameId(fills, x, y);
    }
  }

  /** x and y went into one returned episode. */
  ghost predicate ShareEpisode(fills: seq<Trade>, window: int, x: Trade, y: Trade) {
    exists e, k, c ::
      && e in Build(fills, window) && MadeFrom(fills, window, e, k, c)
      && x in Chunks(fills, window, k)[c] && y in Chunks(fills, window, k)[c]
  }

  lemma ShareEpisodeIff(fills: seq<Trade>, window: int, x: Trade, y: Trade)
    ensures ShareEpisode(fills, window, x, y) <==> ShareChunk(fills, window, x, y)
  {
    if ShareChunk(fills, window, x, y) {
      var k, c :| 0 <= c < |Chunks(fills, window, k)| && x in Chunks(fills, window, k)[c]
        && y in Chunks(fills, window, k)[c];
      var e := MakeEpisode(k, Chunks(fills, window, k)[c]);
      assert MadeFrom(fills, window, e, k, c);
      BuiltFromChunks(fills, window, e);
    }
  }

  /** Both ids are among the members of one returned episode. */
  ghost predicate ShareMembership(fills: seq<Trade>, window: int, a: string, b: string) {
    exists e :: e in Build(fills, window) && a in e.members && b in e.members
  }

  lemma MembershipIff(fills: seq<Trade>, window: int, x: Trade, y: Trade)
    requires DistinctFills(fills) && x in fills && y in fills
    ensures ShareMembership(fills, window, x.fillId, y.fillId) <==> ShareEpisode(fills, window, x, y)
  {
    if ShareMembership(fills, window, x.fillId, y.fillId) {
      var e :| e in Build(fills, window) && x.fillId in e.members && y.fillId in e.members;
      BuiltFromChunks(fills, window, e);
      var k, c :| MadeFrom(fills, window, e, k, c);
      MemberIsFill(fills, window, e, k, c, x);
      MemberIsFill(fills, window, e, k, c, y);
    }
    if ShareEpisode(fills, window, x, y) {
      var e, k, c :| e in Build(fills, window) && MadeFrom(fills, window, e, k, c)
        && x in Chunks(fills, window, k)[c] && y in Chunks(fills, window, k)[c];
      MemberIsFill(fills, window, e, k, c, x);
      MemberIsFill(fills, window, e, k, c, y);
    }
  }

  /** Episodes are the connected components: two usable fills go into one returned episode
      if and only if a chain of same-market, same-direction fills with steps within the
      window links them. With distinct ids the member lists say the same. */
  lemma EpisodesAreComponents(fills: seq<Trade>, window: int, x: Trade, y: Trade)
    requires x in fills
    ensures ShareEpisode(fills, window, x, y) <==> Linked(fills, window, x, y)
    ensures DistinctFills(fills) && y in fills ==>
      (ShareMembership(fills, window, x.fillId, y.fillId) <==> Linked(fills, window, x, y))
  {
    ChunksAreComponents(fills, window, x, y);
    ShareEpisodeIff(fills, window, x, y);
    if DistinctFills(fills) && y in fills {
      MembershipIff(fills, window, x, y);
    }
  }

  /** Every returned episode has shares, and its vwap lies between any bounds on the prices
      of its member fills. */
  lemma VwapBetweenMemberPrices(fills: seq<Trade>, window: int, e: Episode, lo: real, hi: real)
    requires e in Build(fills, window)
    requires forall f :: f in fills && f.fillId in e.members ==> lo <= f.price <= hi && f.size > 0.0
    ensures e.totalShares > 0.0 && lo <= e.vwap <= hi
  {
    BuiltFromChunks(fills, window, e);
    var k, c :| MadeFrom(fills, window, e, k, c);
    var chunk := Chunks(fills, window, k)[c];
    forall i | 0 <= i < |chunk| ensures lo <= chunk[i].price <= hi && chunk[i].size > 0.0 {
      InGroupFills(fills, window, k, c, chunk[i]);
      IdsMember(chunk, chunk[i].fillId);
    }
    VwapBetweenPrices(k, chunk, lo, hi);
  }

  // -------------------- every fill once --------------------

  function MembersOf(): Episode -> multiset<string> { (e: Episode) => multiset(e.members) }

  function IdOf(): Trade -> multiset<string> { (t: Trade) => multiset{t.fillId} }

  /** The member ids of some episodes, together. */
  function Members(es: seq<Episode>): multiset<string> { Bag(es, MembersOf()) }

  lemma {:induction false} IdsBag(fills: seq<Trade>)
    ensures multiset(Ids(fills)) == Bag(fills, IdOf())
  {
    if fills != [] {
      var init, x := fills[..|fills| - 1], fills[|fills| - 1];
      IdsBag(init);
      assert Ids(fills) == Ids(init) + [x.fillId];
    }
  }

  lemma {:induction false} GroupMembers(k: Key, chunks: seq<seq<Trade>>)
    requires NoEmptyChunk(chunks)
    ensures Members(GroupEpisodes(k, chunks)) == Bag(Flatten(chunks), IdOf())
  {
    if chunks != [] {
      var init, last := chunks[..|chunks| - 1], chunks[|chunks| - 1];
      GroupEpisodesLast(k, chunks);
      GroupMembers(k, init);
      BagPush(GroupEpisodes(k, init), MakeEpisode(k, last), MembersOf());
      BagConcat(Flatten(init), last, IdOf());
      IdsBag(last);
    }
  }

  lemma {:induction false} MembersFor(fills: seq<Trade>, window: int, keys: seq<Key>)
    ensures Members(EpisodesFor(fills, window, keys)) == Bag(FillsFor(fills, window, keys), IdOf())
  {
    if keys != [] {
      var init, k := keys[..|keys| - 1], keys[|keys| - 1];
      MembersFor(fills, window, init);
      ChainFlattens(Group(fills, k), window);
      GroupMembers(k, Chunks(fills, window, k));
      BagConcat(EpisodesFor(fills, window, init), ChunkEpisodes(fills, window, k), MembersOf());
      BagConcat(FillsFor(fills, window, init), Flatten(Chunks(fills, window, k)), IdOf());
    }
  }

  /** The members of the returned episodes, taken together, are the usable fills, each as
      often as it was given. */
  lemma EpisodesPartitionFills(fills: seq<Trade>, window: int)
    ensures Members(Build(fills, window)) == multiset(Ids(fills))
  {
    var keys := SortedKeys(Keys(fills));
    var es := EpisodesFor(fills, window, keys);
    SortPermutes(es, EpisodeLe);
    BagPermutes(SortBy(es, EpisodeLe), es, MembersOf());
    MembersFor(fills, window, keys);
    ChunksPartitionFills(fills, window);
    BagPermutes(FillsFor(fills, window, keys), fills, IdOf());
    IdsBag(fills);
  }

  // -------------------- valid, invalid and SELL fills --------------------

  function IsBuy(): Fill -> bool { (f: Fill) => f.isBuy }

  function Buys(fills: seq<Fill>): seq<Fill> { Filter(fills, IsBuy()) }

  function FillIds(fills: seq<Fill>): seq<string> {
    seq(|fills|, i requires 0 <= i < |fills| => fills[i].fillId)
  }

  function InvalidIds(xs: seq<InvalidFill>): seq<string> {
    seq(|xs|, i requires 0 <= i < |xs| => xs[i].fillId)
  }

  function UsablePart(f: Fill): seq<Trade> { if Usable(f) then [TradeOf(f)] else [] }

  function InvalidPart(f: Fill): seq<InvalidFill> {
    if f.isBuy && Validate(f).Some? then [InvalidFill(f.fillId, f.conditionId, Validate(f).value)] else []
  }

  function UsableBag(): Fill -> multiset<Trade> { (f: Fill) => multiset(UsablePart(f)) }

  function InvalidBag(): Fill -> multiset<InvalidFill> { (f: Fill) => multiset(InvalidPart(f)) }

  lemma {:induction false} PartsBag(fills: seq<Fill>)
    ensures multiset(UsableFills(fills)) == Bag(fills, UsableBag())
    ensures multiset(InvalidFills(fills)) == Bag(fills, InvalidBag())
  {
    if fills != [] {
      PartsBag(fills[..|fills| - 1]);
    }
  }

  /** A SELL fill is neither usable nor invalid, so a bag of either ignores it. */
  lemma {:induction false} OnlyBuysMatter<U>(fills: seq<Fill>, g: Fill -> multiset<U>)
    requires forall f: Fill :: !f.isBuy ==> g(f) == multiset{}
    ensures Bag(Buys(fills), g) == Bag(fills, g)
  {
    if fills != [] {
      var init, f := fills[..|fills| - 1], fills[|fills| - 1];
      OnlyBuysMatter(init, g);
      BuysPush(init, f);
      assert fills == init + [f];
      if f.isBuy {
        BagPush(Buys(init), f, g);
      }
    }
  }

  lemma BuysPush(init: seq<Fill>, f: Fill)
    ensures Buys(init + [f]) == if f.isBuy then Buys(init) + [f] else Buys(init)
  {
    FilterConcat(init, [f], IsBuy());
    assert Filter([f], IsBuy()) == if f.isBuy then [f] else [];
    assert Buys(init) + [] == Buys(init);
  }

  /** Give the same BUY fills in any order, with any SELL fills among them: the same fills
      are reported as invalid and, with distinct ids, the same episodes are returned. */
  lemma OrderDoesNotMatter(a: seq<Fill>, b: seq<Fill>, window: int)
    requires multiset(Buys(a)) == multiset(Buys(b))
    ensures multiset(InvalidFills(a)) == multiset(InvalidFills(b))
    ensures DistinctFills(UsableFills(a)) ==> Build(UsableFills(a), window) == Build(UsableFills(b), window)
  {
    PartsBag(a);
    PartsBag(b);
    OnlyBuysMatter(a, UsableBag());
    OnlyBuysMatter(b, UsableBag());
    OnlyBuysMatter(a, InvalidBag());
    OnlyBuysMatter(b, InvalidBag());
    BagPermutes(Buys(a), Buys(b), UsableBag());
    BagPermutes(Buys(a), Buys(b), InvalidBag());
    if DistinctFills(UsableFills(a)) {
      SameBuild(UsableFills(a), UsableFills(b), window);
    }
  }

  /** Exactly the BUY fills that fail validation are reported, with their reason. */
  lemma {:induction false} InvalidIff(fills: seq<Fill>, x: InvalidFill)
    ensures x in InvalidFills(fills) <==> exists f :: f in fills && x in InvalidPart(f)
  {
    if fills != [] {
      var init, f := fills[..|fills| - 1], fills[|fills| - 1];
      InvalidIff(init, x);
      assert fills == init + [f];
      if x in InvalidFills(fills) && x !in InvalidPart(f) {
        var g :| g in init && x in InvalidPart(g);
        assert g in fills;
      }
      assert f in fills;
    }
  }

  lemma {:induction false} PartsAccount(fills: seq<Fill>)
    ensures multiset(FillIds(Buys(fills)))
      == multiset(Ids(UsableFills(fills))) + multiset(InvalidIds(InvalidFills(fills)))
  {
    if fills != [] {
      var init, f := fills[..|fills| - 1], fills[|fills| - 1];
      PartsAccount(init);
      BuysPush(init, f);
      assert fills == init + [f];
      PartAccounts(Buys(init), UsableFills(init), InvalidFills(init), f);
    }
  }

  lemma PartAccounts(buys: seq<Fill>, usable: seq<Trade>, invalid: seq<InvalidFill>, f: Fill)
    ensures FillIds(buys + [f]) == FillIds(buys) + [f.fillId]
    ensures Ids(usable + UsablePart(f)) == Ids(usable) + (if Usable(f) then [f.fillId] else [])
    ensures InvalidIds(invalid + InvalidPart(f))
      == InvalidIds(invalid) + (if f.isBuy && !Usable(f) then [f.fillId] else [])
  {}

  /** Every BUY fill is a member of one returned episode or is reported as invalid, and
      nothing else is either. */
  lemma EveryBuyIsAccountedFor(fills: seq<Fill>, window: int)
    ensures multiset(FillIds(Buys(fills)))
      == Members(Build(UsableFills(fills), window)) + multiset(InvalidIds(InvalidFills(fills)))
  {
    PartsAccount(fills);
    EpisodesPartitionFills(UsableFills(fills), window);
  }
}
