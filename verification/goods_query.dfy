/**
 * The listing paginators: each listing (a user's favourites, a category, a user's
 * published goods, all goods on sale, a user's off-shelf goods) is read through its
 * sorted-set index when the index answers, else from the goods table, which also
 * rebuilds the index. Cards come from the card cache with a database fallback, and
 * every card shown carries the favourite count from the counter cache.
 *
 * The card TTL jitter (`new Random().nextInt(5)`) is a parameter `jitter` with values
 * in [0, 5); a fault of the counter cache during the batch read is the flag `fault`.
 */
module GoodsQuery {
  import opened Common
  import opened ZSet
  import opened IndexKeys
  import opened ListingIndex
  import opened GoodsStore
  import opened CollectNumCache

  /** Page size used when the request gives none, or a non-positive one. */
  const DEFAULT_PAGE_SIZE := 10

  /** The jitter added to a card's TTL lies in [0, CARD_TTL_RANDOM). */
  ghost predicate JitterOk(jitter: int -> int) {
    forall id :: 0 <= jitter(id) < CARD_TTL_RANDOM
  }

  /** The ids of a list of cards, in order. */
  function IdsOf(cs: seq<Card>): (ids: seq<int>)
    ensures |ids| == |cs|
  {
    seq(|cs|, i requires 0 <= i < |cs| => cs[i].id)
  }

  /** The timestamp a page takes its next cursor from. */
  function Stamp(c: Card): int {
    c.updateTimestamp
  }

  // ---------------------------------------------------------------------------
  // Cards in id order, from the card cache or the goods table
  // ---------------------------------------------------------------------------

  /** An id can be shown when its card is cached or its goods row exists. */
  predicate Resolves(cached: map<int, Card>, goods: map<int, Goods>, id: int) {
    id in cached || id in goods
  }

  /**
   * The cards for `ids` in their order: the cached card when there is one, else the
   * card read from the goods table; an id found in neither is dropped.
   */
  function Resolve(cached: map<int, Card>, goods: map<int, Goods>, ids: seq<int>): seq<Card>
    decreases |ids|
  {
    if ids == [] then []
    else
      var rest := Resolve(cached, goods, ids[..|ids| - 1]);
      var last := ids[|ids| - 1];
      if last in cached then rest + [cached[last]]
      else if last in goods then rest + [CardOf(goods[last])]
      else rest
  }

  /** The ids of `ids` that can be shown, in their order. */
  function Resolvable(cached: map<int, Card>, goods: map<int, Goods>, ids: seq<int>): seq<int>
    decreases |ids|
  {
    if ids == [] then []
    else
      var last := ids[|ids| - 1];
      Resolvable(cached, goods, ids[..|ids| - 1]) + (if Resolves(cached, goods, last) then [last] else [])
  }

  /**
   * The resolvable ids are exactly those of the input that can be shown: none is
   * added, none that resolves is lost, and when all resolve nothing is dropped.
   */
  lemma {:induction false} ResolvableMeaning(cached: map<int, Card>, goods: map<int, Goods>, ids: seq<int>)
    ensures forall x :: x in Resolvable(cached, goods, ids) <==> x in ids && Resolves(cached, goods, x)
    ensures |Resolvable(cached, goods, ids)| <= |ids|
    ensures (forall x :: x in ids ==> Resolves(cached, goods, x)) ==> Resolvable(cached, goods, ids) == ids
    decreases |ids|
  {
    if ids != [] {
      var init := ids[..|ids| - 1];
      assert ids == init + [ids[|ids| - 1]];
      ResolvableMeaning(cached, goods, init);
    }
  }

  /** Resolution keeps order: it distributes over concatenation. */
  lemma {:induction false} ResolvableAppend(cached: map<int, Card>, goods: map<int, Goods>, a: seq<int>, b: seq<int>)
    ensures Resolvable(cached, goods, a + b) == Resolvable(cached, goods, a) + Resolvable(cached, goods, b)
    decreases |b|
  {
    if b == [] {
      assert a + b == a;
    } else {
      var init := b[..|b| - 1];
      assert (a + b)[..|a + b| - 1] == a + init;
      ResolvableAppend(cached, goods, a, init);
    }
  }

  /**
   * When every cached card sits under its own id, the resolved cards carry exactly
   * the resolvable ids, in order, and each is the cached card or else the table's.
   */
  lemma {:induction false} ResolveMeaning(cached: map<int, Card>, goods: map<int, Goods>, ids: seq<int>)
    requires forall id :: id in cached ==> cached[id].id == id
    requires forall id :: id in goods ==> goods[id].id == id
    ensures IdsOf(Resolve(cached, goods, ids)) == Resolvable(cached, goods, ids)
    ensures forall c :: c in Resolve(cached, goods, ids) ==>
      if c.id in cached then c == cached[c.id] else c.id in goods && c == CardOf(goods[c.id])
    decreases |ids|
  {
    if ids != [] {
      ResolveMeaning(cached, goods, ids[..|ids| - 1]);
    }
  }

  // ---------------------------------------------------------------------------
  // The favourite count overlay (`batchSetCollectNum`)
  // ---------------------------------------------------------------------------

  /**
   * The count a card shows: the cached counter, else the goods row's counter, else 0;
   * always 0 when the counter cache faults.
   */
  function CollectShown(counts: map<int, int>, goods: map<int, Goods>, id: int, fault: bool): int
  {
    if fault then 0
    else if id in counts then counts[id]
    else if id in goods then goods[id].collectNum
    else 0
  }

  function WithCollect(c: Card, counts: map<int, int>, goods: map<int, Goods>, fault: bool): Card
  {
    c.(collectNum := CollectShown(counts, goods, c.id, fault))
  }

  /** The cards with their favourite counts replaced. */
  function Overlay(cs: seq<Card>, counts: map<int, int>, goods: map<int, Goods>, fault: bool): seq<Card>
    decreases |cs|
  {
    if cs == [] then []
    else Overlay(cs[..|cs| - 1], counts, goods, fault) + [WithCollect(cs[|cs| - 1], counts, goods, fault)]
  }

  /** The overlay changes each card's count and nothing else: same length, same order, same ids. */
  lemma {:induction false} OverlayMeaning(cs: seq<Card>, counts: map<int, int>, goods: map<int, Goods>, fault: bool)
    ensures |Overlay(cs, counts, goods, fault)| == |cs|
    ensures forall i :: 0 <= i < |cs| ==> Overlay(cs, counts, goods, fault)[i] == WithCollect(cs[i], counts, goods, fault)
    ensures IdsOf(Overlay(cs, counts, goods, fault)) == IdsOf(cs)
    decreases |cs|
  {
    if cs != [] {
      OverlayMeaning(cs[..|cs| - 1], counts, goods, fault);
    }
  }

  /** The counters after a batch read of `ids`: untouched for no ids or on a fault, else backfilled. */
  function CountsAfterRead(counts: map<int, int>, goods: map<int, Goods>, ids: seq<int>, fault: bool): map<int, int>
  {
    if ids == [] || fault then counts else Backfilled(counts, goods, ids)
  }

  function CounterTtlAfterRead(counts: map<int, int>, ttl: map<int, int>, goods: map<int, Goods>, ids: seq<int>,
                               fault: bool, collectTtl: int): map<int, int>
  {
    if ids == [] || fault then ttl else BackfilledTtl(counts, ttl, goods, ids, collectTtl)
  }

  /** `batchSetCollectNum`: one batch read of the counters of the cards' ids, then each card takes its count. */
  method BatchSetCollectNum(counter: CounterCache, db: GoodsDb, cs: seq<Card>, fault: bool) returns (out: seq<Card>)
    requires counter.Valid()
    modifies counter
    ensures counter.Valid()
    ensures out == Overlay(cs, old(counter.counts), db.goods, fault)
    ensures counter.counts == CountsAfterRead(old(counter.counts), db.goods, IdsOf(cs), fault)
    ensures counter.ttl == CounterTtlAfterRead(old(counter.counts), old(counter.ttl), db.goods, IdsOf(cs), fault, counter.collectTtl)
  {
    if cs == [] {
      return [];
    }
    ghost var counts0 := counter.counts;
    ghost var goods := db.goods;
    var ids := IdsOf(cs);
    var m := BatchGetCollectNum(counter, db, ids, fault);
    out := [];
    var i := 0;
    while i < |cs|
      invariant 0 <= i <= |cs|
      invariant out == Overlay(cs[..i], counts0, goods, fault)
    {
      var c := cs[i];
      var n := if c.id in m then m[c.id] else 0;
      assert n == CollectShown(counts0, goods, c.id, fault) by {
        assert ids[i] == c.id;
      }
      assert Overlay(cs[..i + 1], counts0, goods, fault) == out + [WithCollect(c, counts0, goods, fault)] by {
        assert cs[..i + 1][..i] == cs[..i];
      }
      out := out + [c.(collectNum := n)];
      i := i + 1;
    }
    assert cs[..i] == cs;
  }

  // ---------------------------------------------------------------------------
  // Card cache reads and writes
  // ---------------------------------------------------------------------------

  /** The cards a read-through writes: every requested id missed in the cache whose row exists. */
  function MissCards(cached: map<int, Card>, goods: map<int, Goods>, ids: seq<int>): map<int, Card>
  {
    map id | id in ids && id !in cached && id in goods :: CardOf(goods[id])
  }

  /** The TTL (minutes) a card write sets: 30 minutes plus the jitter drawn for that id. */
  function CardMinutes(jitter: int -> int, id: int): (m: int)
    ensures JitterOk(jitter) ==> GOODS_CARD_TTL <= m < GOODS_CARD_TTL + CARD_TTL_RANDOM
  {
    GOODS_CARD_TTL + jitter(id)
  }

  /** The TTLs a write of the given card keys sets. */
  function CardTtls(keys: set<int>, jitter: int -> int): map<int, int>
  {
    map id | id in keys :: CardMinutes(jitter, id)
  }

  /** The cards of a list keyed by id; a later card wins over an earlier one with the same id. */
  function CardMap(cs: seq<Card>): (m: map<int, Card>)
    ensures forall id :: id in m ==> m[id].id == id
    decreases |cs|
  {
    if cs == [] then map[]
    else
      var last := cs[|cs| - 1];
      CardMap(cs[..|cs| - 1])[last.id := last]
  }

  /** The card found for each resolvable id of `ids`: the cached one, else the table's. */
  function ResolvedMap(cached: map<int, Card>, goods: map<int, Goods>, ids: seq<int>): map<int, Card>
  {
    map id | id in ids && Resolves(cached, goods, id) :: if id in cached then cached[id] else CardOf(goods[id])
  }

  /** Steps 1-3: the multi-get of the card keys, split into the hits and the missed ids. */
  method ProbeCards(cards: CardCache, ids: seq<int>) returns (hits: map<int, Card>, missIds: seq<int>)
    ensures forall x :: x in hits <==> x in ids && x in cards.cards
    ensures forall x :: x in hits ==> hits[x] == cards.cards[x]
    ensures forall x :: x in missIds <==> x in ids && x !in cards.cards
  {
    hits, missIds := map[], [];
    var i := 0;
    while i < |ids|
      invariant 0 <= i <= |ids|
      invariant forall x :: x in hits <==> x in ids[..i] && x in cards.cards
      invariant forall x :: x in hits ==> hits[x] == cards.cards[x]
      invariant forall x :: x in missIds <==> x in ids[..i] && x !in cards.cards
    {
      assert ids[..i + 1] == ids[..i] + [ids[i]];
      var id := ids[i];
      if id in cards.cards {
        hits := hits[id := cards.cards[id]];
      } else {
        missIds := missIds + [id];
      }
      i := i + 1;
    }
    assert ids[..i] == ids;
  }

  /** The cards the goods table holds for `ids`. */
  function TableCards(goods: map<int, Goods>, ids: seq<int>): map<int, Card>
  {
    map id | id in ids && id in goods :: CardOf(goods[id])
  }

  lemma TableCardsStep(goods: map<int, Goods>, ids: seq<int>, id: int)
    ensures TableCards(goods, ids + [id]) ==
      if id in goods then TableCards(goods, ids)[id := CardOf(goods[id])] else TableCards(goods, ids)
  {
    var l := TableCards(goods, ids + [id]);
    var r := if id in goods then TableCards(goods, ids)[id := CardOf(goods[id])] else TableCards(goods, ids);
    assert forall x :: x in l <==> x in r;
  }

  lemma CardTtlsStep(keys: set<int>, id: int, jitter: int -> int)
    ensures CardTtls(keys + {id}, jitter) == CardTtls(keys, jitter)[id := CardMinutes(jitter, id)]
  {
    var l := CardTtls(keys + {id}, jitter);
    var r := CardTtls(keys, jitter)[id := CardMinutes(jitter, id)];
    assert forall x :: x in l <==> x in r;
  }

  /** Step 4: the missed ids are read from the goods table; each card found is kept and cached with a jittered TTL. */
  method FillMisses(cards: CardCache, db: GoodsDb, missIds: seq<int>, hits: map<int, Card>, jitter: int -> int)
    returns (found: map<int, Card>)
    requires cards.Valid() && db.Valid() && JitterOk(jitter)
    modifies cards
    ensures cards.Valid()
    ensures found == hits + TableCards(db.goods, missIds)
    ensures cards.cards == old(cards.cards) + TableCards(db.goods, missIds)
    ensures cards.ttl == old(cards.ttl) + CardTtls(TableCards(db.goods, missIds).Keys, jitter)
  {
    ghost var cached0, ttl0 := cards.cards, cards.ttl;
    var goods := db.goods;
    ghost var read: map<int, Card> := map[];
    ghost var readTtl: map<int, int> := map[];
    assert CardTtls({}, jitter) == map[];
    found := hits;
    var j := 0;
    while j < |missIds|
      invariant 0 <= j <= |missIds|
      invariant read == TableCards(goods, missIds[..j])
      invariant readTtl == CardTtls(read.Keys, jitter)
      invariant found == hits + read
      invariant cards.cards == cached0 + read
      invariant cards.ttl == ttl0 + readTtl
    {
      var id := missIds[j];
      FillMissesStep(goods, missIds, j, hits, cached0, ttl0, read, readTtl, jitter);
      if id in goods {
        var vo := CardOf(goods[id]);
        var minutes := CardMinutes(jitter, id);
        read := read[id := vo];
        readTtl := readTtl[id := minutes];
        found := found[id := vo];
        cards.Put(vo, minutes);
      }
      j := j + 1;
    }
    assert missIds[..j] == missIds;
    FilledCacheValid(cached0, ttl0, read, jitter);
  }

  /** Writing cards read from the table, with jittered TTLs, keeps the card cache well formed. */
  lemma FilledCacheValid(cached0: map<int, Card>, ttl0: map<int, int>, read: map<int, Card>, jitter: int -> int)
    requires (forall id :: id in cached0 ==> cached0[id].id == id) && ttl0.Keys == cached0.Keys
    requires forall id :: id in ttl0 ==> GOODS_CARD_TTL <= ttl0[id] < GOODS_CARD_TTL + CARD_TTL_RANDOM
    requires forall id :: id in read ==> read[id].id == id
    requires JitterOk(jitter)
    ensures var c, t := cached0 + read, ttl0 + CardTtls(read.Keys, jitter);
      && (forall id :: id in c ==> c[id].id == id)
      && t.Keys == c.Keys
      && (forall id :: id in t ==> GOODS_CARD_TTL <= t[id] < GOODS_CARD_TTL + CARD_TTL_RANDOM)
  {
  }

  /** The TTLs of the keys after one more card is written. */
  lemma CardTtlsPut(m: map<int, Card>, c: Card, jitter: int -> int)
    ensures CardTtls(m[c.id := c].Keys, jitter) == CardTtls(m.Keys, jitter)[c.id := CardMinutes(jitter, c.id)]
  {
    assert m[c.id := c].Keys == m.Keys + {c.id};
    CardTtlsStep(m.Keys, c.id, jitter);
  }

  lemma FillMissesStep(goods: map<int, Goods>, missIds: seq<int>, j: nat, hits: map<int, Card>, cached0: map<int, Card>,
                       ttl0: map<int, int>, read: map<int, Card>, readTtl: map<int, int>, jitter: int -> int)
    requires j < |missIds| && read == TableCards(goods, missIds[..j]) && readTtl == CardTtls(read.Keys, jitter)
    requires forall id :: id in goods ==> goods[id].id == id
    ensures var id := missIds[j];
      if id in goods then
        var vo, minutes := CardOf(goods[id]), CardMinutes(jitter, id);
        && TableCards(goods, missIds[..j + 1]) == read[id := vo]
        && CardTtls(read[id := vo].Keys, jitter) == readTtl[id := minutes]
        && (hits + read)[id := vo] == hits + read[id := vo]
        && (cached0 + read)[id := vo] == cached0 + read[id := vo]
        && (ttl0 + readTtl)[id := minutes] == ttl0 + readTtl[id := minutes]
      else TableCards(goods, missIds[..j + 1]) == read
  {
    var id := missIds[j];
    assert missIds[..j + 1] == missIds[..j] + [id];
    TableCardsStep(goods, missIds[..j], id);
    if id in goods {
      var vo, minutes := CardOf(goods[id]), CardMinutes(jitter, id);
      assert vo.id == id;
      CardTtlsPut(read, vo, jitter);
      UpdateUnion(hits, read, id, vo);
      UpdateUnion(cached0, read, id, vo);
      UpdateUnion(ttl0, readTtl, id, minutes);
    }
  }

  method InIdOrder(ghost cached: map<int, Card>, goods: map<int, Goods>, found: map<int, Card>, ids: seq<int>)
    returns (list: seq<Card>)
    requires found == ResolvedMap(cached, goods, ids)
    ensures list == Resolve(cached, goods, ids)
  {
    list := [];
    var k := 0;
    while k < |ids|
      invariant 0 <= k <= |ids|
      invariant list == Resolve(cached, goods, ids[..k])
    {
      assert ids[..k + 1][..k] == ids[..k];
      var id := ids[k];
      if id in found {
        list := list + [found[id]];
      }
      k := k + 1;
    }
    assert ids[..k] == ids;
  }

  /**
   * `getGoodsCardsFromCacheOrDB`: the cards of `ids` in their order (cache first,
   * then the goods table; ids found in neither are dropped), each showing its current
   * favourite count. Each card read from the table is cached, with the count it had
   * in the table, for 30 to 34 minutes.
   */
  method GetCardsFromCacheOrDb(cards: CardCache, counter: CounterCache, db: GoodsDb, ids: seq<int>,
                               jitter: int -> int, fault: bool)
    returns (result: seq<Card>)
    requires cards.Valid() && counter.Valid() && db.Valid() && JitterOk(jitter)
    modifies cards, counter
    ensures cards.Valid() && counter.Valid()
    ensures result == Overlay(Resolve(old(cards.cards), db.goods, ids), old(counter.counts), db.goods, fault)
    ensures cards.cards == old(cards.cards) + MissCards(old(cards.cards), db.goods, ids)
    ensures cards.ttl == old(cards.ttl) + CardTtls(MissCards(old(cards.cards), db.goods, ids).Keys, jitter)
    ensures var shown := IdsOf(Resolve(old(cards.cards), db.goods, ids));
      && counter.counts == CountsAfterRead(old(counter.counts), db.goods, shown, fault)
      && counter.ttl == CounterTtlAfterRead(old(counter.counts), old(counter.ttl), db.goods, shown, fault, counter.collectTtl)
  {
    ghost var cached0, ttl0 := cards.cards, cards.ttl;
    var hits, missIds := ProbeCards(cards, ids);
    var found := FillMisses(cards, db, missIds, hits, jitter);
    ghost var misses := MissCards(cached0, db.goods, ids);
    assert TableCards(db.goods, missIds) == misses by {
      assert forall x :: x in TableCards(db.goods, missIds) <==> x in misses;
    }
    ghost var want := ResolvedMap(cached0, db.goods, ids);
    assert forall x :: x in found <==> x in want;
    assert found == want;
    var list := InIdOrder(cached0, db.goods, found, ids);
    result := BatchSetCollectNum(counter, db, list, fault);
  }

  lemma CardMapStep(cs: seq<Card>, c: Card)
    ensures CardMap(cs + [c]) == CardMap(cs)[c.id := c]
    ensures CardMap(cs + [c]).Keys == CardMap(cs).Keys + {c.id}
  {
    assert (cs + [c])[..|cs|] == cs;
  }

  /** The card writes of `cacheGoodsCards`: each card under its id, with a jittered TTL. */
  method WriteCards(cards: CardCache, list: seq<Card>, jitter: int -> int)
    requires cards.Valid() && JitterOk(jitter)
    modifies cards
    ensures cards.Valid()
    ensures cards.cards == old(cards.cards) + CardMap(list)
    ensures cards.ttl == old(cards.ttl) + CardTtls(CardMap(list).Keys, jitter)
  {
    ghost var cached0, ttl0 := cards.cards, cards.ttl;
    ghost var written: map<int, Card> := map[];
    ghost var writtenTtl: map<int, int> := map[];
    assert CardTtls({}, jitter) == map[];
    var i := 0;
    while i < |list|
      invariant 0 <= i <= |list|
      invariant written == CardMap(list[..i])
      invariant writtenTtl == CardTtls(written.Keys, jitter)
      invariant cards.cards == cached0 + written
      invariant cards.ttl == ttl0 + writtenTtl
    {
      var vo := list[i];
      var minutes := CardMinutes(jitter, vo.id);
      assert list[..i + 1] == list[..i] + [vo];
      CardMapStep(list[..i], vo);
      CardTtlsPut(written, vo, jitter);
      UpdateUnion(cached0, written, vo.id, vo);
      UpdateUnion(ttl0, writtenTtl, vo.id, minutes);
      written := written[vo.id := vo];
      writtenTtl := writtenTtl[vo.id := minutes];
      cards.Put(vo, minutes);
      i := i + 1;
    }
    assert list[..i] == list;
    FilledCacheValid(cached0, ttl0, CardMap(list), jitter);
  }

  /**
   * `cacheGoodsCards`: the cards take their current favourite counts first, then each
   * is cached (with that count) for 30 to 34 minutes. An empty list changes nothing.
   */
  method CacheGoodsCards(cards: CardCache, counter: CounterCache, db: GoodsDb, list: seq<Card>,
                         jitter: int -> int, fault: bool)
    returns (out: seq<Card>)
    requires cards.Valid() && counter.Valid() && JitterOk(jitter)
    modifies cards, counter
    ensures cards.Valid() && counter.Valid()
    ensures out == Overlay(list, old(counter.counts), db.goods, fault)
    ensures cards.cards == old(cards.cards) + CardMap(out)
    ensures cards.ttl == old(cards.ttl) + CardTtls(CardMap(out).Keys, jitter)
    ensures counter.counts == CountsAfterRead(old(counter.counts), db.goods, IdsOf(list), fault)
    ensures counter.ttl == CounterTtlAfterRead(old(counter.counts), old(counter.ttl), db.goods, IdsOf(list), fault, counter.collectTtl)
  {
    if list == [] {
      assert CardMap([]) == map[];
      assert old(cards.ttl) + CardTtls({}, jitter) == old(cards.ttl);
      return [];
    }
    out := BatchSetCollectNum(counter, db, list, fault);
    WriteCards(cards, out, jitter);
  }

  // ---------------------------------------------------------------------------
  // The database page
  // ---------------------------------------------------------------------------

  /**
   * The ids of the database page: the partition's rows scored in [0, cursor - 1],
   * highest first (ties by id, as the index orders them), at most `count`.
   */
  ghost function DbPageIds(goods: map<int, Goods>, favorites: map<(int, int), int>, k: IndexKey, cursor: int, count: nat): seq<int>
    requires IsGoodsIndex(k)
  {
    RevRangeByScore(SortedFrom(IndexRows(goods, favorites, k)), 0, cursor - 1, count)
  }

  ghost function DbPageCards(goods: map<int, Goods>, favorites: map<(int, int), int>, k: IndexKey, cursor: int, count: nat): seq<Card>
    requires IsGoodsIndex(k)
  {
    Resolve(map[], goods, DbPageIds(goods, favorites, k, cursor, count))
  }

  /** The cursor query on the goods table that a listing falls back to. */
  method DbPage(db: GoodsDb, k: IndexKey, cursor: int, count: nat) returns (list: seq<Card>)
    requires IsGoodsIndex(k)
    ensures list == DbPageCards(db.goods, db.favorites, k, cursor, count)
  {
    var rows := IndexRows(db.goods, db.favorites, k);
    var sorted := MergeRows([], rows);
    assert Scores([]) + rows == rows;
    SameScoresSameSet(sorted, SortedFrom(rows));
    list := Resolve(map[], db.goods, RevRangeByScore(sorted, 0, cursor - 1, count));
  }

  /** The database page is the page a lookup would give on an index rebuilt from nothing. */
  lemma DbPageIsRebuiltLookup(sets: map<IndexKey, seq<Entry>>, goods: map<int, Goods>, favorites: map<(int, int), int>,
                              k: IndexKey, cursor: int, count: nat)
    requires IsGoodsIndex(k) && k !in sets
    requires IndexRows(goods, favorites, k) != map[]
    ensures var rebuilt := Rebuilt(sets, k, IndexRows(goods, favorites, k));
      LookupIds(rebuilt, k, cursor, count) == Some(DbPageIds(goods, favorites, k, cursor, count))
  {
    var rows := IndexRows(goods, favorites, k);
    assert Contents(sets, k) + rows == rows;
  }

  // ---------------------------------------------------------------------------
  // The paginator
  // ---------------------------------------------------------------------------

  /** Whether the index answers: the key exists and holds some id below the cursor. */
  function IndexHit(sets: map<IndexKey, seq<Entry>>, k: IndexKey, cursor: int, n: nat): bool
  {
    var ids := LookupIds(sets, k, cursor, n + 1);
    ids.Some? && ids.value != []
  }

  /** The cards a listing fetches (one more than the page size) before counts are overlaid. */
  ghost function FetchCards(sets: map<IndexKey, seq<Entry>>, cached: map<int, Card>, goods: map<int, Goods>,
                            favorites: map<(int, int), int>, k: IndexKey, cursor: int, n: nat): seq<Card>
    requires IsGoodsIndex(k)
  {
    if IndexHit(sets, k, cursor, n) then Resolve(cached, goods, LookupIds(sets, k, cursor, n + 1).value)
    else DbPageCards(goods, favorites, k, cursor, n + 1)
  }

  /** The page a listing returns, from the state it starts in. */
  ghost function ListingPageOf(sets: map<IndexKey, seq<Entry>>, cached: map<int, Card>, counts: map<int, int>,
                               goods: map<int, Goods>, favorites: map<(int, int), int>,
                               k: IndexKey, cursor: int, n: nat, fault: bool): Page<Card>
    requires IsGoodsIndex(k)
  {
    BuildPage(Overlay(FetchCards(sets, cached, goods, favorites, k, cursor, n), counts, goods, fault), n, Stamp)
  }

  /**
   * The cursor paginators `getFavoriteGoods`, `getGoodsPageByCategoryId`,
   * `getUserPublishedGoods` (and `getMyPublishedGoods`, which calls it),
   * `getAllGoods` and `getOfflineGoods`, one per partition key: ids from the index
   * when it answers, cards from the cache or the table; otherwise the database page,
   * a rebuild of the index and a write of the page's cards to the cache.
   */
  method ListingPage(idx: IndexStore, cards: CardCache, counter: CounterCache, db: GoodsDb, k: IndexKey,
                     cursor: Option<int>, size: Option<int>, now: int, jitter: int -> int, fault: bool)
    returns (page: Page<Card>)
    requires IsGoodsIndex(k)
    requires idx.Valid() && cards.Valid() && counter.Valid() && db.Valid() && JitterOk(jitter)
    modifies idx, cards, counter
    ensures idx.Valid() && cards.Valid() && counter.Valid()
    ensures var c := NormalizeCursor(cursor, now);
      var n := NormalizeSize(size, DEFAULT_PAGE_SIZE);
      page == ListingPageOf(old(idx.sets), old(cards.cards), old(counter.counts), db.goods, db.favorites, k, c, n, fault)
    ensures var c := NormalizeCursor(cursor, now);
      var n := NormalizeSize(size, DEFAULT_PAGE_SIZE);
      if IndexHit(old(idx.sets), k, c, n) then
        && idx.sets == old(idx.sets) && idx.ttl == old(idx.ttl)
        && var misses := MissCards(old(cards.cards), db.goods, LookupIds(old(idx.sets), k, c, n + 1).value);
          cards.cards == old(cards.cards) + misses && cards.ttl == old(cards.ttl) + CardTtls(misses.Keys, jitter)
      else
        var rows := IndexRows(db.goods, db.favorites, k);
        && idx.sets == Rebuilt(old(idx.sets), k, rows)
        && idx.ttl == (if rows == map[] then old(idx.ttl) else old(idx.ttl)[k := GOODS_IDS_TTL])
        && var written := CardMap(Overlay(DbPageCards(db.goods, db.favorites, k, c, n + 1), old(counter.counts), db.goods, fault));
          cards.cards == old(cards.cards) + written && cards.ttl == old(cards.ttl) + CardTtls(written.Keys, jitter)
    ensures var c := NormalizeCursor(cursor, now);
      var n := NormalizeSize(size, DEFAULT_PAGE_SIZE);
      var fetched := IdsOf(FetchCards(old(idx.sets), old(cards.cards), db.goods, db.favorites, k, c, n));
      && counter.counts == CountsAfterRead(old(counter.counts), db.goods, fetched, fault)
      && counter.ttl == CounterTtlAfterRead(old(counter.counts), old(counter.ttl), db.goods, fetched, fault, counter.collectTtl)
  {
    var c := NormalizeCursor(cursor, now);
    var n := NormalizeSize(size, DEFAULT_PAGE_SIZE);
    var ids := LookupIds(idx.sets, k, c, n + 1);
    var list: seq<Card>;
    if ids.Some? && ids.value != [] {
      list := GetCardsFromCacheOrDb(cards, counter, db, ids.value, jitter, fault);
    } else {
      var fetched := DbPage(db, k, c, n + 1);
      idx.Rebuild(k, IndexRows(db.goods, db.favorites, k));
      list := CacheGoodsCards(cards, counter, db, fetched, jitter, fault);
    }
    page := BuildPage(list, n, Stamp);
  }

  // ---------------------------------------------------------------------------
  // What a page means
  // ---------------------------------------------------------------------------

  /** A range over entries none of which scores inside it is empty. */
  lemma {:induction false} RangeNone(s: seq<Entry>, lo: int, hi: int)
    requires forall e :: e in s ==> e.score < lo || e.score > hi
    ensures Range(s, lo, hi) == []
  {
    if s != [] {
      assert s[0] in s;
      RangeNone(s[1..], lo, hi);
    }
  }

  lemma IdsOfTake(cs: seq<Card>, n: nat)
    ensures IdsOf(Take(cs, n)) == Take(IdsOf(cs), n)
  {
  }

  /**
   * When the index answers and every id it returns can be shown, the page lists the
   * first `n` ids of the index window below the cursor, in index order, and has more
   * exactly when that window holds more than `n`.
   */
  lemma IndexHitPage(sets: map<IndexKey, seq<Entry>>, cached: map<int, Card>, counts: map<int, int>,
                     goods: map<int, Goods>, favorites: map<(int, int), int>, k: IndexKey, cursor: int, n: nat, fault: bool)
    requires IsGoodsIndex(k) && WellFormed(sets) && k in sets
    requires forall id :: id in cached ==> cached[id].id == id
    requires forall id :: id in goods ==> goods[id].id == id
    requires IndexHit(sets, k, cursor, n)
    requires forall id :: id in LookupIds(sets, k, cursor, n + 1).value ==> Resolves(cached, goods, id)
    ensures var p := ListingPageOf(sets, cached, counts, goods, favorites, k, cursor, n, fault);
      var window := Range(sets[k], 0, cursor - 1);
      && IdsOf(p.list) == Members(Take(window, n))
      && (p.hasMore <==> |window| > n)
  {
    var window := Range(sets[k], 0, cursor - 1);
    var ids := LookupIds(sets, k, cursor, n + 1).value;
    var p := ListingPageOf(sets, cached, counts, goods, favorites, k, cursor, n, fault);
    assert p == BuildPage(Overlay(Resolve(cached, goods, ids), counts, goods, fault), n, Stamp);
    assert IdsOf(p.list) == Take(ids, n) && (p.hasMore <==> |ids| > n) by {
      ResolvedPage(cached, counts, goods, ids, n, fault);
    }
    assert ids == Take(Members(window), n + 1) by {
      MembersTake(window, n + 1);
    }
    assert Take(ids, n) == Members(Take(window, n)) by {
      MembersTake(window, n);
      TakeOfTake(Members(window), n + 1, n);
    }
  }

  /** A page built from ids that all resolve shows the first `n` of them, and has more iff there are more. */
  lemma ResolvedPage(cached: map<int, Card>, counts: map<int, int>, goods: map<int, Goods>, ids: seq<int>, n: nat, fault: bool)
    requires forall id :: id in cached ==> cached[id].id == id
    requires forall id :: id in goods ==> goods[id].id == id
    requires forall id :: id in ids ==> Resolves(cached, goods, id)
    ensures var p := BuildPage(Overlay(Resolve(cached, goods, ids), counts, goods, fault), n, Stamp);
      IdsOf(p.list) == Take(ids, n) && (p.hasMore <==> |ids| > n)
  {
    var fetched := Resolve(cached, goods, ids);
    var shown := Overlay(fetched, counts, goods, fault);
    ResolvableMeaning(cached, goods, ids);
    ResolveMeaning(cached, goods, ids);
    OverlayMeaning(fetched, counts, goods, fault);
    assert IdsOf(shown) == ids;
    BuildPageMeaning(shown, n, Stamp);
    IdsOfTake(shown, n);
  }

  /**
   * The first request on a partition with no index reads the database and leaves
   * the index holding exactly the partition's rows (none: still no index).
   */
  lemma MissRebuildsFromRows(sets: map<IndexKey, seq<Entry>>, goods: map<int, Goods>, favorites: map<(int, int), int>,
                             k: IndexKey, cursor: int, n: nat)
    requires IsGoodsIndex(k) && WellFormed(sets) && k !in sets
    ensures !IndexHit(sets, k, cursor, n)
    ensures var rows := IndexRows(goods, favorites, k);
      var after := Rebuilt(sets, k, rows);
      && WellFormed(after)
      && (k in after <==> rows != map[])
      && Contents(after, k) == rows
  {
    var rows := IndexRows(goods, favorites, k);
    RebuiltContents(sets, k, rows, k);
    var after := Contents(Rebuilt(sets, k, rows), k);
    assert forall id :: id in after <==> id in rows;
  }

  /**
   * An index that exists but holds nothing below the cursor (the end of the listing)
   * does not answer either: every request past the last page reads the database and
   * re-merges the partition's rows into the index.
   */
  lemma ExhaustedIndexRereadsDatabase(sets: map<IndexKey, seq<Entry>>, k: IndexKey, cursor: int, n: nat)
    requires WellFormed(sets) && k in sets
    requires forall m :: m in Contents(sets, k) ==> Contents(sets, k)[m] >= cursor
    ensures !IndexHit(sets, k, cursor, n)
  {
    var s := sets[k];
    assert Contents(sets, k) == Scores(s);
    forall e | e in s ensures e.score < 0 || e.score > cursor - 1 {
      ScoresOfEntries(s);
      assert e.member in Scores(s);
    }
    RangeNone(s, 0, cursor - 1);
  }

  // ---------------------------------------------------------------------------
  // The favourites cursor
  // ---------------------------------------------------------------------------

  /**
   * As written, the favourites listing takes its next cursor from the last card's
   * update time, while its index is scored by the time each favourite was made.
   * Goods 1 (favourited at 100, updated at 10) and goods 2 (favourited at 90,
   * updated at 80), pages of one: the first page shows goods 1 with cursor 10, and
   * the page from cursor 10 is empty, so goods 2 is never listed.
   */
  lemma FavoriteCursorSkipsGoods(cached: map<int, Card>, counts: map<int, int>)
    ensures var form := GoodsForm(None, "", None, None, None);
      var a := Goods(1, 3, form, 0, ON_SALE, None, 10);
      var b := Goods(2, 3, form, 0, ON_SALE, None, 80);
      var goods := map[1 := a, 2 := b];
      var favorites := map[(7, 1) := 100, (7, 2) := 90];
      var k := FavoriteIndex(7);
      var sets := map[k := [Entry(1, 100), Entry(2, 90)]];
      var first := ListingPageOf(sets, map[], map[], goods, favorites, k, 1000, 1, false);
      var second := ListingPageOf(sets, cached, counts, goods, favorites, k, 10, 1, false);
      && Contents(sets, k) == IndexRows(goods, favorites, k)
      && first.list == [CardOf(a)] && first.hasMore && first.nextCursor == Some(10)
      && second.list == []
  {
    var form := GoodsForm(None, "", None, None, None);
    var a := Goods(1, 3, form, 0, ON_SALE, None, 10);
    var b := Goods(2, 3, form, 0, ON_SALE, None, 80);
    var goods := map[1 := a, 2 := b];
    var favorites := map[(7, 1) := 100, (7, 2) := 90];
    var k := FavoriteIndex(7);
    var s := [Entry(1, 100), Entry(2, 90)];
    var sets := map[k := s];
    var rows := IndexRows(goods, favorites, k);
    assert rows == map[1 := 100, 2 := 90];
    assert Contents(sets, k) == rows by {
      assert Scores(s) == rows;
    }
    FavoriteFirstPage();
    FavoriteSecondPage(cached, counts);
  }

  lemma FavoriteFirstPage()
    ensures var form := GoodsForm(None, "", None, None, None);
      var a := Goods(1, 3, form, 0, ON_SALE, None, 10);
      var b := Goods(2, 3, form, 0, ON_SALE, None, 80);
      var goods := map[1 := a, 2 := b];
      var favorites := map[(7, 1) := 100, (7, 2) := 90];
      var k := FavoriteIndex(7);
      var sets := map[k := [Entry(1, 100), Entry(2, 90)]];
      var first := ListingPageOf(sets, map[], map[], goods, favorites, k, 1000, 1, false);
      first.list == [CardOf(a)] && first.hasMore && first.nextCursor == Some(10)
  {
    var form := GoodsForm(None, "", None, None, None);
    var a := Goods(1, 3, form, 0, ON_SALE, None, 10);
    var b := Goods(2, 3, form, 0, ON_SALE, None, 80);
    var goods := map[1 := a, 2 := b];
    var favorites := map[(7, 1) := 100, (7, 2) := 90];
    var k := FavoriteIndex(7);
    var s := [Entry(1, 100), Entry(2, 90)];
    var sets := map[k := s];
    var both := [CardOf(a), CardOf(b)];
    assert LookupIds(sets, k, 1000, 2) == Some([1, 2]) by {
      assert s[1..] == [Entry(2, 90)];
      assert Range(s, 0, 999) == s;
      assert Members(s) == [1, 2];
    }
    assert FetchCards(sets, map[], goods, favorites, k, 1000, 1) == both by {
      assert [1, 2][..1] == [1];
      assert Resolve(map[], goods, [1, 2]) == both;
    }
    assert Overlay(both, map[], goods, false) == both by {
      assert both[..1] == [CardOf(a)];
      assert [CardOf(a)][..0] == [];
      assert WithCollect(CardOf(a), map[], goods, false) == CardOf(a);
      assert WithCollect(CardOf(b), map[], goods, false) == CardOf(b);
      assert Overlay([CardOf(a)], map[], goods, false) == [CardOf(a)];
    }
    assert both[..1] == [CardOf(a)];
  }

  lemma FavoriteSecondPage(cached: map<int, Card>, counts: map<int, int>)
    ensures var form := GoodsForm(None, "", None, None, None);
      var a := Goods(1, 3, form, 0, ON_SALE, None, 10);
      var b := Goods(2, 3, form, 0, ON_SALE, None, 80);
      var goods := map[1 := a, 2 := b];
      var favorites := map[(7, 1) := 100, (7, 2) := 90];
      var k := FavoriteIndex(7);
      var sets := map[k := [Entry(1, 100), Entry(2, 90)]];
      ListingPageOf(sets, cached, counts, goods, favorites, k, 10, 1, false).list == []
  {
    var form := GoodsForm(None, "", None, None, None);
    var a := Goods(1, 3, form, 0, ON_SALE, None, 10);
    var b := Goods(2, 3, form, 0, ON_SALE, None, 80);
    var goods := map[1 := a, 2 := b];
    var favorites := map[(7, 1) := 100, (7, 2) := 90];
    var k := FavoriteIndex(7);
    var s := [Entry(1, 100), Entry(2, 90)];
    var sets := map[k := s];
    var rows := IndexRows(goods, favorites, k);
    assert rows == map[1 := 100, 2 := 90];
    assert s[1..] == [Entry(2, 90)];
    assert Range(s, 0, 9) == [];
    assert LookupIds(sets, k, 10, 2) == Some([]);
    var sorted := SortedFrom(rows);
    RangeElements(sorted, 0, 9);
    forall e | e in sorted ensures e.score < 0 || e.score > 9 {
      ScoresOfEntries(sorted);
    }
    RangeNone(sorted, 0, 9);
  }

  /**
   * The evident intent: the next cursor is the index score of the last id shown.
   * The page of ids from `cursor`, with the cursor taken that way.
   */
  function EntryScore(e: Entry): int {
    e.score
  }

  function ScoreCursorPage(s: seq<Entry>, cursor: int, n: nat): Page<int>
  {
    var p := BuildPage(Take(Range(s, 0, cursor - 1), n + 1), n, EntryScore);
    Page(Members(p.list), p.nextCursor, p.hasMore)
  }

  /**
   * With the cursor taken from the index score (and no two ids sharing a score), a
   * page shows the first `n` ids of the window below the cursor, and the window below
   * its next cursor is exactly the rest: paging skips nothing and repeats nothing.
   */
  lemma ScoreCursorContinues(s: seq<Entry>, cursor: int, n: nat)
    requires ZSet.Valid(s) && DistinctScores(s) && n > 0
    ensures var p := ScoreCursorPage(s, cursor, n);
      var window := Range(s, 0, cursor - 1);
      && p.list == Members(Take(window, n))
      && (p.hasMore <==> |window| > n)
      && (p.hasMore ==> Range(s, 0, p.nextCursor.value - 1) == window[n..])
  {
    var window := Range(s, 0, cursor - 1);
    var stamp := EntryScore;
    var q := BuildPage(Take(window, n + 1), n, stamp);
    assert q.list == Take(window, n) && (q.hasMore <==> |window| > n) by {
      OverFetch(window, n, stamp);
    }
    if q.hasMore {
      assert q.nextCursor == Some(window[n - 1].score) by {
        BuildPageMeaning(Take(window, n + 1), n, stamp);
        assert q.list[n - 1] == window[n - 1];
      }
      assert Range(s, 0, window[n - 1].score - 1) == window[n..] by {
        NextWindow(s, cursor, n - 1);
      }
    }
  }
}
