/**
 * The per-goods favourite counter kept in Redis (`GOODS_COLLECT_KEY + id`): single
 * read with database fallback, batch read with database fallback and write-back,
 * and the increment applied when a favourite is added or removed.
 *
 * A raised exception is modelled by a `fault` flag taken to strike at the first
 * Redis call of the operation.
 */
module CollectNumCache {
  import opened Common
  import opened GoodsStore

  /** The counter keys and their TTLs (minutes); a key created by INCRBY has no TTL. */
  class CounterCache {
    var counts: map<int, int>
    var ttl: map<int, int>
    /** `GOODS_COLLECT_TTL`, which the constants file does not define: a parameter here. */
    const collectTtl: int

    ghost predicate Valid()
      reads this
    {
      ttl.Keys <= counts.Keys
    }

    constructor(collectTtl: int)
      ensures Valid() && counts == map[] && ttl == map[] && this.collectTtl == collectTtl
    {
      counts := map[];
      ttl := map[];
      this.collectTtl := collectTtl;
    }
  }

  /** `getCollectNumsByIds` for one id: the row's collect_num, or nothing when there is no row. */
  function DbCollectNum(goods: map<int, Goods>, id: int): (r: Option<int>)
    ensures r.Some? <==> id in goods
    ensures r.Some? ==> r.value == goods[id].collectNum
  {
    if id in goods then Some(goods[id].collectNum) else None
  }

  /**
   * `getCollectNum`: a cached value is returned as is; on a miss the database value
   * is returned and cached; no row, or a fault, gives None.
   */
  method GetCollectNum(cache: CounterCache, db: GoodsDb, id: int, fault: bool) returns (r: Option<int>)
    requires cache.Valid()
    modifies cache
    ensures cache.Valid()
    ensures fault ==> r == None && cache.counts == old(cache.counts) && cache.ttl == old(cache.ttl)
    ensures !fault && id in old(cache.counts) ==>
      r == Some(old(cache.counts)[id]) && cache.counts == old(cache.counts) && cache.ttl == old(cache.ttl)
    ensures !fault && id !in old(cache.counts) ==> r == DbCollectNum(db.goods, id)
    ensures !fault && id !in old(cache.counts) && id in db.goods ==>
      && cache.counts == old(cache.counts)[id := db.goods[id].collectNum]
      && cache.ttl == old(cache.ttl)[id := cache.collectTtl]
    ensures !fault && id !in old(cache.counts) && id !in db.goods ==>
      cache.counts == old(cache.counts) && cache.ttl == old(cache.ttl)
  {
    if fault {
      return None;
    }
    if id in cache.counts {
      return Some(cache.counts[id]);
    }
    r := DbCollectNum(db.goods, id);
    if r.Some? {
      cache.counts := cache.counts[id := r.value];
      cache.ttl := cache.ttl[id := cache.collectTtl];
    }
  }

  /** The counters after a batch read of `ids`: each id missed in the cache and found in the table is cached. */
  function Backfilled(counts: map<int, int>, goods: map<int, Goods>, ids: seq<int>): (r: map<int, int>)
    ensures forall id :: id in r <==> id in counts || (id in ids && id in goods)
    ensures forall id :: id in r ==> r[id] == if id in counts then counts[id] else goods[id].collectNum
  {
    counts + map id | id in ids && id !in counts && id in goods :: goods[id].collectNum
  }

  /** The counter TTLs after a batch read: each backfilled counter gets the collect TTL. */
  function BackfilledTtl(counts: map<int, int>, ttl: map<int, int>, goods: map<int, Goods>, ids: seq<int>, collectTtl: int): map<int, int>
  {
    ttl + map id | id in ids && id !in counts && id in goods :: collectTtl
  }

  /**
   * `batchGetCollectNum`: the result holds, for each requested id, the cached counter
   * when there is one, else the database value (which is then cached); ids found in
   * neither are absent. Empty input, or a fault, gives the empty map and writes nothing.
   */
  method BatchGetCollectNum(cache: CounterCache, db: GoodsDb, ids: seq<int>, fault: bool)
    returns (result: map<int, int>)
    requires cache.Valid()
    modifies cache
    ensures cache.Valid()
    ensures ids == [] || fault ==>
      result == map[] && cache.counts == old(cache.counts) && cache.ttl == old(cache.ttl)
    ensures !fault ==> forall id :: id in result <==> id in ids && (id in old(cache.counts) || id in db.goods)
    ensures !fault ==> forall id :: id in result ==>
      result[id] == if id in old(cache.counts) then old(cache.counts)[id] else db.goods[id].collectNum
    ensures !fault ==> cache.counts == Backfilled(old(cache.counts), db.goods, ids)
    ensures !fault ==> cache.ttl == BackfilledTtl(old(cache.counts), old(cache.ttl), db.goods, ids, cache.collectTtl)
  {
    result := map[];
    if ids == [] || fault {
      return;
    }
    var counts0, goods := cache.counts, db.goods;
    ghost var ttl0 := cache.ttl;
    var missIds: seq<int> := [];
    var i := 0;
    while i < |ids|
      invariant 0 <= i <= |ids|
      invariant forall id :: id in result <==> id in ids[..i] && id in counts0
      invariant forall id :: id in result ==> result[id] == counts0[id]
      invariant forall id :: id in missIds <==> id in ids[..i] && id !in counts0
    {
      assert ids[..i + 1] == ids[..i] + [ids[i]];
      var id := ids[i];
      if id in counts0 {
        result := result[id := counts0[id]];
      } else {
        missIds := missIds + [id];
      }
      i := i + 1;
    }
    assert ids[..i] == ids;
    ghost var hits := result;
    assert MissCounts(goods, []) == map[] && MissTtls(goods, [], cache.collectTtl) == map[];
    var j := 0;
    while j < |missIds|
      invariant 0 <= j <= |missIds|
      invariant result == hits + MissCounts(goods, missIds[..j])
      invariant cache.counts == counts0 + MissCounts(goods, missIds[..j])
      invariant cache.ttl == ttl0 + MissTtls(goods, missIds[..j], cache.collectTtl)
    {
      var id := missIds[j];
      MissStep(goods, missIds, j, cache.collectTtl);
      if id in goods {
        var n := goods[id].collectNum;
        UpdateUnion(hits, MissCounts(goods, missIds[..j]), id, n);
        UpdateUnion(counts0, MissCounts(goods, missIds[..j]), id, n);
        UpdateUnion(ttl0, MissTtls(goods, missIds[..j], cache.collectTtl), id, cache.collectTtl);
        result := result[id := n];
        cache.counts := cache.counts[id := n];
        cache.ttl := cache.ttl[id := cache.collectTtl];
      }
      j := j + 1;
    }
    assert missIds[..j] == missIds;
    BackfillMeaning(counts0, ttl0, goods, ids, missIds, cache.collectTtl);
  }

  /** The counters a backfill of `missIds` writes: one per id whose row exists. */
  function MissCounts(goods: map<int, Goods>, missIds: seq<int>): map<int, int>
  {
    map id | id in missIds && id in goods :: goods[id].collectNum
  }

  /** The TTLs a backfill of `missIds` writes. */
  function MissTtls(goods: map<int, Goods>, missIds: seq<int>, collectTtl: int): map<int, int>
  {
    map id | id in missIds && id in goods :: collectTtl
  }

  lemma MissStep(goods: map<int, Goods>, missIds: seq<int>, j: nat, collectTtl: int)
    requires j < |missIds|
    ensures var id := missIds[j];
      && MissCounts(goods, missIds[..j + 1]) ==
        (if id in goods then MissCounts(goods, missIds[..j])[id := goods[id].collectNum] else MissCounts(goods, missIds[..j]))
      && MissTtls(goods, missIds[..j + 1], collectTtl) ==
        (if id in goods then MissTtls(goods, missIds[..j], collectTtl)[id := collectTtl] else MissTtls(goods, missIds[..j], collectTtl))
  {
    assert missIds[..j + 1] == missIds[..j] + [missIds[j]];
  }

  /** Backfilling exactly the requested ids the cache missed yields the Backfilled counters and TTLs. */
  lemma BackfillMeaning(counts0: map<int, int>, ttl0: map<int, int>, goods: map<int, Goods>, ids: seq<int>, missIds: seq<int>,
                        collectTtl: int)
    requires ttl0.Keys <= counts0.Keys
    requires forall id :: id in missIds <==> id in ids && id !in counts0
    ensures counts0 + MissCounts(goods, missIds) == Backfilled(counts0, goods, ids)
    ensures ttl0 + MissTtls(goods, missIds, collectTtl) == BackfilledTtl(counts0, ttl0, goods, ids, collectTtl)
    ensures (ttl0 + MissTtls(goods, missIds, collectTtl)).Keys <= (counts0 + MissCounts(goods, missIds)).Keys
  {
    var c, b := counts0 + MissCounts(goods, missIds), Backfilled(counts0, goods, ids);
    assert forall id :: id in c <==> id in b;
    assert forall id :: id in c ==> c[id] == b[id];
    var t, bt := ttl0 + MissTtls(goods, missIds, collectTtl), BackfilledTtl(counts0, ttl0, goods, ids, collectTtl);
    assert forall id :: id in t <==> id in bt;
    assert forall id :: id in t ==> t[id] == bt[id];
  }

  /**
   * The counter map after `updateCollectNumCache` without a fault: INCRBY creates a
   * missing key at 0 before adding; when the new value equals the delta the key is
   * overwritten with the database value (if the row exists), otherwise the sum stays.
   */
  function IncrementOutcome(counts: map<int, int>, dbValue: Option<int>, id: int, delta: int): map<int, int>
  {
    var newValue := (if id in counts then counts[id] else 0) + delta;
    if newValue == delta && dbValue.Some? then counts[id := dbValue.value] else counts[id := newValue]
  }

  /**
   * `updateCollectNumCache`: the counter moves as IncrementOutcome says; the TTL is
   * refreshed on the plain increment and set with the seeded value; a fault deletes the key.
   */
  method UpdateCollectNumCache(cache: CounterCache, db: GoodsDb, id: int, delta: int, fault: bool)
    requires cache.Valid()
    modifies cache
    ensures cache.Valid()
    ensures fault ==> cache.counts == old(cache.counts) - {id} && cache.ttl == old(cache.ttl) - {id}
    ensures !fault ==> cache.counts == IncrementOutcome(old(cache.counts), DbCollectNum(db.goods, id), id, delta)
    ensures !fault ==> var newValue := (if id in old(cache.counts) then old(cache.counts)[id] else 0) + delta;
      cache.ttl == if newValue != delta || id in db.goods then old(cache.ttl)[id := cache.collectTtl] else old(cache.ttl)
  {
    if fault {
      cache.counts := cache.counts - {id};
      cache.ttl := cache.ttl - {id};
      return;
    }
    var newValue := (if id in cache.counts then cache.counts[id] else 0) + delta;
    cache.counts := cache.counts[id := newValue];
    if newValue == delta {
      var dbValue := DbCollectNum(db.goods, id);
      if dbValue.Some? {
        cache.counts := cache.counts[id := dbValue.value];
        cache.ttl := cache.ttl[id := cache.collectTtl];
      }
    } else {
      cache.ttl := cache.ttl[id := cache.collectTtl];
    }
  }

  /** An increment of a cached non-zero counter adds the delta and touches no other counter. */
  lemma IncrementAddsDelta(counts: map<int, int>, dbValue: Option<int>, id: int, delta: int)
    requires id in counts && counts[id] != 0
    ensures var after := IncrementOutcome(counts, dbValue, id, delta);
      id in after && after[id] == counts[id] + delta && after - {id} == counts - {id}
  {
  }

  /**
   * Seed on miss: when the counter is not cached and the row exists, the counter
   * becomes the database value whatever the delta was; the delta is not re-applied.
   */
  lemma SeedDropsDelta(counts: map<int, int>, dbValue: int, id: int, delta1: int, delta2: int)
    requires id !in counts
    ensures IncrementOutcome(counts, Some(dbValue), id, delta1) == IncrementOutcome(counts, Some(dbValue), id, delta2)
    ensures IncrementOutcome(counts, Some(dbValue), id, delta1)[id] == dbValue
  {
  }

  /**
   * A cached counter of 0 is taken for a miss too: the increment is replaced by the
   * database value.
   */
  lemma ZeroCounterReseeded(counts: map<int, int>, dbValue: int, id: int, delta: int)
    requires id in counts && counts[id] == 0
    ensures IncrementOutcome(counts, Some(dbValue), id, delta)[id] == dbValue
  {
  }

  /**
   * Two favourites on a cold counter whose row says 10 leave the counter at 11:
   * the first favourite's +1 is lost from the cache (and so from the database,
   * once the reconciler copies the cache back).
   */
  lemma ColdCounterLosesFirstIncrement(id: int)
    ensures var once := IncrementOutcome(map[], Some(10), id, 1);
      once[id] == 10 && IncrementOutcome(once, Some(10), id, 1)[id] == 11
  {
  }
}
