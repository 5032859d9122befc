/**
 * The reconciler that copies cached favourite counters back to the goods table:
 * a Redis set of pending goods ids, a lock key taken with SET NX, a drain loop and
 * the single-goods sync. The lock is a field; its 300-second expiry is not modelled.
 */
module CollectNumSync {
  import opened Common
  import opened GoodsStore
  import opened CollectNumCache

  /** The pending set lives 24 hours after each mark. */
  const PENDING_TTL_MINUTES := 24 * 60
  const SYNC_LOCK_TTL_SECONDS := 300

  /** `goods:collect:sync:pending` (with its TTL in minutes, None once the key is gone) and the lock key. */
  class SyncState {
    var pending: set<int>
    var pendingTtl: Option<int>
    var lockHeld: bool

    constructor()
      ensures pending == {} && pendingTtl == None && !lockHeld
    {
      pending := {};
      pendingTtl := None;
      lockHeld := false;
    }
  }

  /**
   * `syncSingleGoodsCollectNum` on one row: with a cached counter that differs from
   * the row, the row's counter is moved by (cache - db); with no cached counter, or
   * an equal one, the row is left alone.
   */
  function SyncRow(row: Goods, cached: Option<int>): Goods
  {
    if cached.None? || cached.value == row.collectNum then row
    else row.(collectNum := row.collectNum + (cached.value - row.collectNum))
  }

  function Cached(counts: map<int, int>, id: int): Option<int>
  {
    if id in counts then Some(counts[id]) else None
  }

  /** The goods table after one id's sync: only that row may change. */
  function SyncOne(goods: map<int, Goods>, counts: map<int, int>, id: int): map<int, Goods>
  {
    if id in goods then goods[id := SyncRow(goods[id], Cached(counts, id))] else goods
  }

  /** After a sync with a cached counter the row holds exactly that counter, and nothing else about it changes. */
  lemma SyncRowConverges(row: Goods, v: int)
    ensures SyncRow(row, Some(v)).collectNum == v
    ensures SyncRow(row, Some(v)).(collectNum := row.collectNum) == row
  {
  }

  /** Syncing twice is syncing once. */
  lemma SyncRowIdempotent(row: Goods, cached: Option<int>)
    ensures SyncRow(SyncRow(row, cached), cached) == SyncRow(row, cached)
  {
  }

  /** `markForSync`: SADD then a 24-hour EXPIRE; a fault is swallowed and changes nothing. */
  method MarkForSync(st: SyncState, id: int, fault: bool)
    modifies st
    ensures fault ==> st.pending == old(st.pending) && st.pendingTtl == old(st.pendingTtl)
    ensures !fault ==> st.pending == old(st.pending) + {id} && st.pendingTtl == Some(PENDING_TTL_MINUTES)
    ensures st.lockHeld == old(st.lockHeld)
  {
    if !fault {
      st.pending := st.pending + {id};
      st.pendingTtl := Some(PENDING_TTL_MINUTES);
    }
  }

  /**
   * `syncSingleGoodsCollectNum`: the goods row is synced against the cached counter
   * when both exist; no other row changes.
   */
  method SyncSingle(counter: CounterCache, db: GoodsDb, id: int)
    modifies db
    ensures db.goods == SyncOne(old(db.goods), counter.counts, id)
    ensures db.favorites == old(db.favorites) && db.nextId == old(db.nextId)
  {
    if id !in counter.counts {
      return;
    }
    var cacheCollectNum := counter.counts[id];
    if id !in db.goods {
      return;
    }
    var dbCollectNum := db.goods[id].collectNum;
    if cacheCollectNum != dbCollectNum {
      var delta := cacheCollectNum - dbCollectNum;
      db.goods := db.goods[id := db.goods[id].(collectNum := db.goods[id].collectNum + delta)];
    }
  }

  /** The goods table once each id in `done` has been synced against `counts`. */
  function SyncAll(before: map<int, Goods>, counts: map<int, int>, done: set<int>): (after: map<int, Goods>)
    ensures after.Keys == before.Keys
  {
    map id | id in before :: if id in done then SyncRow(before[id], Cached(counts, id)) else before[id]
  }

  /** Syncing one more id extends the synced set by that id. */
  lemma SyncAllStep(before: map<int, Goods>, counts: map<int, int>, done: set<int>, id: int)
    requires id !in done
    ensures SyncOne(SyncAll(before, counts, done), counts, id) == SyncAll(before, counts, done + {id})
  {
  }

  /**
   * One pass of the drain loop: the single sync, then SREM of the id from the pending
   * set; when the sync raises (`fails`), neither happens.
   */
  method DrainOne(st: SyncState, counter: CounterCache, db: GoodsDb, id: int, fails: bool) returns (ok: bool)
    modifies st, db
    ensures ok == !fails
    ensures fails ==> st.pending == old(st.pending) && db.goods == old(db.goods)
    ensures !fails ==> st.pending == old(st.pending) - {id} && db.goods == SyncOne(old(db.goods), counter.counts, id)
    ensures db.favorites == old(db.favorites) && db.nextId == old(db.nextId)
    ensures st.lockHeld == old(st.lockHeld) && st.pendingTtl == old(st.pendingTtl)
  {
    if fails {
      return false;
    }
    SyncSingle(counter, db, id);
    st.pending := st.pending - {id};
    return true;
  }

  /**
   * `doSyncCollectNum`: every pending id is synced; an id whose sync returns leaves
   * the pending set (also when its counter was not cached), an id whose sync raises
   * (those in `failing`) stays pending and is not written. The success and failure
   * counts the source only logs are not modelled.
   */
  method DoSync(st: SyncState, counter: CounterCache, db: GoodsDb, failing: set<int>)
    modifies st, db
    ensures st.pending == old(st.pending) * failing
    ensures db.goods == SyncAll(old(db.goods), counter.counts, old(st.pending) - failing)
    ensures db.favorites == old(db.favorites) && db.nextId == old(db.nextId)
    ensures st.lockHeld == old(st.lockHeld)
    ensures st.pendingTtl == if st.pending == {} then None else old(st.pendingTtl)
  {
    var todo := st.pending;
    ghost var pending0, goods0, counts := st.pending, db.goods, counter.counts;
    ghost var synced: set<int> := {};
    while todo != {}
      invariant todo <= pending0
      invariant forall x :: x in st.pending <==> x in todo || (x in pending0 && x in failing)
      invariant forall x :: x in synced <==> x in pending0 && x !in todo && x !in failing
      invariant counter.counts == counts
      invariant db.goods == SyncAll(goods0, counts, synced)
      invariant db.favorites == old(db.favorites) && db.nextId == old(db.nextId)
      invariant st.lockHeld == old(st.lockHeld) && st.pendingTtl == old(st.pendingTtl)
      decreases |todo|
    {
      assert (forall x :: x !in todo) ==> todo == {};
      var id :| id in todo;
      SyncAllStep(goods0, counts, synced, id);
      var ok := DrainOne(st, counter, db, id, id in failing);
      if ok {
        synced := synced + {id};
      }
      todo := todo - {id};
    }
    assert forall x :: x in st.pending <==> x in pending0 * failing;
    assert forall x :: x in synced <==> x in pending0 - failing;
    assert synced == pending0 - failing;
    if st.pending == {} {
      st.pendingTtl := None;
    }
  }

  /**
   * `batchSyncCollectNum`: when the lock is free it is taken, the pending set is
   * drained and the lock is released; when it is held nothing is touched.
   */
  method BatchSync(st: SyncState, counter: CounterCache, db: GoodsDb, failing: set<int>)
    modifies st, db
    ensures old(st.lockHeld) ==>
      && st.pending == old(st.pending) && st.pendingTtl == old(st.pendingTtl) && st.lockHeld
      && db.goods == old(db.goods)
    ensures !old(st.lockHeld) ==>
      && !st.lockHeld
      && st.pending == old(st.pending) * failing
      && st.pendingTtl == (if st.pending == {} then None else old(st.pendingTtl))
      && db.goods == SyncAll(old(db.goods), counter.counts, old(st.pending) - failing)
    ensures db.favorites == old(db.favorites) && db.nextId == old(db.nextId)
  {
    if st.lockHeld {
      return;
    }
    st.lockHeld := true;
    DoSync(st, counter, db, failing);
    st.lockHeld := false;
  }

  /** `forceSyncCollectNum`: the single sync, without the lock and without touching the pending set. */
  method ForceSync(st: SyncState, counter: CounterCache, db: GoodsDb, id: int, fault: bool)
    modifies db
    ensures fault ==> db.goods == old(db.goods)
    ensures !fault ==> db.goods == SyncOne(old(db.goods), counter.counts, id)
    ensures db.favorites == old(db.favorites) && db.nextId == old(db.nextId)
  {
    if !fault {
      SyncSingle(counter, db, id);
    }
  }

  /**
   * Convergence: after a drain that nothing failed, every row that was pending and
   * has a cached counter holds exactly that counter. That the pending set is then
   * empty is stated by `DoSync`.
   */
  lemma DrainConverges(before: map<int, Goods>, counts: map<int, int>, pending: set<int>)
    ensures var after := SyncAll(before, counts, pending);
      forall id :: id in pending && id in after && id in counts ==> after[id].collectNum == counts[id]
  {
    var after := SyncAll(before, counts, pending);
    forall id | id in pending && id in after && id in counts
      ensures after[id].collectNum == counts[id]
    {
      SyncRowConverges(before[id], counts[id]);
    }
  }
}
