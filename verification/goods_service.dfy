/**
 * The owner and administrator operations on listings: release, edit, the status
 * changes (off shelf, back on sale, deleted, sold, renting, blocked, restored),
 * favourites, the detail view and search; together with the maintenance each of
 * them does on the Redis listing indexes and caches.
 *
 * The goods table's `update_time` is taken to be refreshed by every status change
 * and edit; the refreshed value is the parameter `dbNow`. `nowMs` is the
 * application clock (`System.currentTimeMillis`). A transaction that raises rolls
 * back the database; every error below is raised before anything is written.
 */
module GoodsService {
  import opened Common
  import opened ZSet
  import opened IndexKeys
  import opened ListingIndex
  import opened GoodsStore
  import opened CollectNumCache
  import opened CollectNumSync
  import opened GoodsQuery

  /** The exceptions the service raises. */
  datatype GoodsError = GoodsNotFound | GoodsInRent | NoImages | AlreadyBlocked | NotBlocked

  datatype Outcome<T> = Done(value: T) | Failed(error: GoodsError)

  // ---------------------------------------------------------------------------
  // Index maintenance
  // ---------------------------------------------------------------------------

  /** The keys `removeGoodsFromZSet` and `updateGoodsScoreInZSet` visit for a row: its category (if any), its owner, all goods. */
  predicate Touched(g: Goods, k: IndexKey) {
    || k == OwnerIndex(g.ownerId)
    || k == AllGoodsIndex
    || (g.form.categoryId.Some? && k == CategoryIndex(g.form.categoryId.value))
  }

  /** `removeGoodsFromZSet`: ZREM of the row's id from its category, owner and all-goods sets. */
  function Unlist(sets: map<IndexKey, seq<Entry>>, g: Goods): map<IndexKey, seq<Entry>>
  {
    var s1 := if g.form.categoryId.Some? then Unindex(sets, CategoryIndex(g.form.categoryId.value), g.id) else sets;
    Unindex(Unindex(s1, OwnerIndex(g.ownerId), g.id), AllGoodsIndex, g.id)
  }

  /**
   * The row's id ZADDed with `score` into whichever of its category, owner and
   * all-goods sets exist (`releaseGoods` with the clock, `updateGoodsScoreInZSet`
   * with the row's update time).
   */
  function ListUnder(sets: map<IndexKey, seq<Entry>>, g: Goods, score: int): map<IndexKey, seq<Entry>>
  {
    var s1 := if g.form.categoryId.Some? then Upsert(sets, CategoryIndex(g.form.categoryId.value), g.id, score) else sets;
    Upsert(Upsert(s1, OwnerIndex(g.ownerId), g.id, score), AllGoodsIndex, g.id, score)
  }

  /** Unlist drops the id from exactly the visited keys and leaves every other key as it was. */
  lemma UnlistContents(sets: map<IndexKey, seq<Entry>>, g: Goods, k: IndexKey)
    requires WellFormed(sets)
    ensures WellFormed(Unlist(sets, g))
    ensures Contents(Unlist(sets, g), k) == if Touched(g, k) then Contents(sets, k) - {g.id} else Contents(sets, k)
    ensures !Touched(g, k) ==> (k in Unlist(sets, g) <==> k in sets)
  {
    var s1 := if g.form.categoryId.Some? then Unindex(sets, CategoryIndex(g.form.categoryId.value), g.id) else sets;
    if g.form.categoryId.Some? {
      UnindexContents(sets, CategoryIndex(g.form.categoryId.value), g.id, k);
    }
    UnindexContents(s1, OwnerIndex(g.ownerId), g.id, k);
    UnindexContents(Unindex(s1, OwnerIndex(g.ownerId), g.id), AllGoodsIndex, g.id, k);
  }

  /** ListUnder (re)scores the id in exactly the visited keys that exist; it creates no key. */
  lemma ListUnderContents(sets: map<IndexKey, seq<Entry>>, g: Goods, score: int, k: IndexKey)
    requires WellFormed(sets)
    ensures WellFormed(ListUnder(sets, g, score))
    ensures (k in ListUnder(sets, g, score)) <==> k in sets
    ensures Contents(ListUnder(sets, g, score), k) ==
      if Touched(g, k) && k in sets then Contents(sets, k)[g.id := score] else Contents(sets, k)
  {
    var s1 := if g.form.categoryId.Some? then Upsert(sets, CategoryIndex(g.form.categoryId.value), g.id, score) else sets;
    if g.form.categoryId.Some? {
      UpsertContents(sets, CategoryIndex(g.form.categoryId.value), g.id, score, k);
      UpsertContents(sets, CategoryIndex(g.form.categoryId.value), g.id, score, OwnerIndex(g.ownerId));
      UpsertContents(sets, CategoryIndex(g.form.categoryId.value), g.id, score, AllGoodsIndex);
    }
    UpsertContents(s1, OwnerIndex(g.ownerId), g.id, score, k);
    UpsertContents(s1, OwnerIndex(g.ownerId), g.id, score, AllGoodsIndex);
    UpsertContents(Upsert(s1, OwnerIndex(g.ownerId), g.id, score), AllGoodsIndex, g.id, score, k);
  }

  /** `removeGoodsFromZSet` on the store: a set emptied by it disappears together with its TTL. */
  method RemoveFromIndexes(idx: IndexStore, g: Goods)
    requires idx.Valid()
    modifies idx
    ensures idx.Valid()
    ensures idx.sets == Unlist(old(idx.sets), g)
    ensures idx.sets.Keys <= old(idx.sets.Keys) && idx.ttl == old(idx.ttl) - (old(idx.sets.Keys) - idx.sets.Keys)
  {
    ghost var ttl0, keys0 := idx.ttl, idx.sets.Keys;
    if g.form.categoryId.Some? {
      idx.RemoveMember(CategoryIndex(g.form.categoryId.value), g.id);
    }
    ghost var keys1 := idx.sets.Keys;
    idx.RemoveMember(OwnerIndex(g.ownerId), g.id);
    ghost var keys2 := idx.sets.Keys;
    DropChain(ttl0, keys0, keys1, keys2);
    idx.RemoveMember(AllGoodsIndex, g.id);
    DropChain(ttl0, keys0, keys2, idx.sets.Keys);
  }

  /** Dropping the TTLs of the keys lost in two successive steps drops those of the keys lost overall. */
  lemma DropChain(ttl: map<IndexKey, int>, a: set<IndexKey>, b: set<IndexKey>, c: set<IndexKey>)
    requires c <= b <= a
    ensures (ttl - (a - b)) - (b - c) == ttl - (a - c)
  {
    assert forall k :: k in (ttl - (a - b)) - (b - c) <==> k in ttl - (a - c);
  }

  /** The three hasKey + ZADD steps on the store; no TTL changes. */
  method AddToIndexes(idx: IndexStore, g: Goods, score: int)
    requires idx.Valid()
    modifies idx
    ensures idx.Valid()
    ensures idx.sets == ListUnder(old(idx.sets), g, score) && idx.ttl == old(idx.ttl)
    ensures idx.sets.Keys == old(idx.sets.Keys)
  {
    if g.form.categoryId.Some? {
      idx.AddIfExists(CategoryIndex(g.form.categoryId.value), g.id, score);
    }
    idx.AddIfExists(OwnerIndex(g.ownerId), g.id, score);
    idx.AddIfExists(AllGoodsIndex, g.id, score);
  }

  /** The indexes whose membership follows from a goods row alone. */
  predicate IsStatusIndex(k: IndexKey) {
    k.CategoryIndex? || k.OwnerIndex? || k.AllGoodsIndex? || k.OfflineIndex?
  }

  /**
   * Every id held in a category, owner, all-goods or off-shelf index has a row and
   * belongs to that partition: the index shows nothing a rebuild would leave out.
   */
  ghost predicate Sound(sets: map<IndexKey, seq<Entry>>, goods: map<int, Goods>) {
    forall k, id :: IsStatusIndex(k) && id in Contents(sets, k) ==> id in goods && InPartition(goods[id], k)
  }

  /** A rebuild from the partition's own rows keeps the indexes sound. */
  lemma RebuildKeepsSound(sets: map<IndexKey, seq<Entry>>, goods: map<int, Goods>, favorites: map<(int, int), int>, k: IndexKey)
    requires WellFormed(sets) && Sound(sets, goods) && IsGoodsIndex(k)
    ensures Sound(Rebuilt(sets, k, IndexRows(goods, favorites, k)), goods)
  {
    var rows := IndexRows(goods, favorites, k);
    forall k2, id | IsStatusIndex(k2) && id in Contents(Rebuilt(sets, k, rows), k2)
      ensures id in goods && InPartition(goods[id], k2)
    {
      RebuiltContents(sets, k, rows, k2);
    }
  }

  // ---------------------------------------------------------------------------
  // Status changes
  // ---------------------------------------------------------------------------

  /** The goods table after `UPDATE goods SET status` on one row. */
  function WithStatus(goods: map<int, Goods>, id: int, status: int, dbNow: int): map<int, Goods>
    requires id in goods
  {
    goods[id := goods[id].(status := status, updateTime := dbNow)]
  }

  /** `getGoodsStatus(id, owner)` finds a row: the id exists and belongs to the caller. */
  predicate OwnedBy(goods: map<int, Goods>, id: int, ownerId: int) {
    id in goods && goods[id].ownerId == ownerId
  }

  /**
   * `offlineGoods`: a row the caller does not own (or no row) is GoodsNotFound, a
   * rented listing is GoodsInRent; otherwise the row goes off shelf, leaves its
   * category, owner and all-goods indexes, joins the owner's off-shelf index (if it
   * exists) scored by the clock, and its detail cache is dropped.
   */
  method OfflineGoods(db: GoodsDb, idx: IndexStore, details: DetailCache, id: int, ownerId: int, nowMs: int, dbNow: int)
    returns (r: Outcome<()>)
    requires db.Valid() && idx.Valid() && details.Valid()
    modifies db, idx, details
    ensures db.Valid() && idx.Valid() && details.Valid()
    ensures r == if !OwnedBy(old(db.goods), id, ownerId) then Failed(GoodsNotFound)
                 else if old(db.goods)[id].status == RENTING then Failed(GoodsInRent)
                 else Done(())
    ensures r.Failed? ==> db.goods == old(db.goods) && idx.sets == old(idx.sets) && details.details == old(details.details)
    ensures r.Done? ==>
      && db.goods == WithStatus(old(db.goods), id, OFF_SHELF, dbNow)
      && idx.sets == Upsert(Unlist(old(idx.sets), db.goods[id]), OfflineIndex(ownerId), id, nowMs)
      && details.details == old(details.details) - {id}
    ensures idx.ttl == old(idx.ttl) - (old(idx.sets.Keys) - idx.sets.Keys)
    ensures db.favorites == old(db.favorites) && db.nextId == old(db.nextId)
  {
    if id !in db.goods || db.goods[id].ownerId != ownerId {
      return Failed(GoodsNotFound);
    }
    if db.goods[id].status == RENTING {
      return Failed(GoodsInRent);
    }
    db.goods := WithStatus(db.goods, id, OFF_SHELF, dbNow);
    RemoveFromIndexes(idx, db.goods[id]);
    idx.AddIfExists(OfflineIndex(ownerId), id, nowMs);
    details.Evict(id);
    return Done(());
  }

  /**
   * `onlineGoods`: from any status, a row the caller owns goes back on sale, leaves
   * the owner's off-shelf index and is (re)scored by its update time in its category,
   * owner and all-goods indexes that exist; the detail cache is dropped.
   */
  method OnlineGoods(db: GoodsDb, idx: IndexStore, details: DetailCache, id: int, ownerId: int, dbNow: int)
    returns (r: Outcome<()>)
    requires db.Valid() && idx.Valid() && details.Valid()
    modifies db, idx, details
    ensures db.Valid() && idx.Valid() && details.Valid()
    ensures r == if OwnedBy(old(db.goods), id, ownerId) then Done(()) else Failed(GoodsNotFound)
    ensures r.Failed? ==> db.goods == old(db.goods) && idx.sets == old(idx.sets) && details.details == old(details.details)
    ensures r.Done? ==>
      && db.goods == WithStatus(old(db.goods), id, ON_SALE, dbNow)
      && idx.sets == ListUnder(Unindex(old(idx.sets), OfflineIndex(ownerId), id), db.goods[id], dbNow)
      && details.details == old(details.details) - {id}
    ensures idx.ttl == old(idx.ttl) - (old(idx.sets.Keys) - idx.sets.Keys)
    ensures db.favorites == old(db.favorites) && db.nextId == old(db.nextId)
  {
    if id !in db.goods || db.goods[id].ownerId != ownerId {
      return Failed(GoodsNotFound);
    }
    db.goods := WithStatus(db.goods, id, ON_SALE, dbNow);
    idx.RemoveMember(OfflineIndex(ownerId), id);
    AddToIndexes(idx, db.goods[id], db.goods[id].updateTime);
    details.Evict(id);
    return Done(());
  }

  /** The statuses `deleteGoods`, `markAsSold` and `markAsRenting` set. */
  predicate IsRetiring(status: int) {
    status == USER_DELETED || status == SOLD || status == RENTING
  }

  /**
   * `deleteGoods` (USER_DELETED), `markAsSold` (SOLD) and `markAsRenting` (RENTING):
   * from any status, a row the caller owns takes the new status and leaves its
   * category, owner and all-goods indexes; the off-shelf index is not visited; the
   * detail cache is dropped.
   */
  method Retire(db: GoodsDb, idx: IndexStore, details: DetailCache, id: int, ownerId: int, status: int, dbNow: int)
    returns (r: Outcome<()>)
    requires IsRetiring(status)
    requires db.Valid() && idx.Valid() && details.Valid()
    modifies db, idx, details
    ensures db.Valid() && idx.Valid() && details.Valid()
    ensures r == if OwnedBy(old(db.goods), id, ownerId) then Done(()) else Failed(GoodsNotFound)
    ensures r.Failed? ==> db.goods == old(db.goods) && idx.sets == old(idx.sets) && details.details == old(details.details)
    ensures r.Done? ==>
      && db.goods == WithStatus(old(db.goods), id, status, dbNow)
      && idx.sets == Unlist(old(idx.sets), db.goods[id])
      && details.details == old(details.details) - {id}
    ensures idx.ttl == old(idx.ttl) - (old(idx.sets.Keys) - idx.sets.Keys)
    ensures db.favorites == old(db.favorites) && db.nextId == old(db.nextId)
  {
    if id !in db.goods || db.goods[id].ownerId != ownerId {
      return Failed(GoodsNotFound);
    }
    db.goods := WithStatus(db.goods, id, status, dbNow);
    RemoveFromIndexes(idx, db.goods[id]);
    details.Evict(id);
    return Done(());
  }

  /**
   * `violationOfflineByAdmin`: no row is GoodsNotFound, an already blocked row is
   * AlreadyBlocked; otherwise the row is blocked, leaves its category, owner and
   * all-goods indexes, and its detail cache is dropped.
   */
  method ViolationOffline(db: GoodsDb, idx: IndexStore, details: DetailCache, id: int, dbNow: int)
    returns (r: Outcome<()>)
    requires db.Valid() && idx.Valid() && details.Valid()
    modifies db, idx, details
    ensures db.Valid() && idx.Valid() && details.Valid()
    ensures r == if id !in old(db.goods) then Failed(GoodsNotFound)
                 else if old(db.goods)[id].status == SYSTEM_BLOCKED then Failed(AlreadyBlocked)
                 else Done(())
    ensures r.Failed? ==> db.goods == old(db.goods) && idx.sets == old(idx.sets) && details.details == old(details.details)
    ensures r.Done? ==>
      && db.goods == WithStatus(old(db.goods), id, SYSTEM_BLOCKED, dbNow)
      && idx.sets == Unlist(old(idx.sets), db.goods[id])
      && details.details == old(details.details) - {id}
    ensures idx.ttl == old(idx.ttl) - (old(idx.sets.Keys) - idx.sets.Keys)
    ensures db.favorites == old(db.favorites) && db.nextId == old(db.nextId)
  {
    if id !in db.goods {
      return Failed(GoodsNotFound);
    }
    if db.goods[id].status == SYSTEM_BLOCKED {
      return Failed(AlreadyBlocked);
    }
    db.goods := WithStatus(db.goods, id, SYSTEM_BLOCKED, dbNow);
    RemoveFromIndexes(idx, db.goods[id]);
    details.Evict(id);
    return Done(());
  }

  /**
   * `restoreGoodsByAdmin`: no row is GoodsNotFound, a row that is not blocked is
   * NotBlocked; otherwise the row goes back on sale and is (re)scored in its
   * indexes that exist. The detail cache is not touched (no `modifies` for it).
   */
  method RestoreGoods(db: GoodsDb, idx: IndexStore, id: int, dbNow: int) returns (r: Outcome<()>)
    requires db.Valid() && idx.Valid()
    modifies db, idx
    ensures db.Valid() && idx.Valid()
    ensures r == if id !in old(db.goods) then Failed(GoodsNotFound)
                 else if old(db.goods)[id].status != SYSTEM_BLOCKED then Failed(NotBlocked)
                 else Done(())
    ensures r.Failed? ==> db.goods == old(db.goods) && idx.sets == old(idx.sets)
    ensures r.Done? ==>
      && db.goods == WithStatus(old(db.goods), id, ON_SALE, dbNow)
      && idx.sets == ListUnder(old(idx.sets), db.goods[id], dbNow)
    ensures idx.ttl == old(idx.ttl)
    ensures db.favorites == old(db.favorites) && db.nextId == old(db.nextId)
  {
    if id !in db.goods {
      return Failed(GoodsNotFound);
    }
    if db.goods[id].status != SYSTEM_BLOCKED {
      return Failed(NotBlocked);
    }
    db.goods := WithStatus(db.goods, id, ON_SALE, dbNow);
    AddToIndexes(idx, db.goods[id], db.goods[id].updateTime);
    return Done(());
  }

  /** Taking a listing off shelf keeps the indexes sound. */
  lemma OfflineKeepsSound(sets: map<IndexKey, seq<Entry>>, goods: map<int, Goods>, id: int, dbNow: int, score: int)
    requires WellFormed(sets) && Sound(sets, goods) && id in goods && goods[id].id == id
    ensures var after := WithStatus(goods, id, OFF_SHELF, dbNow);
      Sound(Upsert(Unlist(sets, after[id]), OfflineIndex(after[id].ownerId), id, score), after)
  {
    var after := WithStatus(goods, id, OFF_SHELF, dbNow);
    var row := after[id];
    var unlisted := Unlist(sets, row);
    forall k, x | IsStatusIndex(k) && x in Contents(Upsert(unlisted, OfflineIndex(row.ownerId), id, score), k)
      ensures x in after && InPartition(after[x], k)
    {
      UnlistContents(sets, row, k);
      UpsertContents(unlisted, OfflineIndex(row.ownerId), id, score, k);
    }
  }

  /** Putting a listing back on sale keeps the indexes sound. */
  lemma OnlineKeepsSound(sets: map<IndexKey, seq<Entry>>, goods: map<int, Goods>, id: int, dbNow: int)
    requires WellFormed(sets) && Sound(sets, goods) && id in goods && goods[id].id == id
    ensures var after := WithStatus(goods, id, ON_SALE, dbNow);
      Sound(ListUnder(Unindex(sets, OfflineIndex(after[id].ownerId), id), after[id], dbNow), after)
  {
    var after := WithStatus(goods, id, ON_SALE, dbNow);
    var row := after[id];
    var s1 := Unindex(sets, OfflineIndex(row.ownerId), id);
    forall k, x | IsStatusIndex(k) && x in Contents(ListUnder(s1, row, dbNow), k)
      ensures x in after && InPartition(after[x], k)
    {
      UnindexContents(sets, OfflineIndex(row.ownerId), id, k);
      ListUnderContents(s1, row, dbNow, k);
    }
  }

  /** Restoring a blocked listing keeps the indexes sound. */
  lemma RestoreKeepsSound(sets: map<IndexKey, seq<Entry>>, goods: map<int, Goods>, id: int, dbNow: int)
    requires WellFormed(sets) && Sound(sets, goods) && id in goods && goods[id].id == id
    requires goods[id].status == SYSTEM_BLOCKED
    ensures var after := WithStatus(goods, id, ON_SALE, dbNow);
      Sound(ListUnder(sets, after[id], dbNow), after)
  {
    var after := WithStatus(goods, id, ON_SALE, dbNow);
    forall k, x | IsStatusIndex(k) && x in Contents(ListUnder(sets, after[id], dbNow), k)
      ensures x in after && InPartition(after[x], k)
    {
      ListUnderContents(sets, after[id], dbNow, k);
    }
  }

  /**
   * Deleting, selling, renting out or blocking keeps the indexes sound, provided
   * the listing was not in its owner's off-shelf index.
   */
  lemma RetireKeepsSoundOutsideOffline(sets: map<IndexKey, seq<Entry>>, goods: map<int, Goods>, id: int, status: int, dbNow: int)
    requires WellFormed(sets) && Sound(sets, goods) && id in goods && goods[id].id == id
    requires status != ON_SALE && status != OFF_SHELF
    requires id !in Contents(sets, OfflineIndex(goods[id].ownerId))
    ensures var after := WithStatus(goods, id, status, dbNow);
      Sound(Unlist(sets, after[id]), after)
  {
    var after := WithStatus(goods, id, status, dbNow);
    forall k, x | IsStatusIndex(k) && x in Contents(Unlist(sets, after[id]), k)
      ensures x in after && InPartition(after[x], k)
    {
      UnlistContents(sets, after[id], k);
    }
  }

  /** A listing form with no category, images or condition. */
  const BareForm := GoodsForm(None, "", None, None, None)

  /**
   * As written, deleting (or selling, renting out, blocking) an off-shelf listing
   * leaves it in its owner's off-shelf index: goods 5 of owner 3, off shelf and
   * indexed there, is deleted and is still listed as off shelf.
   */
  lemma RetireLeavesOfflineEntry()
    ensures var g := Goods(5, 3, BareForm, 0, OFF_SHELF, None, 100);
      var sets := map[OfflineIndex(3) := [Entry(5, 100)]];
      var after := WithStatus(map[5 := g], 5, USER_DELETED, 200);
      && Sound(sets, map[5 := g])
      && 5 in Contents(Unlist(sets, after[5]), OfflineIndex(3))
      && !Sound(Unlist(sets, after[5]), after)
  {
    var g := Goods(5, 3, BareForm, 0, OFF_SHELF, None, 100);
    var sets := map[OfflineIndex(3) := [Entry(5, 100)]];
    assert Scores([Entry(5, 100)]) == map[5 := 100] by {
      assert [Entry(5, 100)][1..] == [];
    }
    var after := WithStatus(map[5 := g], 5, USER_DELETED, 200);
    assert Unlist(sets, after[5]) == sets;
    assert !InPartition(after[5], OfflineIndex(3));
  }

  /** The corrected removal: the off-shelf index of the owner is cleared as well. */
  function UnlistEverywhere(sets: map<IndexKey, seq<Entry>>, g: Goods): map<IndexKey, seq<Entry>>
  {
    Unindex(Unlist(sets, g), OfflineIndex(g.ownerId), g.id)
  }

  /** With the corrected removal, deleting, selling, renting out or blocking always keeps the indexes sound. */
  lemma CorrectedRetireKeepsSound(sets: map<IndexKey, seq<Entry>>, goods: map<int, Goods>, id: int, status: int, dbNow: int)
    requires WellFormed(sets) && Sound(sets, goods) && id in goods && goods[id].id == id
    requires status != ON_SALE && status != OFF_SHELF
    ensures var after := WithStatus(goods, id, status, dbNow);
      Sound(UnlistEverywhere(sets, after[id]), after)
  {
    var after := WithStatus(goods, id, status, dbNow);
    var row := after[id];
    forall k, x | IsStatusIndex(k) && x in Contents(UnlistEverywhere(sets, row), k)
      ensures x in after && InPartition(after[x], k)
    {
      UnlistContents(sets, row, k);
      UnlistContents(sets, row, OfflineIndex(row.ownerId));
      UnindexContents(Unlist(sets, row), OfflineIndex(row.ownerId), id, k);
    }
  }

  // ---------------------------------------------------------------------------
  // Release and edit
  // ---------------------------------------------------------------------------

  /** The images were submitted: a non-empty list. */
  predicate HasImages(form: GoodsForm) {
    form.imageUrls.Some? && form.imageUrls.value != []
  }

  /** The row `releaseGoods` inserts: no favourites, on sale, the first image as the cover. */
  function Released(id: int, ownerId: int, form: GoodsForm, dbNow: int): (g: Goods)
    requires HasImages(form)
    ensures g.id == id && g.ownerId == ownerId && g.form == form && g.updateTime == dbNow
    ensures InPartition(g, OwnerIndex(ownerId)) && InPartition(g, AllGoodsIndex)
    ensures form.categoryId.Some? ==> InPartition(g, CategoryIndex(form.categoryId.value))
    ensures g.collectNum == 0 && g.status == ON_SALE
    ensures g.coverUrl == Some(form.imageUrls.value[0])
  {
    Goods(id, ownerId, form, 0, ON_SALE, Some(form.imageUrls.value[0]), dbNow)
  }

  /**
   * `releaseGoods`: without images nothing is written; otherwise a new row under a
   * fresh id, which joins its category, owner and all-goods indexes (those that
   * exist) scored by the clock.
   */
  method ReleaseGoods(db: GoodsDb, idx: IndexStore, ownerId: int, form: GoodsForm, nowMs: int, dbNow: int)
    returns (r: Outcome<int>)
    requires db.Valid() && idx.Valid()
    modifies db, idx
    ensures db.Valid() && idx.Valid()
    ensures !HasImages(form) ==>
      r == Failed(NoImages) && db.goods == old(db.goods) && db.nextId == old(db.nextId) && idx.sets == old(idx.sets)
    ensures HasImages(form) ==>
      && r == Done(old(db.nextId))
      && r.value !in old(db.goods)
      && db.goods == old(db.goods)[r.value := Released(r.value, ownerId, form, dbNow)]
      && db.nextId == old(db.nextId) + 1
      && idx.sets == ListUnder(old(idx.sets), db.goods[r.value], nowMs)
    ensures idx.ttl == old(idx.ttl) && db.favorites == old(db.favorites)
  {
    if !HasImages(form) {
      return Failed(NoImages);
    }
    var id := db.nextId;
    var g := Released(id, ownerId, form, dbNow);
    db.goods := db.goods[id := g];
    db.nextId := db.nextId + 1;
    AddToIndexes(idx, g, nowMs);
    return Done(id);
  }

  /** Releasing a listing keeps the indexes sound. */
  lemma ReleaseKeepsSound(sets: map<IndexKey, seq<Entry>>, goods: map<int, Goods>, g: Goods, score: int)
    requires WellFormed(sets) && Sound(sets, goods) && g.id !in goods && g.status == ON_SALE
    ensures Sound(ListUnder(sets, g, score), goods[g.id := g])
  {
    forall k, x | IsStatusIndex(k) && x in Contents(ListUnder(sets, g, score), k)
      ensures x in goods[g.id := g] && InPartition(goods[g.id := g][x], k)
    {
      ListUnderContents(sets, g, score, k);
    }
  }

  /**
   * The row `updateGoods` writes: the submitted form replaces the old one (a missing
   * category or image list is written as NULL), the cover is the first image or
   * NULL; the counter and status stay.
   */
  function Edited(row: Goods, form: GoodsForm, dbNow: int): (g: Goods)
    ensures g.id == row.id && g.ownerId == row.ownerId && g.status == row.status && g.collectNum == row.collectNum
    ensures g.form == form && g.updateTime == dbNow
    ensures g.coverUrl.Some? <==> HasImages(form)
    ensures HasImages(form) ==> g.coverUrl.value == form.imageUrls.value[0]
  {
    row.(form := form, coverUrl := if HasImages(form) then Some(form.imageUrls.value[0]) else None, updateTime := dbNow)
  }

  /**
   * `updateGoods`: a row the caller does not own (or no row) is GoodsNotFound;
   * otherwise the row is edited, its detail cache dropped, and it is (re)scored by
   * its update time in its (new) category, owner and all-goods indexes that exist,
   * whatever its status.
   */
  method UpdateGoods(db: GoodsDb, idx: IndexStore, details: DetailCache, id: int, form: GoodsForm, ownerId: int, dbNow: int)
    returns (r: Outcome<()>)
    requires db.Valid() && idx.Valid() && details.Valid()
    modifies db, idx, details
    ensures db.Valid() && idx.Valid() && details.Valid()
    ensures r == if OwnedBy(old(db.goods), id, ownerId) then Done(()) else Failed(GoodsNotFound)
    ensures r.Failed? ==> db.goods == old(db.goods) && idx.sets == old(idx.sets) && details.details == old(details.details)
    ensures r.Done? ==>
      && db.goods == old(db.goods)[id := Edited(old(db.goods)[id], form, dbNow)]
      && idx.sets == ListUnder(old(idx.sets), db.goods[id], dbNow)
      && details.details == old(details.details) - {id}
    ensures idx.ttl == old(idx.ttl) && db.favorites == old(db.favorites) && db.nextId == old(db.nextId)
  {
    if id !in db.goods || db.goods[id].ownerId != ownerId {
      return Failed(GoodsNotFound);
    }
    db.goods := db.goods[id := Edited(db.goods[id], form, dbNow)];
    details.Evict(id);
    AddToIndexes(idx, db.goods[id], db.goods[id].updateTime);
    return Done(());
  }

  /**
   * As written, an edit can leave the indexes unsound. (1) Goods 5 of owner 3 is off
   * shelf; editing it adds it to the existing all-goods index, which then lists it
   * as on sale. (2) Goods 5 is on sale in category 1; editing it into category 2
   * leaves it in category 1's index.
   */
  lemma EditLeavesIndexUnsound()
    ensures var g := Goods(5, 3, BareForm, 0, OFF_SHELF, None, 100);
      var h := Goods(9, 3, BareForm, 0, ON_SALE, None, 50);
      var sets := map[AllGoodsIndex := [Entry(9, 50)]];
      var edited := Edited(g, BareForm, 200);
      && Sound(sets, map[5 := g, 9 := h])
      && 5 in Contents(ListUnder(sets, edited, 200), AllGoodsIndex)
      && !Sound(ListUnder(sets, edited, 200), map[5 := edited, 9 := h])
    ensures var g := Goods(5, 3, BareForm.(categoryId := Some(1)), 0, ON_SALE, None, 100);
      var sets := map[CategoryIndex(1) := [Entry(5, 100)]];
      var edited := Edited(g, BareForm.(categoryId := Some(2)), 200);
      && Sound(sets, map[5 := g])
      && 5 in Contents(ListUnder(sets, edited, 200), CategoryIndex(1))
      && !Sound(ListUnder(sets, edited, 200), map[5 := edited])
  {
    assert Scores([Entry(9, 50)]) == map[9 := 50] by {
      assert [Entry(9, 50)][1..] == [];
    }
    assert Scores([Entry(5, 100)]) == map[5 := 100] by {
      assert [Entry(5, 100)][1..] == [];
    }
    var g := Goods(5, 3, BareForm, 0, OFF_SHELF, None, 100);
    var h := Goods(9, 3, BareForm, 0, ON_SALE, None, 50);
    var sets := map[AllGoodsIndex := [Entry(9, 50)]];
    assert Sound(sets, map[5 := g, 9 := h]) by {
      forall k, x | IsStatusIndex(k) && x in Contents(sets, k)
        ensures x in map[5 := g, 9 := h] && InPartition(map[5 := g, 9 := h][x], k)
      {
        assert k == AllGoodsIndex && x == 9;
      }
    }
    var edited := Edited(g, BareForm, 200);
    ListUnderContents(sets, edited, 200, AllGoodsIndex);
    assert 5 in Contents(ListUnder(sets, edited, 200), AllGoodsIndex);
    assert !InPartition(edited, AllGoodsIndex);
    assert IsStatusIndex(AllGoodsIndex) && map[5 := edited, 9 := h][5] == edited;
    assert !Sound(ListUnder(sets, edited, 200), map[5 := edited, 9 := h]);
    var g2 := Goods(5, 3, BareForm.(categoryId := Some(1)), 0, ON_SALE, None, 100);
    var sets2 := map[CategoryIndex(1) := [Entry(5, 100)]];
    assert Sound(sets2, map[5 := g2]) by {
      forall k, x | IsStatusIndex(k) && x in Contents(sets2, k)
        ensures x in map[5 := g2] && InPartition(map[5 := g2][x], k)
      {
        assert k == CategoryIndex(1) && x == 5;
      }
    }
    var edited2 := Edited(g2, BareForm.(categoryId := Some(2)), 200);
    ListUnderContents(sets2, edited2, 200, CategoryIndex(1));
    assert 5 in Contents(ListUnder(sets2, edited2, 200), CategoryIndex(1));
    assert !InPartition(edited2, CategoryIndex(1));
    assert IsStatusIndex(CategoryIndex(1)) && map[5 := edited2][5] == edited2;
    assert !Sound(ListUnder(sets2, edited2, 200), map[5 := edited2]);
  }

  /**
   * The corrected index update for an edit: the id leaves its old category's index
   * when the category changes, and is rescored in the category and all-goods
   * indexes only while on sale (the owner index holds every status).
   */
  function EditIndexes(sets: map<IndexKey, seq<Entry>>, before: Goods, after: Goods): map<IndexKey, seq<Entry>>
  {
    var s1 := if before.form.categoryId.Some? && before.form.categoryId != after.form.categoryId
      then Unindex(sets, CategoryIndex(before.form.categoryId.value), before.id)
      else sets;
    if after.status == ON_SALE then ListUnder(s1, after, after.updateTime)
    else Upsert(s1, OwnerIndex(after.ownerId), after.id, after.updateTime)
  }

  /** With the corrected index update, an edit always keeps the indexes sound. */
  lemma CorrectedEditKeepsSound(sets: map<IndexKey, seq<Entry>>, goods: map<int, Goods>, id: int, form: GoodsForm, dbNow: int)
    requires WellFormed(sets) && Sound(sets, goods) && id in goods && goods[id].id == id
    ensures var edited := Edited(goods[id], form, dbNow);
      Sound(EditIndexes(sets, goods[id], edited), goods[id := edited])
  {
    var before := goods[id];
    var edited := Edited(before, form, dbNow);
    var after := goods[id := edited];
    var moved := before.form.categoryId.Some? && before.form.categoryId != edited.form.categoryId;
    var s1 := if moved then Unindex(sets, CategoryIndex(before.form.categoryId.value), id) else sets;
    forall k, x | IsStatusIndex(k) && x in Contents(EditIndexes(sets, before, edited), k)
      ensures x in after && InPartition(after[x], k)
    {
      if moved {
        UnindexContents(sets, CategoryIndex(before.form.categoryId.value), id, k);
      }
      if edited.status == ON_SALE {
        ListUnderContents(s1, edited, dbNow, k);
      } else {
        UpsertContents(s1, OwnerIndex(edited.ownerId), id, dbNow, k);
      }
    }
  }

  // ---------------------------------------------------------------------------
  // Favourites
  // ---------------------------------------------------------------------------

  /** `isFavorite`: a favourite row exists for the pair. */
  predicate IsFavorite(favorites: map<(int, int), int>, userId: int, goodsId: int) {
    (userId, goodsId) in favorites
  }

  /** The favourite table after a toggle: the row is deleted if present, else inserted with its creation time. */
  function Toggled(favorites: map<(int, int), int>, userId: int, goodsId: int, now: int): (r: map<(int, int), int>)
    ensures IsFavorite(r, userId, goodsId) == !IsFavorite(favorites, userId, goodsId)
    ensures forall p :: p != (userId, goodsId) ==> (p in r <==> p in favorites) && (p in r ==> r[p] == favorites[p])
  {
    if (userId, goodsId) in favorites then favorites - {(userId, goodsId)} else favorites[(userId, goodsId) := now]
  }

  /** Toggling twice restores which favourites exist, and every other favourite's creation time. */
  lemma ToggleTwice(favorites: map<(int, int), int>, userId: int, goodsId: int, t1: int, t2: int)
    ensures var twice := Toggled(Toggled(favorites, userId, goodsId, t1), userId, goodsId, t2);
      && twice.Keys == favorites.Keys
      && (forall p :: p in twice && p != (userId, goodsId) ==> twice[p] == favorites[p])
      && (!IsFavorite(favorites, userId, goodsId) ==> twice == favorites)
  {
    var once := Toggled(favorites, userId, goodsId, t1);
    var twice := Toggled(once, userId, goodsId, t2);
    assert forall p :: p in twice <==> p in favorites;
  }

  /**
   * Two opposite counter updates on a cached counter cancel, as long as neither the
   * counter nor the intermediate value is 0 (a 0 is reseeded from the table).
   */
  lemma OppositeIncrementsCancel(counts: map<int, int>, dbValue: Option<int>, id: int, delta: int)
    requires id in counts && counts[id] != 0 && counts[id] + delta != 0
    ensures IncrementOutcome(IncrementOutcome(counts, dbValue, id, delta), dbValue, id, -delta) == counts
  {
    var once := IncrementOutcome(counts, dbValue, id, delta);
    assert once == counts[id := counts[id] + delta];
  }

  /**
   * `toggleFavorite`: no goods row is GoodsNotFound. Otherwise the favourite is
   * removed (result false) or added (result true); the counter moves by -1 or +1 as
   * `updateCollectNumCache` does and the id is marked for the reconciler; the goods
   * leaves the user's favourite index, or joins it (if it exists) scored by the clock.
   */
  method ToggleFavorite(db: GoodsDb, idx: IndexStore, counter: CounterCache, sync: SyncState,
                        userId: int, goodsId: int, now: int, counterFault: bool, markFault: bool)
    returns (r: Outcome<bool>)
    requires idx.Valid() && counter.Valid()
    modifies db, idx, counter, sync
    ensures idx.Valid() && counter.Valid()
    ensures goodsId !in old(db.goods) ==>
      && r == Failed(GoodsNotFound)
      && db.favorites == old(db.favorites) && idx.sets == old(idx.sets)
      && counter.counts == old(counter.counts) && sync.pending == old(sync.pending)
      && counter.ttl == old(counter.ttl) && idx.ttl == old(idx.ttl) && sync.pendingTtl == old(sync.pendingTtl)
    ensures goodsId in old(db.goods) ==>
      && r == Done(!IsFavorite(old(db.favorites), userId, goodsId))
      && IsFavorite(db.favorites, userId, goodsId) == r.value
      && db.favorites == Toggled(old(db.favorites), userId, goodsId, now)
      && counter.counts == (if counterFault then old(counter.counts) - {goodsId}
                            else IncrementOutcome(old(counter.counts), DbCollectNum(db.goods, goodsId), goodsId, if r.value then 1 else -1))
      && sync.pending == (if markFault then old(sync.pending) else old(sync.pending) + {goodsId})
      && idx.sets == (if r.value then Upsert(old(idx.sets), FavoriteIndex(userId), goodsId, now)
                      else Unindex(old(idx.sets), FavoriteIndex(userId), goodsId))
      && counter.ttl == (if counterFault then old(counter.ttl) - {goodsId} else old(counter.ttl)[goodsId := counter.collectTtl])
      && sync.pendingTtl == (if markFault then old(sync.pendingTtl) else Some(PENDING_TTL_MINUTES))
      && idx.ttl == (if !r.value && FavoriteIndex(userId) in old(idx.sets) && FavoriteIndex(userId) !in idx.sets
                     then old(idx.ttl) - {FavoriteIndex(userId)} else old(idx.ttl))
    ensures db.goods == old(db.goods) && db.nextId == old(db.nextId) && sync.lockHeld == old(sync.lockHeld)
  {
    if goodsId !in db.goods {
      return Failed(GoodsNotFound);
    }
    if (userId, goodsId) in db.favorites {
      db.favorites := db.favorites - {(userId, goodsId)};
      UpdateCollectNumCache(counter, db, goodsId, -1, counterFault);
      MarkForSync(sync, goodsId, markFault);
      idx.RemoveMember(FavoriteIndex(userId), goodsId);
      return Done(false);
    } else {
      db.favorites := db.favorites[(userId, goodsId) := now];
      UpdateCollectNumCache(counter, db, goodsId, 1, counterFault);
      MarkForSync(sync, goodsId, markFault);
      idx.AddIfExists(FavoriteIndex(userId), goodsId, now);
      return Done(true);
    }
  }

  // ---------------------------------------------------------------------------
  // Detail view
  // ---------------------------------------------------------------------------

  /** `processConditionLevel`: the "obvious wear" condition is hidden; every other value is shown. */
  function HideWear(d: Detail): (r: Detail)
    ensures r.conditionLevel != Some(OBVIOUS_WEAR)
    ensures r == d.(conditionLevel := r.conditionLevel)
    ensures d.conditionLevel != Some(OBVIOUS_WEAR) ==> r == d
    ensures d.conditionLevel == Some(OBVIOUS_WEAR) ==> r.conditionLevel == None
  {
    if d.conditionLevel == Some(OBVIOUS_WEAR) then d.(conditionLevel := None) else d
  }

  /** Hiding twice is hiding once. */
  lemma HideWearIdempotent(d: Detail)
    ensures HideWear(HideWear(d)) == HideWear(d)
  {
  }

  /**
   * `setLatestCollectNum`: the count `getCollectNum` gives (cached counter, else the
   * row's), or the detail's own count when that read gives nothing.
   */
  function LatestCollectNum(d: Detail, counts: map<int, int>, goods: map<int, Goods>, fault: bool): int
  {
    if fault then d.collectNum
    else if d.id in counts then counts[d.id]
    else if d.id in goods then goods[d.id].collectNum
    else d.collectNum
  }

  /** The detail the service returns: cached or read, with the latest count, with the wear condition hidden. */
  function DetailView(cached: map<int, Detail>, counts: map<int, int>, goods: map<int, Goods>, id: int, fault: bool): (r: Option<Detail>)
    ensures r.None? <==> id !in cached && id !in goods
  {
    var base := if id in cached then Some(cached[id]) else if id in goods then Some(DetailOf(goods[id])) else None;
    if base.None? then None
    else Some(HideWear(base.value.(collectNum := LatestCollectNum(base.value, counts, goods, fault))))
  }

  /**
   * What the view shows: the detail of the id (cached, else the row's), never the
   * "obvious wear" condition, and the cached counter whenever there is one (and no
   * fault); every other field is the cached or stored detail's.
   */
  lemma DetailViewMeaning(cached: map<int, Detail>, counts: map<int, int>, goods: map<int, Goods>, id: int, fault: bool)
    requires forall x :: x in cached ==> cached[x].id == x
    requires forall x :: x in goods ==> goods[x].id == x
    requires DetailView(cached, counts, goods, id, fault).Some?
    ensures var d := DetailView(cached, counts, goods, id, fault).value;
      var base := if id in cached then cached[id] else DetailOf(goods[id]);
      && d.id == id
      && d.conditionLevel != Some(OBVIOUS_WEAR)
      && (!fault && id in counts ==> d.collectNum == counts[id])
      && d.(collectNum := base.collectNum, conditionLevel := base.conditionLevel) == base
  {
  }

  /**
   * `getGoodsDetailById`: a cached detail is used as is; on a miss the row's detail
   * is read (no row: None) and cached as read, for 30 to 34 minutes, before the count
   * and condition are adjusted, so the cache keeps the "obvious wear" condition.
   */
  method GetGoodsDetail(details: DetailCache, counter: CounterCache, db: GoodsDb, id: int, jitter: int, fault: bool)
    returns (r: Option<Detail>)
    requires 0 <= jitter < GOODS_DETAIL_TTL_RANDOM
    requires details.Valid() && counter.Valid() && db.Valid()
    modifies details, counter
    ensures details.Valid() && counter.Valid()
    ensures r == DetailView(old(details.details), old(counter.counts), db.goods, id, fault)
    ensures id in old(details.details) || id !in db.goods ==>
      details.details == old(details.details) && details.ttl == old(details.ttl)
    ensures id !in old(details.details) && id in db.goods ==>
      && details.details == old(details.details)[id := DetailOf(db.goods[id])]
      && details.ttl == old(details.ttl)[id := GOODS_DETAIL_TTL + jitter]
    ensures r.None? || fault || id in old(counter.counts) || id !in db.goods ==>
      counter.counts == old(counter.counts) && counter.ttl == old(counter.ttl)
    ensures r.Some? && !fault && id !in old(counter.counts) && id in db.goods ==>
      && counter.counts == old(counter.counts)[id := db.goods[id].collectNum]
      && counter.ttl == old(counter.ttl)[id := counter.collectTtl]
  {
    var d: Detail;
    if id in details.details {
      d := details.details[id];
    } else {
      if id !in db.goods {
        return None;
      }
      d := DetailOf(db.goods[id]);
      details.Put(d, GOODS_DETAIL_TTL + jitter);
    }
    var n := GetCollectNum(counter, db, d.id, fault);
    if n.Some? {
      d := d.(collectNum := n.value);
    }
    r := Some(HideWear(d));
  }

  // ---------------------------------------------------------------------------
  // Search and administrator query
  // ---------------------------------------------------------------------------

  /**
   * `searchGoods`: `ids` is what the full-text query returned (it is asked for size + 1
   * ids below the cursor). No ids gives the empty page and reads nothing; otherwise
   * the ids' cards are read through the card cache with current counts and paged by
   * `size`.
   */
  method SearchGoods(cards: CardCache, counter: CounterCache, db: GoodsDb, ids: seq<int>, size: nat,
                     jitter: int -> int, fault: bool)
    returns (page: Page<Card>)
    requires cards.Valid() && counter.Valid() && db.Valid() && JitterOk(jitter)
    modifies cards, counter
    ensures cards.Valid() && counter.Valid()
    ensures ids == [] ==>
      && page == EmptyPage()
      && cards.cards == old(cards.cards) && cards.ttl == old(cards.ttl)
      && counter.counts == old(counter.counts) && counter.ttl == old(counter.ttl)
    ensures ids != [] ==>
      && page == BuildPage(Overlay(Resolve(old(cards.cards), db.goods, ids), old(counter.counts), db.goods, fault), size, Stamp)
      && cards.cards == old(cards.cards) + MissCards(old(cards.cards), db.goods, ids)
      && cards.ttl == old(cards.ttl) + CardTtls(MissCards(old(cards.cards), db.goods, ids).Keys, jitter)
      && var shown := IdsOf(Resolve(old(cards.cards), db.goods, ids));
         counter.counts == CountsAfterRead(old(counter.counts), db.goods, shown, fault)
  {
    if ids == [] {
      return EmptyPage();
    }
    var list := GetCardsFromCacheOrDb(cards, counter, db, ids, jitter, fault);
    page := BuildPage(list, size, Stamp);
  }

  /**
   * A search page lists, in the query's order, the first `size` of the returned ids
   * that resolve to a card, and says there is more exactly when more than `size` of
   * them resolve.
   */
  lemma SearchPageMeaning(cached: map<int, Card>, counts: map<int, int>, goods: map<int, Goods>, ids: seq<int>, size: nat, fault: bool)
    requires forall id :: id in cached ==> cached[id].id == id
    requires forall id :: id in goods ==> goods[id].id == id
    ensures var page := BuildPage(Overlay(Resolve(cached, goods, ids), counts, goods, fault), size, Stamp);
      var found := Resolvable(cached, goods, ids);
      && IdsOf(page.list) == Take(found, size)
      && (page.hasMore <==> |found| > size)
  {
    var list := Overlay(Resolve(cached, goods, ids), counts, goods, fault);
    OverlayMeaning(Resolve(cached, goods, ids), counts, goods, fault);
    ResolveMeaning(cached, goods, ids);
    BuildPageMeaning(list, size, Stamp);
    IdsOfTake(list, size);
  }

  /**
   * `queryGoodsByConditions`: `rows` is what the condition query returned (asked for
   * size + 1 rows); the size defaults to 10 when missing or not positive.
   */
  function QueryByConditions(rows: seq<Card>, size: Option<int>): (p: Page<Card>)
    ensures var n := NormalizeSize(size, DEFAULT_PAGE_SIZE);
      && p.list == Take(rows, n)
      && (p.hasMore <==> |rows| > n)
      && (p.nextCursor.Some? <==> p.list != [])
  {
    var n := NormalizeSize(size, DEFAULT_PAGE_SIZE);
    BuildPageMeaning(rows, n, Stamp);
    BuildPage(rows, n, Stamp)
  }
}
