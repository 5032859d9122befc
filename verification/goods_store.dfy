/**
 * The goods table and favourite table (MySQL) and the cached goods views (Redis
 * card and detail keys): the records, the membership rule of every listing
 * partition, and the classes that hold the stored state.
 */
module GoodsStore {
  import opened Common
  import opened IndexKeys

  // Goods status codes.
  const ON_SALE := 1
  const SOLD := 2
  const RENTING := 3
  const OFF_SHELF := 4
  const USER_DELETED := 5
  const SYSTEM_BLOCKED := 6

  /** Condition level whose value is hidden from the detail view. */
  const OBVIOUS_WEAR := 4

  // Cache lifetimes in minutes; each write adds a jitter drawn from [0, 5).
  const GOODS_DETAIL_TTL := 30
  const GOODS_DETAIL_TTL_RANDOM := 5
  const GOODS_CARD_TTL := 30
  const CARD_TTL_RANDOM := 5

  /** The editable fields of a listing as submitted by its owner (prices are not modelled). */
  datatype GoodsForm = GoodsForm(
    goodsType: Option<int>,
    description: string,
    imageUrls: Option<seq<string>>,
    categoryId: Option<int>,
    conditionLevel: Option<int>)

  /** A row of the goods table; `updateTime` is in epoch milliseconds. */
  datatype Goods = Goods(
    id: int,
    ownerId: int,
    form: GoodsForm,
    collectNum: int,
    status: int,
    coverUrl: Option<string>,
    updateTime: int)

  /** The card shown in every listing. */
  datatype Card = Card(
    id: int,
    ownerId: int,
    categoryId: Option<int>,
    coverUrl: Option<string>,
    conditionLevel: Option<int>,
    collectNum: int,
    updateTimestamp: int)

  /** The detail view of one listing. */
  datatype Detail = Detail(
    id: int,
    ownerId: int,
    status: int,
    form: GoodsForm,
    conditionLevel: Option<int>,
    collectNum: int,
    updateTimestamp: int)

  function CardOf(g: Goods): (c: Card)
    ensures c.id == g.id && c.collectNum == g.collectNum && c.updateTimestamp == g.updateTime
  {
    Card(g.id, g.ownerId, g.form.categoryId, g.coverUrl, g.form.conditionLevel, g.collectNum, g.updateTime)
  }

  function DetailOf(g: Goods): (d: Detail)
    ensures d.id == g.id && d.collectNum == g.collectNum && d.conditionLevel == g.form.conditionLevel
  {
    Detail(g.id, g.ownerId, g.status, g.form, g.form.conditionLevel, g.collectNum, g.updateTime)
  }

  /** The partitions whose index is built from the goods and favourite tables. */
  predicate IsGoodsIndex(k: IndexKey) {
    !k.UserListIndex?
  }

  /**
   * Which goods belong to a partition: the category and all-goods listings hold
   * listings on sale, the owner listing holds every listing of the owner whatever
   * its status, the offline listing holds the owner's off-shelf listings.
   */
  predicate InPartition(g: Goods, k: IndexKey)
    requires IsGoodsIndex(k) && !k.FavoriteIndex?
  {
    match k
    case CategoryIndex(c) => g.form.categoryId == Some(c) && g.status == ON_SALE
    case OwnerIndex(o) => g.ownerId == o
    case AllGoodsIndex => g.status == ON_SALE
    case OfflineIndex(o) => g.ownerId == o && g.status == OFF_SHELF
  }

  /**
   * The (id, score) rows a partition's rebuild reads: a listing's update time for
   * the goods partitions; for a user's favourites, the time each favourite was made,
   * restricted to goods on sale.
   */
  function IndexRows(goods: map<int, Goods>, favorites: map<(int, int), int>, k: IndexKey): (rows: map<int, int>)
    requires IsGoodsIndex(k)
    ensures k.FavoriteIndex? ==> forall id :: id in rows <==>
      id in goods && (k.userId, id) in favorites && goods[id].status == ON_SALE
    ensures !k.FavoriteIndex? ==> forall id :: id in rows <==> id in goods && InPartition(goods[id], k)
    ensures forall id :: id in rows ==>
      rows[id] == if k.FavoriteIndex? then favorites[(k.userId, id)] else goods[id].updateTime
  {
    if k.FavoriteIndex? then
      map id | id in goods && (k.userId, id) in favorites && goods[id].status == ON_SALE :: favorites[(k.userId, id)]
    else
      map id | id in goods && InPartition(goods[id], k) :: goods[id].updateTime
  }

  /** The goods and goods_favorite tables. A favourite row maps (user, goods) to its creation time. */
  class GoodsDb {
    var goods: map<int, Goods>
    var favorites: map<(int, int), int>
    /** The next auto-increment id. */
    var nextId: int

    ghost predicate Valid()
      reads this
    {
      forall id :: id in goods ==> goods[id].id == id && id < nextId
    }

    constructor()
      ensures Valid() && goods == map[] && favorites == map[]
    {
      goods := map[];
      favorites := map[];
      nextId := 1;
    }
  }

  /** The `goods:card:{id}` keys, with the TTL (minutes) of each. */
  class CardCache {
    var cards: map<int, Card>
    var ttl: map<int, int>

    /** Each card sits under its own id, and every key was written with a TTL of 30 to 34 minutes. */
    ghost predicate Valid()
      reads this
    {
      && (forall id :: id in cards ==> cards[id].id == id)
      && ttl.Keys == cards.Keys
      && (forall id :: id in ttl ==> GOODS_CARD_TTL <= ttl[id] < GOODS_CARD_TTL + CARD_TTL_RANDOM)
    }

    constructor()
      ensures Valid() && cards == map[] && ttl == map[]
    {
      cards := map[];
      ttl := map[];
    }

    /** SET `goods:card:{id}` with a TTL. */
    method Put(c: Card, minutes: int)
      requires GOODS_CARD_TTL <= minutes < GOODS_CARD_TTL + CARD_TTL_RANDOM
      modifies this
      ensures old(Valid()) ==> Valid()
      ensures cards == old(cards)[c.id := c] && ttl == old(ttl)[c.id := minutes]
    {
      cards := cards[c.id := c];
      ttl := ttl[c.id := minutes];
    }
  }

  /** The `goods:detail:{id}` keys, with the TTL (minutes) of each. */
  class DetailCache {
    var details: map<int, Detail>
    var ttl: map<int, int>

    /** Each detail sits under its own id, and every key was written with a TTL of 30 to 34 minutes. */
    ghost predicate Valid()
      reads this
    {
      && (forall id :: id in details ==> details[id].id == id)
      && ttl.Keys == details.Keys
      && (forall id :: id in ttl ==> GOODS_DETAIL_TTL <= ttl[id] < GOODS_DETAIL_TTL + GOODS_DETAIL_TTL_RANDOM)
    }

    constructor()
      ensures Valid() && details == map[] && ttl == map[]
    {
      details := map[];
      ttl := map[];
    }

    /** SET `goods:detail:{id}` with a TTL. */
    method Put(d: Detail, minutes: int)
      requires Valid() && GOODS_DETAIL_TTL <= minutes < GOODS_DETAIL_TTL + GOODS_DETAIL_TTL_RANDOM
      modifies this
      ensures Valid()
      ensures details == old(details)[d.id := d] && ttl == old(ttl)[d.id := minutes]
    {
      details := details[d.id := d];
      ttl := ttl[d.id := minutes];
    }

    /** `clearGoodsCache`: DEL `goods:detail:{id}`; the card key is left alone. */
    method Evict(id: int)
      requires Valid()
      modifies this
      ensures Valid()
      ensures details == old(details) - {id} && ttl == old(ttl) - {id}
    {
      details := details - {id};
      ttl := ttl - {id};
    }
  }
}
