# Second-hand marketplace: listing indexes, caches and services in Dafny

This project models the server core of a second-hand goods marketplace (a Spring
application backed by MySQL and Redis). Users publish goods, browse them through
cursor-paged listings, favourite them, comment on them and chat about them.
Administrators block goods and comments and manage categories.

At the centre are the Redis sorted sets that index the listings. There is one set per
partition: a category, an owner's published goods, all goods on sale, an owner's
off-shelf goods, and a user's favourites. Around them sit the read-through card and
detail caches, and the favourite counter that Redis keeps ahead of the goods table.
A reconciler copies that counter back to the table under a lock.

The model keeps the program's own split into services:

- `Common`, `ZSet`, `IndexKeys`, `ListingIndex` and `GoodsStore` hold the shared
  state.
  - A sorted set is the sequence Redis walks for a reverse range.
  - An index store maps each partition key to its set.
  - The goods and favourite tables, and the card and detail caches, are classes whose
    fields the operations reassign.
- `GoodsQuery` holds the listing paginators.
  - Each listing is read from its sorted set when the set exists, and otherwise from
    the table, which then rebuilds the set.
  - Every page over-fetches one item to learn whether more follow.
  - Cards are read through the card cache, and every shown card carries the live
    favourite count.
- `GoodsService` holds release, edit, every status change, favourite toggling, the
  detail view and search. Each comes with the index maintenance it performs.
  - The central invariant is `GoodsService.Sound`: an id sits in a partition's set
    only if the goods item has a row and belongs to that partition. Scores are not
    part of it.
  - Lemmas state which operations keep `GoodsService.Sound`.
- `CollectNumCache` and `CollectNumSync` hold the favourite counter and its
  reconciler: the pending set, the SET-NX lock, the drain loop and the single sync.
- `UserService`, `CommentService`, `ChatService`, `CategoryService` and
  `AdminService` hold the account, comment, chat, category and administrator logic.
  - They cover the check order of each operation and the error each refusal raises.
  - They cover the cached reply and unread counters, and the invariants that keep
    those counters equal to what they count.
- `JwtInterceptor`, `AliOss` and `Upload` hold three pieces:
  - which request paths demand a login;
  - the object names and URLs of stored files;
  - the checks that guard the upload endpoints.

Several things are inputs to the operations rather than part of the model:

- clocks: the application's milliseconds and the database's `update_time`;
- the random TTL jitter and the random file id;
- whether a Redis or storage call throws;
- the results of SQL that only the XML mappers define.

## Model

| member | source | states |
|---|---|---|
| Common.EmptyPage | src/main/java/com/xyz/vo/PageResult.java:50-56 | the empty page has no items, no next cursor and no more pages |
| Common.NormalizeCursor | src/main/java/com/xyz/service/impl/GoodsQueryServiceImpl.java:41 | a missing or non-positive cursor becomes the current time; a positive cursor is kept |
| Common.NormalizeSize | src/main/java/com/xyz/service/impl/GoodsQueryServiceImpl.java:42-44 | a missing or non-positive size becomes the endpoint default; a positive size is kept |
| Common.BuildPageMeaning | src/main/java/com/xyz/service/impl/GoodsQueryServiceImpl.java:409-423 | a page holds the first min(length, size) fetched items; hasMore holds iff more than size items were fetched; the cursor is the stamp of the last item kept; an empty fetch gives the empty page |
| Common.OverFetch | src/main/java/com/xyz/service/impl/GoodsQueryServiceImpl.java:49 | when the fetch is the first size+1 items of a window, the page is the window's first size items and hasMore holds iff the window is longer than size |
| Common.CommentPageAgreesWithListingPage | src/main/java/com/xyz/service/impl/CommentServiceImpl.java:144-155 | the comment page rule agrees with the listing rule on list and hasMore, and gives a cursor only when hasMore holds |
| ZSet.Members | src/main/java/com/xyz/service/impl/GoodsQueryServiceImpl.java:213-218 | the ids of a range are its entries' members, in order |
| ZSet.SortedCons | src/main/java/com/xyz/service/impl/GoodsQueryServiceImpl.java:213-214 | a set with an entry in front is in Redis order iff that entry precedes all the rest and the rest is in order |
| ZSet.DistinctCons | src/main/java/com/xyz/service/impl/GoodsQueryServiceImpl.java:258-260 | a set with an entry in front holds each member once iff the rest does and does not hold that member |
| ZSet.ScoresOfEntries | src/main/java/com/xyz/service/impl/GoodsQueryServiceImpl.java:258-260 | every entry of a set is recorded in its score map |
| ZSet.EntriesOfScores | src/main/java/com/xyz/service/impl/GoodsQueryServiceImpl.java:258-260 | every score in the map comes from an entry of the set |
| ZSet.RemoveElements | src/main/java/com/xyz/service/impl/GoodsServiceImpl.java:445-463 | ZREM keeps exactly the entries of other members |
| ZSet.RemoveValid | src/main/java/com/xyz/service/impl/GoodsServiceImpl.java:445-463 | ZREM keeps the set well formed |
| ZSet.InsertElements | src/main/java/com/xyz/service/impl/GoodsQueryServiceImpl.java:258-260 | inserting adds exactly one entry and drops none |
| ZSet.AboveTotal | src/main/java/com/xyz/service/impl/GoodsQueryServiceImpl.java:213-214 | any two entries of different members are ordered one way or the other |
| ZSet.AboveTransitive | src/main/java/com/xyz/service/impl/GoodsQueryServiceImpl.java:213-214 | the Redis order is transitive |
| ZSet.InsertValid | src/main/java/com/xyz/service/impl/GoodsQueryServiceImpl.java:258-260 | inserting a new member keeps the set well formed |
| ZSet.EntryInValid | src/main/java/com/xyz/service/impl/GoodsQueryServiceImpl.java:213-214 | an entry is in a well-formed set iff the score map records its score |
| ZSet.ScoresRemove | src/main/java/com/xyz/service/impl/GoodsServiceImpl.java:445-463 | after ZREM the score map loses exactly that member |
| ZSet.ScoresInsert | src/main/java/com/xyz/service/impl/GoodsQueryServiceImpl.java:258-260 | inserting a new member adds exactly its score to the map |
| ZSet.AddMeaning | src/main/java/com/xyz/service/impl/GoodsQueryServiceImpl.java:258-260 | ZADD keeps the set well formed and its score map becomes the old map updated at that member |
| ZSet.RemoveMeaning | src/main/java/com/xyz/service/impl/GoodsServiceImpl.java:445-463 | ZREM keeps the set well formed and removes exactly that member from the score map |
| ZSet.RemoveAbsent | src/main/java/com/xyz/service/impl/GoodsServiceImpl.java:445-463 | removing an absent member leaves the set unchanged |
| ZSet.RemoveInsert | src/main/java/com/xyz/service/impl/GoodsServiceImpl.java:445-463 | removing a member just inserted gives back the original set |
| ZSet.AddIdempotent | src/main/java/com/xyz/service/impl/GoodsQueryServiceImpl.java:258-260 | adding the same member with the same score twice equals adding it once |
| ZSet.RangeElements | src/main/java/com/xyz/service/impl/GoodsQueryServiceImpl.java:213-214 | a score range keeps exactly the entries scored within the bounds |
| ZSet.RangeValid | src/main/java/com/xyz/service/impl/GoodsQueryServiceImpl.java:213-214 | a score range of a well-formed set is well formed |
| ZSet.RevRangeInRange | src/main/java/com/xyz/service/impl/GoodsQueryServiceImpl.java:213-214 | a reverse range returns at most count members, each scored in [lo, hi] |
| ZSet.RevRangeOrdered | src/main/java/com/xyz/service/impl/GoodsQueryServiceImpl.java:213-214 | a reverse range returns distinct members in non-increasing score order |
| ZSet.RevRangeComplete | src/main/java/com/xyz/service/impl/GoodsQueryServiceImpl.java:213-214 | a member in range is left out of a reverse range only when count ids were returned, none scored below it |
| ZSet.RevRangeMeaning | src/main/java/com/xyz/service/impl/GoodsQueryServiceImpl.java:204-219 | a reverse range returns at most count distinct members scored in [lo, hi], highest first, skipping none ahead of the last one returned |
| ZSet.RangeBelowEntry | src/main/java/com/xyz/service/impl/GoodsQueryServiceImpl.java:213-214 | when scores are distinct, the range just below an entry is everything after it |
| ZSet.RangeAllBelow | src/main/java/com/xyz/service/impl/GoodsQueryServiceImpl.java:213-214 | a range covering every score is the whole set |
| ZSet.RangeOfRange | src/main/java/com/xyz/service/impl/GoodsQueryServiceImpl.java:213-214 | narrowing a range's upper bound equals ranging the set with the narrower bound |
| ZSet.DistinctScoresCons | src/main/java/com/xyz/service/impl/GoodsQueryServiceImpl.java:213-214 | scores are distinct along a set with an entry in front iff the rest has distinct scores and none equal to that entry's |
| ZSet.RangeDistinctScores | src/main/java/com/xyz/service/impl/GoodsQueryServiceImpl.java:213-214 | a range of a set with distinct scores has distinct scores |
| ZSet.RangeShrinks | src/main/java/com/xyz/service/impl/GoodsQueryServiceImpl.java:416-420 | a cursor taken from an entry below the old cursor leaves strictly fewer entries in the next window |
| ZSet.FilterDropsOne | src/main/java/com/xyz/service/impl/GoodsQueryServiceImpl.java:213-214 | a range that excludes some entry is shorter than the set |
| ZSet.NextWindow | src/main/java/com/xyz/service/impl/GoodsQueryServiceImpl.java:416-420 | with distinct scores, the window below a returned entry is exactly the entries after it |
| ZSet.WalkCovers | src/main/java/com/xyz/service/impl/GoodsQueryServiceImpl.java:204-219 | with distinct scores, paging through the set by score cursor returns every id below the cursor exactly once, in order |
| ZSet.TiedScoresSplitAcrossPages | src/main/java/com/xyz/service/impl/GoodsQueryServiceImpl.java:213-214 | two ids with the same score on a page boundary: the second one is never shown |
| ZSet.HeadAbove | src/main/java/com/xyz/service/impl/GoodsQueryServiceImpl.java:213-214 | the head of a well-formed set precedes every other entry |
| ZSet.SameScoresSameSet | src/main/java/com/xyz/service/impl/GoodsQueryServiceImpl.java:213-214 | two well-formed sets with the same score map are equal |
| ZSet.SomeSetHasScores | src/main/java/com/xyz/service/impl/GoodsQueryServiceImpl.java:258-260 | every id-to-score map is the score map of some well-formed set |
| ZSet.SortedFrom | src/main/java/com/xyz/service/impl/GoodsQueryServiceImpl.java:242-262 | the well-formed set holding exactly the given scores |
| ZSet.MembersTake | src/main/java/com/xyz/service/impl/GoodsQueryServiceImpl.java:416-420 | the members of a prefix are the prefix of the members |
| IndexKeys.NatToString | src/main/java/com/xyz/service/impl/GoodsQueryServiceImpl.java:229-231 | decimal digits of a natural number: at least one digit, only digits |
| IndexKeys.NatToStringInjective | src/main/java/com/xyz/service/impl/GoodsQueryServiceImpl.java:229-231 | different natural numbers print differently |
| IndexKeys.LongToStringSign | src/main/java/com/xyz/service/impl/GoodsQueryServiceImpl.java:229-231 | a printed id starts with '-' iff it is negative |
| IndexKeys.LongToStringInjective | src/main/java/com/xyz/service/impl/GoodsQueryServiceImpl.java:229-231 | different ids print differently |
| IndexKeys.BuildZSetKey | src/main/java/com/xyz/service/impl/GoodsQueryServiceImpl.java:229-231 | the key is the prefix, then the printed id, then the suffix |
| IndexKeys.SameAffixesSameId | src/main/java/com/xyz/service/impl/GoodsQueryServiceImpl.java:229-231 | with fixed prefix and suffix, equal keys mean equal ids |
| IndexKeys.KeyNameTag | src/main/java/com/xyz/constant/RedisConstant.java:69-85 | each partition's key starts with its own eight-character tag |
| IndexKeys.KeyNameInjective | src/main/java/com/xyz/constant/RedisConstant.java:69-85 | two different partitions never share a Redis key |
| ListingIndex.LookupIds | src/main/java/com/xyz/service/impl/GoodsQueryServiceImpl.java:204-208 | the lookup is absent iff the key does not exist |
| ListingIndex.LookupMeaning | src/main/java/com/xyz/service/impl/GoodsQueryServiceImpl.java:204-219 | a lookup on an existing key returns at most count distinct ids scored in [0, cursor-1], highest first, skipping none ahead of the last; an empty answer means nothing is below the cursor |
| ListingIndex.AddNonEmpty | src/main/java/com/xyz/service/impl/GoodsServiceImpl.java:469-495 | a set is never empty after ZADD |
| ListingIndex.UpsertContents | src/main/java/com/xyz/service/impl/GoodsServiceImpl.java:469-495 | an upsert rescores the id only in a key that already exists, creates no key and touches no other key |
| ListingIndex.UnindexContents | src/main/java/com/xyz/service/impl/GoodsServiceImpl.java:445-463 | a removal drops exactly the id from its key and touches no other key |
| ListingIndex.UnindexAbsent | src/main/java/com/xyz/service/impl/GoodsServiceImpl.java:445-463 | removing an id that is not indexed changes nothing |
| ListingIndex.MergeRows | src/main/java/com/xyz/service/impl/GoodsQueryServiceImpl.java:252-260 | ZADD of all rows into a set: the result is well formed and its scores are the old scores overridden by the rows |
| ListingIndex.IndexStore.AddIfExists | src/main/java/com/xyz/service/impl/GoodsServiceImpl.java:469-495 | hasKey then ZADD: the sets become the upsert of the old sets; no key is created |
| ListingIndex.IndexStore.RemoveMember | src/main/java/com/xyz/service/impl/GoodsServiceImpl.java:445-463 | ZREM: the sets become the removal of the id; a key emptied by it disappears with its TTL |
| ListingIndex.IndexStore.Rebuild | src/main/java/com/xyz/service/impl/GoodsQueryServiceImpl.java:242-262 | no rows leaves the key as it was; otherwise the rows are merged into the set and the key gets the 60-minute TTL |
| ListingIndex.RebuiltContents | src/main/java/com/xyz/service/impl/GoodsQueryServiceImpl.java:242-262 | after a rebuild every row is indexed with its score, every earlier id not in the rows keeps its score, nothing else is added, and other keys are untouched |
| GoodsStore.CardOf | src/main/java/com/xyz/mapper/GoodsQueryMapper.java:74 | a card carries the goods id, its collect count and its update time |
| GoodsStore.DetailOf | src/main/java/com/xyz/service/impl/GoodsServiceImpl.java:319 | a detail carries the goods id, its collect count and its condition |
| GoodsStore.IndexRows | src/main/java/com/xyz/mapper/GoodsQueryMapper.java:26-92 | the rows a rebuild reads: on-sale goods for category and all-goods, every status for the owner, off-shelf goods for the offline index, on-sale favourites scored by favourite time |
| GoodsStore.CardCache.Put | src/main/java/com/xyz/service/impl/GoodsQueryServiceImpl.java:366-380 | a card key is written under its id with a TTL of 30 to 34 minutes |
| GoodsStore.DetailCache.Put | src/main/java/com/xyz/service/impl/GoodsServiceImpl.java:325-326 | a detail key is written under its id with a TTL of 30 to 34 minutes |
| GoodsStore.DetailCache.Evict | src/main/java/com/xyz/service/impl/GoodsServiceImpl.java:436-440 | clearGoodsCache deletes only the detail key |
| CollectNumCache.DbCollectNum | src/main/java/com/xyz/mapper/GoodsQueryMapper.java:115-124 | the database counter is present iff the goods row exists, and equals its collect_num |
| CollectNumCache.GetCollectNum | src/main/java/com/xyz/util/CollectNumCacheUtil.java:31-52 | a hit returns the cached value; a miss returns the database value and caches it; no row or a fault gives nothing |
| CollectNumCache.Backfilled | src/main/java/com/xyz/util/CollectNumCacheUtil.java:77-101 | after a batch read the cache holds the old counters plus the database value of each missed id that has a row |
| CollectNumCache.BatchGetCollectNum | src/main/java/com/xyz/util/CollectNumCacheUtil.java:59-109 | empty input or a fault gives the empty map; otherwise the result holds exactly the requested ids found in cache or table, cached value first, and misses are written back |
| CollectNumCache.UpdateCollectNumCache | src/main/java/com/xyz/util/CollectNumCacheUtil.java:116-141 | the counter is incremented by delta, or reseeded from the database when the new value equals delta; a fault deletes the key |
| CollectNumCache.IncrementAddsDelta | src/main/java/com/xyz/util/CollectNumCacheUtil.java:121-134 | incrementing a cached non-zero counter adds delta and changes no other counter |
| CollectNumCache.SeedDropsDelta | src/main/java/com/xyz/util/CollectNumCacheUtil.java:124-130 | seeding on a miss writes the database value whatever the delta was |
| CollectNumCache.ZeroCounterReseeded | src/main/java/com/xyz/util/CollectNumCacheUtil.java:124-130 | a cached counter of 0 is reseeded from the database like a miss |
| CollectNumCache.ColdCounterLosesFirstIncrement | src/main/java/com/xyz/util/CollectNumCacheUtil.java:124-130 | two increments on a cold counter whose row says 10 leave 11, not 12 |
| CollectNumSync.SyncRowConverges | src/main/java/com/xyz/service/impl/CollectNumSyncServiceImpl.java:146-151 | with a cached counter, the synced row holds exactly that counter and is otherwise unchanged |
| CollectNumSync.SyncRowIdempotent | src/main/java/com/xyz/service/impl/CollectNumSyncServiceImpl.java:126-152 | syncing a row twice equals syncing it once |
| CollectNumSync.MarkForSync | src/main/java/com/xyz/service/impl/CollectNumSyncServiceImpl.java:40-50 | the id joins the pending set and the set's expiry becomes 24 hours; a fault changes nothing |
| CollectNumSync.SyncSingle | src/main/java/com/xyz/service/impl/CollectNumSyncServiceImpl.java:126-152 | only the synced row may change, and it moves to the cached counter when both values exist |
| CollectNumSync.SyncAll | src/main/java/com/xyz/service/impl/CollectNumSyncServiceImpl.java:100-113 | syncing a set of ids keeps the table's key set |
| CollectNumSync.SyncAllStep | src/main/java/com/xyz/service/impl/CollectNumSyncServiceImpl.java:100-113 | syncing one more id extends the synced set by that id |
| CollectNumSync.DrainOne | src/main/java/com/xyz/service/impl/CollectNumSyncServiceImpl.java:100-113 | a sync that returns removes the id from the pending set; a failing one leaves set and table unchanged |
| CollectNumSync.DoSync | src/main/java/com/xyz/service/impl/CollectNumSyncServiceImpl.java:85-120 | every pending id is synced; ids whose sync fails stay pending, all others leave the set |
| CollectNumSync.BatchSync | src/main/java/com/xyz/service/impl/CollectNumSyncServiceImpl.java:54-69 | with the lock free the pending set keeps only the failed ids, its expiry is dropped once it is empty, the synced rows take the counters and the lock is released; with it held nothing changes |
| CollectNumSync.ForceSync | src/main/java/com/xyz/service/impl/CollectNumSyncServiceImpl.java:73-80 | the single sync runs without the lock and without touching the pending set; a fault changes nothing |
| CollectNumSync.DrainConverges | src/main/java/com/xyz/service/impl/CollectNumSyncServiceImpl.java:100-151 | after a drain with no failure, every pending row with a cached counter holds exactly that counter |
| GoodsQuery.ResolvableMeaning | src/main/java/com/xyz/service/impl/GoodsQueryServiceImpl.java:314-355 | the resolvable ids are exactly the input ids found in cache or table; when all resolve, none is dropped |
| GoodsQuery.ResolvableAppend | src/main/java/com/xyz/service/impl/GoodsQueryServiceImpl.java:350-355 | resolution keeps order: it distributes over concatenation |
| GoodsQuery.ResolveMeaning | src/main/java/com/xyz/service/impl/GoodsQueryServiceImpl.java:314-355 | the resolved cards carry exactly the resolvable ids in order; each is the cached card, else the table's |
| GoodsQuery.OverlayMeaning | src/main/java/com/xyz/service/impl/GoodsQueryServiceImpl.java:386-404 | the count overlay changes each card's count and nothing else |
| GoodsQuery.BatchSetCollectNum | src/main/java/com/xyz/service/impl/GoodsQueryServiceImpl.java:386-404 | each card takes the cached counter, else the table's, else 0; the counters are backfilled by one batch read |
| GoodsQuery.CardMap | src/main/java/com/xyz/service/impl/GoodsQueryServiceImpl.java:366-380 | every card in the map sits under its own id |
| GoodsQuery.ProbeCards | src/main/java/com/xyz/service/impl/GoodsQueryServiceImpl.java:321-337 | the hits are exactly the requested ids with a cached card; the misses are exactly those without |
| GoodsQuery.FillMisses | src/main/java/com/xyz/service/impl/GoodsQueryServiceImpl.java:340-349 | every missed id with a row is kept and cached with a TTL of 30 plus jitter |
| GoodsQuery.InIdOrder | src/main/java/com/xyz/service/impl/GoodsQueryServiceImpl.java:352-355 | the found cards are listed in the order of the input ids, skipping ids without a card |
| GoodsQuery.GetCardsFromCacheOrDb | src/main/java/com/xyz/service/impl/GoodsQueryServiceImpl.java:314-361 | the cards of the ids in order, cache first then table, unresolved ids dropped, each with its current count; missed cards are cached |
| GoodsQuery.WriteCards | src/main/java/com/xyz/service/impl/GoodsQueryServiceImpl.java:375-379 | each card is written under its id with a jittered TTL |
| GoodsQuery.CacheGoodsCards | src/main/java/com/xyz/service/impl/GoodsQueryServiceImpl.java:366-380 | cards take their current counts, then each is cached for 30 to 34 minutes |
| GoodsQuery.DbPage | src/main/java/com/xyz/mapper/GoodsQueryMapper.java:59-97 | the database page is the partition's rows below the cursor, latest first, at most count |
| GoodsQuery.DbPageIsRebuiltLookup | src/main/java/com/xyz/service/impl/GoodsQueryServiceImpl.java:52-61 | the database page equals the lookup an index rebuilt from the same rows would give |
| GoodsQuery.ListingPage | src/main/java/com/xyz/service/impl/GoodsQueryServiceImpl.java:37-192 | a listing uses the index only when it returns ids; otherwise it reads the database page, rebuilds the index and caches the cards; the page is then assembled with over-fetch |
| GoodsQuery.IndexHitPage | src/main/java/com/xyz/service/impl/GoodsQueryServiceImpl.java:48-63 | when the index answers and all ids resolve, the page lists the first size ids of the window below the cursor, and hasMore holds iff the window is longer |
| GoodsQuery.MissRebuildsFromRows | src/main/java/com/xyz/service/impl/GoodsQueryServiceImpl.java:52-61 | with no index, the request reads the database and leaves the index holding exactly the partition's rows |
| GoodsQuery.ExhaustedIndexRereadsDatabase | src/main/java/com/xyz/service/impl/GoodsQueryServiceImpl.java:52-61 | an index with nothing below the cursor does not answer, so the database is read again |
| GoodsQuery.FavoriteCursorSkipsGoods | src/main/java/com/xyz/service/impl/GoodsQueryServiceImpl.java:37-64 | as written, the favourites cursor is the update time while the index is scored by favourite time, so the second page skips a goods item |
| GoodsQuery.ScoreCursorContinues | src/main/java/com/xyz/service/impl/GoodsQueryServiceImpl.java:409-423 | with the cursor taken from the index score, each page is the window's first size ids and the next window is exactly the rest |
| GoodsService.UnlistContents | src/main/java/com/xyz/service/impl/GoodsServiceImpl.java:445-463 | removal drops the id from exactly its category, owner and all-goods keys |
| GoodsService.ListUnderContents | src/main/java/com/xyz/service/impl/GoodsServiceImpl.java:469-495 | upsert rescores the id only in those of its category, owner and all-goods keys that exist |
| GoodsService.RemoveFromIndexes | src/main/java/com/xyz/service/impl/GoodsServiceImpl.java:445-463 | the index store after removal is the removal from its three keys |
| GoodsService.AddToIndexes | src/main/java/com/xyz/service/impl/GoodsServiceImpl.java:469-495 | the index store after upsert is the upsert into its existing keys; no TTL changes |
| GoodsService.RebuildKeepsSound | src/main/java/com/xyz/service/impl/GoodsQueryServiceImpl.java:242-262 | a rebuild from the partition's own rows keeps every index sound |
| GoodsService.OfflineGoods | src/main/java/com/xyz/service/impl/GoodsServiceImpl.java:282-305 | an unknown or foreign id is GoodsNotFound, a rented one is GoodsInRent with no change; otherwise OFF_SHELF, removed from the listings and added to an existing offline index |
| GoodsService.OnlineGoods | src/main/java/com/xyz/service/impl/GoodsServiceImpl.java:368-383 | an owned row goes on sale, leaves the offline index and is rescored in its existing indexes |
| GoodsService.Retire | src/main/java/com/xyz/service/impl/GoodsServiceImpl.java:387-431 | delete, sold and renting set status 5, 2 or 3 and remove the id from its three indexes; an unknown row is GoodsNotFound |
| GoodsService.ViolationOffline | src/main/java/com/xyz/service/impl/GoodsServiceImpl.java:626-651 | unknown goods is GoodsNotFound, already blocked is refused; otherwise blocked, unlisted and detail evicted |
| GoodsService.RestoreGoods | src/main/java/com/xyz/service/impl/GoodsServiceImpl.java:655-672 | only a blocked row is restored to on sale and rescored; the detail cache is left |
| GoodsService.OfflineKeepsSound | src/main/java/com/xyz/service/impl/GoodsServiceImpl.java:282-305 | taking a listing off shelf keeps the indexes sound |
| GoodsService.OnlineKeepsSound | src/main/java/com/xyz/service/impl/GoodsServiceImpl.java:368-383 | putting a listing back on sale keeps the indexes sound |
| GoodsService.RestoreKeepsSound | src/main/java/com/xyz/service/impl/GoodsServiceImpl.java:655-672 | restoring a blocked listing keeps the indexes sound |
| GoodsService.RetireKeepsSoundOutsideOffline | src/main/java/com/xyz/service/impl/GoodsServiceImpl.java:387-431 | delete, sold, renting and block keep the indexes sound when the listing was not in the offline index |
| GoodsService.RetireLeavesOfflineEntry | src/main/java/com/xyz/service/impl/GoodsServiceImpl.java:445-463 | as written, an off-shelf listing that is deleted stays in its owner's offline index |
| GoodsService.CorrectedRetireKeepsSound | src/main/java/com/xyz/service/impl/GoodsServiceImpl.java:445-463 | clearing the offline index too keeps the indexes sound for every retiring status |
| GoodsService.Released | src/main/java/com/xyz/service/impl/GoodsServiceImpl.java:67-80 | the new row has the caller as owner, collect count 0, status on sale and the first image as its cover, so it belongs to its category, owner and all-goods partitions |
| GoodsService.ReleaseGoods | src/main/java/com/xyz/service/impl/GoodsServiceImpl.java:62-103 | no images is refused with nothing written; otherwise a new row that joins its existing indexes scored by the clock |
| GoodsService.ReleaseKeepsSound | src/main/java/com/xyz/service/impl/GoodsServiceImpl.java:85-102 | releasing keeps the indexes sound |
| GoodsService.Edited | src/main/java/com/xyz/service/impl/GoodsServiceImpl.java:340-364 | the edit replaces the form fields and keeps the counter and status |
| GoodsService.UpdateGoods | src/main/java/com/xyz/service/impl/GoodsServiceImpl.java:340-364 | an unknown or foreign id is GoodsNotFound; otherwise the row is edited, its detail dropped and it is rescored in its existing indexes |
| GoodsService.EditLeavesIndexUnsound | src/main/java/com/xyz/service/impl/GoodsServiceImpl.java:340-364 | as written, an edit relists an off-shelf listing and leaves a stale old-category entry |
| GoodsService.CorrectedEditKeepsSound | src/main/java/com/xyz/service/impl/GoodsServiceImpl.java:340-364 | the corrected index update for an edit keeps the indexes sound |
| GoodsService.Toggled | src/main/java/com/xyz/service/impl/GoodsServiceImpl.java:502-538 | the favourite row is deleted if present, else inserted |
| GoodsService.ToggleTwice | src/main/java/com/xyz/service/impl/GoodsServiceImpl.java:502-538 | toggling twice restores which favourites exist |
| GoodsService.OppositeIncrementsCancel | src/main/java/com/xyz/service/impl/GoodsServiceImpl.java:502-538 | a +1 and a -1 on a cached non-zero counter cancel |
| GoodsService.ToggleFavorite | src/main/java/com/xyz/service/impl/GoodsServiceImpl.java:502-538 | missing goods is GoodsNotFound; otherwise the favourite is removed (false, -1, left the index) or added (true, +1, joined an existing index) |
| GoodsService.HideWear | src/main/java/com/xyz/service/impl/GoodsServiceImpl.java:200-211 | the condition is hidden exactly when it is obvious wear |
| GoodsService.HideWearIdempotent | src/main/java/com/xyz/service/impl/GoodsServiceImpl.java:200-211 | hiding twice equals hiding once |
| GoodsService.DetailView | src/main/java/com/xyz/service/impl/GoodsServiceImpl.java:308-336 | a detail exists iff cached or the row exists |
| GoodsService.DetailViewMeaning | src/main/java/com/xyz/service/impl/GoodsServiceImpl.java:183-211 | the view never shows obvious wear and shows the counter whenever one is read |
| GoodsService.GetGoodsDetail | src/main/java/com/xyz/service/impl/GoodsServiceImpl.java:308-336 | a cached detail is used; a miss reads and caches the row's detail; then the count and condition are adjusted |
| GoodsService.SearchGoods | src/main/java/com/xyz/service/impl/GoodsServiceImpl.java:108-123 | no ids gives the empty page; otherwise the cards are resolved and the page assembled |
| GoodsService.SearchPageMeaning | src/main/java/com/xyz/service/impl/GoodsServiceImpl.java:108-123 | a search page lists the first size resolvable ids in query order, and hasMore holds iff more than size resolve |
| GoodsService.QueryByConditions | src/main/java/com/xyz/service/impl/GoodsServiceImpl.java:675-695 | the size defaults to 10; the page follows the over-fetch rule |
| UserService.UserCardOf | src/main/java/com/xyz/service/impl/UserServiceImpl.java:311-351 | a user card carries the user's id, status and registration time |
| UserService.UserCardCache.Put | src/main/java/com/xyz/service/impl/UserServiceImpl.java:356-365 | a card key is written with a TTL of 30 to 34 minutes |
| UserService.UserCardCache.Evict | src/main/java/com/xyz/service/impl/UserServiceImpl.java:389-391 | clearUserCardCache drops only that user's card |
| UserService.FindByAcc | src/main/java/com/xyz/mapper/UserMapper.java:19-20 | the user with that account, if any |
| UserService.FindByAccPassword | src/main/java/com/xyz/mapper/UserMapper.java:41-42 | the user with that account and password, if any |
| UserService.Login | src/main/java/com/xyz/service/impl/UserServiceImpl.java:89-108 | unknown account, then wrong password, then a banned account, else the user |
| UserService.LoginMeaning | src/main/java/com/xyz/service/impl/UserServiceImpl.java:89-108 | login outcomes stated over the user table alone, each as an iff |
| UserService.NullIfBlank | src/main/java/com/xyz/service/impl/UserServiceImpl.java:61-66 | a blank email or phone is stored as null |
| UserService.Registered | src/main/java/com/xyz/service/impl/UserServiceImpl.java:57-71 | the new row is enabled and created now |
| UserService.Register | src/main/java/com/xyz/service/impl/UserServiceImpl.java:50-85 | a taken account is refused with nothing written; an email or phone another user holds breaks the table's unique keys and writes nothing; otherwise a new user who joins an existing user-list index |
| UserService.RegisterKeepsContactsUnique | src/main/java/com/xyz/service/impl/UserServiceImpl.java:59-66 | an insert the unique keys admit keeps every non-null email and phone held by one user only |
| UserService.RegisterThenLogin | src/main/java/com/xyz/service/impl/UserServiceImpl.java:50-108 | a freshly registered user can log in with the submitted account and password |
| UserService.UpdatePassword | src/main/java/com/xyz/service/impl/UserServiceImpl.java:170-186 | unknown user or wrong old password changes nothing; otherwise only the password changes |
| UserService.PasswordChangeMovesLogin | src/main/java/com/xyz/service/impl/UserServiceImpl.java:170-186 | after a change the new password logs in as the old one did and a different old one is refused |
| UserService.SetUserStatus | src/main/java/com/xyz/service/impl/UserServiceImpl.java:229-257 | ban sets status 0, unban 1; only that user's card is evicted |
| UserService.BanBlocksLogin | src/main/java/com/xyz/service/impl/UserServiceImpl.java:229-257 | a banned user cannot log in; unbanned, the same user can |
| UserService.UserRows | src/main/java/com/xyz/mapper/UserMapper.java:94-95 | the rebuild reads every user scored by registration time |
| UserService.RegisterKeepsIndex | src/main/java/com/xyz/service/impl/UserServiceImpl.java:77-81 | registration keeps the user-list index agreeing with the table, and complete when it was |
| UserService.RebuildCompletesIndex | src/main/java/com/xyz/service/impl/UserServiceImpl.java:288-304 | a rebuild over an agreeing index makes it complete |
| UserService.CompleteIndexMatchesDatabase | src/main/java/com/xyz/service/impl/UserServiceImpl.java:189-211 | a complete index answers every lookup as the database page does |
| UserService.ResolveUsersMeaning | src/main/java/com/xyz/service/impl/UserServiceImpl.java:311-351 | user card resolution keeps every resolvable id in order; each card is the cached one or the table's |
| UserService.ProbeUserCards | src/main/java/com/xyz/service/impl/UserServiceImpl.java:318-332 | the hits are exactly the requested ids with a cached card; the misses are the rest |
| UserService.FillUserMisses | src/main/java/com/xyz/service/impl/UserServiceImpl.java:335-344 | every missed id with a row is kept and cached with a jittered TTL |
| UserService.UsersInIdOrder | src/main/java/com/xyz/service/impl/UserServiceImpl.java:347-350 | the found cards in input order, skipping ids without a card |
| UserService.UserCardsFromCacheOrDb | src/main/java/com/xyz/service/impl/UserServiceImpl.java:311-351 | the cards of the ids in order, cache first then table, missed cards cached |
| UserService.UserCardMap | src/main/java/com/xyz/service/impl/UserServiceImpl.java:356-365 | every card in the map sits under its own id |
| UserService.CacheUserCards | src/main/java/com/xyz/service/impl/UserServiceImpl.java:356-365 | every card of the list is written with a jittered TTL |
| UserService.DbUserPage | src/main/java/com/xyz/mapper/UserMapper.java:85-89 | the database page: users created before the cursor, latest first |
| UserService.GetUserList | src/main/java/com/xyz/service/impl/UserServiceImpl.java:189-211 | the index is used only when it returns ids; otherwise the database page is read, the index rebuilt and the cards cached |
| UserService.UserListPageMeaning | src/main/java/com/xyz/service/impl/UserServiceImpl.java:189-211 | an agreeing index gives a page of exactly the first size lookup ids; a complete one gives the database page |
| CommentService.StoreSet | src/main/java/com/xyz/service/impl/CommentServiceImpl.java:114-119 | a key whose set becomes empty is deleted |
| CommentService.CommentCache.PutCount | src/main/java/com/xyz/service/impl/CommentServiceImpl.java:446-448 | a reply counter is written with the 30-minute TTL |
| CommentService.CommentCache.Toggle | src/main/java/com/xyz/service/impl/CommentServiceImpl.java:110-124 | a like is removed from both sets when present, otherwise added to both |
| CommentService.Posted | src/main/java/com/xyz/service/impl/CommentServiceImpl.java:41-77 | the new comment has no likes, is visible and is created now |
| CommentService.ReplyIdsAfterStatus | src/main/java/com/xyz/service/impl/CommentServiceImpl.java:222-260 | a status change moves a comment in or out of its own parent's replies only |
| CommentService.ReplyIdsAfterPost | src/main/java/com/xyz/service/impl/CommentServiceImpl.java:41-77 | a new visible reply joins its parent's replies only |
| CommentService.EvictParent | src/main/java/com/xyz/service/impl/CommentServiceImpl.java:265-274 | the eviction drops the parent's reply counter |
| CommentService.EvictingStatusChangeKeepsCountsTrue | src/main/java/com/xyz/service/impl/CommentServiceImpl.java:265-274 | a status change followed by eviction of the parent's counter keeps every cached count true |
| CommentService.BumpIfCached | src/main/java/com/xyz/service/impl/CommentServiceImpl.java:66-68 | only a cached counter is incremented |
| CommentService.BumpIfCachedKeepsCountsTrue | src/main/java/com/xyz/service/impl/CommentServiceImpl.java:62-73 | a reply that bumps only a cached counter keeps every cached count true |
| CommentService.ViewOf | src/main/java/com/xyz/service/impl/CommentServiceImpl.java:374-385 | the like count is the like-set size, or the stored count when that is 0; isSeller holds iff the goods owner wrote the comment |
| CommentService.AddComment | src/main/java/com/xyz/service/impl/CommentServiceImpl.java:41-77 | a visible comment is inserted; a reply increments its parent's counter and sets its latest reply |
| CommentService.AddAfterExpiryMiscounts | src/main/java/com/xyz/service/impl/CommentServiceImpl.java:66-68 | as written, a reply after the counter expired recreates it as 1 while the parent has 2 replies |
| CommentService.ActiveComment | src/main/java/com/xyz/mapper/CommentMapper.java:23-24 | the comment row when it is visible |
| CommentService.DeleteComment | src/main/java/com/xyz/service/impl/CommentServiceImpl.java:81-99 | only the author's comment matches; no match is CommentDeleteFailed; otherwise the row becomes user-deleted |
| CommentService.DeleteLeavesStaleReplyCount | src/main/java/com/xyz/service/impl/CommentServiceImpl.java:83-98 | as written, deleting a reply leaves the parent's cached count unchanged |
| CommentService.SetStatusByAdmin | src/main/java/com/xyz/service/impl/CommentServiceImpl.java:222-260 | unknown is CommentNotFound and changes nothing; otherwise the status is set and the parent's counter and latest reply evicted; like sets and all their expiries are untouched |
| CommentService.ToggleLike | src/main/java/com/xyz/service/impl/CommentServiceImpl.java:110-128 | a user in the like set leaves both sets, otherwise joins both; no other key changes |
| CommentService.ToggleKeepsMirrored | src/main/java/com/xyz/service/impl/CommentServiceImpl.java:110-128 | a toggle keeps the two like-set families in step and every stored set non-empty |
| CommentService.ToggleTwice | src/main/java/com/xyz/service/impl/CommentServiceImpl.java:110-128 | liking twice restores both families |
| CommentService.LikeComment | src/main/java/com/xyz/service/impl/CommentServiceImpl.java:103-129 | toggles the like, gives both keys the 60-minute TTL and stores the like-set size as the like count |
| CommentService.ToggledCountShown | src/main/java/com/xyz/service/impl/CommentServiceImpl.java:103-129 | after a toggle the stored count, the like set and the shown count agree |
| CommentService.CommentCursor | src/main/java/com/xyz/service/impl/CommentServiceImpl.java:134-136 | only a missing or zero cursor means now |
| CommentService.RowsOfAll | src/main/java/com/xyz/mapper/CommentMapper.java:41-58 | the rows of ids that exist, in order |
| CommentService.TopRows | src/main/java/com/xyz/mapper/CommentMapper.java:41-47 | the candidates for top comments: visible ones, every status for an administrator |
| CommentService.ReplyRows | src/main/java/com/xyz/mapper/CommentMapper.java:52-58 | the candidates for replies: visible ones, every status for an administrator |
| CommentService.QueryRows | src/main/java/com/xyz/mapper/CommentMapper.java:41-58 | the query returns rows before the cursor, latest first, at most count |
| CommentService.FetchedRows | src/main/java/com/xyz/mapper/CommentMapper.java:41-58 | every fetched row is a candidate, in query order |
| CommentService.CommentPageMeaning | src/main/java/com/xyz/service/impl/CommentServiceImpl.java:142-155 | a comment page is the first n candidates before the cursor; hasMore holds iff more exist; the cursor is given only then |
| CommentService.ShownCountIsTrue | src/main/java/com/xyz/service/impl/CommentServiceImpl.java:166 | while cached counters are true, every shown reply count is the true count |
| CommentService.WriteBackKeepsCountsTrue | src/main/java/com/xyz/service/impl/CommentServiceImpl.java:438-450 | writing back the table's counts keeps every cached counter true |
| CommentService.ProbeCounts | src/main/java/com/xyz/service/impl/CommentServiceImpl.java:422-431 | the cached counters of the ids, and the ids without one |
| CommentService.FillCounts | src/main/java/com/xyz/service/impl/CommentServiceImpl.java:434-450 | the table's counts of the missed ids, each written back with the 30-minute TTL |
| CommentService.WrittenBackIsCountsOf | src/main/java/com/xyz/service/impl/CommentServiceImpl.java:434-450 | writing back one missed id at a time, in order, leaves exactly the counters of the missed ids that have replies |
| CommentService.ReplyCountsFor | src/main/java/com/xyz/service/impl/CommentServiceImpl.java:417-453 | each id's cached counter, else the table's count (written back); an id with no replies has no entry |
| CommentService.TopViews | src/main/java/com/xyz/service/impl/CommentServiceImpl.java:158-176 | the views of a top-comment page, each with its reply count |
| CommentService.ReplyViews | src/main/java/com/xyz/service/impl/CommentServiceImpl.java:209-215 | the views of a reply page, without reply counts |
| CommentService.GetTopComments | src/main/java/com/xyz/service/impl/CommentServiceImpl.java:132-179 | a page of top comments before the cursor, latest first, each with its reply count; like sets, the latest-reply cache and their expiries are untouched |
| CommentService.TopPageMeaning | src/main/java/com/xyz/service/impl/CommentServiceImpl.java:132-179 | a top page lists exactly the first n candidates, hasMore iff more exist, and shows true reply counts while the cache is true |
| CommentService.GetReplies | src/main/java/com/xyz/service/impl/CommentServiceImpl.java:182-218 | a page of a comment's replies before the cursor, latest first |
| CommentService.RepliesPageMeaning | src/main/java/com/xyz/service/impl/CommentServiceImpl.java:182-218 | a reply page lists exactly the first n replies, visible unless an administrator asked, hasMore iff more exist |
| ChatService.FirstUnderscore | src/main/java/com/xyz/service/impl/ChatServiceImpl.java:64-74 | a printed id has no underscore, so the first underscore of a session id ends its first id |
| ChatService.SplitAtUnderscore | src/main/java/com/xyz/service/impl/ChatServiceImpl.java:64-74 | a string joined from two underscore-free parts splits back into them at its first underscore |
| ChatService.SessionId | src/main/java/com/xyz/service/impl/ChatServiceImpl.java:64-74 | the session id is min_max, followed by _goodsId when a goods id is given |
| ChatService.SessionIdSymmetric | src/main/java/com/xyz/service/impl/ChatServiceImpl.java:64-74 | the session id does not depend on the order of the two users |
| ChatService.IdTailShape | src/main/java/com/xyz/service/impl/ChatServiceImpl.java:64-74 | the tail after the smaller id is max, or max_goodsId |
| ChatService.IdTailInjective | src/main/java/com/xyz/service/impl/ChatServiceImpl.java:64-74 | equal tails mean equal larger ids and equal goods ids |
| ChatService.SessionIdInjective | src/main/java/com/xyz/service/impl/ChatServiceImpl.java:64-74 | two session ids are equal iff they name the same pair of users and the same goods id |
| ChatService.Access | src/main/java/com/xyz/service/impl/ChatServiceImpl.java:121-129 | an unknown session is SessionNotFound; a user who is neither participant is NoPermission; otherwise access is granted |
| ChatService.NewSession | src/main/java/com/xyz/service/impl/ChatServiceImpl.java:97-108 | the new session is stored under the generated id, has both users as participants and both unread counts and hide flags 0 |
| ChatService.CreateOrGetSession | src/main/java/com/xyz/service/impl/ChatServiceImpl.java:78-112 | an existing session is unhidden for the caller and keeps its id; otherwise a new session is stored under the generated id |
| ChatService.CreateKeepsUnreadTrue | src/main/java/com/xyz/service/impl/ChatServiceImpl.java:78-112 | creating or reopening a session keeps every unread counter equal to the unread messages it counts |
| ChatService.NoMessagesOfUnknown | src/main/java/com/xyz/service/impl/ChatServiceImpl.java:97-108 | a session that does not exist has no messages |
| ChatService.NewMessage | src/main/java/com/xyz/service/impl/ChatServiceImpl.java:137-145 | the stored message is unread and not recalled, from the sender to the receiver |
| ChatService.AfterSend | src/main/java/com/xyz/service/impl/ChatServiceImpl.java:147-157 | the session takes the content as its last message, the receiver's counter goes up by one, sender and receiver are unhidden, the participants stay the same |
| ChatService.SendMessage | src/main/java/com/xyz/service/impl/ChatServiceImpl.java:116-169 | access errors as Access and change nothing; otherwise an unread message with the next id is appended, the session updated as AfterSend says and the receiver's unread total evicted |
| ChatService.CountUnreadAppend | src/main/java/com/xyz/service/impl/ChatServiceImpl.java:137-157 | appending a message raises the receiver's unread count in that session by one iff it is unread |
| ChatService.SendKeepsUnreadTrue | src/main/java/com/xyz/service/impl/ChatServiceImpl.java:116-169 | sending keeps every unread counter equal to the unread messages it counts |
| ChatService.MarkRead | src/main/java/com/xyz/service/impl/ChatServiceImpl.java:238-250 | marking read sets every unread message to the user in the session as read and touches no other message |
| ChatService.MarkReadCounts | src/main/java/com/xyz/service/impl/ChatServiceImpl.java:238-250 | after marking read, the user has no unread messages in that session and every other count is unchanged |
| ChatService.UnreadOf | src/main/java/com/xyz/service/impl/ChatServiceImpl.java:483-484 | its length is the number of unread messages to the user in the session, and a message is in it iff it is one of them |
| ChatService.AsRead | src/main/java/com/xyz/service/impl/ChatServiceImpl.java:238-250 | the session with the user's unread count cleared |
| ChatService.MarkAsRead | src/main/java/com/xyz/service/impl/ChatServiceImpl.java:224-302 | access is checked; then the user's messages in the session are marked read and the user's unread count becomes 0 |
| ChatService.MarkReadKeepsLog | src/main/java/com/xyz/service/impl/ChatServiceImpl.java:238-250 | marking read keeps the message log well formed |
| ChatService.MarkKeepsUnreadTrue | src/main/java/com/xyz/service/impl/ChatServiceImpl.java:224-254 | marking read keeps every unread counter equal to the unread messages it counts |
| ChatService.SessionMessages | src/main/java/com/xyz/service/impl/ChatServiceImpl.java:188-220 | a message is in the result iff it is in the log and belongs to the session |
| ChatService.Window | src/main/java/com/xyz/service/impl/ChatServiceImpl.java:203-211 | a LIMIT window holds the elements from the offset on, at most n of them |
| ChatService.ListMessages | src/main/java/com/xyz/service/impl/ChatServiceImpl.java:188-220 | access errors exactly as Access; otherwise the page holds the session's messages from offset (page-1)*size on, at most size of them, with page and size defaulting to 1 and 50 |
| ChatService.PagesCoverSession | src/main/java/com/xyz/service/impl/ChatServiceImpl.java:203-211 | consecutive pages of the session's messages together give every message once, in order |
| ChatService.DeleteSession | src/main/java/com/xyz/service/impl/ChatServiceImpl.java:338-357 | access is checked; then the session is hidden for the caller only |
| ChatService.MessageById | src/main/java/com/xyz/service/impl/ChatServiceImpl.java:365-368 | a message is found iff the id lies between 1 and the log length, and it is the message at that position |
| ChatService.RecallErrorMeaning | src/main/java/com/xyz/service/impl/ChatServiceImpl.java:365-387 | a recall is allowed iff the message exists, the caller sent it, it is not yet recalled and at most 120000 ms have passed since it was sent |
| ChatService.RecallMessage | src/main/java/com/xyz/service/impl/ChatServiceImpl.java:361-404 | a refused recall returns the first failing check and changes nothing; otherwise the message is flagged recalled and its session's last message becomes the recall notice when it equals the message content |
| ChatService.CountUnreadPointwise | src/main/java/com/xyz/service/impl/ChatServiceImpl.java:390 | flagging a message as recalled leaves every unread count unchanged |
| ChatService.RecallKeepsUnreadTrue | src/main/java/com/xyz/service/impl/ChatServiceImpl.java:361-404 | recalling keeps every unread counter equal to the unread messages it counts |
| ChatService.SessionViewOf | src/main/java/com/xyz/service/impl/ChatServiceImpl.java:468-505 | for a participant, the caller and the other user are the two participants; the unread count is the caller's own counter |
| ChatService.ViewShowsUnread | src/main/java/com/xyz/service/impl/ChatServiceImpl.java:470-484 | the other user is the participant who is not the caller, and the unread count is the caller's |
| CategoryService.OwnCodeAccepted | src/main/java/com/xyz/service/impl/CategoryServiceImpl.java:72-77 | a category's own code never counts as taken when that category is updated |
| CategoryService.NewCategory | src/main/java/com/xyz/service/impl/CategoryServiceImpl.java:44-49 | a missing display order becomes 999 and a missing status 1; the other fields come from the form |
| CategoryService.Patched | src/main/java/com/xyz/service/impl/CategoryServiceImpl.java:80-91 | each non-null form field replaces the column and each null one leaves it as it was |
| CategoryService.PatchIdempotent | src/main/java/com/xyz/service/impl/CategoryServiceImpl.java:80-91 | applying the same update twice equals applying it once |
| CategoryService.CategoryById | src/main/java/com/xyz/service/impl/CategoryServiceImpl.java:146-155 | an unknown id is CategoryNotFound; otherwise the category |
| CategoryService.LastOrderFor | src/main/java/com/xyz/service/impl/CategoryServiceImpl.java:160-172 | the display order set by the last entry naming the id, if any entry does |
| CategoryService.ReorderedMeaning | src/main/java/com/xyz/service/impl/CategoryServiceImpl.java:159-173 | a reorder keeps the set of categories and every name, code and status; a category takes the order of its last entry in the list, and keeps its order when the list does not name it |
| CategoryService.ReorderedKeepsCodes | src/main/java/com/xyz/service/impl/CategoryServiceImpl.java:159-173 | a reorder changes no code, so codes stay unique |
| CategoryService.CategoryDb.CreateCategory | src/main/java/com/xyz/service/impl/CategoryServiceImpl.java:32-60 | a taken code is CodeExists with nothing written; otherwise the new category is inserted with the defaults |
| CategoryService.CategoryDb.UpdateCategory | src/main/java/com/xyz/service/impl/CategoryServiceImpl.java:64-100 | unknown id is CategoryNotFound; a code held by another category is CodeExists; both failures iff their conditions, success iff neither; otherwise only the non-null fields change |
| CategoryService.CategoryDb.DeleteCategory | src/main/java/com/xyz/service/impl/CategoryServiceImpl.java:104-119 | unknown id is CategoryNotFound; a category in use by goods is CategoryHasGoods with nothing deleted; success iff the id is known and unused, and then it is removed |
| CategoryService.CategoryDb.UpdateCategoryOrder | src/main/java/com/xyz/service/impl/CategoryServiceImpl.java:159-173 | the categories become the reorder of the old ones by the entries in turn |
| AdminService.LoginError | src/main/java/com/xyz/service/impl/AdminServiceImpl.java:34-48 | the first failing check: unknown username, then wrong password, then a disabled account, each stated as an iff |
| AdminService.AdminDb.Login | src/main/java/com/xyz/service/impl/AdminServiceImpl.java:30-57 | a refused login changes nothing and reports that check; a successful one stamps the last-login and update times and returns the updated account |
| AdminService.AdminById | src/main/java/com/xyz/service/impl/AdminServiceImpl.java:60-66 | an unknown id is AccountNotFound; otherwise the account |
| JwtInterceptor.MatchesAnyPrefix | src/main/java/com/xyz/util/JwtTokenUserInterceptor.java:87-93 | true iff the uri starts with one of the paths |
| JwtInterceptor.RequireAuthMeaning | src/main/java/com/xyz/util/JwtTokenUserInterceptor.java:85-115 | a request needs a user iff it writes under /user/goods/, posts or gets a favourite path, or lies under one of the five listed paths |
| JwtInterceptor.GoodsReadsAreOpen | src/main/java/com/xyz/util/JwtTokenUserInterceptor.java:96-99 | reading a goods item by numeric id needs no user; editing it does |
| JwtInterceptor.RequestContext.PreHandle | src/main/java/com/xyz/util/JwtTokenUserInterceptor.java:28-80 | non-handlers pass; a parsed token sets the current user and passes; no or invalid token is refused with 401 iff the path needs a user; an invalid token otherwise clears the user |
| JwtInterceptor.RequestContext.AfterCompletion | src/main/java/com/xyz/util/JwtTokenUserInterceptor.java:119-121 | the current user is cleared |
| AliOss.LastDot | src/main/java/com/xyz/util/AliOssUtil.java:40-41 | the position of the last dot, or -1 when there is none |
| AliOss.Extension | src/main/java/com/xyz/util/AliOssUtil.java:40-41 | without a name the extension is .jpg; a name without a dot has none; otherwise the name's tail from its last dot |
| AliOss.WithoutDashes | src/main/java/com/xyz/util/AliOssUtil.java:42 | the random id with every dash removed |
| AliOss.ObjectName | src/main/java/com/xyz/util/AliOssUtil.java:42 | the object name starts with the folder and a slash and ends with the extension |
| AliOss.ObjectNameOfUrl | src/main/java/com/xyz/util/AliOssUtil.java:105-110 | a URL names an object iff it starts with the bucket's prefix |
| AliOss.UrlRoundTrip | src/main/java/com/xyz/util/AliOssUtil.java:59 | the URL of an object names exactly that object, and only that URL does |
| AliOss.UploadResult | src/main/java/com/xyz/util/AliOssUtil.java:32-70 | a name without a dot fails, a failing store fails, otherwise the object name under the folder and a URL that names it |
| AliOss.OssBucket.Upload | src/main/java/com/xyz/util/AliOssUtil.java:32-70 | a successful upload stores exactly the new object and returns its URL; a failed one stores nothing |
| AliOss.OssBucket.Delete | src/main/java/com/xyz/util/AliOssUtil.java:98-124 | a URL with the bucket's prefix removes the object it names; any other URL, or a failed store, changes nothing |
| AliOss.UploadTo | src/main/java/com/xyz/util/AliOssUtil.java:75-91 | each upload kind stores under its own folder; it succeeds iff the name has an extension and the store works |
| AliOss.FolderOf | src/main/java/com/xyz/util/AliOssUtil.java:75-91 | each kind maps to one of the three folders |
| AliOss.FoldersSeparate | src/main/java/com/xyz/util/AliOssUtil.java:75-91 | files of different kinds never share an object name |
| Upload.AvatarRejection | src/main/java/com/xyz/controller/CommonController.java:36-49 | each message is returned exactly when its check is the first to fail (no or empty file, a non-image type, more than 2 MiB); nothing iff all pass |
| Upload.UploadAvatar | src/main/java/com/xyz/controller/CommonController.java:35-53 | a rejected avatar reaches no storage; an accepted one is stored and its URL returned |
| Upload.FateOf | src/main/java/com/xyz/controller/CommonController.java:71-87 | an empty file is skipped; a non-empty one is refused iff not an image type, too large iff an image over 5 MiB, and stored under goods/ iff it passes both, has an extension and storage succeeds |
| Upload.Fates | src/main/java/com/xyz/controller/CommonController.java:69-90 | one fate per file, in order |
| Upload.BatchSucceeds | src/main/java/com/xyz/controller/CommonController.java:69-90 | the batch succeeds iff every file is empty or uploads |
| Upload.BatchSuccessLists | src/main/java/com/xyz/controller/CommonController.java:69-90 | on success the reply lists one URL per non-empty file, in input order |
| Upload.BatchStopsAtFirstFailure | src/main/java/com/xyz/controller/CommonController.java:75-87 | the batch reports the first failing file, and only the files before it were stored |
| Upload.ContinueStep | src/main/java/com/xyz/controller/CommonController.java:69-90 | processing one more file extends the batch outcome by that file's fate |
| Upload.UploadGoodsImages | src/main/java/com/xyz/controller/CommonController.java:58-91 | null, zero or more than 9 files is an error with nothing stored; otherwise the files are processed in order as the batch outcome says |
| CommentService.PageRowsAreReplies | src/main/java/com/xyz/service/impl/CommentServiceImpl.java:182-218 | every comment on a reply page is a stored reply of that parent, visible unless an administrator asked |
| CommentService.CommentDb.UpdateLikeCount | src/main/java/com/xyz/mapper/CommentMapper.java:29-30 | sets the like count of the row with that id and leaves the table unchanged when no row has it |

## Left out

- Transport and framework: HTTP controllers other than the upload endpoints, request binding and JSON. The services are modelled from the call onward.
- Some SQL is written only in the MyBatis XML files. This covers the goods page queries, `getGoodsCardsByIds`, `getGoodsDetailById`, the search and condition queries, `CommentMapper.getReplyCountsByParentIds` and `getLatestRepliesByParentIds`, and the chat mapper statements. Each is modelled by what its method name and its callers promise. In particular, the reply-count query is taken to count only visible (status 1) replies, as `CommentService.ReplyCount` does. `ReplyCountsFor`, `CountsTrue` and the reply-counter findings rest on that reading. The page queries return the same ordered range over the partition's rows as the sorted set. Search and condition results are inputs.
- `getAllCategories` and `getActiveCategories`, with their mapper queries `findAll` and `findAllActive` (ordered by display order, then creation time), are not among the modelled operations: they only read and sort the category table, and the model has no sequence of categories to order.
- Time is an input. `nowMs` is `System.currentTimeMillis`. `dbNow` is the database's `update_time`, taken to be refreshed by every goods update. Second-granularity timestamps are not modelled.
- Randomness is an input. The card and detail TTL jitter (`nextInt(5)`) is a parameter in [0, 5), and the object-storage file id (a UUID) is a string parameter.
- Exceptions are flags. A Redis fault is taken to strike at the first Redis call of an operation, and a failing storage call makes the upload answer `Thrown`. Logging is left out.
- Concurrency is left out. Operations are atomic steps. The `@Async` `forceSync` runs inline. The 300-second expiry of the sync lock is not modelled, so a lock held by a crashed run stays held.
- `GOODS_COLLECT_KEY` and `GOODS_COLLECT_TTL` are used by `util/CollectNumCacheUtil.java` but not defined in `constant/RedisConstant.java`. The counter TTL is therefore a parameter.
- Integer widths are not modelled. Ids, counters and timestamps are unbounded integers, and Java `long` and `int` overflow is left out.
- ChatService.ListMessages: the offset `(page - 1) * pageSize` is computed in 32-bit `int` in the source, and its overflow for huge pages is not modelled.
- UserService.GetUserList: `size` is a `nat`. A negative `int` size is not accepted, although the controller passes one through; it defaults only a missing size, to 10.
- GoodsService.SearchGoods: `size` is a `nat`, for the same reason as `GetUserList`.
- CollectNumCache.BatchGetCollectNum: a fault is taken to strike before any result is built. A partial map returned when a later Redis call throws is not modelled.
- CollectNumSync.SyncSingle: the `update_time` column written by the counter update is not modelled. Only `collect_num` changes.
- `GoodsServiceImpl` repeats private index helpers that also live in `GoodsQueryServiceImpl` (`buildZSetKey`, the rebuilds). They are modelled once, in `IndexKeys` and `ListingIndex`. The user-card helpers `UserIdsOf`, `ProbeUserCards` and `UserCardMap` mirror `IdsOf`, `ProbeCards` and `CardMap` of the goods cards, because `UserServiceImpl` has its own copies over its own card type. They stay separate because the two card types share no supertype to abstract over.
- The unique keys on a user's email and phone come from the comment on the blank-to-null step in `UserServiceImpl.register`. The table schema is not part of this model. A duplicate key is modelled as the `DuplicateContact` refusal, where the source's insert throws.
- GoodsService.ToggleFavorite: two fault paths are not modelled, and the model keeps the goods table unchanged on every path. First, when the counter update fails and the cleanup `delete` also throws, the fallback adds the delta to the row's `collect_num` directly and skips the sync mark. Second, a Redis fault in the favourite-index add or remove escapes the transaction and rolls back the favourite row, while the counter has already moved and the id is already marked.
- Ties in a sorted set are ordered by member id as an integer. Redis orders ties by the serialized member's bytes, and the serializer is configured outside these sources, so this tie order is a modelling choice.
- `GoodsService.Sound` covers the category, owner, all-goods and off-shelf indexes. The favourites index is scored by favourite time and kept by `ToggleFavorite`, and it is not part of that invariant.
- `GoodsCategory.java` has no `displayOrder` or `status` field, while the category service and mapper set both. The model follows the service and the mapper.
- A `null` order list given to `updateCategoryOrder` is taken as an empty one.
- Administrator login with a `null` status throws `NullPointerException` in the source. The model compares the status as an integer. Usernames are taken to be unique, as the table's unique index requires.
- JWT parsing and signature checking are an oracle answer (`TokenCheck`). The thread-local current user is a field. A value left by an earlier request on the same thread is visible only through that field.
- The object-storage client is abstracted to a set of object names. `delete` with a `null` URL throws in the source and is not modelled.
- Chat operations left out:
  - `listSessions` and `getTotalUnread`;
  - online status and heartbeat;
  - nickname and avatar decoration;
  - `getUserWithCache`.
- `getUnreadMessagesByReceiver` is not declared in `mapper/ChatMessageMapper.java`. Its result is modelled by its name: the user's unread messages of the session, in log order.
- `listBySessionId` is taken to return a session's messages in insertion order.
- `sendMessage` takes the receiver from the request as given, so a sender can address a message to a user outside the session. The model keeps that.
- `recallMessage` returns the message row read before the update, with its recall flag still 0. The model returns the same row.
- User-service operations left out, because they only copy fields between the table and a view:
  - `updateUserInfo`;
  - `getUserInfo`;
  - `getUserPublicInfo`;
  - `getUserDetail`.
- The latest-reply id map of the comment service is kept as a cache field. The reply shown by the comment view is not modelled.
- SQL string collation is modelled as exact equality.

## Findings

| source | as written | input that shows it | evidently intended | confidence | as-written member | corrected member |
|---|---|---|---|---|---|---|
| src/main/java/com/xyz/service/impl/GoodsQueryServiceImpl.java:37-64 | the favourites listing reads its index by favourite time, but its next cursor is the last card's `updateTimestamp` | user 7 favourited goods 1 at 100 and goods 2 at 90; goods 1 was updated at 10. A page of size 1 shows goods 1 with next cursor 10, and the next page looks below 10, so goods 2 is never shown | the next cursor is the index score of the last id shown, so consecutive pages continue the window | not executed | GoodsQuery.FavoriteCursorSkipsGoods | GoodsQuery.ScoreCursorContinues |
| src/main/java/com/xyz/service/impl/GoodsServiceImpl.java:445-463 | removing a listing from the indexes clears its category, owner and all-goods sets only | goods 5 of owner 3 is off shelf and listed in `goods:offline:3:ids`; after deleting it, the off-shelf list still shows it | the owner's off-shelf set is cleared as well | not executed | GoodsService.RetireLeavesOfflineEntry | GoodsService.CorrectedRetireKeepsSound |
| src/main/java/com/xyz/service/impl/GoodsServiceImpl.java:340-364 | an edit rescores the listing in its existing category, owner and all-goods sets whatever its status, and never removes it from its old category | editing off-shelf goods 5 puts it into the all-goods set; moving on-sale goods 5 from category 1 to category 2 leaves it listed in category 1 | an edit indexes the listing only while it is on sale, and leaves the old category's set when the category changes | not executed | GoodsService.EditLeavesIndexUnsound | GoodsService.CorrectedEditKeepsSound |
| src/main/java/com/xyz/service/impl/CommentServiceImpl.java:83-98 | the author's delete marks a reply deleted but leaves the parent's cached reply count | parent 3 with one reply 7 and a cached count of 1; after reply 7 is deleted the count still says 1 while no reply is visible | the parent's counter is evicted, as the administrator operations do at lines 265-274 | not executed | CommentService.DeleteLeavesStaleReplyCount | CommentService.EvictingStatusChangeKeepsCountsTrue |
| src/main/java/com/xyz/service/impl/CommentServiceImpl.java:66-68 | a reply runs INCR on the parent's counter whether or not the counter is cached | parent 3 has one reply and its counter has expired; a second reply recreates the counter as 1 while the parent has 2 replies | the counter is bumped only while it is cached, and otherwise left to be recounted from the table | not executed | CommentService.AddAfterExpiryMiscounts | CommentService.BumpIfCachedKeepsCountsTrue |
