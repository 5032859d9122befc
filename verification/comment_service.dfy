/**
 * Comments on goods: posting (top-level or as a reply), soft deletion by the author,
 * blocking and restoring by an administrator, like toggling, and the cursor-paged
 * listings of a goods item's top comments and of a comment's replies.
 *
 * The comment table is the source of truth. Redis holds, per comment, the set of
 * users who liked it (`comment:like:{id}`), per user the set of comments they liked
 * (`user:like:comments:{id}`), and per parent comment its reply count
 * (`comment:reply:count:{id}`) and latest reply id (`comment:latest:reply:{id}`).
 */
module CommentService {
  import opened Common
  import opened ZSet
  import ListingIndex

  // Comment status codes.
  const ACTIVE := 1
  const USER_DELETED := 2
  const ADMIN_BLOCKED := 3

  /** Default page sizes of the top-comment and reply listings. */
  const TOP_PAGE_SIZE := 10
  const REPLY_PAGE_SIZE := 20

  // Key lifetimes in minutes.
  const COMMENT_LIKE_TTL := 60
  const COMMENT_COUNT_TTL := 30

  /** The nickname shown for a user id with no user row. */
  const UNKNOWN_USER := "未知用户"

  /** A row of the comment table; `createTime` is in epoch milliseconds. */
  datatype Comment = Comment(
    id: int,
    goodsId: int,
    userId: int,
    content: string,
    parentId: Option<int>,
    replyToUserId: Option<int>,
    likeCount: int,
    status: int,
    createTime: int)

  /** What a listing shows of one comment. `replyCount` is only set in the top-comment listings. */
  datatype CommentView = CommentView(
    commentId: int,
    userId: int,
    userNickname: string,
    isSeller: bool,
    content: string,
    replyToUserId: Option<int>,
    replyToUserNickname: Option<string>,
    likeCount: int,
    hasLiked: bool,
    status: int,
    createTimestamp: int,
    replyCount: Option<int>)

  /** Who is looking, and the rows of the user and goods tables a view reads. */
  datatype Viewer = Viewer(currentUserId: int, nicknames: map<int, string>, owners: map<int, int>)

  datatype CommentError = CommentDeleteFailed | CommentNotFound

  datatype CommentResult = Ok | Err(error: CommentError)

  // ---------------------------------------------------------------------------
  // Stored state
  // ---------------------------------------------------------------------------

  /** The members of a Redis set key; a missing key reads as the empty set. */
  function SetAt(m: map<int, set<int>>, k: int): set<int> {
    if k in m then m[k] else {}
  }

  /** Stores a set under a key; Redis deletes a key whose set becomes empty. */
  function StoreSet(m: map<int, set<int>>, k: int, s: set<int>): (r: map<int, set<int>>)
    ensures SetAt(r, k) == s && (k in r <==> s != {})
    ensures forall j :: j != k ==> (j in r <==> j in m) && SetAt(r, j) == SetAt(m, j)
    ensures NonEmptySets(m) ==> NonEmptySets(r)
    ensures r.Keys - {k} == m.Keys - {k}
  {
    if s == {} then m - {k} else m[k := s]
  }

  /** No stored set is empty. */
  ghost predicate NonEmptySets(m: map<int, set<int>>) {
    forall k :: k in m ==> m[k] != {}
  }

  class CommentDb {
    var comments: map<int, Comment>
    /** The next auto-increment id. */
    var nextId: int

    ghost predicate Valid()
      reads this
    {
      forall id :: id in comments ==> comments[id].id == id && id < nextId && comments[id].createTime >= 0
    }

    constructor()
      ensures Valid() && comments == map[]
    {
      comments := map[];
      nextId := 1;
    }

    /** `updateLikeCount`: an UPDATE by id, which touches no row when the id has none. */
    method UpdateLikeCount(id: int, likeCount: int)
      requires Valid()
      modifies this
      ensures Valid() && nextId == old(nextId)
      ensures comments == if id in old(comments) then old(comments)[id := old(comments)[id].(likeCount := likeCount)] else old(comments)
    {
      if id in comments {
        comments := comments[id := comments[id].(likeCount := likeCount)];
      }
    }
  }

  /** The comment keys of Redis, with the TTL (minutes) of each key that has one. */
  class CommentCache {
    var likes: map<int, set<int>>
    var userLikes: map<int, set<int>>
    var likeTtl: map<int, int>
    var userLikeTtl: map<int, int>
    var replyCounts: map<int, int>
    var countTtl: map<int, int>
    var latestReply: map<int, int>
    var latestTtl: map<int, int>

    ghost predicate Valid()
      reads this
    {
      && NonEmptySets(likes) && NonEmptySets(userLikes)
      && likeTtl.Keys <= likes.Keys && userLikeTtl.Keys <= userLikes.Keys
      && countTtl.Keys <= replyCounts.Keys && latestTtl.Keys <= latestReply.Keys
    }

    constructor()
      ensures Valid() && likes == map[] && userLikes == map[] && replyCounts == map[] && latestReply == map[]
    {
      likes, userLikes, likeTtl, userLikeTtl := map[], map[], map[], map[];
      replyCounts, countTtl, latestReply, latestTtl := map[], map[], map[], map[];
    }

    /** Every key but the reply counters: the like sets, the latest replies and their TTLs. */
    ghost function OtherKeys(): (map<int, set<int>>, map<int, set<int>>, map<int, int>, map<int, int>, map<int, int>, map<int, int>)
      reads this
    {
      (likes, userLikes, likeTtl, userLikeTtl, latestReply, latestTtl)
    }

    /** SET `comment:reply:count:{p}` with the 30-minute TTL. */
    method PutCount(p: int, n: int)
      modifies this
      ensures old(Valid()) ==> Valid()
      ensures replyCounts == old(replyCounts)[p := n] && countTtl == old(countTtl)[p := COMMENT_COUNT_TTL]
      ensures OtherKeys() == old(OtherKeys())
    {
      replyCounts := replyCounts[p := n];
      countTtl := countTtl[p := COMMENT_COUNT_TTL];
    }

    /** SISMEMBER, then SREM or SADD on both keys, then EXPIRE on both. */
    method Toggle(commentId: int, userId: int)
      requires Valid()
      modifies this
      ensures Valid()
      ensures LikeSets(likes, userLikes) == ToggleLike(old(likes), old(userLikes), commentId, userId)
      ensures likeTtl == Expire(old(likeTtl), commentId in likes, commentId, COMMENT_LIKE_TTL)
      ensures userLikeTtl == Expire(old(userLikeTtl), userId in userLikes, userId, COMMENT_LIKE_TTL)
      ensures replyCounts == old(replyCounts) && countTtl == old(countTtl)
      ensures latestReply == old(latestReply) && latestTtl == old(latestTtl)
    {
      var r := ToggleLike(likes, userLikes, commentId, userId);
      var lt := Expire(likeTtl, commentId in r.byComment, commentId, COMMENT_LIKE_TTL);
      var ut := Expire(userLikeTtl, userId in r.byUser, userId, COMMENT_LIKE_TTL);
      likes, userLikes, likeTtl, userLikeTtl := r.byComment, r.byUser, lt, ut;
    }
  }

  // ---------------------------------------------------------------------------
  // Reply counts
  // ---------------------------------------------------------------------------

  /** The visible replies of comment `p`. */
  function ReplyIds(comments: map<int, Comment>, p: int): set<int> {
    set id | id in comments && comments[id].parentId == Some(p) && comments[id].status == ACTIVE
  }

  /** `getReplyCountByParentId`: how many visible replies `p` has. */
  function ReplyCount(comments: map<int, Comment>, p: int): nat {
    |ReplyIds(comments, p)|
  }

  /** Every cached reply count is the true one. */
  ghost predicate CountsTrue(counts: map<int, int>, comments: map<int, Comment>) {
    forall p :: p in counts ==> counts[p] == ReplyCount(comments, p)
  }

  /** INCR: a missing counter reads as 0. */
  function CountAt(counts: map<int, int>, p: int): int {
    if p in counts then counts[p] else 0
  }

  /** The row `addComment` inserts: no likes, visible, created now. */
  function Posted(id: int, goodsId: int, userId: int, content: string, parentId: Option<int>,
                  replyToUserId: Option<int>, nowMs: int): (c: Comment)
    ensures c.id == id && c.userId == userId && c.parentId == parentId
    ensures c.likeCount == 0 && c.status == ACTIVE && c.createTime == nowMs
  {
    Comment(id, goodsId, userId, content, parentId, replyToUserId, 0, ACTIVE, nowMs)
  }

  /** Changing a comment's status moves it in or out of its own parent's replies and nowhere else. */
  lemma ReplyIdsAfterStatus(comments: map<int, Comment>, id: int, status: int, p: int)
    requires id in comments
    ensures var after := comments[id := comments[id].(status := status)];
      && (comments[id].parentId != Some(p) ==> ReplyIds(after, p) == ReplyIds(comments, p))
      && (comments[id].parentId == Some(p) ==>
            ReplyIds(after, p) == if status == ACTIVE then ReplyIds(comments, p) + {id} else ReplyIds(comments, p) - {id})
  {
    var after := comments[id := comments[id].(status := status)];
    if comments[id].parentId != Some(p) {
      assert forall x :: x in ReplyIds(after, p) <==> x in ReplyIds(comments, p);
    } else {
      var want := if status == ACTIVE then ReplyIds(comments, p) + {id} else ReplyIds(comments, p) - {id};
      assert forall x :: x in ReplyIds(after, p) <==> x in want;
    }
  }

  /** A new visible reply joins its parent's replies and no other's. */
  lemma ReplyIdsAfterPost(comments: map<int, Comment>, c: Comment, p: int)
    requires c.id !in comments && c.status == ACTIVE
    ensures ReplyIds(comments[c.id := c], p) ==
      if c.parentId == Some(p) then ReplyIds(comments, p) + {c.id} else ReplyIds(comments, p)
  {
    var want := if c.parentId == Some(p) then ReplyIds(comments, p) + {c.id} else ReplyIds(comments, p);
    assert forall x :: x in ReplyIds(comments[c.id := c], p) <==> x in want;
  }

  /** `clearCommentCache`: drops the key of the comment's parent, if it has one. */
  function EvictParent<V>(m: map<int, V>, c: Comment): (r: map<int, V>)
    ensures c.parentId.Some? ==> c.parentId.value !in r
    ensures forall p :: p in r <==> p in m && c.parentId != Some(p)
    ensures forall p :: p in r ==> r[p] == m[p]
  {
    if c.parentId.Some? then m - {c.parentId.value} else m
  }

  /**
   * Any status change followed by an eviction of the comment's parent keys keeps
   * every cached reply count true.
   */
  lemma EvictingStatusChangeKeepsCountsTrue(counts: map<int, int>, comments: map<int, Comment>, id: int, status: int)
    requires CountsTrue(counts, comments) && id in comments
    ensures CountsTrue(EvictParent(counts, comments[id]), comments[id := comments[id].(status := status)])
  {
    var after := comments[id := comments[id].(status := status)];
    forall p | p in EvictParent(counts, comments[id])
      ensures EvictParent(counts, comments[id])[p] == ReplyCount(after, p)
    {
      ReplyIdsAfterStatus(comments, id, status, p);
    }
  }

  /** The increment `addComment` should make: only a counter that is cached (and so true) is bumped. */
  function BumpIfCached(counts: map<int, int>, p: int): (r: map<int, int>)
    ensures r.Keys == counts.Keys
    ensures p in counts ==> r[p] == counts[p] + 1
    ensures forall q :: q in counts && q != p ==> r[q] == counts[q]
  {
    if p in counts then counts[p := counts[p] + 1] else counts
  }

  /** Posting a reply and bumping only a cached counter keeps every cached reply count true. */
  lemma BumpIfCachedKeepsCountsTrue(counts: map<int, int>, comments: map<int, Comment>, c: Comment)
    requires CountsTrue(counts, comments) && c.id !in comments && c.status == ACTIVE && c.parentId.Some?
    ensures CountsTrue(BumpIfCached(counts, c.parentId.value), comments[c.id := c])
  {
    var after := BumpIfCached(counts, c.parentId.value);
    forall p | p in after ensures after[p] == ReplyCount(comments[c.id := c], p) {
      ReplyIdsAfterPost(comments, c, p);
    }
  }

  // ---------------------------------------------------------------------------
  // Views
  // ---------------------------------------------------------------------------

  function NicknameOf(viewer: Viewer, userId: int): string {
    if userId in viewer.nicknames then viewer.nicknames[userId] else UNKNOWN_USER
  }

  /**
   * `buildCommentVO`: the like count is the size of the comment's like set, or the
   * stored count when that set is empty; the author is the seller exactly when the
   * goods row's owner wrote the comment.
   */
  function ViewOf(c: Comment, goodsId: Option<int>, likes: map<int, set<int>>, viewer: Viewer, replyCount: Option<int>): (v: CommentView)
    ensures v.commentId == c.id && v.userId == c.userId && v.status == c.status && v.createTimestamp == c.createTime
    ensures v.hasLiked <==> viewer.currentUserId in SetAt(likes, c.id)
    ensures v.isSeller <==> goodsId.Some? && goodsId.value in viewer.owners && viewer.owners[goodsId.value] == c.userId
    ensures SetAt(likes, c.id) != {} ==> v.likeCount == |SetAt(likes, c.id)|
    ensures SetAt(likes, c.id) == {} ==> v.likeCount == c.likeCount
    ensures v.replyToUserNickname.Some? <==> c.replyToUserId.Some?
    ensures v.replyCount == replyCount
  {
    var n := |SetAt(likes, c.id)|;
    CommentView(
      c.id, c.userId, NicknameOf(viewer, c.userId),
      goodsId.Some? && goodsId.value in viewer.owners && viewer.owners[goodsId.value] == c.userId,
      c.content, c.replyToUserId,
      if c.replyToUserId.Some? then Some(NicknameOf(viewer, c.replyToUserId.value)) else None,
      if n == 0 then c.likeCount else n,
      viewer.currentUserId in SetAt(likes, c.id),
      c.status, c.createTime, replyCount)
  }

  // ---------------------------------------------------------------------------
  // Posting and deleting
  // ---------------------------------------------------------------------------

  /**
   * `addComment`: inserts a visible comment with no likes, created now. For a reply,
   * the parent's reply counter is incremented (a missing counter counts from 0) and
   * its latest-reply id set to the new comment, both keys given the 30-minute TTL.
   * Returns the new comment's view.
   */
  method AddComment(db: CommentDb, cache: CommentCache, viewer: Viewer, goodsId: int, content: string,
                    parentId: Option<int>, replyToUserId: Option<int>, nowMs: int)
    returns (view: CommentView)
    requires db.Valid() && cache.Valid() && nowMs >= 0
    modifies db, cache
    ensures db.Valid() && cache.Valid()
    ensures var c := Posted(old(db.nextId), goodsId, viewer.currentUserId, content, parentId, replyToUserId, nowMs);
      && c.id !in old(db.comments)
      && db.comments == old(db.comments)[c.id := c]
      && view == ViewOf(c, Some(goodsId), cache.likes, viewer, None)
    ensures parentId.None? ==>
      && cache.replyCounts == old(cache.replyCounts) && cache.countTtl == old(cache.countTtl)
      && cache.latestReply == old(cache.latestReply) && cache.latestTtl == old(cache.latestTtl)
    ensures parentId.Some? ==> var p := parentId.value;
      && cache.replyCounts == old(cache.replyCounts)[p := CountAt(old(cache.replyCounts), p) + 1]
      && cache.countTtl == old(cache.countTtl)[p := COMMENT_COUNT_TTL]
      && cache.latestReply == old(cache.latestReply)[p := old(db.nextId)]
      && cache.latestTtl == old(cache.latestTtl)[p := COMMENT_COUNT_TTL]
    ensures cache.likes == old(cache.likes) && cache.userLikes == old(cache.userLikes)
    ensures cache.likeTtl == old(cache.likeTtl) && cache.userLikeTtl == old(cache.userLikeTtl)
  {
    var c := Posted(db.nextId, goodsId, viewer.currentUserId, content, parentId, replyToUserId, nowMs);
    db.comments := db.comments[c.id := c];
    db.nextId := db.nextId + 1;
    if parentId.Some? {
      var p := parentId.value;
      cache.replyCounts := cache.replyCounts[p := CountAt(cache.replyCounts, p) + 1];
      cache.countTtl := cache.countTtl[p := COMMENT_COUNT_TTL];
      cache.latestReply := cache.latestReply[p := c.id];
      cache.latestTtl := cache.latestTtl[p := COMMENT_COUNT_TTL];
    }
    view := ViewOf(c, Some(goodsId), cache.likes, viewer, None);
  }

  /**
   * The counter increment of `addComment` when the counter has expired: a parent
   * with one visible reply and no cached counter gets a second reply, and the counter
   * is recreated as 1 while the parent has 2 replies.
   */
  lemma AddAfterExpiryMiscounts()
    ensures var top := Comment(3, 1, 1, "q", None, None, 0, ACTIVE, 100);
      var first := Comment(7, 1, 2, "a", Some(3), None, 0, ACTIVE, 200);
      var before := map[3 := top, 7 := first];
      var second := Posted(8, 1, 4, "b", Some(3), None, 300);
      var counts := map[3 := CountAt(map[], 3) + 1];
      && CountsTrue(map[], before)
      && 8 !in before
      && counts[3] == 1 && ReplyCount(before[8 := second], 3) == 2
      && !CountsTrue(counts, before[8 := second])
  {
    var top := Comment(3, 1, 1, "q", None, None, 0, ACTIVE, 100);
    var first := Comment(7, 1, 2, "a", Some(3), None, 0, ACTIVE, 200);
    var before := map[3 := top, 7 := first];
    var second := Posted(8, 1, 4, "b", Some(3), None, 300);
    var after := before[8 := second];
    assert ReplyIds(after, 3) == {7, 8} by {
      assert forall x :: x in ReplyIds(after, 3) <==> x == 7 || x == 8;
    }
  }

  /** `getCommentById`: the row, when it is visible. */
  function ActiveComment(comments: map<int, Comment>, id: int): (r: Option<Comment>)
    ensures r.Some? <==> id in comments && comments[id].status == ACTIVE
  {
    if id in comments && comments[id].status == ACTIVE then Some(comments[id]) else None
  }

  /**
   * `deleteComment`: only the author's own comment matches (whatever its status);
   * no match is CommentDeleteFailed. The row becomes USER_DELETED. The row is then
   * read back through the visible-only lookup, which no longer finds it, so the
   * parent's reply-count and latest-reply keys are left in place.
   */
  method DeleteComment(db: CommentDb, viewer: Viewer, commentId: int) returns (r: CommentResult)
    requires db.Valid()
    modifies db
    ensures db.Valid()
    ensures r == if commentId in old(db.comments) && old(db.comments)[commentId].userId == viewer.currentUserId
                 then Ok else Err(CommentDeleteFailed)
    ensures r.Err? ==> db.comments == old(db.comments)
    ensures r.Ok? ==> db.comments == old(db.comments)[commentId := old(db.comments)[commentId].(status := USER_DELETED)]
    ensures db.nextId == old(db.nextId)
  {
    if !(commentId in db.comments && db.comments[commentId].userId == viewer.currentUserId) {
      return Err(CommentDeleteFailed);
    }
    db.comments := db.comments[commentId := db.comments[commentId].(status := USER_DELETED)];
    assert ActiveComment(db.comments, commentId).None?;
    return Ok;
  }

  /**
   * The cache left by `deleteComment`: a parent whose cached counter counts its one
   * reply keeps that counter after the reply is deleted, while it has no visible reply.
   */
  lemma DeleteLeavesStaleReplyCount()
    ensures var top := Comment(3, 1, 1, "q", None, None, 0, ACTIVE, 100);
      var reply := Comment(7, 1, 2, "a", Some(3), None, 0, ACTIVE, 200);
      var before := map[3 := top, 7 := reply];
      var after := before[7 := reply.(status := USER_DELETED)];
      && CountsTrue(map[3 := 1], before)
      && ActiveComment(after, 7).None?
      && ReplyCount(after, 3) == 0
      && !CountsTrue(map[3 := 1], after)
  {
    var top := Comment(3, 1, 1, "q", None, None, 0, ACTIVE, 100);
    var reply := Comment(7, 1, 2, "a", Some(3), None, 0, ACTIVE, 200);
    var before := map[3 := top, 7 := reply];
    var after := before[7 := reply.(status := USER_DELETED)];
    assert ReplyIds(before, 3) == {7} by {
      assert forall x :: x in ReplyIds(before, 3) <==> x == 7;
    }
    assert ReplyIds(after, 3) == {} by {
      assert forall x :: x !in ReplyIds(after, 3);
    }
  }

  /**
   * `deleteCommentByAdmin` (status ADMIN_BLOCKED) and `restoreCommentByAdmin` (status
   * ACTIVE): an unknown comment is CommentNotFound and nothing changes; otherwise the
   * status is set whatever it was and the parent's reply-count and latest-reply keys
   * are deleted, read from the row as it was before the update.
   */
  method SetStatusByAdmin(db: CommentDb, cache: CommentCache, commentId: int, status: int) returns (r: CommentResult)
    requires status == ACTIVE || status == ADMIN_BLOCKED
    requires db.Valid() && cache.Valid()
    modifies db, cache
    ensures db.Valid() && cache.Valid()
    ensures r == if commentId in old(db.comments) then Ok else Err(CommentNotFound)
    ensures r.Err? ==>
      && db.comments == old(db.comments) && cache.replyCounts == old(cache.replyCounts) && cache.latestReply == old(cache.latestReply)
      && cache.countTtl == old(cache.countTtl) && cache.latestTtl == old(cache.latestTtl)
    ensures r.Ok? ==> var row := old(db.comments)[commentId];
      && db.comments == old(db.comments)[commentId := row.(status := status)]
      && cache.replyCounts == EvictParent(old(cache.replyCounts), row)
      && cache.countTtl == EvictParent(old(cache.countTtl), row)
      && cache.latestReply == EvictParent(old(cache.latestReply), row)
      && cache.latestTtl == EvictParent(old(cache.latestTtl), row)
    ensures CountsTrue(old(cache.replyCounts), old(db.comments)) ==> CountsTrue(cache.replyCounts, db.comments)
    ensures cache.likes == old(cache.likes) && cache.userLikes == old(cache.userLikes)
    ensures cache.likeTtl == old(cache.likeTtl) && cache.userLikeTtl == old(cache.userLikeTtl)
    ensures db.nextId == old(db.nextId)
  {
    if commentId !in db.comments {
      return Err(CommentNotFound);
    }
    var row := db.comments[commentId];
    if CountsTrue(cache.replyCounts, db.comments) {
      EvictingStatusChangeKeepsCountsTrue(cache.replyCounts, db.comments, commentId, status);
    }
    db.comments := db.comments[commentId := row.(status := status)];
    cache.replyCounts := EvictParent(cache.replyCounts, row);
    cache.countTtl := EvictParent(cache.countTtl, row);
    cache.latestReply := EvictParent(cache.latestReply, row);
    cache.latestTtl := EvictParent(cache.latestTtl, row);
    return Ok;
  }

  // ---------------------------------------------------------------------------
  // Likes
  // ---------------------------------------------------------------------------

  /** The like sets of comments and of users, as a pair. */
  datatype LikeSets = LikeSets(byComment: map<int, set<int>>, byUser: map<int, set<int>>)

  /**
   * The like toggle: a user in the comment's like set leaves it, and the comment
   * leaves the user's set; otherwise both are added. No other key changes.
   */
  function ToggleLike(likes: map<int, set<int>>, userLikes: map<int, set<int>>, commentId: int, userId: int): (r: LikeSets)
    ensures userId in SetAt(likes, commentId) ==>
      userId !in SetAt(r.byComment, commentId) && commentId !in SetAt(r.byUser, userId)
    ensures userId !in SetAt(likes, commentId) ==>
      userId in SetAt(r.byComment, commentId) && commentId in SetAt(r.byUser, userId)
    ensures SetAt(r.byComment, commentId) - {userId} == SetAt(likes, commentId) - {userId}
    ensures SetAt(r.byUser, userId) - {commentId} == SetAt(userLikes, userId) - {commentId}
    ensures forall c :: c != commentId ==> SetAt(r.byComment, c) == SetAt(likes, c)
    ensures forall u :: u != userId ==> SetAt(r.byUser, u) == SetAt(userLikes, u)
    ensures NonEmptySets(likes) ==> NonEmptySets(r.byComment)
    ensures NonEmptySets(userLikes) ==> NonEmptySets(r.byUser)
    ensures r.byComment.Keys - {commentId} == likes.Keys - {commentId}
    ensures r.byUser.Keys - {userId} == userLikes.Keys - {userId}
  {
    if userId in SetAt(likes, commentId) then
      LikeSets(StoreSet(likes, commentId, SetAt(likes, commentId) - {userId}),
               StoreSet(userLikes, userId, SetAt(userLikes, userId) - {commentId}))
    else
      LikeSets(StoreSet(likes, commentId, SetAt(likes, commentId) + {userId}),
               StoreSet(userLikes, userId, SetAt(userLikes, userId) + {commentId}))
  }

  /** The two set families describe the same likes. */
  ghost predicate Mirrored(likes: map<int, set<int>>, userLikes: map<int, set<int>>) {
    forall c, u :: u in SetAt(likes, c) <==> c in SetAt(userLikes, u)
  }

  /** A toggle keeps the two families in step and keeps every stored set non-empty. */
  lemma ToggleKeepsMirrored(likes: map<int, set<int>>, userLikes: map<int, set<int>>, commentId: int, userId: int)
    requires Mirrored(likes, userLikes)
    ensures var r := ToggleLike(likes, userLikes, commentId, userId);
      Mirrored(r.byComment, r.byUser)
  {
    var r := ToggleLike(likes, userLikes, commentId, userId);
    forall c, u ensures u in SetAt(r.byComment, c) <==> c in SetAt(r.byUser, u) {
      if c == commentId && u == userId {
      } else if c == commentId {
        assert u != userId;
        assert u in SetAt(r.byComment, c) <==> u in SetAt(likes, c);
      } else if u == userId {
        assert c in SetAt(r.byUser, u) <==> c in SetAt(userLikes, u);
      }
    }
  }

  lemma StoreSetAt(m: map<int, set<int>>, k: int)
    requires NonEmptySets(m)
    ensures StoreSet(m, k, SetAt(m, k)) == m
  {
  }

  /**
   * Liking twice restores both families exactly, when the comment's set and the
   * user's set agree on this one like.
   */
  lemma ToggleTwice(likes: map<int, set<int>>, userLikes: map<int, set<int>>, commentId: int, userId: int)
    requires NonEmptySets(likes) && NonEmptySets(userLikes)
    requires userId in SetAt(likes, commentId) <==> commentId in SetAt(userLikes, userId)
    ensures var once := ToggleLike(likes, userLikes, commentId, userId);
      ToggleLike(once.byComment, once.byUser, commentId, userId) == LikeSets(likes, userLikes)
  {
    var once := ToggleLike(likes, userLikes, commentId, userId);
    var twice := ToggleLike(once.byComment, once.byUser, commentId, userId);
    if userId in SetAt(likes, commentId) {
      assert SetAt(likes, commentId) - {userId} + {userId} == SetAt(likes, commentId);
      assert SetAt(userLikes, userId) - {commentId} + {commentId} == SetAt(userLikes, userId);
    } else {
      assert SetAt(likes, commentId) + {userId} - {userId} == SetAt(likes, commentId);
      assert SetAt(userLikes, userId) + {commentId} - {commentId} == SetAt(userLikes, userId);
    }
    StoreSetAt(likes, commentId);
    StoreSetAt(userLikes, userId);
  }

  /** EXPIRE: a key that exists gets the TTL; a key that is gone has none. */
  function Expire(ttl: map<int, int>, present: bool, k: int, minutes: int): map<int, int> {
    if present then ttl[k := minutes] else ttl - {k}
  }

  /**
   * `likeComment`: toggles the like in both families, gives both keys the 60-minute
   * TTL, and stores the size of the comment's like set as its like count (a comment
   * with no row is not written).
   */
  method LikeComment(db: CommentDb, cache: CommentCache, commentId: int, userId: int)
    requires db.Valid() && cache.Valid()
    modifies db, cache
    ensures db.Valid() && cache.Valid()
    ensures LikeSets(cache.likes, cache.userLikes) == ToggleLike(old(cache.likes), old(cache.userLikes), commentId, userId)
    ensures cache.likeTtl == Expire(old(cache.likeTtl), commentId in cache.likes, commentId, COMMENT_LIKE_TTL)
    ensures cache.userLikeTtl == Expire(old(cache.userLikeTtl), userId in cache.userLikes, userId, COMMENT_LIKE_TTL)
    ensures db.comments == if commentId in old(db.comments)
      then old(db.comments)[commentId := old(db.comments)[commentId].(likeCount := |SetAt(cache.likes, commentId)|)]
      else old(db.comments)
    ensures cache.replyCounts == old(cache.replyCounts) && cache.countTtl == old(cache.countTtl)
    ensures cache.latestReply == old(cache.latestReply) && cache.latestTtl == old(cache.latestTtl)
    ensures db.nextId == old(db.nextId)
  {
    cache.Toggle(commentId, userId);
    var n := |SetAt(cache.likes, commentId)|;
    db.UpdateLikeCount(commentId, n);
  }

  /**
   * After a like toggle the stored count, the like set and the count every view shows
   * agree.
   */
  lemma ToggledCountShown(c: Comment, likes: map<int, set<int>>, goodsId: Option<int>, viewer: Viewer, replyCount: Option<int>)
    requires c.likeCount == |SetAt(likes, c.id)|
    ensures ViewOf(c, goodsId, likes, viewer, replyCount).likeCount == |SetAt(likes, c.id)|
  {
  }

  // ---------------------------------------------------------------------------
  // Listings
  // ---------------------------------------------------------------------------

  /** The comment listings' cursor rule: only a missing or zero cursor means "now". */
  function CommentCursor(cursor: Option<int>, now: int): (c: int)
    ensures cursor.None? || cursor.value == 0 ==> c == now
    ensures cursor.Some? && cursor.value != 0 ==> c == cursor.value
  {
    if cursor.None? || cursor.value == 0 then now else cursor.value
  }

  function CreateStamp(c: Comment): int {
    c.createTime
  }

  function CommentIds(cs: seq<Comment>): (ids: seq<int>)
    ensures |ids| == |cs| && forall i :: 0 <= i < |cs| ==> ids[i] == cs[i].id
  {
    seq(|cs|, i requires 0 <= i < |cs| => cs[i].id)
  }

  /** The rows of `ids` that exist, in order. */
  function RowsOf(comments: map<int, Comment>, ids: seq<int>): seq<Comment>
    decreases |ids|
  {
    if ids == [] then []
    else
      var rest := RowsOf(comments, ids[..|ids| - 1]);
      var last := ids[|ids| - 1];
      if last in comments then rest + [comments[last]] else rest
  }

  lemma {:induction false} RowsOfAll(comments: map<int, Comment>, ids: seq<int>)
    requires forall id :: id in comments ==> comments[id].id == id
    requires forall id :: id in ids ==> id in comments
    ensures CommentIds(RowsOf(comments, ids)) == ids
    ensures forall i :: 0 <= i < |ids| ==> RowsOf(comments, ids)[i] == comments[ids[i]]
    decreases |ids|
  {
    if ids != [] {
      var init, last := ids[..|ids| - 1], ids[|ids| - 1];
      assert forall id :: id in init ==> id in ids;
      RowsOfAll(comments, init);
      assert RowsOf(comments, ids) == RowsOf(comments, init) + [comments[last]];
      CommentIdsAppend(RowsOf(comments, init), comments[last]);
      assert ids == init + [last];
    }
  }

  lemma CommentIdsAppend(cs: seq<Comment>, c: Comment)
    ensures CommentIds(cs + [c]) == CommentIds(cs) + [c.id]
  {
  }

  /** The query's candidates for a goods item's top comments: every status for an administrator. */
  function TopRows(comments: map<int, Comment>, goodsId: int, admin: bool): (rows: map<int, int>)
    ensures forall id :: id in rows <==>
      id in comments && comments[id].goodsId == goodsId && comments[id].parentId.None? && (admin || comments[id].status == ACTIVE)
    ensures forall id :: id in rows ==> rows[id] == comments[id].createTime
  {
    map id | id in comments && comments[id].goodsId == goodsId && comments[id].parentId.None?
      && (admin || comments[id].status == ACTIVE) :: comments[id].createTime
  }

  /** The query's candidates for a comment's replies: every status for an administrator. */
  function ReplyRows(comments: map<int, Comment>, parentId: int, admin: bool): (rows: map<int, int>)
    ensures forall id :: id in rows <==>
      id in comments && comments[id].parentId == Some(parentId) && (admin || comments[id].status == ACTIVE)
    ensures forall id :: id in rows ==> rows[id] == comments[id].createTime
  {
    map id | id in comments && comments[id].parentId == Some(parentId)
      && (admin || comments[id].status == ACTIVE) :: comments[id].createTime
  }

  /**
   * The rows a listing query returns: created before the cursor, latest first (ties
   * by id, descending), at most `count`.
   */
  ghost function Fetched(comments: map<int, Comment>, rows: map<int, int>, cursor: int, count: nat): seq<Comment>
  {
    RowsOf(comments, RevRangeByScore(SortedFrom(rows), 0, cursor - 1, count))
  }

  /** The query itself, sorting the candidate rows as the database does. */
  method QueryRows(comments: map<int, Comment>, rows: map<int, int>, cursor: int, count: nat) returns (fetched: seq<Comment>)
    ensures fetched == Fetched(comments, rows, cursor, count)
  {
    var sorted := ListingIndex.MergeRows([], rows);
    assert Scores([]) + rows == rows;
    SameScoresSameSet(sorted, SortedFrom(rows));
    fetched := RowsOf(comments, RevRangeByScore(sorted, 0, cursor - 1, count));
  }

  /** Every fetched row is a candidate, in the query's order. */
  lemma FetchedRows(comments: map<int, Comment>, rows: map<int, int>, cursor: int, count: nat)
    requires forall id :: id in comments ==> comments[id].id == id
    requires forall id :: id in rows ==> id in comments
    ensures var ids := RevRangeByScore(SortedFrom(rows), 0, cursor - 1, count);
      && CommentIds(Fetched(comments, rows, cursor, count)) == ids
      && forall i :: 0 <= i < |ids| ==> ids[i] in rows && Fetched(comments, rows, cursor, count)[i] == comments[ids[i]]
  {
    var ids := RevRangeByScore(SortedFrom(rows), 0, cursor - 1, count);
    RevRangeMeaning(SortedFrom(rows), 0, cursor - 1, count);
    RowsOfAll(comments, ids);
  }

  /**
   * A listing page over the query: its comments are exactly what a query limited to
   * `n` rows returns, it has more exactly when more than `n` candidates lie before
   * the cursor, and it gives a next cursor (the last comment's creation time) only
   * then.
   */
  lemma CommentPageMeaning(comments: map<int, Comment>, rows: map<int, int>, cursor: int, n: nat)
    requires forall id :: id in comments ==> comments[id].id == id
    requires forall id :: id in rows ==> id in comments && rows[id] == comments[id].createTime
    requires n > 0
    ensures var window := Range(SortedFrom(rows), 0, cursor - 1);
      var p := BuildCursorPageOnlyWhenMore(Fetched(comments, rows, cursor, n + 1), n, CreateStamp);
      && CommentIds(p.list) == RevRangeByScore(SortedFrom(rows), 0, cursor - 1, n)
      && (p.hasMore <==> |window| > n)
      && (p.nextCursor.Some? <==> p.hasMore)
      && (p.hasMore ==> p.nextCursor == Some(p.list[|p.list| - 1].createTime))
  {
    var s := SortedFrom(rows);
    var window := Range(s, 0, cursor - 1);
    var ids := RevRangeByScore(s, 0, cursor - 1, n + 1);
    var fetched := RowsOf(comments, ids);
    assert CommentIds(fetched) == ids && |ids| == Min(|window|, n + 1) by {
      RevRangeInRange(s, 0, cursor - 1, n + 1);
      RowsOfAll(comments, ids);
    }
    var p := BuildCursorPageOnlyWhenMore(fetched, n, CreateStamp);
    assert p.list == Take(fetched, n) && (p.hasMore <==> |fetched| > n)
      && (p.nextCursor.Some? <==> p.hasMore)
      && (p.hasMore ==> p.nextCursor == Some(p.list[|p.list| - 1].createTime)) by {
      CommentPageAgreesWithListingPage(fetched, n, CreateStamp);
      BuildPageMeaning(fetched, n, CreateStamp);
    }
    calc {
      CommentIds(p.list);
      { CommentIdsTake(fetched, n); }
      Take(Members(Take(window, n + 1)), n);
      { MembersTake(window, n + 1); TakeOfTake(Members(window), n + 1, n); }
      Take(Members(window), n);
      { MembersTake(window, n); }
      RevRangeByScore(s, 0, cursor - 1, n);
    }
  }

  lemma CommentIdsTake(cs: seq<Comment>, n: nat)
    ensures CommentIds(Take(cs, n)) == Take(CommentIds(cs), n)
  {
  }

  /** The cached reply counts of `ids`, and the table's for the rest that have replies. */
  function ReplyCountMap(counts: map<int, int>, comments: map<int, Comment>, ids: seq<int>): map<int, int>
  {
    map p | p in ids && (p in counts || ReplyCount(comments, p) > 0) ::
      if p in counts then counts[p] else ReplyCount(comments, p)
  }

  /** The counters a read writes back: every id of `ps` that has replies. */
  function CountsOf(comments: map<int, Comment>, ps: seq<int>): map<int, int>
  {
    map p | p in ps && ReplyCount(comments, p) > 0 :: ReplyCount(comments, p)
  }

  function CountTtls(keys: set<int>): map<int, int> {
    map p | p in keys :: COMMENT_COUNT_TTL
  }

  /** `getOrDefault(id, 0)`. */
  function ShownCount(m: map<int, int>, p: int): int {
    if p in m then m[p] else 0
  }

  /** While the cached counters are true, every shown reply count is the true count. */
  lemma ShownCountIsTrue(counts: map<int, int>, comments: map<int, Comment>, ids: seq<int>, p: int)
    requires CountsTrue(counts, comments) && p in ids
    ensures ShownCount(ReplyCountMap(counts, comments, ids), p) == ReplyCount(comments, p)
  {
  }

  /** Writing back the table's counts keeps every cached counter true. */
  lemma WriteBackKeepsCountsTrue(counts: map<int, int>, comments: map<int, Comment>, ps: seq<int>)
    requires CountsTrue(counts, comments)
    ensures CountsTrue(counts + CountsOf(comments, ps), comments)
  {
  }

  lemma CountsOfStep(comments: map<int, Comment>, ps: seq<int>, p: int)
    ensures CountsOf(comments, ps + [p]) ==
      if ReplyCount(comments, p) > 0 then CountsOf(comments, ps)[p := ReplyCount(comments, p)] else CountsOf(comments, ps)
  {
    var l := CountsOf(comments, ps + [p]);
    var r := if ReplyCount(comments, p) > 0 then CountsOf(comments, ps)[p := ReplyCount(comments, p)] else CountsOf(comments, ps);
    assert forall x :: x in l <==> x in r;
  }

  lemma CountTtlsStep(keys: set<int>, p: int)
    ensures CountTtls(keys + {p}) == CountTtls(keys)[p := COMMENT_COUNT_TTL]
  {
    var l := CountTtls(keys + {p});
    var r := CountTtls(keys)[p := COMMENT_COUNT_TTL];
    assert forall x :: x in l <==> x in r;
  }

  /** The first loop of `getReplyCountMap`: the cached counters of `ids` and the ids without one. */
  method ProbeCounts(cache: CommentCache, ids: seq<int>) returns (hits: map<int, int>, missed: seq<int>)
    ensures forall p :: p in hits <==> p in ids && p in cache.replyCounts
    ensures forall p :: p in hits ==> hits[p] == cache.replyCounts[p]
    ensures forall p :: p in missed <==> p in ids && p !in cache.replyCounts
  {
    hits, missed := map[], [];
    var i := 0;
    while i < |ids|
      invariant 0 <= i <= |ids|
      invariant forall p :: p in hits <==> p in ids[..i] && p in cache.replyCounts
      invariant forall p :: p in hits ==> hits[p] == cache.replyCounts[p]
      invariant forall p :: p in missed <==> p in ids[..i] && p !in cache.replyCounts
    {
      assert ids[..i + 1] == ids[..i] + [ids[i]];
      var p := ids[i];
      if p in cache.replyCounts {
        hits := hits[p := cache.replyCounts[p]];
      } else {
        missed := missed + [p];
      }
      i := i + 1;
    }
    assert ids[..i] == ids;
  }

  /** The second loop: the table's counts of the missed ids, each written back with the 30-minute TTL. */
  method FillCounts(cache: CommentCache, db: CommentDb, missed: seq<int>, hits: map<int, int>) returns (counts: map<int, int>)
    requires cache.Valid()
    modifies cache
    ensures cache.Valid()
    ensures counts == hits + CountsOf(db.comments, missed)
    ensures cache.replyCounts == old(cache.replyCounts) + CountsOf(db.comments, missed)
    ensures cache.countTtl == old(cache.countTtl) + CountTtls(CountsOf(db.comments, missed).Keys)
    ensures cache.OtherKeys() == old(cache.OtherKeys())
  {
    ghost var counts0, ttl0 := cache.replyCounts, cache.countTtl;
    var comments := db.comments;
    ghost var written: map<int, int> := map[];
    assert CountTtls({}) == map[];
    counts := hits;
    var j := 0;
    while j < |missed|
      invariant 0 <= j <= |missed|
      invariant written == WrittenBack(comments, missed[..j])
      invariant counts == hits + written
      invariant cache.replyCounts == counts0 + written
      invariant cache.countTtl == ttl0 + CountTtls(written.Keys)
      invariant cache.OtherKeys() == old(cache.OtherKeys())
    {
      var p := missed[j];
      FillCountsStep(comments, missed, j, hits, counts0, ttl0, written);
      var n := ReplyCount(comments, p);
      if n > 0 {
        written := written[p := n];
        counts := counts[p := n];
        cache.PutCount(p, n);
      }
      j := j + 1;
    }
    assert missed[..j] == missed;
    WrittenBackIsCountsOf(comments, missed);
    CountTtlsKeys(counts0, ttl0, written);
  }

  /** Counters written with a TTL keep every TTL on an existing counter. */
  lemma CountTtlsKeys(counts: map<int, int>, ttl: map<int, int>, written: map<int, int>)
    requires ttl.Keys <= counts.Keys
    ensures (ttl + CountTtls(written.Keys)).Keys <= (counts + written).Keys
  {
  }

  /** The counters the second loop has written after visiting `ps`, in visiting order. */
  function WrittenBack(comments: map<int, Comment>, ps: seq<int>): map<int, int>
    decreases |ps|
  {
    if ps == [] then map[]
    else
      var w, p := WrittenBack(comments, ps[..|ps| - 1]), ps[|ps| - 1];
      if ReplyCount(comments, p) > 0 then w[p := ReplyCount(comments, p)] else w
  }

  /** Writing the counters one id at a time writes exactly the ids' counters that have replies. */
  lemma {:induction false} WrittenBackIsCountsOf(comments: map<int, Comment>, ps: seq<int>)
    ensures WrittenBack(comments, ps) == CountsOf(comments, ps)
    decreases |ps|
  {
    if ps == [] {
      assert CountsOf(comments, ps) == map[];
    } else {
      var front := ps[..|ps| - 1];
      WrittenBackIsCountsOf(comments, front);
      CountsOfStep(comments, front, ps[|ps| - 1]);
      assert front + [ps[|ps| - 1]] == ps;
    }
  }

  lemma FillCountsStep(comments: map<int, Comment>, missed: seq<int>, j: nat, hits: map<int, int>, counts0: map<int, int>,
                       ttl0: map<int, int>, written: map<int, int>)
    requires j < |missed| && written == WrittenBack(comments, missed[..j])
    ensures var p, n := missed[j], ReplyCount(comments, missed[j]);
      if n > 0 then
        && WrittenBack(comments, missed[..j + 1]) == written[p := n]
        && (hits + written)[p := n] == hits + written[p := n]
        && (counts0 + written)[p := n] == counts0 + written[p := n]
        && (ttl0 + CountTtls(written.Keys))[p := COMMENT_COUNT_TTL] == ttl0 + CountTtls(written[p := n].Keys)
      else WrittenBack(comments, missed[..j + 1]) == written
  {
    var p, n := missed[j], ReplyCount(comments, missed[j]);
    assert missed[..j + 1][..j] == missed[..j];
    if n > 0 {
      CountTtlsStep(written.Keys, p);
      assert written[p := n].Keys == written.Keys + {p};
      UpdateUnion(hits, written, p, n);
      UpdateUnion(counts0, written, p, n);
      UpdateUnion(ttl0, CountTtls(written.Keys), p, COMMENT_COUNT_TTL);
    }
  }

  /** The counters `getReplyCountMap` writes: the missed ids of `ids` that have replies. */
  function MissedCounts(counts: map<int, int>, comments: map<int, Comment>, ids: seq<int>): map<int, int>
  {
    map p | p in ids && p !in counts && ReplyCount(comments, p) > 0 :: ReplyCount(comments, p)
  }

  /**
   * `getReplyCountMap`: each id's cached counter, else the table's count (written back
   * for 30 minutes); an id with no replies gets no entry.
   */
  method ReplyCountsFor(cache: CommentCache, db: CommentDb, ids: seq<int>) returns (counts: map<int, int>)
    requires cache.Valid()
    modifies cache
    ensures cache.Valid()
    ensures counts == ReplyCountMap(old(cache.replyCounts), db.comments, ids)
    ensures cache.replyCounts == old(cache.replyCounts) + MissedCounts(old(cache.replyCounts), db.comments, ids)
    ensures cache.countTtl == old(cache.countTtl) + CountTtls(MissedCounts(old(cache.replyCounts), db.comments, ids).Keys)
    ensures cache.likes == old(cache.likes) && cache.userLikes == old(cache.userLikes)
    ensures cache.likeTtl == old(cache.likeTtl) && cache.userLikeTtl == old(cache.userLikeTtl)
    ensures cache.latestReply == old(cache.latestReply) && cache.latestTtl == old(cache.latestTtl)
  {
    var hits, missed := ProbeCounts(cache, ids);
    ProbedCounts(cache.replyCounts, db.comments, ids, hits, missed);
    counts := FillCounts(cache, db, missed, hits);
  }

  /** The two loops together: the probed counters plus the table's counts of the missed ids. */
  lemma ProbedCounts(counts0: map<int, int>, comments: map<int, Comment>, ids: seq<int>, hits: map<int, int>, missed: seq<int>)
    requires forall p :: p in hits <==> p in ids && p in counts0
    requires forall p :: p in hits ==> hits[p] == counts0[p]
    requires forall p :: p in missed <==> p in ids && p !in counts0
    ensures CountsOf(comments, missed) == MissedCounts(counts0, comments, ids)
    ensures hits + CountsOf(comments, missed) == ReplyCountMap(counts0, comments, ids)
  {
    var got, written := CountsOf(comments, missed), MissedCounts(counts0, comments, ids);
    assert got.Keys == written.Keys by {
      assert forall p :: p in got <==> p in written;
    }
    assert got == written;
    var want := ReplyCountMap(counts0, comments, ids);
    forall p | p in want
      ensures p in hits + written && (hits + written)[p] == want[p]
    {
      if p in counts0 {
        assert p in hits;
      } else {
        assert p in written;
      }
    }
    forall p | p in hits + written
      ensures p in want
    {
      if p in hits {
        assert p in ids && p in counts0;
      } else {
        assert p in ids && ReplyCount(comments, p) > 0;
      }
    }
    assert (hits + written).Keys == want.Keys;
  }

  /** The views of a top-comment page, each with its shown reply count. */
  function TopViews(list: seq<Comment>, goodsId: int, likes: map<int, set<int>>, viewer: Viewer, shown: map<int, int>): (vs: seq<CommentView>)
    ensures |vs| == |list|
    ensures forall i :: 0 <= i < |list| ==> vs[i] == ViewOf(list[i], Some(goodsId), likes, viewer, Some(ShownCount(shown, list[i].id)))
  {
    seq(|list|, i requires 0 <= i < |list| => ViewOf(list[i], Some(goodsId), likes, viewer, Some(ShownCount(shown, list[i].id))))
  }

  /** The views of a reply page; replies carry no reply count. */
  function ReplyViews(list: seq<Comment>, goodsId: Option<int>, likes: map<int, set<int>>, viewer: Viewer): (vs: seq<CommentView>)
    ensures |vs| == |list|
    ensures forall i :: 0 <= i < |list| ==> vs[i] == ViewOf(list[i], goodsId, likes, viewer, None)
  {
    seq(|list|, i requires 0 <= i < |list| => ViewOf(list[i], goodsId, likes, viewer, None))
  }

  ghost function TopPage(comments: map<int, Comment>, counts: map<int, int>, likes: map<int, set<int>>, viewer: Viewer,
                         goodsId: int, cursor: int, n: nat, admin: bool): Page<CommentView>
  {
    var fetched := Fetched(comments, TopRows(comments, goodsId, admin), cursor, n + 1);
    if fetched == [] then EmptyPage()
    else
      var p := BuildCursorPageOnlyWhenMore(fetched, n, CreateStamp);
      Page(TopViews(p.list, goodsId, likes, viewer, ReplyCountMap(counts, comments, CommentIds(p.list))), p.nextCursor, p.hasMore)
  }

  /** The ids of the comments a top-comment page keeps. */
  ghost function TopKeptIds(comments: map<int, Comment>, goodsId: int, cursor: int, n: nat, admin: bool): seq<int>
  {
    var fetched := Fetched(comments, TopRows(comments, goodsId, admin), cursor, n + 1);
    if fetched == [] then [] else CommentIds(BuildCursorPageOnlyWhenMore(fetched, n, CreateStamp).list)
  }

  /**
   * `getTopComments` (visible comments) and `getTopCommentsByAdmin` (every status):
   * a page of a goods item's top comments before the cursor, latest first, each with
   * its reply count; the counters read from the table are written back.
   */
  method GetTopComments(db: CommentDb, cache: CommentCache, viewer: Viewer, goodsId: int,
                        cursor: Option<int>, size: Option<int>, nowMs: int, admin: bool)
    returns (page: Page<CommentView>)
    requires db.Valid() && cache.Valid()
    modifies cache
    ensures cache.Valid()
    ensures var c := CommentCursor(cursor, nowMs);
      var n := NormalizeSize(size, TOP_PAGE_SIZE);
      && page == TopPage(db.comments, old(cache.replyCounts), cache.likes, viewer, goodsId, c, n, admin)
      && var written := MissedCounts(old(cache.replyCounts), db.comments, TopKeptIds(db.comments, goodsId, c, n, admin));
        cache.replyCounts == old(cache.replyCounts) + written
        && cache.countTtl == old(cache.countTtl) + CountTtls(written.Keys)
    ensures cache.likes == old(cache.likes) && cache.userLikes == old(cache.userLikes)
    ensures cache.likeTtl == old(cache.likeTtl) && cache.userLikeTtl == old(cache.userLikeTtl)
    ensures cache.latestReply == old(cache.latestReply) && cache.latestTtl == old(cache.latestTtl)
  {
    var c := CommentCursor(cursor, nowMs);
    var n := NormalizeSize(size, TOP_PAGE_SIZE);
    var fetched := QueryRows(db.comments, TopRows(db.comments, goodsId, admin), c, n + 1);
    if fetched == [] {
      assert MissedCounts(cache.replyCounts, db.comments, []) == map[];
      assert cache.countTtl + CountTtls({}) == cache.countTtl;
      return EmptyPage();
    }
    var p := BuildCursorPageOnlyWhenMore(fetched, n, CreateStamp);
    var shown := ReplyCountsFor(cache, db, CommentIds(p.list));
    page := Page(TopViews(p.list, goodsId, cache.likes, viewer, shown), p.nextCursor, p.hasMore);
  }

  /**
   * A top-comment page lists exactly the first `n` candidates before the cursor,
   * latest first; it has more exactly when more candidates lie before the cursor; and,
   * while the cached counters are true, each comment shows its true number of visible
   * replies.
   */
  lemma TopPageMeaning(comments: map<int, Comment>, counts: map<int, int>, likes: map<int, set<int>>, viewer: Viewer,
                       goodsId: int, cursor: int, n: nat, admin: bool)
    requires forall id :: id in comments ==> comments[id].id == id
    requires n > 0
    ensures var rows := TopRows(comments, goodsId, admin);
      var p := TopPage(comments, counts, likes, viewer, goodsId, cursor, n, admin);
      && |p.list| == |RevRangeByScore(SortedFrom(rows), 0, cursor - 1, n)|
      && (forall i :: 0 <= i < |p.list| ==> p.list[i].commentId == RevRangeByScore(SortedFrom(rows), 0, cursor - 1, n)[i])
      && (p.hasMore <==> |Range(SortedFrom(rows), 0, cursor - 1)| > n)
      && (CountsTrue(counts, comments) ==>
            forall i :: 0 <= i < |p.list| ==> p.list[i].replyCount == Some(ReplyCount(comments, p.list[i].commentId)))
  {
    var rows := TopRows(comments, goodsId, admin);
    var fetched := Fetched(comments, rows, cursor, n + 1);
    var q := BuildCursorPageOnlyWhenMore(fetched, n, CreateStamp);
    var p := TopPage(comments, counts, likes, viewer, goodsId, cursor, n, admin);
    CommentPageMeaning(comments, rows, cursor, n);
    if fetched == [] {
      assert q.list == [] && !q.hasMore && p.list == [] && !p.hasMore;
    } else {
      var ids := CommentIds(q.list);
      assert p.list == TopViews(q.list, goodsId, likes, viewer, ReplyCountMap(counts, comments, ids)) && p.hasMore == q.hasMore;
      if CountsTrue(counts, comments) {
        forall i | 0 <= i < |q.list|
          ensures ShownCount(ReplyCountMap(counts, comments, ids), q.list[i].id) == ReplyCount(comments, q.list[i].id)
        {
          assert ids[i] == q.list[i].id;
          ShownCountIsTrue(counts, comments, ids, q.list[i].id);
        }
      }
    }
  }

  ghost function RepliesPage(comments: map<int, Comment>, likes: map<int, set<int>>, viewer: Viewer,
                             parentId: int, cursor: int, n: nat, admin: bool): Page<CommentView>
  {
    var fetched := Fetched(comments, ReplyRows(comments, parentId, admin), cursor, n + 1);
    if fetched == [] then EmptyPage()
    else
      var p := BuildCursorPageOnlyWhenMore(fetched, n, CreateStamp);
      var parent := if admin then (if parentId in comments then Some(comments[parentId]) else None)
                    else ActiveComment(comments, parentId);
      Page(ReplyViews(p.list, if parent.Some? then Some(parent.value.goodsId) else None, likes, viewer),
           p.nextCursor, p.hasMore)
  }

  /**
   * `getReplies` (visible replies, seller judged through a visible parent) and
   * `getRepliesByAdmin` (every status, any parent): a page of a comment's replies
   * before the cursor, latest first.
   */
  method GetReplies(db: CommentDb, cache: CommentCache, viewer: Viewer, parentId: int,
                    cursor: Option<int>, size: Option<int>, nowMs: int, admin: bool)
    returns (page: Page<CommentView>)
    ensures page == RepliesPage(db.comments, cache.likes, viewer, parentId,
                                CommentCursor(cursor, nowMs), NormalizeSize(size, REPLY_PAGE_SIZE), admin)
  {
    var c := CommentCursor(cursor, nowMs);
    var n := NormalizeSize(size, REPLY_PAGE_SIZE);
    var fetched := QueryRows(db.comments, ReplyRows(db.comments, parentId, admin), c, n + 1);
    if fetched == [] {
      return EmptyPage();
    }
    var p := BuildCursorPageOnlyWhenMore(fetched, n, CreateStamp);
    var parent := if admin then (if parentId in db.comments then Some(db.comments[parentId]) else None)
                  else ActiveComment(db.comments, parentId);
    var goodsId := if parent.Some? then Some(parent.value.goodsId) else None;
    page := Page(ReplyViews(p.list, goodsId, cache.likes, viewer), p.nextCursor, p.hasMore);
  }

  /**
   * A reply page lists exactly the first `n` replies of the parent before the cursor,
   * latest first, all of them visible unless an administrator asked; it has more
   * exactly when more such replies exist, and only then gives a next cursor.
   */
  lemma RepliesPageMeaning(comments: map<int, Comment>, likes: map<int, set<int>>, viewer: Viewer,
                           parentId: int, cursor: int, n: nat, admin: bool)
    requires forall id :: id in comments ==> comments[id].id == id
    requires n > 0
    ensures var rows := ReplyRows(comments, parentId, admin);
      var p := RepliesPage(comments, likes, viewer, parentId, cursor, n, admin);
      && |p.list| == |RevRangeByScore(SortedFrom(rows), 0, cursor - 1, n)|
      && (forall i :: 0 <= i < |p.list| ==> p.list[i].commentId == RevRangeByScore(SortedFrom(rows), 0, cursor - 1, n)[i])
      && (forall i :: 0 <= i < |p.list| ==>
            p.list[i].commentId in comments && comments[p.list[i].commentId].parentId == Some(parentId)
            && (admin || p.list[i].status == ACTIVE))
      && (p.hasMore <==> |Range(SortedFrom(rows), 0, cursor - 1)| > n)
      && (p.nextCursor.Some? <==> p.hasMore)
  {
    var rows := ReplyRows(comments, parentId, admin);
    var fetched := Fetched(comments, rows, cursor, n + 1);
    CommentPageMeaning(comments, rows, cursor, n);
    if fetched != [] {
      var q := BuildCursorPageOnlyWhenMore(fetched, n, CreateStamp);
      PageRowsAreReplies(comments, parentId, admin, cursor, n);
      forall i | 0 <= i < |q.list| ensures CommentIds(q.list)[i] == q.list[i].id {}
    }
  }

  /** Every comment on a reply page is a stored reply of the parent, visible unless an administrator asked. */
  lemma PageRowsAreReplies(comments: map<int, Comment>, parentId: int, admin: bool, cursor: int, n: nat)
    requires forall id :: id in comments ==> comments[id].id == id
    ensures var fetched := Fetched(comments, ReplyRows(comments, parentId, admin), cursor, n + 1);
      var q := BuildCursorPageOnlyWhenMore(fetched, n, CreateStamp);
      forall i :: 0 <= i < |q.list| ==>
        q.list[i].id in comments && comments[q.list[i].id].parentId == Some(parentId)
        && (admin || q.list[i].status == ACTIVE)
  {
    var rows := ReplyRows(comments, parentId, admin);
    var fetched := Fetched(comments, rows, cursor, n + 1);
    FetchedRows(comments, rows, cursor, n + 1);
    BuildPageMeaning(fetched, n, CreateStamp);
    CommentPageAgreesWithListingPage(fetched, n, CreateStamp);
  }
}
