/**
 * Private chat between two users, optionally about one goods item: sessions keyed
 * by a string built from the two user ids (and the goods id), messages with read
 * and recall flags, per-participant unread counters and hide flags, and the checks
 * that only a participant may read or write a session and only the sender may
 * recall a message, within two minutes.
 *
 * The chat_message table is a log in insertion order whose ids count up from 1; the
 * message listing returns a session's messages in that order.
 */
module ChatService {
  import opened Common
  import opened IndexKeys

  const MESSAGE_UNREAD := 0
  const MESSAGE_READ := 1
  const DEFAULT_PAGE_SIZE := 50
  /** Two minutes, in milliseconds. */
  const RECALL_TIME_LIMIT := 2 * 60 * 1000
  /** The last-message text of a session whose last message was recalled. */
  const RECALLED_NOTICE := "此消息已被撤回"

  datatype Session = Session(
    sessionId: string,
    user1Id: int,
    user2Id: int,
    goodsId: Option<int>,
    lastMessage: string,
    lastMessageTime: int,
    user1Unread: int,
    user2Unread: int,
    user1Hide: int,
    user2Hide: int,
    createTime: int)

  datatype Message = Message(
    id: int,
    sessionId: string,
    senderId: int,
    receiverId: int,
    messageType: int,
    content: string,
    goodsId: Option<int>,
    isRead: int,
    isRecalled: int,
    sendTime: int)

  /** What a participant submits to send a message. */
  datatype MessageForm = MessageForm(sessionId: string, receiverId: int, messageType: int, content: string, goodsId: Option<int>)

  /**
   * The errors of the chat service. `NoPermission`, `RecallNotSender` and
   * `AlreadyRecalled` are one exception type with three messages.
   */
  datatype ChatError = SessionNotFound | NoPermission | MessageNotFound | RecallNotSender | AlreadyRecalled | RecallTimeExpired

  datatype ChatOutcome<T> = Done(value: T) | Failed(error: ChatError)

  // ---------------------------------------------------------------------------
  // Session ids
  // ---------------------------------------------------------------------------

  predicate NoUnderscore(s: string) {
    forall i :: 0 <= i < |s| ==> s[i] != '_'
  }

  /** In `a + "_" + b` with no underscore in `a`, the first underscore is at `|a|`. */
  lemma FirstUnderscore(a: string, b: string)
    requires NoUnderscore(a)
    ensures (a + "_" + b)[|a|] == '_' && NoUnderscore((a + "_" + b)[..|a|])
  {
    assert (a + "_" + b)[..|a|] == a;
  }

  /** A string joined at its first underscore splits back into the same two parts. */
  lemma SplitAtUnderscore(a: string, b: string, c: string, d: string)
    requires NoUnderscore(a) && NoUnderscore(c)
    requires a + "_" + b == c + "_" + d
    ensures a == c && b == d
  {
    var s := a + "_" + b;
    FirstUnderscore(a, b);
    FirstUnderscore(c, d);
    assert |a| == |c|;
    assert a == s[..|a|] && c == s[..|c|];
    assert b == s[|a| + 1..] && d == s[|c| + 1..];
  }

  /** What follows the first underscore of a session id: the larger user id, then the goods id if any. */
  function IdTail(hi: int, goodsId: Option<int>): string {
    if goodsId.Some? then LongToString(hi) + "_" + LongToString(goodsId.value) else LongToString(hi)
  }

  /**
   * `generateSessionId`: "min_max" for a chat about no goods item, "min_max_goodsId"
   * otherwise.
   */
  function SessionId(userId1: int, userId2: int, goodsId: Option<int>): (sid: string)
    ensures sid == LongToString(Min(userId1, userId2)) + "_" + IdTail(Max(userId1, userId2), goodsId)
  {
    var prefix := LongToString(Min(userId1, userId2)) + "_" + LongToString(Max(userId1, userId2));
    if goodsId.Some? then prefix + "_" + LongToString(goodsId.value) else prefix
  }

  function Max(a: int, b: int): int { if a >= b then a else b }

  /** Both participants compute the same session id. */
  lemma SessionIdSymmetric(userId1: int, userId2: int, goodsId: Option<int>)
    ensures SessionId(userId1, userId2, goodsId) == SessionId(userId2, userId1, goodsId)
  {
  }

  /** A tail holds an underscore exactly when it names a goods item. */
  lemma IdTailShape(hi: int, g: Option<int>)
    ensures NoUnderscore(IdTail(hi, g)) <==> g.None?
  {
    if g.Some? {
      FirstUnderscore(LongToString(hi), LongToString(g.value));
    }
  }

  lemma IdTailInjective(hi1: int, g: Option<int>, hi2: int, h: Option<int>)
    requires IdTail(hi1, g) == IdTail(hi2, h)
    ensures hi1 == hi2 && g == h
  {
    IdTailShape(hi1, g);
    IdTailShape(hi2, h);
    if g.Some? {
      SplitAtUnderscore(LongToString(hi1), LongToString(g.value), LongToString(hi2), LongToString(h.value));
      LongToStringInjective(hi1, hi2);
      LongToStringInjective(g.value, h.value);
    } else {
      LongToStringInjective(hi1, hi2);
    }
  }

  /**
   * The session id determines the pair of users and the goods item: two ids are equal
   * exactly when the unordered pairs and the goods ids are.
   */
  lemma SessionIdInjective(a1: int, a2: int, g: Option<int>, b1: int, b2: int, h: Option<int>)
    ensures SessionId(a1, a2, g) == SessionId(b1, b2, h) <==>
      Min(a1, a2) == Min(b1, b2) && Max(a1, a2) == Max(b1, b2) && g == h
  {
    if SessionId(a1, a2, g) == SessionId(b1, b2, h) {
      SplitAtUnderscore(LongToString(Min(a1, a2)), IdTail(Max(a1, a2), g), LongToString(Min(b1, b2)), IdTail(Max(b1, b2), h));
      LongToStringInjective(Min(a1, a2), Min(b1, b2));
      IdTailInjective(Max(a1, a2), g, Max(b1, b2), h);
    }
  }

  // ---------------------------------------------------------------------------
  // Sessions and their counters
  // ---------------------------------------------------------------------------

  predicate Participant(s: Session, userId: int) {
    s.user1Id == userId || s.user2Id == userId
  }

  /** A session row stored under the id generated from its own participants and goods item. */
  predicate Keyed(sid: string, s: Session) {
    s.sessionId == sid && s.user1Id <= s.user2Id && sid == SessionId(s.user1Id, s.user2Id, s.goodsId)
  }

  /** The session-existence and participant checks that guard every session operation. */
  function Access(sessions: map<string, Session>, sid: string, userId: int): (r: ChatOutcome<Session>)
    ensures r == Failed(SessionNotFound) <==> sid !in sessions
    ensures r == Failed(NoPermission) <==> sid in sessions && !Participant(sessions[sid], userId)
    ensures r.Done? ==> sid in sessions && r.value == sessions[sid] && Participant(r.value, userId)
  {
    if sid !in sessions then Failed(SessionNotFound)
    else if !Participant(sessions[sid], userId) then Failed(NoPermission)
    else Done(sessions[sid])
  }

  /** `unhideSession`: the user's own hide flag is cleared (both, in a chat with oneself). */
  function Unhide(s: Session, userId: int): Session {
    s.(user1Hide := if s.user1Id == userId then 0 else s.user1Hide,
       user2Hide := if s.user2Id == userId then 0 else s.user2Hide)
  }

  /** `deleteBySessionId`: the session is hidden for the user, nothing is deleted. */
  function Hide(s: Session, userId: int): Session {
    s.(user1Hide := if s.user1Id == userId then 1 else s.user1Hide,
       user2Hide := if s.user2Id == userId then 1 else s.user2Hide)
  }

  /** `incrementUnread`: the receiver's own counter goes up by one. */
  function BumpUnread(s: Session, userId: int): Session {
    s.(user1Unread := if s.user1Id == userId then s.user1Unread + 1 else s.user1Unread,
       user2Unread := if s.user2Id == userId then s.user2Unread + 1 else s.user2Unread)
  }

  /** `clearUnread`: the user's own counter goes to zero. */
  function ClearUnread(s: Session, userId: int): Session {
    s.(user1Unread := if s.user1Id == userId then 0 else s.user1Unread,
       user2Unread := if s.user2Id == userId then 0 else s.user2Unread)
  }

  /** A message addressed to `userId` in session `sid` that is still unread. */
  predicate UnreadFor(m: Message, sid: string, userId: int) {
    m.sessionId == sid && m.receiverId == userId && m.isRead == MESSAGE_UNREAD
  }

  function CountUnread(messages: seq<Message>, sid: string, userId: int): nat
    decreases |messages|
  {
    if messages == [] then 0
    else CountUnread(messages[..|messages| - 1], sid, userId) + (if UnreadFor(messages[|messages| - 1], sid, userId) then 1 else 0)
  }

  /** Each participant's unread counter is the number of unread messages addressed to them. */
  ghost predicate UnreadTrue(sessions: map<string, Session>, messages: seq<Message>) {
    forall sid :: sid in sessions ==>
      && sessions[sid].user1Unread == CountUnread(messages, sid, sessions[sid].user1Id)
      && sessions[sid].user2Unread == CountUnread(messages, sid, sessions[sid].user2Id)
  }

  /** The message log: ids count up from 1, and every message was sent by a participant of a stored session. */
  ghost predicate LogValid(sessions: map<string, Session>, messages: seq<Message>) {
    forall i :: 0 <= i < |messages| ==>
      messages[i].id == i + 1 && messages[i].sessionId in sessions && Participant(sessions[messages[i].sessionId], messages[i].senderId)
  }

  class ChatDb {
    var sessions: map<string, Session>
    var messages: seq<Message>

    ghost predicate Valid()
      reads this
    {
      && (forall sid :: sid in sessions ==> Keyed(sid, sessions[sid]))
      && LogValid(sessions, messages)
    }

    constructor()
      ensures Valid() && sessions == map[] && messages == []
    {
      sessions := map[];
      messages := [];
    }
  }

  /** The `chat:unread:total:{userId}` keys; the service only ever deletes them. */
  class UnreadCache {
    var totals: map<int, int>

    constructor()
      ensures totals == map[]
    {
      totals := map[];
    }
  }

  /** The row `createOrGetSession` inserts: the smaller id first, empty last message, no unread, nothing hidden. */
  function NewSession(currentUserId: int, receiverId: int, goodsId: Option<int>, nowMs: int): (s: Session)
    ensures Keyed(SessionId(currentUserId, receiverId, goodsId), s)
    ensures Participant(s, currentUserId) && Participant(s, receiverId)
    ensures s.user1Unread == 0 && s.user2Unread == 0 && s.user1Hide == 0 && s.user2Hide == 0
  {
    Session(SessionId(currentUserId, receiverId, goodsId), Min(currentUserId, receiverId), Max(currentUserId, receiverId),
            goodsId, "", nowMs, 0, 0, 0, 0, nowMs)
  }

  /**
   * `createOrGetSession`: the generated id; an existing session is unhidden for the
   * current user, a missing one is created.
   */
  method CreateOrGetSession(db: ChatDb, currentUserId: int, receiverId: int, goodsId: Option<int>, nowMs: int)
    returns (sid: string)
    requires db.Valid()
    modifies db
    ensures db.Valid()
    ensures sid == SessionId(currentUserId, receiverId, goodsId)
    ensures sid in old(db.sessions) ==> db.sessions == old(db.sessions)[sid := Unhide(old(db.sessions)[sid], currentUserId)]
    ensures sid !in old(db.sessions) ==> db.sessions == old(db.sessions)[sid := NewSession(currentUserId, receiverId, goodsId, nowMs)]
    ensures db.messages == old(db.messages)
    ensures Participant(db.sessions[sid], currentUserId) && Participant(db.sessions[sid], receiverId)
  {
    sid := SessionId(currentUserId, receiverId, goodsId);
    if sid in db.sessions {
      var s := db.sessions[sid];
      SessionIdInjective(s.user1Id, s.user2Id, s.goodsId, currentUserId, receiverId, goodsId);
      db.sessions := db.sessions[sid := Unhide(s, currentUserId)];
      return;
    }
    db.sessions := db.sessions[sid := NewSession(currentUserId, receiverId, goodsId, nowMs)];
  }

  /** Creating a session adds no unread message and keeps every counter true. */
  lemma CreateKeepsUnreadTrue(sessions: map<string, Session>, messages: seq<Message>, currentUserId: int, receiverId: int,
                              goodsId: Option<int>, nowMs: int)
    requires UnreadTrue(sessions, messages) && LogValid(sessions, messages)
    ensures var sid := SessionId(currentUserId, receiverId, goodsId);
      var after := if sid in sessions then sessions[sid := Unhide(sessions[sid], currentUserId)]
                   else sessions[sid := NewSession(currentUserId, receiverId, goodsId, nowMs)];
      UnreadTrue(after, messages) && LogValid(after, messages)
  {
    var sid := SessionId(currentUserId, receiverId, goodsId);
    if sid !in sessions {
      NoMessagesOfUnknown(sessions, messages, sid, currentUserId);
      NoMessagesOfUnknown(sessions, messages, sid, receiverId);
      var s := NewSession(currentUserId, receiverId, goodsId, nowMs);
      assert s.user1Id == currentUserId || s.user1Id == receiverId;
      assert s.user2Id == currentUserId || s.user2Id == receiverId;
    }
  }

  lemma {:induction false} NoMessagesOfUnknown(sessions: map<string, Session>, messages: seq<Message>, sid: string, userId: int)
    requires LogValid(sessions, messages) && sid !in sessions
    ensures CountUnread(messages, sid, userId) == 0
    decreases |messages|
  {
    if messages != [] {
      var init := messages[..|messages| - 1];
      assert LogValid(sessions, init) by {
        forall i | 0 <= i < |init| ensures init[i] == messages[i] {}
      }
      NoMessagesOfUnknown(sessions, init, sid, userId);
    }
  }

  // ---------------------------------------------------------------------------
  // Messages
  // ---------------------------------------------------------------------------

  /** The message row `sendMessage` inserts: unread, not recalled, sent now. */
  function NewMessage(id: int, senderId: int, form: MessageForm, nowMs: int): (m: Message)
    ensures m.id == id && m.sessionId == form.sessionId && m.senderId == senderId && m.receiverId == form.receiverId
    ensures m.content == form.content && m.isRead == MESSAGE_UNREAD && m.isRecalled == 0 && m.sendTime == nowMs
  {
    Message(id, form.sessionId, senderId, form.receiverId, form.messageType, form.content, form.goodsId, MESSAGE_UNREAD, 0, nowMs)
  }

  /** The session after a message: unhidden for both sides, the message as its last one, the receiver's counter bumped. */
  function AfterSend(s: Session, senderId: int, form: MessageForm, nowMs: int): (r: Session)
    ensures r.lastMessage == form.content && r.lastMessageTime == nowMs
    ensures r.user1Id == s.user1Id && r.user2Id == s.user2Id && r.sessionId == s.sessionId && r.goodsId == s.goodsId
    ensures r.user1Unread == s.user1Unread + (if s.user1Id == form.receiverId then 1 else 0)
    ensures r.user2Unread == s.user2Unread + (if s.user2Id == form.receiverId then 1 else 0)
    ensures r.user1Hide == (if s.user1Id in {senderId, form.receiverId} then 0 else s.user1Hide)
    ensures r.user2Hide == (if s.user2Id in {senderId, form.receiverId} then 0 else s.user2Hide)
  {
    BumpUnread(Unhide(Unhide(s, senderId), form.receiverId).(lastMessage := form.content, lastMessageTime := nowMs), form.receiverId)
  }

  /**
   * `sendMessage`: after the session and participant checks, the message is stored
   * unread, the session takes it as its last message and is unhidden for both sides,
   * the receiver's unread counter goes up and the receiver's unread-total key is
   * deleted. The receiver is taken from the form as given.
   */
  method SendMessage(db: ChatDb, cache: UnreadCache, currentUserId: int, form: MessageForm, nowMs: int)
    returns (r: ChatOutcome<Message>)
    requires db.Valid()
    modifies db, cache
    ensures db.Valid()
    ensures r.Failed? <==> Access(old(db.sessions), form.sessionId, currentUserId).Failed?
    ensures r.Failed? ==>
      r.error == Access(old(db.sessions), form.sessionId, currentUserId).error
      && db.sessions == old(db.sessions) && db.messages == old(db.messages) && cache.totals == old(cache.totals)
    ensures r.Done? ==>
      && r.value == NewMessage(|old(db.messages)| + 1, currentUserId, form, nowMs)
      && db.messages == old(db.messages) + [r.value]
      && db.sessions == old(db.sessions)[form.sessionId := AfterSend(old(db.sessions)[form.sessionId], currentUserId, form, nowMs)]
      && cache.totals == old(cache.totals) - {form.receiverId}
  {
    var access := Access(db.sessions, form.sessionId, currentUserId);
    if access.Failed? {
      return Failed(access.error);
    }
    var m := NewMessage(|db.messages| + 1, currentUserId, form, nowMs);
    var s := AfterSend(access.value, currentUserId, form, nowMs);
    db.sessions := db.sessions[form.sessionId := s];
    db.messages := db.messages + [m];
    cache.totals := cache.totals - {form.receiverId};
    return Done(m);
  }

  lemma CountUnreadAppend(messages: seq<Message>, m: Message, sid: string, userId: int)
    ensures CountUnread(messages + [m], sid, userId) == CountUnread(messages, sid, userId) + if UnreadFor(m, sid, userId) then 1 else 0
  {
    assert (messages + [m])[..|messages|] == messages;
  }

  /** Sending keeps every participant's unread counter equal to the unread messages addressed to them. */
  lemma SendKeepsUnreadTrue(sessions: map<string, Session>, messages: seq<Message>, senderId: int, form: MessageForm, nowMs: int)
    requires UnreadTrue(sessions, messages) && Access(sessions, form.sessionId, senderId).Done?
    ensures var m := NewMessage(|messages| + 1, senderId, form, nowMs);
      UnreadTrue(sessions[form.sessionId := AfterSend(sessions[form.sessionId], senderId, form, nowMs)], messages + [m])
  {
    var m := NewMessage(|messages| + 1, senderId, form, nowMs);
    forall sid, u {
      CountUnreadAppend(messages, m, sid, u);
    }
  }

  /** `markAsRead`: every message of the session addressed to the user becomes read. */
  function MarkRead(messages: seq<Message>, sid: string, userId: int): (r: seq<Message>)
    ensures |r| == |messages|
    ensures forall i :: 0 <= i < |r| ==>
      r[i] == if messages[i].sessionId == sid && messages[i].receiverId == userId then messages[i].(isRead := MESSAGE_READ) else messages[i]
    decreases |messages|
  {
    if messages == [] then []
    else
      var m := messages[|messages| - 1];
      MarkRead(messages[..|messages| - 1], sid, userId)
        + [if m.sessionId == sid && m.receiverId == userId then m.(isRead := MESSAGE_READ) else m]
  }

  /** After marking, the user has no unread message in the session; every other count is unchanged. */
  lemma {:induction false} MarkReadCounts(messages: seq<Message>, sid: string, userId: int, sid2: string, u2: int)
    ensures CountUnread(MarkRead(messages, sid, userId), sid2, u2) ==
      if sid2 == sid && u2 == userId then 0 else CountUnread(messages, sid2, u2)
    decreases |messages|
  {
    if messages != [] {
      var r := MarkRead(messages, sid, userId);
      var init := messages[..|messages| - 1];
      assert r[..|r| - 1] == MarkRead(init, sid, userId);
      MarkReadCounts(init, sid, userId, sid2, u2);
    }
  }

  /** The user's unread messages of the session, in log order. */
  function UnreadOf(messages: seq<Message>, sid: string, userId: int): (r: seq<Message>)
    ensures |r| == CountUnread(messages, sid, userId)
    ensures forall m :: m in r <==> m in messages && UnreadFor(m, sid, userId)
    decreases |messages|
  {
    if messages == [] then []
    else
      var m := messages[|messages| - 1];
      UnreadOf(messages[..|messages| - 1], sid, userId) + (if UnreadFor(m, sid, userId) then [m] else [])
  }

  function AsRead(ms: seq<Message>): (r: seq<Message>)
    ensures |r| == |ms| && forall i :: 0 <= i < |ms| ==> r[i] == ms[i].(isRead := MESSAGE_READ)
  {
    seq(|ms|, i requires 0 <= i < |ms| => ms[i].(isRead := MESSAGE_READ))
  }

  /**
   * `markAsRead` and `markAsReadAndGetMessages`: after the checks, the messages of
   * the session addressed to the user become read, the user's counter is cleared and
   * the user's unread-total key deleted. Returns the messages that were unread, now
   * shown as read.
   */
  method MarkAsRead(db: ChatDb, cache: UnreadCache, currentUserId: int, sid: string) returns (r: ChatOutcome<seq<Message>>)
    requires db.Valid()
    modifies db, cache
    ensures db.Valid()
    ensures r.Failed? <==> Access(old(db.sessions), sid, currentUserId).Failed?
    ensures r.Failed? ==>
      r.error == Access(old(db.sessions), sid, currentUserId).error
      && db.sessions == old(db.sessions) && db.messages == old(db.messages) && cache.totals == old(cache.totals)
    ensures r.Done? ==>
      && r.value == AsRead(UnreadOf(old(db.messages), sid, currentUserId))
      && db.messages == MarkRead(old(db.messages), sid, currentUserId)
      && db.sessions == old(db.sessions)[sid := ClearUnread(old(db.sessions)[sid], currentUserId)]
      && cache.totals == old(cache.totals) - {currentUserId}
  {
    var access := Access(db.sessions, sid, currentUserId);
    if access.Failed? {
      return Failed(access.error);
    }
    var unread := UnreadOf(db.messages, sid, currentUserId);
    var sessions := db.sessions[sid := ClearUnread(access.value, currentUserId)];
    MarkReadKeepsLog(db.sessions, sessions, db.messages, sid, currentUserId);
    db.messages := MarkRead(db.messages, sid, currentUserId);
    db.sessions := sessions;
    cache.totals := cache.totals - {currentUserId};
    return Done(AsRead(unread));
  }

  /** Marking as read changes no id, session or sender, so the log stays valid. */
  lemma MarkReadKeepsLog(sessions: map<string, Session>, after: map<string, Session>, messages: seq<Message>, sid: string, userId: int)
    requires LogValid(sessions, messages)
    requires forall k :: k in sessions ==> k in after && after[k].user1Id == sessions[k].user1Id && after[k].user2Id == sessions[k].user2Id
    ensures LogValid(after, MarkRead(messages, sid, userId))
  {
    var r := MarkRead(messages, sid, userId);
    forall i | 0 <= i < |r|
      ensures r[i].id == i + 1 && r[i].sessionId in after && Participant(after[r[i].sessionId], r[i].senderId)
    {
      assert r[i].id == messages[i].id && r[i].sessionId == messages[i].sessionId && r[i].senderId == messages[i].senderId;
    }
  }

  /** Marking as read keeps every counter true; the reader's counter and unread messages are both zero. */
  lemma MarkKeepsUnreadTrue(sessions: map<string, Session>, messages: seq<Message>, sid: string, userId: int)
    requires UnreadTrue(sessions, messages) && Access(sessions, sid, userId).Done?
    ensures var after := sessions[sid := ClearUnread(sessions[sid], userId)];
      && UnreadTrue(after, MarkRead(messages, sid, userId))
      && CountUnread(MarkRead(messages, sid, userId), sid, userId) == 0
  {
    forall sid2, u2 {
      MarkReadCounts(messages, sid, userId, sid2, u2);
    }
  }

  /** The messages of one session, in log order. */
  function SessionMessages(messages: seq<Message>, sid: string): (r: seq<Message>)
    ensures forall m :: m in r <==> m in messages && m.sessionId == sid
    decreases |messages|
  {
    if messages == [] then []
    else
      var m := messages[|messages| - 1];
      SessionMessages(messages[..|messages| - 1], sid) + (if m.sessionId == sid then [m] else [])
  }

  /** LIMIT offset, n. */
  function Window<T>(s: seq<T>, offset: nat, n: nat): (r: seq<T>)
    ensures |r| == Min(n, |s| - Min(offset, |s|))
    ensures forall j :: 0 <= j < |r| ==> r[j] == s[offset + j]
  {
    var lo := Min(offset, |s|);
    var hi := Min(offset + n, |s|);
    s[lo..hi]
  }

  /** `(page - 1) * pageSize`, with a missing or non-positive page taken as the first. */
  function PageOffset(page: Option<int>, n: nat): nat {
    (NormalizeSize(page, 1) - 1) * n
  }

  /**
   * `listMessages`: after the checks, page `page` (default 1) of `pageSize`
   * (default 50) of the session's messages.
   */
  function ListMessages(sessions: map<string, Session>, messages: seq<Message>, currentUserId: int, sid: string,
                        page: Option<int>, pageSize: Option<int>): (r: ChatOutcome<seq<Message>>)
    ensures r.Failed? <==> Access(sessions, sid, currentUserId).Failed?
    ensures r.Done? ==>
      var all, n := SessionMessages(messages, sid), NormalizeSize(pageSize, DEFAULT_PAGE_SIZE);
      var offset := PageOffset(page, n);
      && |r.value| == Min(n, |all| - Min(offset, |all|))
      && forall j :: 0 <= j < |r.value| ==> r.value[j] == all[offset + j]
  {
    var access := Access(sessions, sid, currentUserId);
    if access.Failed? then Failed(access.error)
    else
      var all, n := SessionMessages(messages, sid), NormalizeSize(pageSize, DEFAULT_PAGE_SIZE);
      var offset := PageOffset(page, n);
      Done(Window(all, offset, n))
  }

  /** Paging covers the session: message `i` is at position `i % n` of page `i / n + 1`. */
  lemma PagesCoverSession(all: seq<Message>, n: nat, i: nat)
    requires n > 0 && i < |all|
    ensures i % n < |Window(all, (i / n) * n, n)| && Window(all, (i / n) * n, n)[i % n] == all[i]
  {
    assert (i / n) * n + i % n == i;
  }

  // ---------------------------------------------------------------------------
  // Hiding and recalling
  // ---------------------------------------------------------------------------

  /** `deleteSession`: after the checks, the session is hidden for the user only. */
  method DeleteSession(db: ChatDb, currentUserId: int, sid: string) returns (r: ChatOutcome<()>)
    requires db.Valid()
    modifies db
    ensures db.Valid()
    ensures r.Failed? <==> Access(old(db.sessions), sid, currentUserId).Failed?
    ensures r.Failed? ==> r.error == Access(old(db.sessions), sid, currentUserId).error && db.sessions == old(db.sessions)
    ensures r.Done? ==> db.sessions == old(db.sessions)[sid := Hide(old(db.sessions)[sid], currentUserId)]
    ensures db.messages == old(db.messages)
  {
    var access := Access(db.sessions, sid, currentUserId);
    if access.Failed? {
      return Failed(access.error);
    }
    db.sessions := db.sessions[sid := Hide(access.value, currentUserId)];
    return Done(());
  }

  /** `getById` over the log. */
  function MessageById(messages: seq<Message>, id: int): (r: Option<Message>)
    ensures r.Some? <==> 1 <= id <= |messages|
    ensures r.Some? ==> r.value == messages[id - 1]
  {
    if 1 <= id <= |messages| then Some(messages[id - 1]) else None
  }

  /** The recall checks, in order: the message exists, the user sent it, it is not recalled, at most two minutes passed. */
  function RecallError(messages: seq<Message>, userId: int, id: int, nowMs: int): Option<ChatError>
  {
    var m := MessageById(messages, id);
    if m.None? then Some(MessageNotFound)
    else if m.value.senderId != userId then Some(RecallNotSender)
    else if m.value.isRecalled == 1 then Some(AlreadyRecalled)
    else if nowMs - m.value.sendTime > RECALL_TIME_LIMIT then Some(RecallTimeExpired)
    else None
  }

  /**
   * A recall goes through exactly for the sender's own, not yet recalled message
   * sent at most two minutes ago (counting from the sending time, both in milliseconds).
   */
  lemma RecallErrorMeaning(messages: seq<Message>, userId: int, id: int, nowMs: int)
    ensures RecallError(messages, userId, id, nowMs).None? <==>
      1 <= id <= |messages| && messages[id - 1].senderId == userId && messages[id - 1].isRecalled != 1
      && nowMs <= messages[id - 1].sendTime + 120000
  {
  }

  /** The last-message text after a recall: the notice, only if the session still shows that message's content. */
  function AfterRecall(s: Session, m: Message, nowMs: int): Session {
    if s.lastMessage == m.content then s.(lastMessage := RECALLED_NOTICE, lastMessageTime := nowMs) else s
  }

  /**
   * `recallMessage`: after the checks, the message is flagged recalled and its
   * session's last message replaced by the notice when it equals the content.
   * Returns the message as it was read before the update.
   */
  method RecallMessage(db: ChatDb, currentUserId: int, messageId: int, nowMs: int) returns (r: ChatOutcome<Message>)
    requires db.Valid()
    modifies db
    ensures db.Valid()
    ensures var err := RecallError(old(db.messages), currentUserId, messageId, nowMs);
      && (err.Some? ==> r == Failed(err.value) && db.sessions == old(db.sessions) && db.messages == old(db.messages))
      && (err.None? ==> var m := old(db.messages)[messageId - 1];
            && r == Done(m)
            && db.messages == old(db.messages)[messageId - 1 := m.(isRecalled := 1)]
            && db.sessions == (if m.sessionId in old(db.sessions)
                               then old(db.sessions)[m.sessionId := AfterRecall(old(db.sessions)[m.sessionId], m, nowMs)]
                               else old(db.sessions)))
  {
    var err := RecallError(db.messages, currentUserId, messageId, nowMs);
    if err.Some? {
      return Failed(err.value);
    }
    var m := db.messages[messageId - 1];
    db.messages := db.messages[messageId - 1 := m.(isRecalled := 1)];
    if m.sessionId in db.sessions {
      db.sessions := db.sessions[m.sessionId := AfterRecall(db.sessions[m.sessionId], m, nowMs)];
    }
    return Done(m);
  }

  lemma {:induction false} CountUnreadPointwise(ms: seq<Message>, ns: seq<Message>, sid: string, userId: int)
    requires |ms| == |ns|
    requires forall i :: 0 <= i < |ms| ==> (UnreadFor(ms[i], sid, userId) <==> UnreadFor(ns[i], sid, userId))
    ensures CountUnread(ms, sid, userId) == CountUnread(ns, sid, userId)
    decreases |ms|
  {
    if ms != [] {
      CountUnreadPointwise(ms[..|ms| - 1], ns[..|ns| - 1], sid, userId);
    }
  }

  /** A recall changes no read flag and no counter, so every counter stays true. */
  lemma RecallKeepsUnreadTrue(sessions: map<string, Session>, messages: seq<Message>, i: nat, nowMs: int)
    requires UnreadTrue(sessions, messages) && i < |messages|
    ensures var m := messages[i];
      var after := if m.sessionId in sessions then sessions[m.sessionId := AfterRecall(sessions[m.sessionId], m, nowMs)] else sessions;
      UnreadTrue(after, messages[i := m.(isRecalled := 1)])
  {
    forall sid, u {
      CountUnreadPointwise(messages, messages[i := messages[i].(isRecalled := 1)], sid, u);
    }
  }

  // ---------------------------------------------------------------------------
  // The session view
  // ---------------------------------------------------------------------------

  datatype SessionView = SessionView(
    sessionId: string,
    otherUserId: int,
    goodsId: Option<int>,
    lastMessage: string,
    lastMessageTime: int,
    unreadCount: int)

  /** `buildChatSessionVO`: the other participant, and the viewer's own unread counter. */
  function SessionViewOf(s: Session, currentUserId: int): (v: SessionView)
    ensures Participant(s, currentUserId) ==>
      ({currentUserId, v.otherUserId} == {s.user1Id, s.user2Id})
    ensures v.unreadCount == if s.user1Id == currentUserId then s.user1Unread else s.user2Unread
  {
    var other := if s.user1Id == currentUserId then s.user2Id else s.user1Id;
    SessionView(s.sessionId, other, s.goodsId, s.lastMessage, s.lastMessageTime,
                if s.user1Id == currentUserId then s.user1Unread else s.user2Unread)
  }

  /** While the counters are true, a participant's view shows the number of unread messages addressed to them. */
  lemma ViewShowsUnread(sessions: map<string, Session>, messages: seq<Message>, sid: string, userId: int)
    requires UnreadTrue(sessions, messages) && sid in sessions && Participant(sessions[sid], userId)
    ensures SessionViewOf(sessions[sid], userId).unreadCount == CountUnread(messages, sid, userId)
  {
  }
}
