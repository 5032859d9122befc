/**
 * User accounts: registration, login, password change, ban and unban, and the
 * administrator's cursor-paged user list, which reads ids from the `user:list:ids`
 * sorted set (scored by registration time) and user cards from `user:card:{id}`,
 * falling back to the user table.
 *
 * The user table's unique account index is the `byAccount` map. SQL string
 * comparison is modelled as exact equality.
 */
module UserService {
  import opened Common
  import opened ZSet
  import opened IndexKeys
  import opened ListingIndex

  /** Account status: 0 banned, 1 enabled. */
  const BANNED := 0
  const ENABLED := 1

  // Card lifetime in minutes, plus a jitter drawn from [0, 5); the list index lives 60 minutes.
  const USER_CARD_TTL := 30
  const USER_CARD_TTL_RANDOM := 5
  const USER_LIST_IDS_TTL := 60

  /** A row of the user table; `createTime` is in epoch milliseconds. */
  datatype User = User(
    id: int,
    accountNum: string,
    password: string,
    email: Option<string>,
    phone: Option<string>,
    nickname: Option<string>,
    status: int,
    createTime: int)

  /** The card the user list shows. */
  datatype UserCard = UserCard(
    id: int,
    accountNum: string,
    nickname: Option<string>,
    email: Option<string>,
    phone: Option<string>,
    status: int,
    createTimeTimestamp: int)

  /** What a registration submits. */
  datatype RegisterForm = RegisterForm(
    accountNum: string,
    password: string,
    email: Option<string>,
    phone: Option<string>,
    nickname: Option<string>)

  datatype UserError = AccountExists | AccountNotFound | PasswordError | AccountBanned | DuplicateContact

  datatype UserResult<T> = Ok(value: T) | Err(error: UserError)

  function UserCardOf(u: User): (c: UserCard)
    ensures c.id == u.id && c.status == u.status && c.createTimeTimestamp == u.createTime
  {
    UserCard(u.id, u.accountNum, u.nickname, u.email, u.phone, u.status, u.createTime)
  }

  /** The unique account index matches the table: each user is found under its own account, and only there. */
  ghost predicate Indexed(users: map<int, User>, byAccount: map<string, int>) {
    && (forall a :: a in byAccount ==> byAccount[a] in users && users[byAccount[a]].accountNum == a)
    && (forall id :: id in users ==> users[id].accountNum in byAccount && byAccount[users[id].accountNum] == id)
  }

  /** The user table with its unique account index and the next auto-increment id. */
  class UserDb {
    var users: map<int, User>
    var byAccount: map<string, int>
    var nextId: int

    ghost predicate Valid()
      reads this
    {
      && (forall id :: id in users ==> users[id].id == id && id < nextId && users[id].createTime >= 0)
      && Indexed(users, byAccount)
    }

    constructor()
      ensures Valid() && users == map[] && byAccount == map[]
    {
      users := map[];
      byAccount := map[];
      nextId := 1;
    }
  }

  /** The `user:card:{id}` keys, with the TTL (minutes) of each. */
  class UserCardCache {
    var cards: map<int, UserCard>
    var ttl: map<int, int>

    ghost predicate Valid()
      reads this
    {
      && (forall id :: id in cards ==> cards[id].id == id)
      && ttl.Keys == cards.Keys
      && (forall id :: id in ttl ==> USER_CARD_TTL <= ttl[id] < USER_CARD_TTL + USER_CARD_TTL_RANDOM)
    }

    constructor()
      ensures Valid() && cards == map[] && ttl == map[]
    {
      cards := map[];
      ttl := map[];
    }

    method Put(c: UserCard, minutes: int)
      requires Valid() && USER_CARD_TTL <= minutes < USER_CARD_TTL + USER_CARD_TTL_RANDOM
      modifies this
      ensures Valid()
      ensures cards == old(cards)[c.id := c] && ttl == old(ttl)[c.id := minutes]
    {
      cards := cards[c.id := c];
      ttl := ttl[c.id := minutes];
    }

    /** `clearUserCardCache`. */
    method Evict(id: int)
      requires Valid()
      modifies this
      ensures Valid()
      ensures cards == old(cards) - {id} && ttl == old(ttl) - {id}
    {
      cards := cards - {id};
      ttl := ttl - {id};
    }
  }

  // ---------------------------------------------------------------------------
  // Accounts
  // ---------------------------------------------------------------------------

  /** `findByAcc`. */
  function FindByAcc(users: map<int, User>, byAccount: map<string, int>, acc: string): (r: Option<User>)
    ensures r.Some? ==> r.value in users.Values && r.value.accountNum == acc
  {
    if acc in byAccount && byAccount[acc] in users && users[byAccount[acc]].accountNum == acc
    then Some(users[byAccount[acc]]) else None
  }

  /** `findByAcc_Pss`: the account's row, when the password matches. */
  function FindByAccPassword(users: map<int, User>, byAccount: map<string, int>, acc: string, password: string): (r: Option<User>)
    ensures r.Some? ==> r.value in users.Values && r.value.accountNum == acc && r.value.password == password
  {
    var u := FindByAcc(users, byAccount, acc);
    if u.Some? && u.value.password == password then u else None
  }

  /** `login`: unknown account, then wrong password, then a banned account; else the user. */
  function Login(users: map<int, User>, byAccount: map<string, int>, acc: string, password: string): (r: UserResult<User>)
    ensures r.Ok? ==> r.value in users.Values && r.value.accountNum == acc && r.value.password == password && r.value.status != BANNED
  {
    if FindByAcc(users, byAccount, acc).None? then Err(AccountNotFound)
    else
      var u := FindByAccPassword(users, byAccount, acc, password);
      if u.None? then Err(PasswordError)
      else if u.value.status == BANNED then Err(AccountBanned)
      else Ok(u.value)
  }

  /**
   * Login in terms of the table alone: not found exactly when no user has the
   * account; a password error exactly when the account's user has another password;
   * banned exactly when the password matches and the account is banned; success
   * for every other case.
   */
  lemma LoginMeaning(users: map<int, User>, byAccount: map<string, int>, acc: string, password: string)
    requires Indexed(users, byAccount)
    ensures var r := Login(users, byAccount, acc, password);
      && (r == Err(AccountNotFound) <==> forall id :: id in users ==> users[id].accountNum != acc)
      && (r == Err(PasswordError) <==> exists id :: id in users && users[id].accountNum == acc && users[id].password != password)
      && (r == Err(AccountBanned) <==>
            exists id :: id in users && users[id].accountNum == acc && users[id].password == password && users[id].status == BANNED)
      && (r.Ok? <==>
            exists id :: id in users && users[id].accountNum == acc && users[id].password == password && users[id].status != BANNED)
  {
    if acc in byAccount {
      var id := byAccount[acc];
      assert id in users && users[id].accountNum == acc;
      forall j | j in users && users[j].accountNum == acc ensures j == id {
      }
    }
  }

  /** Blank means every character is whitespace or a control character (what Java's `trim` removes). */
  predicate Blank(s: string) {
    forall i :: 0 <= i < |s| ==> s[i] <= ' '
  }

  /** A blank email or phone is stored as NULL. */
  function NullIfBlank(s: Option<string>): (r: Option<string>)
    ensures r.Some? ==> s == r && !Blank(r.value)
    ensures s.Some? && !Blank(s.value) ==> r == s
  {
    if s.Some? && Blank(s.value) then None else s
  }

  /** The row `register` inserts: enabled, created now, blanks nulled. */
  function Registered(id: int, form: RegisterForm, nowMs: int): (u: User)
    ensures u.id == id && u.accountNum == form.accountNum && u.password == form.password
    ensures u.status == ENABLED && u.createTime == nowMs
    ensures u.email == NullIfBlank(form.email) && u.phone == NullIfBlank(form.phone)
  {
    User(id, form.accountNum, form.password, NullIfBlank(form.email), NullIfBlank(form.phone), form.nickname, ENABLED, nowMs)
  }

  /** Some user already holds this (non-null) email or this (non-null) phone. */
  predicate ContactTaken(users: map<int, User>, email: Option<string>, phone: Option<string>) {
    exists k :: k in users && ((email.Some? && users[k].email == email) || (phone.Some? && users[k].phone == phone))
  }

  /** No two users share a non-null email or a non-null phone: the table's unique keys. */
  ghost predicate ContactsUnique(users: map<int, User>) {
    forall a, b :: a in users && b in users && a != b ==>
      (users[a].email.None? || users[a].email != users[b].email) &&
      (users[a].phone.None? || users[a].phone != users[b].phone)
  }

  /** An insert the unique keys admit keeps them unique. */
  lemma RegisterKeepsContactsUnique(users: map<int, User>, id: int, form: RegisterForm, nowMs: int)
    requires ContactsUnique(users) && id !in users
    requires !ContactTaken(users, NullIfBlank(form.email), NullIfBlank(form.phone))
    ensures ContactsUnique(users[id := Registered(id, form, nowMs)])
  {
    var u := Registered(id, form, nowMs);
    var users' := users[id := u];
    forall a, b | a in users' && b in users' && a != b
      ensures (users'[a].email.None? || users'[a].email != users'[b].email) &&
              (users'[a].phone.None? || users'[a].phone != users'[b].phone)
    {
      if a == id {
        assert !((u.email.Some? && users[b].email == u.email) || (u.phone.Some? && users[b].phone == u.phone));
      } else if b == id {
        assert !((u.email.Some? && users[a].email == u.email) || (u.phone.Some? && users[a].phone == u.phone));
      }
    }
  }

  /**
   * `register`: an account already taken is AccountExists and nothing is written.
   * An email or phone (blanks nulled) another user holds makes the insert break the
   * table's unique keys: DuplicateContact, nothing written. Otherwise a new row under
   * a fresh id, which joins the user-list index (if it exists) scored by the clock.
   */
  method Register(db: UserDb, idx: IndexStore, form: RegisterForm, nowMs: int) returns (r: UserResult<User>)
    requires db.Valid() && idx.Valid() && nowMs >= 0
    modifies db, idx
    ensures db.Valid() && idx.Valid()
    ensures FindByAcc(old(db.users), old(db.byAccount), form.accountNum).Some? ==>
      && r == Err(AccountExists)
      && db.users == old(db.users) && db.byAccount == old(db.byAccount) && idx.sets == old(idx.sets)
    ensures FindByAcc(old(db.users), old(db.byAccount), form.accountNum).None? &&
            ContactTaken(old(db.users), NullIfBlank(form.email), NullIfBlank(form.phone)) ==>
      && r == Err(DuplicateContact)
      && db.users == old(db.users) && db.byAccount == old(db.byAccount) && idx.sets == old(idx.sets)
    ensures FindByAcc(old(db.users), old(db.byAccount), form.accountNum).None? &&
            !ContactTaken(old(db.users), NullIfBlank(form.email), NullIfBlank(form.phone)) ==>
      && r == Ok(Registered(old(db.nextId), form, nowMs))
      && r.value.id !in old(db.users)
      && db.users == old(db.users)[r.value.id := r.value]
      && db.byAccount == old(db.byAccount)[form.accountNum := r.value.id]
      && idx.sets == Upsert(old(idx.sets), UserListIndex, r.value.id, nowMs)
    ensures idx.ttl == old(idx.ttl)
  {
    if FindByAcc(db.users, db.byAccount, form.accountNum).Some? {
      return Err(AccountExists);
    }
    if ContactTaken(db.users, NullIfBlank(form.email), NullIfBlank(form.phone)) {
      return Err(DuplicateContact);
    }
    var u := Registered(db.nextId, form, nowMs);
    db.users := db.users[u.id := u];
    db.byAccount := db.byAccount[u.accountNum := u.id];
    db.nextId := db.nextId + 1;
    idx.AddIfExists(UserListIndex, u.id, nowMs);
    return Ok(u);
  }

  /** A user just registered can log in with the account and password submitted. */
  lemma RegisterThenLogin(users: map<int, User>, byAccount: map<string, int>, id: int, form: RegisterForm, nowMs: int)
    requires Indexed(users, byAccount) && id !in users
    requires FindByAcc(users, byAccount, form.accountNum).None?
    ensures var u := Registered(id, form, nowMs);
      Login(users[id := u], byAccount[form.accountNum := id], form.accountNum, form.password) == Ok(u)
  {
  }

  /**
   * `updatePassword`: an unknown user is AccountNotFound, a wrong old password is
   * PasswordError, and in both cases nothing changes; otherwise only the password changes.
   */
  method UpdatePassword(db: UserDb, userId: int, oldPassword: string, newPassword: string) returns (r: UserResult<()>)
    requires db.Valid()
    modifies db
    ensures db.Valid()
    ensures r == if userId !in old(db.users) then Err(AccountNotFound)
                 else if old(db.users)[userId].password != oldPassword then Err(PasswordError)
                 else Ok(())
    ensures r.Err? ==> db.users == old(db.users)
    ensures r.Ok? ==> db.users == old(db.users)[userId := old(db.users)[userId].(password := newPassword)]
    ensures db.byAccount == old(db.byAccount) && db.nextId == old(db.nextId)
  {
    if userId !in db.users {
      return Err(AccountNotFound);
    }
    if db.users[userId].password != oldPassword {
      return Err(PasswordError);
    }
    db.users := db.users[userId := db.users[userId].(password := newPassword)];
    return Ok(());
  }

  /**
   * After a password change the account logs in with the new password exactly as
   * it did with the old one, and the old password (if different) is refused.
   */
  lemma PasswordChangeMovesLogin(users: map<int, User>, byAccount: map<string, int>, id: int, oldPassword: string, newPassword: string)
    requires Indexed(users, byAccount) && id in users && users[id].password == oldPassword
    ensures var after := users[id := users[id].(password := newPassword)];
      var acc := users[id].accountNum;
      && Indexed(after, byAccount)
      && Login(after, byAccount, acc, newPassword) == (
           if users[id].status == BANNED then Err(AccountBanned) else Ok(after[id]))
      && (oldPassword != newPassword ==> Login(after, byAccount, acc, oldPassword) == Err(PasswordError))
  {
    var after := users[id := users[id].(password := newPassword)];
    assert byAccount[users[id].accountNum] == id;
    forall a | a in byAccount ensures byAccount[a] in after && after[byAccount[a]].accountNum == a {
    }
  }

  /**
   * `banUser` (status 0) and `unbanUser` (status 1): an unknown user is
   * AccountNotFound; otherwise the status is set and only that user's card is evicted.
   */
  method SetUserStatus(db: UserDb, cards: UserCardCache, userId: int, status: int) returns (r: UserResult<()>)
    requires status == BANNED || status == ENABLED
    requires db.Valid() && cards.Valid()
    modifies db, cards
    ensures db.Valid() && cards.Valid()
    ensures r == if userId in old(db.users) then Ok(()) else Err(AccountNotFound)
    ensures r.Err? ==> db.users == old(db.users) && cards.cards == old(cards.cards)
    ensures r.Ok? ==>
      && db.users == old(db.users)[userId := old(db.users)[userId].(status := status)]
      && cards.cards == old(cards.cards) - {userId} && cards.ttl == old(cards.ttl) - {userId}
    ensures db.byAccount == old(db.byAccount) && db.nextId == old(db.nextId)
  {
    if userId !in db.users {
      return Err(AccountNotFound);
    }
    db.users := db.users[userId := db.users[userId].(status := status)];
    cards.Evict(userId);
    return Ok(());
  }

  /** A banned user cannot log in, even with the right password; unbanned, the same user can. */
  lemma BanBlocksLogin(users: map<int, User>, byAccount: map<string, int>, id: int)
    requires Indexed(users, byAccount) && id in users
    ensures var u := users[id];
      && Login(users[id := u.(status := BANNED)], byAccount, u.accountNum, u.password) == Err(AccountBanned)
      && Login(users[id := u.(status := ENABLED)], byAccount, u.accountNum, u.password) == Ok(u.(status := ENABLED))
  {
    assert byAccount[users[id].accountNum] == id;
  }

  // ---------------------------------------------------------------------------
  // The user list
  // ---------------------------------------------------------------------------

  /** The (id, createTime) rows `getAllUserIdsWithTime` reads: every user, banned or not. */
  function UserRows(users: map<int, User>): (rows: map<int, int>)
    ensures rows.Keys == users.Keys
    ensures forall id :: id in rows ==> rows[id] == users[id].createTime
  {
    map id | id in users :: users[id].createTime
  }

  /** Every id in the user-list index is a user, scored by its registration time. */
  ghost predicate Agrees(sets: map<IndexKey, seq<Entry>>, users: map<int, User>) {
    var c := Contents(sets, UserListIndex);
    forall id :: id in c ==> id in users && c[id] == users[id].createTime
  }

  /** The user-list index holds every user, each scored by its registration time. */
  ghost predicate Complete(sets: map<IndexKey, seq<Entry>>, users: map<int, User>) {
    UserListIndex in sets && Contents(sets, UserListIndex) == UserRows(users)
  }

  /** Registration keeps the index agreeing with the table, and keeps a complete index complete. */
  lemma RegisterKeepsIndex(sets: map<IndexKey, seq<Entry>>, users: map<int, User>, u: User)
    requires WellFormed(sets) && u.id !in users
    ensures Agrees(sets, users) ==> Agrees(Upsert(sets, UserListIndex, u.id, u.createTime), users[u.id := u])
    ensures Complete(sets, users) ==> Complete(Upsert(sets, UserListIndex, u.id, u.createTime), users[u.id := u])
  {
    UpsertContents(sets, UserListIndex, u.id, u.createTime, UserListIndex);
    if Complete(sets, users) {
      var after := Upsert(sets, UserListIndex, u.id, u.createTime);
      assert Contents(after, UserListIndex) == UserRows(users)[u.id := u.createTime];
      var want := UserRows(users)[u.id := u.createTime];
      assert forall x :: x in UserRows(users[u.id := u]) <==> x in want;
    }
  }

  /** A rebuild over an agreeing index leaves it complete (when there is any user). */
  lemma RebuildCompletesIndex(sets: map<IndexKey, seq<Entry>>, users: map<int, User>)
    requires WellFormed(sets) && Agrees(sets, users) && users != map[]
    ensures Complete(Rebuilt(sets, UserListIndex, UserRows(users)), users)
  {
    var rows := UserRows(users);
    RebuiltContents(sets, UserListIndex, rows, UserListIndex);
    var after := Contents(Rebuilt(sets, UserListIndex, rows), UserListIndex);
    assert rows != map[] by {
      assert (forall x :: x !in users) ==> users == map[];
      var some :| some in users;
      assert some in rows;
    }
    assert forall x :: x in after <==> x in rows;
  }

  /** The ids of the database page: users created before the cursor, latest first, at most `count`. */
  ghost function DbUserIds(users: map<int, User>, cursor: int, count: nat): seq<int>
  {
    RevRangeByScore(SortedFrom(UserRows(users)), 0, cursor - 1, count)
  }

  /** A complete index answers every lookup exactly as the database page does. */
  lemma CompleteIndexMatchesDatabase(sets: map<IndexKey, seq<Entry>>, users: map<int, User>, cursor: int, count: nat)
    requires WellFormed(sets) && Complete(sets, users)
    ensures LookupIds(sets, UserListIndex, cursor, count) == Some(DbUserIds(users, cursor, count))
  {
    SameScoresSameSet(sets[UserListIndex], SortedFrom(UserRows(users)));
  }

  /** The cards of `ids` in their order: the cached card, else the table's, else nothing. */
  function ResolveUsers(cached: map<int, UserCard>, users: map<int, User>, ids: seq<int>): seq<UserCard>
    decreases |ids|
  {
    if ids == [] then []
    else
      var rest := ResolveUsers(cached, users, ids[..|ids| - 1]);
      var last := ids[|ids| - 1];
      if last in cached then rest + [cached[last]]
      else if last in users then rest + [UserCardOf(users[last])]
      else rest
  }

  function UserIdsOf(cs: seq<UserCard>): (ids: seq<int>)
    ensures |ids| == |cs|
  {
    seq(|cs|, i requires 0 <= i < |cs| => cs[i].id)
  }

  /**
   * When every id is cached or in the table and each cached card sits under its
   * own id, resolution keeps every id, in order; each card is the cached one or the
   * table's current one.
   */
  lemma {:induction false} ResolveUsersMeaning(cached: map<int, UserCard>, users: map<int, User>, ids: seq<int>)
    requires forall x :: x in cached ==> cached[x].id == x
    requires forall x :: x in users ==> users[x].id == x
    ensures (forall x :: x in ids ==> x in cached || x in users) ==> UserIdsOf(ResolveUsers(cached, users, ids)) == ids
    ensures forall c :: c in ResolveUsers(cached, users, ids) ==>
      c.id in ids && (c.id in cached ==> c == cached[c.id]) && (c.id !in cached ==> c.id in users && c == UserCardOf(users[c.id]))
  {
    if forall x :: x in ids ==> x in cached || x in users {
      ResolveUsersKeepsIds(cached, users, ids);
    }
    ResolveUsersCards(cached, users, ids);
  }

  lemma {:induction false} ResolveUsersKeepsIds(cached: map<int, UserCard>, users: map<int, User>, ids: seq<int>)
    requires forall x :: x in cached ==> cached[x].id == x
    requires forall x :: x in users ==> users[x].id == x
    requires forall x :: x in ids ==> x in cached || x in users
    ensures UserIdsOf(ResolveUsers(cached, users, ids)) == ids
    decreases |ids|
  {
    if ids != [] {
      var init, last := ids[..|ids| - 1], ids[|ids| - 1];
      assert forall x :: x in init ==> x in ids;
      ResolveUsersKeepsIds(cached, users, init);
      var card := if last in cached then cached[last] else UserCardOf(users[last]);
      assert ResolveUsers(cached, users, ids) == ResolveUsers(cached, users, init) + [card];
      UserIdsOfAppend(ResolveUsers(cached, users, init), card);
      assert ids == init + [last];
    }
  }

  lemma UserIdsOfAppend(cs: seq<UserCard>, c: UserCard)
    ensures UserIdsOf(cs + [c]) == UserIdsOf(cs) + [c.id]
  {
  }

  lemma {:induction false} ResolveUsersCards(cached: map<int, UserCard>, users: map<int, User>, ids: seq<int>)
    requires forall x :: x in cached ==> cached[x].id == x
    requires forall x :: x in users ==> users[x].id == x
    ensures forall c :: c in ResolveUsers(cached, users, ids) ==>
      c.id in ids && (c.id in cached ==> c == cached[c.id]) && (c.id !in cached ==> c.id in users && c == UserCardOf(users[c.id]))
    decreases |ids|
  {
    if ids != [] {
      var init := ids[..|ids| - 1];
      ResolveUsersCards(cached, users, init);
      assert forall x :: x in init ==> x in ids;
    }
  }

  /** The cards a read-through writes: every requested id missed in the cache that has a row. */
  function MissUserCards(cached: map<int, UserCard>, users: map<int, User>, ids: seq<int>): map<int, UserCard>
  {
    map id | id in ids && id !in cached && id in users :: UserCardOf(users[id])
  }

  /** The card of each resolvable id of `ids`. */
  function ResolvedUserMap(cached: map<int, UserCard>, users: map<int, User>, ids: seq<int>): map<int, UserCard>
  {
    map id | id in ids && (id in cached || id in users) :: if id in cached then cached[id] else UserCardOf(users[id])
  }

  /** The TTL (minutes) a user card write sets: the base TTL plus the jitter drawn for that id. */
  function UserCardMinutes(jitter: int -> int, id: int): (m: int)
    ensures UserJitterOk(jitter) ==> USER_CARD_TTL <= m < USER_CARD_TTL + USER_CARD_TTL_RANDOM
  {
    USER_CARD_TTL + jitter(id)
  }

  /** The TTLs a write of the given card keys sets. */
  function UserCardTtls(keys: set<int>, jitter: int -> int): map<int, int>
  {
    map id | id in keys :: UserCardMinutes(jitter, id)
  }

  ghost predicate UserJitterOk(jitter: int -> int) {
    forall id :: 0 <= jitter(id) < USER_CARD_TTL_RANDOM
  }

  lemma UserCardTtlsStep(keys: set<int>, id: int, jitter: int -> int)
    ensures UserCardTtls(keys + {id}, jitter) == UserCardTtls(keys, jitter)[id := UserCardMinutes(jitter, id)]
  {
    var l := UserCardTtls(keys + {id}, jitter);
    var r := UserCardTtls(keys, jitter)[id := UserCardMinutes(jitter, id)];
    assert forall x :: x in l <==> x in r;
  }

  /** The cards the user table holds for `ids`. */
  function TableUserCards(users: map<int, User>, ids: seq<int>): map<int, UserCard>
  {
    map id | id in ids && id in users :: UserCardOf(users[id])
  }

  lemma TableUserCardsStep(users: map<int, User>, ids: seq<int>, id: int)
    ensures TableUserCards(users, ids + [id]) ==
      if id in users then TableUserCards(users, ids)[id := UserCardOf(users[id])] else TableUserCards(users, ids)
  {
    var l := TableUserCards(users, ids + [id]);
    var r := if id in users then TableUserCards(users, ids)[id := UserCardOf(users[id])] else TableUserCards(users, ids);
    assert forall x :: x in l <==> x in r;
  }

  /** Steps 1-3 of `getUserCardsFromCacheOrDB`: the multi-get, split into hits and missed ids. */
  method ProbeUserCards(cards: UserCardCache, ids: seq<int>) returns (hits: map<int, UserCard>, missIds: seq<int>)
    ensures forall x :: x in hits <==> x in ids && x in cards.cards
    ensures forall x :: x in hits ==> hits[x] == cards.cards[x]
    ensures forall x :: x in missIds <==> x in ids && x !in cards.cards
  {
    hits, missIds := map[], [];
    var i := 0;
    while i < |ids|
      invariant 0 <= i <= |ids|
      invariant forall x :: x in hits <==> x in ids[..i] && x in cards.cards
      invariant forall x :: x in hits ==> hits[x] == cards.cards[x]
      invariant forall x :: x in missIds <==> x in ids[..i] && x !in cards.cards
    {
      assert ids[..i + 1] == ids[..i] + [ids[i]];
      var id := ids[i];
      if id in cards.cards {
        hits := hits[id := cards.cards[id]];
      } else {
        missIds := missIds + [id];
      }
      i := i + 1;
    }
    assert ids[..i] == ids;
  }

  /** Step 4: the missed ids are read from the table; each card found is kept and cached with a jittered TTL. */
  method FillUserMisses(cards: UserCardCache, db: UserDb, missIds: seq<int>, hits: map<int, UserCard>, jitter: int -> int)
    returns (found: map<int, UserCard>)
    requires cards.Valid() && db.Valid() && UserJitterOk(jitter)
    modifies cards
    ensures cards.Valid()
    ensures found == hits + TableUserCards(db.users, missIds)
    ensures cards.cards == old(cards.cards) + TableUserCards(db.users, missIds)
    ensures cards.ttl == old(cards.ttl) + UserCardTtls(TableUserCards(db.users, missIds).Keys, jitter)
  {
    ghost var cached0, ttl0 := cards.cards, cards.ttl;
    found := hits;
    var j := 0;
    while j < |missIds|
      invariant 0 <= j <= |missIds|
      invariant cards.Valid()
      invariant found == hits + TableUserCards(db.users, missIds[..j])
      invariant cards.cards == cached0 + TableUserCards(db.users, missIds[..j])
      invariant cards.ttl == ttl0 + UserCardTtls(TableUserCards(db.users, missIds[..j]).Keys, jitter)
    {
      var id := missIds[j];
      assert missIds[..j + 1] == missIds[..j] + [id];
      TableUserCardsStep(db.users, missIds[..j], id);
      if id in db.users {
        var vo := UserCardOf(db.users[id]);
        var before := TableUserCards(db.users, missIds[..j]);
        UserCardTtlsStep(before.Keys, id, jitter);
        assert before[id := vo].Keys == before.Keys + {id};
        UpdateUnion(hits, before, id, vo);
        UpdateUnion(cached0, before, id, vo);
        UpdateUnion(ttl0, UserCardTtls(before.Keys, jitter), id, UserCardMinutes(jitter, id));
        found := found[id := vo];
        cards.Put(vo, UserCardMinutes(jitter, id));
      }
      j := j + 1;
    }
    assert missIds[..j] == missIds;
  }

  /** Step 5: the cards found, in the order of `ids`, skipping ids with no card. */
  method UsersInIdOrder(ghost cached: map<int, UserCard>, users: map<int, User>, found: map<int, UserCard>, ids: seq<int>)
    returns (list: seq<UserCard>)
    requires found == ResolvedUserMap(cached, users, ids)
    ensures list == ResolveUsers(cached, users, ids)
  {
    list := [];
    var k := 0;
    while k < |ids|
      invariant 0 <= k <= |ids|
      invariant list == ResolveUsers(cached, users, ids[..k])
    {
      assert ids[..k + 1][..k] == ids[..k];
      var id := ids[k];
      if id in found {
        list := list + [found[id]];
      }
      k := k + 1;
    }
    assert ids[..k] == ids;
  }

  /**
   * `getUserCardsFromCacheOrDB`: the cards of `ids` in their order (cache first, then
   * the table; ids found in neither are dropped); each card read from the table is
   * cached for 30 to 34 minutes.
   */
  method UserCardsFromCacheOrDb(cards: UserCardCache, db: UserDb, ids: seq<int>, jitter: int -> int)
    returns (result: seq<UserCard>)
    requires cards.Valid() && db.Valid() && UserJitterOk(jitter)
    modifies cards
    ensures cards.Valid()
    ensures result == ResolveUsers(old(cards.cards), db.users, ids)
    ensures cards.cards == old(cards.cards) + MissUserCards(old(cards.cards), db.users, ids)
    ensures cards.ttl == old(cards.ttl) + UserCardTtls(MissUserCards(old(cards.cards), db.users, ids).Keys, jitter)
  {
    ghost var cached0 := cards.cards;
    var hits, missIds := ProbeUserCards(cards, ids);
    var found := FillUserMisses(cards, db, missIds, hits, jitter);
    ghost var misses := MissUserCards(cached0, db.users, ids);
    assert TableUserCards(db.users, missIds) == misses by {
      assert forall x :: x in TableUserCards(db.users, missIds) <==> x in misses;
    }
    ghost var want := ResolvedUserMap(cached0, db.users, ids);
    assert forall x :: x in found <==> x in want;
    forall x | x in found ensures found[x] == want[x] {
      if x in hits {
        assert x !in missIds;
      }
    }
    assert found == want;
    result := UsersInIdOrder(cached0, db.users, found, ids);
  }

  /** The cards of a list keyed by id; a later card wins. */
  function UserCardMap(cs: seq<UserCard>): (m: map<int, UserCard>)
    ensures forall id :: id in m ==> m[id].id == id
    decreases |cs|
  {
    if cs == [] then map[]
    else
      var last := cs[|cs| - 1];
      UserCardMap(cs[..|cs| - 1])[last.id := last]
  }

  lemma UserCardMapStep(cs: seq<UserCard>, c: UserCard)
    ensures UserCardMap(cs + [c]) == UserCardMap(cs)[c.id := c]
    ensures UserCardMap(cs + [c]).Keys == UserCardMap(cs).Keys + {c.id}
  {
    assert (cs + [c])[..|cs|] == cs;
  }

  lemma UserIdsOfTake(cs: seq<UserCard>, n: nat)
    ensures UserIdsOf(Take(cs, n)) == Take(UserIdsOf(cs), n)
  {
  }

  /** `cacheUserCards`: every card of the list is written with a jittered TTL. */
  method CacheUserCards(cards: UserCardCache, list: seq<UserCard>, jitter: int -> int)
    requires cards.Valid() && UserJitterOk(jitter)
    modifies cards
    ensures cards.Valid()
    ensures cards.cards == old(cards.cards) + UserCardMap(list)
    ensures cards.ttl == old(cards.ttl) + UserCardTtls(UserCardMap(list).Keys, jitter)
  {
    ghost var cached0, ttl0 := cards.cards, cards.ttl;
    var i := 0;
    while i < |list|
      invariant 0 <= i <= |list|
      invariant cards.Valid()
      invariant cards.cards == cached0 + UserCardMap(list[..i])
      invariant cards.ttl == ttl0 + UserCardTtls(UserCardMap(list[..i]).Keys, jitter)
    {
      var vo := list[i];
      assert list[..i + 1] == list[..i] + [vo];
      var before := UserCardMap(list[..i]);
      UserCardMapStep(list[..i], vo);
      UserCardTtlsStep(before.Keys, vo.id, jitter);
      UpdateUnion(cached0, before, vo.id, vo);
      UpdateUnion(ttl0, UserCardTtls(before.Keys, jitter), vo.id, UserCardMinutes(jitter, vo.id));
      cards.Put(vo, UserCardMinutes(jitter, vo.id));
      i := i + 1;
    }
    assert list[..i] == list;
  }

  /** `getUserListByCursor`: the database page of users created before the cursor. */
  method DbUserPage(db: UserDb, cursor: int, count: nat) returns (list: seq<UserCard>)
    ensures list == ResolveUsers(map[], db.users, DbUserIds(db.users, cursor, count))
  {
    var rows := UserRows(db.users);
    var sorted := MergeRows([], rows);
    assert Scores([]) + rows == rows;
    SameScoresSameSet(sorted, SortedFrom(rows));
    list := ResolveUsers(map[], db.users, RevRangeByScore(sorted, 0, cursor - 1, count));
  }

  function UserStamp(c: UserCard): int {
    c.createTimeTimestamp
  }

  /** Whether the index answers the lookup of `n + 1` ids below the cursor. */
  function UserIndexHit(sets: map<IndexKey, seq<Entry>>, cursor: int, n: nat): bool
  {
    var ids := LookupIds(sets, UserListIndex, cursor, n + 1);
    ids.Some? && ids.value != []
  }

  /** The cards the user list fetches (one more than the page size). */
  ghost function FetchUserCards(sets: map<IndexKey, seq<Entry>>, cached: map<int, UserCard>, users: map<int, User>,
                                cursor: int, n: nat): seq<UserCard>
  {
    if UserIndexHit(sets, cursor, n) then ResolveUsers(cached, users, LookupIds(sets, UserListIndex, cursor, n + 1).value)
    else ResolveUsers(map[], users, DbUserIds(users, cursor, n + 1))
  }

  /**
   * `getUserList`: ids from the index when it answers, cards from the cache or the
   * table; otherwise the database page, a rebuild of the index from every user and
   * a write of the page's cards to the cache. The page keeps `size` cards, says
   * whether more followed, and continues from the last card's registration time.
   */
  method GetUserList(idx: IndexStore, cards: UserCardCache, db: UserDb, cursor: Option<int>, size: nat,
                     nowMs: int, jitter: int -> int)
    returns (page: Page<UserCard>)
    requires idx.Valid() && cards.Valid() && db.Valid() && UserJitterOk(jitter)
    modifies idx, cards
    ensures idx.Valid() && cards.Valid()
    ensures var c := NormalizeCursor(cursor, nowMs);
      page == BuildPage(FetchUserCards(old(idx.sets), old(cards.cards), db.users, c, size), size, UserStamp)
    ensures var c := NormalizeCursor(cursor, nowMs);
      if UserIndexHit(old(idx.sets), c, size) then
        && idx.sets == old(idx.sets) && idx.ttl == old(idx.ttl)
        && var misses := MissUserCards(old(cards.cards), db.users, LookupIds(old(idx.sets), UserListIndex, c, size + 1).value);
          cards.cards == old(cards.cards) + misses && cards.ttl == old(cards.ttl) + UserCardTtls(misses.Keys, jitter)
      else
        var rows := UserRows(db.users);
        && idx.sets == Rebuilt(old(idx.sets), UserListIndex, rows)
        && idx.ttl == (if rows == map[] then old(idx.ttl) else old(idx.ttl)[UserListIndex := USER_LIST_IDS_TTL])
        && var written := UserCardMap(ResolveUsers(map[], db.users, DbUserIds(db.users, c, size + 1)));
          cards.cards == old(cards.cards) + written && cards.ttl == old(cards.ttl) + UserCardTtls(written.Keys, jitter)
  {
    var c := NormalizeCursor(cursor, nowMs);
    var ids := LookupIds(idx.sets, UserListIndex, c, size + 1);
    var list: seq<UserCard>;
    if ids.Some? && ids.value != [] {
      list := UserCardsFromCacheOrDb(cards, db, ids.value, jitter);
    } else {
      list := DbUserPage(db, c, size + 1);
      idx.Rebuild(UserListIndex, UserRows(db.users));
      CacheUserCards(cards, list, jitter);
    }
    page := BuildPage(list, size, UserStamp);
  }

  /**
   * When the index agrees with the table, every id it returns resolves, so a hit
   * page lists exactly the first `size` ids of the lookup; and when it is complete
   * these are the database page's ids, so the cached and uncached paths agree.
   */
  lemma UserListPageMeaning(sets: map<IndexKey, seq<Entry>>, cached: map<int, UserCard>, users: map<int, User>,
                            cursor: int, n: nat)
    requires WellFormed(sets) && Agrees(sets, users) && UserIndexHit(sets, cursor, n)
    requires forall x :: x in cached ==> cached[x].id == x
    requires forall x :: x in users ==> users[x].id == x
    ensures var p := BuildPage(FetchUserCards(sets, cached, users, cursor, n), n, UserStamp);
      var ids := LookupIds(sets, UserListIndex, cursor, n + 1).value;
      && UserIdsOf(p.list) == Take(ids, n)
      && (p.hasMore <==> |ids| > n)
      && (Complete(sets, users) ==> ids == DbUserIds(users, cursor, n + 1))
  {
    var ids := LookupIds(sets, UserListIndex, cursor, n + 1).value;
    LookupMeaning(sets, UserListIndex, cursor, n + 1);
    ResolveUsersMeaning(cached, users, ids);
    var list := ResolveUsers(cached, users, ids);
    assert UserIdsOf(list) == ids;
    BuildPageMeaning(list, n, UserStamp);
    UserIdsOfTake(list, n);
    if Complete(sets, users) {
      CompleteIndexMatchesDatabase(sets, users, cursor, n + 1);
    }
  }
}
