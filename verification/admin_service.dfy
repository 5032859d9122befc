/**
 * Back-office administrator accounts: the login check sequence (account, then
 * password, then status) and the last-login stamp written only on success.
 */
module AdminService {
  import opened Common

  /** An administrator account with this status may not log in. */
  const ADMIN_DISABLED := 0

  datatype Admin = Admin(
    id: int,
    username: string,
    password: string,
    realName: Option<string>,
    phone: Option<string>,
    email: Option<string>,
    status: int,
    createTime: int,
    updateTime: int,
    lastLoginTime: Option<int>)

  datatype AdminError = AccountNotFound | PasswordError | AccountBanned

  datatype AdminOutcome<T> = Done(value: T) | Failed(error: AdminError)

  predicate HasUsername(admins: map<int, Admin>, username: string) {
    exists k :: k in admins && admins[k].username == username
  }

  predicate HasCredentials(admins: map<int, Admin>, username: string, password: string) {
    exists k :: k in admins && admins[k].username == username && admins[k].password == password
  }

  /** No two administrators share a username. */
  ghost predicate UsernamesUnique(admins: map<int, Admin>) {
    forall a, b :: a in admins && b in admins && admins[a].username == admins[b].username ==> a == b
  }

  /**
   * The first check of the login sequence that fails: the username is unknown, the
   * password does not match, the account is disabled.
   */
  function LoginError(admins: map<int, Admin>, username: string, password: string): (e: Option<AdminError>)
    requires UsernamesUnique(admins)
    ensures e == Some(AccountNotFound) <==> !HasUsername(admins, username)
    ensures e == Some(PasswordError) <==> HasUsername(admins, username) && !HasCredentials(admins, username, password)
    ensures e == Some(AccountBanned) <==>
      exists k :: k in admins && admins[k].username == username && admins[k].password == password && admins[k].status == ADMIN_DISABLED
    ensures e.None? <==>
      exists k :: k in admins && admins[k].username == username && admins[k].password == password && admins[k].status != ADMIN_DISABLED
  {
    if !HasUsername(admins, username) then Some(AccountNotFound)
    else if !HasCredentials(admins, username, password) then Some(PasswordError)
    else
      var k :| k in admins && admins[k].username == username && admins[k].password == password;
      if admins[k].status == ADMIN_DISABLED then Some(AccountBanned) else None
  }

  class AdminDb {
    var admins: map<int, Admin>

    ghost predicate Valid()
      reads this
    {
      UsernamesUnique(admins) && forall k :: k in admins ==> admins[k].id == k
    }

    constructor()
      ensures Valid() && admins == map[]
    {
      admins := map[];
    }

    /**
     * `login`: on success the account's last-login and update times become `nowMs`
     * and the updated account is returned; a refused login changes nothing.
     */
    method Login(username: string, password: string, nowMs: int) returns (r: AdminOutcome<Admin>)
      requires Valid()
      modifies this
      ensures Valid()
      ensures r.Failed? <==> LoginError(old(admins), username, password).Some?
      ensures r.Failed? ==> r.error == LoginError(old(admins), username, password).value && admins == old(admins)
      ensures r.Done? ==>
        && r.value.id in old(admins)
        && r.value == old(admins)[r.value.id].(lastLoginTime := Some(nowMs), updateTime := nowMs)
        && r.value.username == username && r.value.password == password && r.value.status != ADMIN_DISABLED
        && admins == old(admins)[r.value.id := r.value]
    {
      if !HasUsername(admins, username) {
        return Failed(AccountNotFound);
      }
      if !HasCredentials(admins, username, password) {
        return Failed(PasswordError);
      }
      var k :| k in admins && admins[k].username == username && admins[k].password == password;
      var admin := admins[k];
      if admin.status == ADMIN_DISABLED {
        return Failed(AccountBanned);
      }
      admin := admin.(lastLoginTime := Some(nowMs), updateTime := nowMs);
      admins := admins[k := admin];
      return Done(admin);
    }
  }

  /** `getAdminById`. */
  function AdminById(admins: map<int, Admin>, id: int): (r: AdminOutcome<Admin>)
    ensures r.Failed? <==> id !in admins
    ensures r.Failed? ==> r.error == AccountNotFound
    ensures r.Done? ==> r.value == admins[id]
  {
    if id in admins then Done(admins[id]) else Failed(AccountNotFound)
  }
}
