/**
 * The account operations of `UserService` (src/users/service.py): sign-up
 * with a unique username, one-time Telegram linking, VK linking, password and
 * avatar changes. Hashing is passed in as functions.
 */
module Accounts {
  import opened Results
  import opened Numerals
  import opened AccountModels

  datatype UserError =
    | UsernameTaken          // UserException raised by `register_user`
    | ReferrerMissing        // the referrer foreign key refusing the insert
    | UserNotFound           // attribute access on the `None` a missing id yields
    | MultipleResultsFound   // `scalar_one_or_none` finding more than one row

  /** The sign-up request body; `avatar` defaults to "1" and `role` to 'user'. */
  datatype RegisterUser = RegisterUser(
    username: string,
    password: string,
    fingerprint: string,
    fingerprintHash: Option<string>,
    vkId: Option<int>,
    referrerId: Option<int>,
    avatar: Option<string>,
    role: UserRole)

  /** A sign-up request as the sign-up routes build it, with the defaulted fields left at their defaults. */
  function DefaultRegistration(username: string, password: string, fingerprint: string,
                               vkId: Option<int>, referrerId: Option<int>): (r: RegisterUser)
    ensures r.role == RegularUser && r.avatar == Some("1") && r.fingerprintHash.None?
    ensures r.username == username && r.password == password && r.referrerId == referrerId
  {
    RegisterUser(username, password, fingerprint, None, vkId, referrerId, Some("1"), RegularUser)
  }

  predicate UsernameInUse(users: Users, username: string) {
    exists i | 0 <= i < |users| :: users[i].username == username
  }

  /**
   * `register_user`: refused when the username is in use, or when the referrer
   * id names no user (the foreign key; a row may name itself). Otherwise
   * exactly one user is added, with hashed password and fingerprint, the
   * request's role (by default 'user') and every account default.
   * `id` and `telegramCode` are what the database and `uuid4` supply.
   */
  function Register(users: Users, req: RegisterUser, id: int, telegramCode: string, now: int,
                    hashPassword: string -> string, hashFingerprint: string -> string)
    : (r: Result<(Users, User), UserError>)
    requires !HasUserId(users, id)
    ensures r.Err? && r.error == UsernameTaken <==> UsernameInUse(users, req.username)
    ensures r.Err? ==> r.error == UsernameTaken || r.error == ReferrerMissing
    ensures r.Ok? <==> !UsernameInUse(users, req.username)
                       && (req.referrerId.Some? ==> req.referrerId.value == id || HasUserId(users, req.referrerId.value))
    ensures r.Ok? ==> r.value.0 == users + [r.value.1]
    ensures r.Ok? ==> var u := r.value.1;
                      && u.id == id && u.username == req.username && u.role == req.role
                      && u.password == hashPassword(req.password)
                      && u.fingerprintHash == Some(hashFingerprint(req.fingerprint))
                      && u.referrerId == req.referrerId && u.avatar == req.avatar && u.vkId == req.vkId
                      && !u.hasDeposited && u.referralBonusRate == Some(DefaultReferralBonusRate)
                      && u.referralEarnings == Some(0.0) && u.referralCount == Some(0)
    ensures r.Ok? && UniqueUserIds(users) ==> UniqueUserIds(r.value.0)
    ensures r.Ok? && UniqueUsernames(users) ==> UniqueUsernames(r.value.0)
    ensures r.Ok? && ReferrersExist(users) ==> ReferrersExist(r.value.0)
  {
    if exists i | 0 <= i < |users| :: users[i].username == req.username then Err(UsernameTaken)
    else if req.referrerId.Some? && req.referrerId.value != id && FindUser(users, req.referrerId.value).None? then
      Err(ReferrerMissing)
    else
      var u := NewUser(id, req.username, hashPassword(req.password), req.fingerprint,
                       Some(hashFingerprint(req.fingerprint)), req.vkId, req.referrerId, req.avatar,
                       req.role, telegramCode, now);
      var users' := users + [u];
      assert forall i | 0 <= i < |users| :: users'[i] == users[i];
      assert ReferrersExist(users) ==> ReferrersExist(users') by {
        if ReferrersExist(users) {
          forall i | 0 <= i < |users'| && users'[i].referrerId.Some?
            ensures HasUserId(users', users'[i].referrerId.value)
          {
            if i < |users| {
              var k :| 0 <= k < |users| && users[k].id == users[i].referrerId.value;
              assert users'[k].id == users[i].referrerId.value;
            } else if req.referrerId.value == id {
              assert users'[|users|].id == id;
            } else {
              var k := FindUser(users, req.referrerId.value).value;
              assert users'[k].id == req.referrerId.value;
            }
          }
        }
      }
      Ok((users', u))
  }

  /** Two users with the same username can never both be signed up. */
  lemma UsernameCannotBeReused(users: Users, a: RegisterUser, b: RegisterUser, idA: int, idB: int,
                               codeA: string, codeB: string, now: int,
                               hashPassword: string -> string, hashFingerprint: string -> string)
    requires !HasUserId(users, idA)
    requires Register(users, a, idA, codeA, now, hashPassword, hashFingerprint).Ok?
    requires !HasUserId(Register(users, a, idA, codeA, now, hashPassword, hashFingerprint).value.0, idB)
    requires b.username == a.username
    ensures Register(Register(users, a, idA, codeA, now, hashPassword, hashFingerprint).value.0,
                     b, idB, codeB, now, hashPassword, hashFingerprint) == Err(UsernameTaken)
  {
    var users' := Register(users, a, idA, codeA, now, hashPassword, hashFingerprint).value.0;
    assert users'[|users|].username == b.username;
  }

  /** How many users satisfy `p`. */
  function CountMatching(users: Users, p: User -> bool): (n: nat)
    ensures n <= |users|
    ensures n == 0 <==> forall i | 0 <= i < |users| :: !p(users[i])
    decreases |users|
  {
    if |users| == 0 then 0
    else
      assert forall i | 1 <= i < |users| :: users[i] == users[1..][i - 1];
      (if p(users[0]) then 1 else 0) + CountMatching(users[1..], p)
  }

  /** Rewriting one user without changing whether it satisfies `p` keeps both lookups as they were. */
  lemma {:induction false} MatchingKeptByUpdate(users: Users, i: nat, u: User, p: User -> bool)
    requires i < |users| && p(u) == p(users[i])
    ensures CountMatching(users[i := u], p) == CountMatching(users, p)
    ensures FirstMatching(users[i := u], p) == FirstMatching(users, p)
    decreases |users|
  {
    if i > 0 {
      assert users[i := u][1..] == users[1..][i - 1 := u];
      MatchingKeptByUpdate(users[1..], i - 1, u, p);
    } else {
      assert users[i := u][1..] == users[1..];
    }
  }

  /**
   * SQLAlchemy's `scalar_one_or_none` over the users satisfying `p`: nothing
   * when none does, the one that does, and an error when several do.
   */
  function ScalarOneOrNone(users: Users, p: User -> bool): (r: Result<Option<nat>, UserError>)
    ensures r.Err? <==> CountMatching(users, p) > 1
    ensures r.Err? ==> r.error == MultipleResultsFound
    ensures r == Ok(None) <==> forall i | 0 <= i < |users| :: !p(users[i])
    ensures r.Ok? && r.value.Some? ==> r.value.value < |users| && p(users[r.value.value])
                                       && CountMatching(users, p) == 1
  {
    var n := CountMatching(users, p);
    if n == 0 then Ok(None)
    else if n > 1 then Err(MultipleResultsFound)
    else Ok(FirstMatching(users, p))
  }

  function HasCode(code: string): User -> bool {
    (u: User) => u.telegramCode == code
  }

  /**
   * `link_telegram`: no change (the route gets `None`) when no user carries the
   * code or that user is already linked; otherwise only that user's three
   * Telegram fields are set. The second component is the linked user.
   */
  function LinkTelegram(users: Users, telegramId: int, fullname: Option<string>, username: Option<string>,
                        code: string): (r: Result<(Users, Option<User>), UserError>)
    ensures r.Err? <==> CountMatching(users, HasCode(code)) > 1
    ensures r.Ok? && r.value.1.None? ==> r.value.0 == users
    ensures r.Ok? && r.value.1.Some? <==>
              && CountMatching(users, HasCode(code)) == 1
              && users[FirstMatching(users, HasCode(code)).value].telegramId.None?
    ensures r.Ok? && r.value.1.Some? ==>
              var i := FirstMatching(users, HasCode(code)).value;
              && |r.value.0| == |users|
              && (forall j | 0 <= j < |users| && j != i :: r.value.0[j] == users[j])
              && r.value.0[i] == r.value.1.value
              && r.value.1.value.telegramId == Some(telegramId)
              && r.value.1.value.telegramFullname == fullname
              && r.value.1.value.telegramUsername == username
              && r.value.1.value.(telegramId := None, telegramFullname := users[i].telegramFullname,
                                  telegramUsername := users[i].telegramUsername) == users[i]
    ensures r.Ok? ==> forall j | 0 <= j < |users| && users[j].telegramId.Some? :: r.value.0[j] == users[j]
  {
    match ScalarOneOrNone(users, HasCode(code))
    case Err(e) => Err(e)
    case Ok(None) => Ok((users, None))
    case Ok(Some(i)) =>
      if users[i].telegramId.Some? then Ok((users, None))
      else
        var u := users[i].(telegramId := Some(telegramId), telegramFullname := fullname,
                           telegramUsername := username);
        Ok((users[i := u], Some(u)))
  }

  /** A user is linked to Telegram at most once: the same code never links again. */
  lemma TelegramLinkedAtMostOnce(users: Users, telegramId: int, fullname: Option<string>,
                                 username: Option<string>, code: string, telegramId2: int,
                                 fullname2: Option<string>, username2: Option<string>)
    requires LinkTelegram(users, telegramId, fullname, username, code).Ok?
    ensures var users' := LinkTelegram(users, telegramId, fullname, username, code).value.0;
            LinkTelegram(users', telegramId2, fullname2, username2, code) == Ok((users', None))
  {
    var r := LinkTelegram(users, telegramId, fullname, username, code);
    if r.value.1.Some? {
      var i := FirstMatching(users, HasCode(code)).value;
      MatchingKeptByUpdate(users, i, r.value.1.value, HasCode(code));
    }
  }

  /** `get_user_by_vk_id`: the one user with the VK id, if any; VK ids are not unique, so several is an error. */
  function GetUserByVkId(users: Users, vkId: int): (r: Result<Option<nat>, UserError>)
    ensures r == Ok(None) <==> forall i | 0 <= i < |users| :: users[i].vkId != Some(vkId)
    ensures r.Ok? && r.value.Some? ==> r.value.value < |users| && users[r.value.value].vkId == Some(vkId)
    ensures r.Err? ==> r.error == MultipleResultsFound
  {
    ScalarOneOrNone(users, (u: User) => u.vkId == Some(vkId))
  }

  /** `get_user_by_username`: the user with the username, if any. */
  function GetUserByUsername(users: Users, username: string): (r: Result<Option<nat>, UserError>)
    ensures r == Ok(None) <==> !UsernameInUse(users, username)
    ensures r.Ok? && r.value.Some? ==> r.value.value < |users| && users[r.value.value].username == username
  {
    ScalarOneOrNone(users, (u: User) => u.username == username)
  }

  /** With usernames unique, as the column's constraint keeps them, the lookup never fails. */
  lemma {:induction false} UsernameLookupNeverFails(users: Users, username: string)
    requires UniqueUsernames(users)
    ensures GetUserByUsername(users, username).Ok?
    ensures UsernameInUse(users, username) <==> GetUserByUsername(users, username).value.Some?
    decreases |users|
  {
    var p := (u: User) => u.username == username;
    if |users| > 0 {
      assert UniqueUsernames(users[1..]) by {
        forall i, j | 0 <= i < j < |users[1..]| ensures users[1..][i].username != users[1..][j].username {
          assert users[1..][i] == users[i + 1] && users[1..][j] == users[j + 1];
        }
      }
      UsernameLookupNeverFails(users[1..], username);
      if p(users[0]) {
        assert forall i | 0 <= i < |users[1..]| :: !p(users[1..][i]) by {
          forall i | 0 <= i < |users[1..]| ensures !p(users[1..][i]) {
            assert users[1..][i] == users[i + 1];
          }
        }
      }
    }
  }

  /** Rewrites the user with the id by `f`, failing when no user has it. */
  function UpdateUserById(users: Users, userId: int, f: User -> User): (r: Result<Users, UserError>)
    ensures r.Err? <==> !HasUserId(users, userId)
    ensures r.Err? ==> r.error == UserNotFound
    ensures r.Ok? ==> var i := FindUser(users, userId).value;
                      && |r.value| == |users|
                      && r.value[i] == f(users[i])
                      && forall j | 0 <= j < |users| && j != i :: r.value[j] == users[j]
  {
    match FindUser(users, userId)
    case None => Err(UserNotFound)
    case Some(i) => Ok(users[i := f(users[i])])
  }

  /** `link_vk`: overwrites the user's VK id, linked before or not; nothing else changes. */
  function LinkVk(users: Users, userId: int, vkId: int): (r: Result<Users, UserError>)
    ensures r.Err? <==> !HasUserId(users, userId)
    ensures r.Ok? ==> var i := FindUser(users, userId).value;
                      && |r.value| == |users|
                      && r.value[i].vkId == Some(vkId)
                      && r.value[i].(vkId := users[i].vkId) == users[i]
                      && forall j | 0 <= j < |users| && j != i :: r.value[j] == users[j]
  {
    UpdateUserById(users, userId, (u: User) => u.(vkId := Some(vkId)))
  }

  /** `change_password`: stores the (already hashed) password; nothing else changes. */
  function ChangePassword(users: Users, userId: int, newPassword: string): (r: Result<Users, UserError>)
    ensures r.Err? <==> !HasUserId(users, userId)
    ensures r.Ok? ==> var i := FindUser(users, userId).value;
                      && |r.value| == |users|
                      && r.value[i].password == newPassword
                      && r.value[i].(password := users[i].password) == users[i]
                      && forall j | 0 <= j < |users| && j != i :: r.value[j] == users[j]
  {
    UpdateUserById(users, userId, (u: User) => u.(password := newPassword))
  }

  /** `update_avatar`: stores `str(avatarId)`, which parses back to the id; nothing else changes. */
  function UpdateAvatar(users: Users, userId: int, avatarId: int): (r: Result<Users, UserError>)
    ensures r.Err? <==> !HasUserId(users, userId)
    ensures r.Ok? ==> var i := FindUser(users, userId).value;
                      && |r.value| == |users|
                      && r.value[i].avatar.Some?
                      && ParseInt(r.value[i].avatar.value) == Some(avatarId)
                      && r.value[i].(avatar := users[i].avatar) == users[i]
                      && forall j | 0 <= j < |users| && j != i :: r.value[j] == users[j]
  {
    ParseIntToString(avatarId);
    UpdateUserById(users, userId, (u: User) => u.(avatar := Some(IntToString(avatarId))))
  }
}
