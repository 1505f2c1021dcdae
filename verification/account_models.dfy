/**
 * The user record (src/providers/models.py): roles, column defaults, and the
 * table-level invariants (unique id, unique username, referrer foreign key).
 */
module AccountModels {
  import opened Results

  datatype UserRole = RegularUser | Admin | Support | Superuser

  /** The stored value of a role; `RegularUser` is the role named 'user'. */
  function RoleValue(r: UserRole): (v: string)
    ensures RoleOfValue(v) == Some(r)
  {
    match r
    case RegularUser => "user"
    case Admin => "admin"
    case Support => "support"
    case Superuser => "superuser"
  }

  function RoleOfValue(v: string): Option<UserRole> {
    if v == "user" then Some(RegularUser)
    else if v == "admin" then Some(Admin)
    else if v == "support" then Some(Support)
    else if v == "superuser" then Some(Superuser)
    else None
  }

  /**
   * One row of the users table. Nullable columns are `Option`s; `createdAt` is
   * in seconds; the referral rate and earnings are exact decimals.
   */
  datatype User = User(
    id: int,
    referrerId: Option<int>,
    username: string,
    password: string,
    fullname: Option<string>,
    avatar: Option<string>,
    telegramId: Option<int>,
    telegramFullname: Option<string>,
    telegramUsername: Option<string>,
    telegramCode: string,
    vkId: Option<int>,
    active: bool,
    fingerprint: string,
    fingerprintHash: Option<string>,
    role: UserRole,
    createdAt: int,
    hasDeposited: bool,
    referralBonusRate: Option<real>,
    referralEarnings: Option<real>,
    referralCount: Option<int>)

  type Users = seq<User>

  /** The column default of `referral_bonus_rate`. */
  const DefaultReferralBonusRate: real := 0.1

  /**
   * A row inserted with the given columns and every other column at its
   * default: not deposited, rate 0.1, no earnings, no referrals, active, no
   * social links.
   */
  function NewUser(id: int, username: string, password: string, fingerprint: string,
                   fingerprintHash: Option<string>, vkId: Option<int>, referrerId: Option<int>,
                   avatar: Option<string>, role: UserRole, telegramCode: string, now: int): (u: User)
    ensures !u.hasDeposited && u.active
    ensures u.referralBonusRate == Some(DefaultReferralBonusRate)
    ensures u.referralEarnings == Some(0.0) && u.referralCount == Some(0)
    ensures u.telegramId.None? && u.telegramFullname.None? && u.telegramUsername.None? && u.fullname.None?
    ensures u.id == id && u.username == username && u.role == role && u.referrerId == referrerId
    ensures u.createdAt == now && u.telegramCode == telegramCode
  {
    User(id, referrerId, username, password, None, avatar, None, None, None, telegramCode, vkId, true,
         fingerprint, fingerprintHash, role, now, false, Some(DefaultReferralBonusRate), Some(0.0), Some(0))
  }

  /** The primary-key invariant. */
  predicate UniqueUserIds(users: Users) {
    forall i, j | 0 <= i < j < |users| :: users[i].id != users[j].id
  }

  /** The unique index on `username`. */
  predicate UniqueUsernames(users: Users) {
    forall i, j | 0 <= i < j < |users| :: users[i].username != users[j].username
  }

  predicate HasUserId(users: Users, id: int) {
    exists i | 0 <= i < |users| :: users[i].id == id
  }

  /** The self-referencing foreign key: every referrer named is a user of the table. */
  predicate ReferrersExist(users: Users) {
    forall i | 0 <= i < |users| :: users[i].referrerId.Some? ==> HasUserId(users, users[i].referrerId.value)
  }

  /** `session.get(User, id)`: the position of the user with that id, if any. */
  function FindUser(users: Users, id: int): (r: Option<nat>)
    ensures r.Some? ==> r.value < |users| && users[r.value].id == id
    ensures r.Some? ==> forall j | 0 <= j < r.value :: users[j].id != id
    ensures r.None? <==> !HasUserId(users, id)
  {
    FirstMatching(users, (u: User) => u.id == id)
  }
}
