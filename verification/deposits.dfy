/**
 * The decision logic of the wallet routes (src/wallet/route.py): the
 * once-per-depositor referral bonus, deposits and bonus deposits, and promo
 * codes. State is the users table and the transactions table together.
 */
module Deposits {
  import opened Results
  import opened Numerals
  import opened WalletModels
  import opened WalletSchemas
  import opened Ledger
  import opened Balance
  import opened Bonus
  import opened AccountModels
  import opened Referrals

  datatype Bank = Bank(users: Users, ledger: Table)

  /** The rate used when the referrer's stored rate is falsy (NULL or 0). */
  const FallbackRate: real := 0.1

  /** `referrer.referral_bonus_rate or 0.1`. */
  function EffectiveRate(stored: Option<real>): (rate: real)
    ensures stored.None? || stored.value == 0.0 ==> rate == FallbackRate
    ensures stored.Some? && stored.value != 0.0 ==> rate == stored.value
  {
    if stored.None? || stored.value == 0.0 then FallbackRate else stored.value
  }

  /** What the referrer is credited for a deposit: the deposit times the effective rate. */
  function ReferralBonus(amount: real, stored: Option<real>): (bonus: real)
    ensures stored.None? || stored.value == 0.0 ==> bonus == amount / 10.0
  {
    amount * EffectiveRate(stored)
  }

  /** The position of the depositor's referrer, when the depositor names a (non-zero) one that exists. */
  function ReferrerIndex(users: Users, depositor: User): (r: Option<nat>)
    ensures r.Some? ==> r.value < |users| && depositor.referrerId.Some?
                        && users[r.value].id == depositor.referrerId.value
    ensures r.None? <==> depositor.referrerId.None? || depositor.referrerId.value == 0
                         || !HasUserId(users, depositor.referrerId.value)
  {
    if depositor.referrerId.None? || depositor.referrerId.value == 0 then None
    else FindUser(users, depositor.referrerId.value)
  }

  /**
   * `check_and_apply_referral_bonus` with the rate applied as an exact decimal.
   * Nothing happens for a user who has deposited before. Otherwise the user is
   * marked as having deposited, and, when the referrer exists, the referrer is
   * credited `amount * rate` by one REFERRAL row and the same rise in earnings.
   */
  function ApplyReferralBonus(b: Bank, depositorId: int, amount: real, now: int): (r: Bank)
    requires HasUserId(b.users, depositorId)
    ensures var d := FindUser(b.users, depositorId).value;
            && |r.users| == |b.users|
            && (b.users[d].hasDeposited ==> r == b)
            && (!b.users[d].hasDeposited ==> r.users[d].hasDeposited)
    ensures var d := FindUser(b.users, depositorId).value;
            !b.users[d].hasDeposited && ReferrerIndex(b.users, b.users[d]).Some? ==>
              var ri := ReferrerIndex(b.users, b.users[d]).value;
              var referrer := b.users[ri];
              var bonus := ReferralBonus(amount, referrer.referralBonusRate);
              && |r.ledger| == |b.ledger| + 1 && r.ledger[..|b.ledger|] == b.ledger
              && r.ledger[|b.ledger|].kind == Referral && r.ledger[|b.ledger|].status == Confirmed
              && r.ledger[|b.ledger|].userId == referrer.id && r.ledger[|b.ledger|].amount == bonus
              && r.ledger[|b.ledger|].paymentSystem == Internal
              && r.users[ri].referralEarnings == Some(referrer.referralEarnings.GetOr(0.0) + bonus)
    ensures var d := FindUser(b.users, depositorId).value;
            ReferrerIndex(b.users, b.users[d]).None? ==> r.ledger == b.ledger
    ensures var d := FindUser(b.users, depositorId).value;
            forall j | 0 <= j < |b.users| && j != d && (ReferrerIndex(b.users, b.users[d]).None?
                                                       || j != ReferrerIndex(b.users, b.users[d]).value)
              :: r.users[j] == b.users[j]
    ensures var d := FindUser(b.users, depositorId).value;
            var ri := ReferrerIndex(b.users, b.users[d]);
            !b.users[d].hasDeposited && (ri.None? || ri.value != d) ==>
              r.users[d] == b.users[d].(hasDeposited := true)
    ensures var d := FindUser(b.users, depositorId).value;
            var ri := ReferrerIndex(b.users, b.users[d]);
            !b.users[d].hasDeposited && ri.Some? ==>
              var referrer := b.users[ri.value];
              var earned := Some(referrer.referralEarnings.GetOr(0.0) + ReferralBonus(amount, referrer.referralBonusRate));
              if ri.value == d then r.users[d] == referrer.(referralEarnings := earned, hasDeposited := true)
              else r.users[ri.value] == referrer.(referralEarnings := earned)
  {
    var d := FindUser(b.users, depositorId).value;
    StepAt(b, d, ReferrerIndex(b.users, b.users[d]), amount, now)
  }

  /** The referral step for the depositor at position `d`, whose referrer (if any) is at position `ri`. */
  function StepAt(b: Bank, d: nat, ri: Option<nat>, amount: real, now: int): (r: Bank)
    requires d < |b.users| && (ri.Some? ==> ri.value < |b.users|)
    ensures |r.users| == |b.users|
    ensures b.users[d].hasDeposited ==> r == b
    ensures !b.users[d].hasDeposited ==> r.users[d].hasDeposited
    ensures !b.users[d].hasDeposited && ri.Some? ==>
              var referrer := b.users[ri.value];
              var bonus := ReferralBonus(amount, referrer.referralBonusRate);
              && |r.ledger| == |b.ledger| + 1 && r.ledger[..|b.ledger|] == b.ledger
              && r.ledger[|b.ledger|].kind == Referral && r.ledger[|b.ledger|].status == Confirmed
              && r.ledger[|b.ledger|].userId == referrer.id && r.ledger[|b.ledger|].amount == bonus
              && r.ledger[|b.ledger|].paymentSystem == Internal
              && r.users[ri.value].referralEarnings == Some(referrer.referralEarnings.GetOr(0.0) + bonus)
    ensures ri.None? ==> r.ledger == b.ledger
    ensures forall j | 0 <= j < |b.users| && j != d && (ri.None? || j != ri.value) :: r.users[j] == b.users[j]
    ensures !b.users[d].hasDeposited && (ri.None? || ri.value != d) ==>
              r.users[d] == b.users[d].(hasDeposited := true)
    ensures !b.users[d].hasDeposited && ri.Some? ==>
              var referrer := b.users[ri.value];
              var earned := Some(referrer.referralEarnings.GetOr(0.0) + ReferralBonus(amount, referrer.referralBonusRate));
              if ri.value == d then r.users[d] == referrer.(referralEarnings := earned, hasDeposited := true)
              else r.users[ri.value] == referrer.(referralEarnings := earned)
  {
    if b.users[d].hasDeposited then b
    else
      var credited := if ri.None? then b else CreditReferrer(b, ri.value, amount, now);
      Bank(credited.users[d := credited.users[d].(hasDeposited := true)], credited.ledger)
  }

  /** The referrer at position `ri` is credited `amount * rate`: one REFERRAL row and the same rise in earnings. */
  function CreditReferrer(b: Bank, ri: nat, amount: real, now: int): (r: Bank)
    requires ri < |b.users|
    ensures |r.users| == |b.users|
    ensures forall j | 0 <= j < |b.users| && j != ri :: r.users[j] == b.users[j]
    ensures var referrer := b.users[ri];
            var bonus := ReferralBonus(amount, referrer.referralBonusRate);
            && r.users[ri] == referrer.(referralEarnings := Some(referrer.referralEarnings.GetOr(0.0) + bonus))
            && |r.ledger| == |b.ledger| + 1 && r.ledger[..|b.ledger|] == b.ledger
            && r.ledger[|b.ledger|].kind == Referral && r.ledger[|b.ledger|].status == Confirmed
            && r.ledger[|b.ledger|].userId == referrer.id && r.ledger[|b.ledger|].amount == bonus
            && r.ledger[|b.ledger|].paymentSystem == Internal
  {
    var referrer := b.users[ri];
    var bonus := ReferralBonus(amount, referrer.referralBonusRate);
    var referrer' := referrer.(referralEarnings := Some(referrer.referralEarnings.GetOr(0.0) + bonus));
    var (ledger', _) := Create(b.ledger, DefaultCreateTransaction(Internal, Referral, bonus, referrer.id), now);
    Bank(b.users[ri := referrer'], ledger')
  }

  /** The referral step is idempotent: a second run for the same depositor changes nothing. */
  lemma ReferralBonusAppliedOnce(b: Bank, depositorId: int, amount: real, amount2: real, now: int, later: int)
    requires HasUserId(b.users, depositorId)
    ensures var once := ApplyReferralBonus(b, depositorId, amount, now);
            HasUserId(once.users, depositorId)
            && ApplyReferralBonus(once, depositorId, amount2, later) == once
  {
    var once := ApplyReferralBonus(b, depositorId, amount, now);
    var d := FindUser(b.users, depositorId).value;
    assert once.users[d].id == depositorId;
    assert forall j | 0 <= j < d :: once.users[j].id != depositorId by {
      forall j | 0 <= j < d ensures once.users[j].id != depositorId {
        assert b.users[j].id != depositorId;
      }
    }
    assert FindUser(once.users, depositorId) == Some(d) by {
      FirstUserWithId(once.users, depositorId, d);
    }
  }

  lemma FirstUserWithId(users: Users, id: int, i: nat)
    requires i < |users| && users[i].id == id
    requires forall j | 0 <= j < i :: users[j].id != id
    ensures FindUser(users, id) == Some(i)
  {
  }

  /** How many REFERRAL rows a table holds. */
  function CountReferralRows(t: Table): nat
    decreases |t|
  {
    if |t| == 0 then 0 else CountReferralRows(t[..|t| - 1]) + (if t[|t| - 1].kind == Referral then 1 else 0)
  }

  /** However often the step runs for one depositor, at most one REFERRAL row appears. */
  lemma AtMostOneReferralRow(b: Bank, depositorId: int, amount: real, amount2: real, now: int, later: int)
    requires HasUserId(b.users, depositorId)
    ensures var once := ApplyReferralBonus(b, depositorId, amount, now);
            var twice := ApplyReferralBonus(once, depositorId, amount2, later);
            CountReferralRows(twice.ledger) <= CountReferralRows(b.ledger) + 1
  {
    ReferralBonusAppliedOnce(b, depositorId, amount, amount2, now, later);
    var once := ApplyReferralBonus(b, depositorId, amount, now);
    if |once.ledger| == |b.ledger| + 1 {
      assert once.ledger[..|once.ledger| - 1] == b.ledger;
    }
  }

  /** Why a deposit step fails. */
  datatype DepositError =
    | RateTypeError           // `Decimal * float` raising TypeError
    | IdentityConflict        // `session.add(user)` of a user the session already holds as the referrer

  /**
   * `check_and_apply_referral_bonus` as written: the stored rate is a float
   * (a Float column), so whenever it is truthy `Decimal(deposit) * rate` raises
   * TypeError and the session is rolled back before anything is stored. A user
   * who is their own referrer gets past the multiplication only with a falsy
   * rate, and then fails at `session.add(user)`: the session already holds the
   * same row, loaded by `session.get` as the referrer.
   */
  function ApplyReferralBonusAsWritten(b: Bank, depositorId: int, amount: real, now: int)
    : (r: Result<Bank, DepositError>)
    requires HasUserId(b.users, depositorId)
    ensures var d := FindUser(b.users, depositorId).value;
            var ri := ReferrerIndex(b.users, b.users[d]);
            r == Err(RateTypeError) <==>
              (!b.users[d].hasDeposited && ri.Some?
               && b.users[ri.value].referralBonusRate.Some? && b.users[ri.value].referralBonusRate.value != 0.0)
    ensures var d := FindUser(b.users, depositorId).value;
            var ri := ReferrerIndex(b.users, b.users[d]);
            r == Err(IdentityConflict) <==>
              (!b.users[d].hasDeposited && ri == Some(d)
               && (b.users[d].referralBonusRate.None? || b.users[d].referralBonusRate.value == 0.0))
    ensures r.Ok? ==> r.value == ApplyReferralBonus(b, depositorId, amount, now)
  {
    var d := FindUser(b.users, depositorId).value;
    var depositor := b.users[d];
    var ri := ReferrerIndex(b.users, depositor);
    if !depositor.hasDeposited && ri.Some? && b.users[ri.value].referralBonusRate.Some?
       && b.users[ri.value].referralBonusRate.value != 0.0
    then Err(RateTypeError)
    else if !depositor.hasDeposited && ri == Some(d) then Err(IdentityConflict)
    else Ok(ApplyReferralBonus(b, depositorId, amount, now))
  }

  /**
   * `create_deposit`: the referral step, then one confirmed IN row of the
   * deposit for the depositor, whose pure balance rises by exactly the amount.
   */
  function CreateDepositOp(b: Bank, userId: int, d: CreateDeposit, now: int): (r: (Bank, Transaction))
    requires HasUserId(b.users, userId)
    ensures var stepped := ApplyReferralBonus(b, userId, d.amount, now);
            r.0.users == stepped.users && r.0.ledger == stepped.ledger + [r.1]
    ensures r.1.kind == In && r.1.status == Confirmed && r.1.amount == d.amount && r.1.userId == userId
    ensures r.1.paymentSystem == d.paymentSystem
    ensures GetPureBalance(r.0.ledger, userId) == GetPureBalance(b.ledger, userId) + d.amount
  {
    var stepped := ApplyReferralBonus(b, userId, d.amount, now);
    var (ledger', row) := Create(stepped.ledger, DefaultCreateTransaction(d.paymentSystem, In, d.amount, userId), now);
    FoldSnoc(Pure, stepped.ledger, row, userId);
    ReferralStepKeepsPure(b, userId, d.amount, now);
    (Bank(stepped.users, ledger'), row)
  }

  /** The referral step never moves anybody's pure or bonus balance. */
  lemma ReferralStepKeepsPure(b: Bank, depositorId: int, amount: real, now: int)
    requires HasUserId(b.users, depositorId)
    ensures forall user :: GetPureBalance(ApplyReferralBonus(b, depositorId, amount, now).ledger, user)
                           == GetPureBalance(b.ledger, user)
    ensures forall user :: GetBonusBalance(ApplyReferralBonus(b, depositorId, amount, now).ledger, user)
                           == GetBonusBalance(b.ledger, user)
  {
    var d := FindUser(b.users, depositorId).value;
    StepKeepsPure(b, d, ReferrerIndex(b.users, b.users[d]), amount, now);
  }

  lemma StepKeepsPure(b: Bank, d: nat, ri: Option<nat>, amount: real, now: int)
    requires d < |b.users| && (ri.Some? ==> ri.value < |b.users|)
    ensures forall user :: GetPureBalance(StepAt(b, d, ri, amount, now).ledger, user) == GetPureBalance(b.ledger, user)
    ensures forall user :: GetBonusBalance(StepAt(b, d, ri, amount, now).ledger, user) == GetBonusBalance(b.ledger, user)
  {
    var r := StepAt(b, d, ri, amount, now);
    if r.ledger != b.ledger {
      var row := r.ledger[|b.ledger|];
      assert r.ledger == b.ledger + [row];
      forall user
        ensures GetPureBalance(r.ledger, user) == GetPureBalance(b.ledger, user)
        ensures GetBonusBalance(r.ledger, user) == GetBonusBalance(b.ledger, user)
      {
        FoldSnoc(Pure, b.ledger, row, user);
        FoldSnoc(BonusOnly, b.ledger, row, user);
      }
    }
  }

  /**
   * `create_bonus_deposit`: the referral step, then one confirmed BONUS row of
   * the deposit for the depositor, whose bonus balance rises by exactly the amount.
   */
  function CreateBonusDepositOp(b: Bank, userId: int, d: CreateDeposit, now: int): (r: (Bank, Transaction))
    requires HasUserId(b.users, userId)
    ensures var stepped := ApplyReferralBonus(b, userId, d.amount, now);
            r.0.users == stepped.users && r.0.ledger == stepped.ledger + [r.1]
    ensures r.1.kind == Bonus && r.1.status == Confirmed && r.1.amount == d.amount && r.1.userId == userId
    ensures r.1.paymentSystem == d.paymentSystem
    ensures GetBonusBalance(r.0.ledger, userId) == GetBonusBalance(b.ledger, userId) + d.amount
    ensures GetPureBalance(r.0.ledger, userId) == GetPureBalance(b.ledger, userId)
  {
    var stepped := ApplyReferralBonus(b, userId, d.amount, now);
    var (ledger', row) := Create(stepped.ledger, DefaultCreateTransaction(d.paymentSystem, Bonus, d.amount, userId), now);
    FoldSnoc(BonusOnly, stepped.ledger, row, userId);
    FoldSnoc(Pure, stepped.ledger, row, userId);
    ReferralStepKeepsPure(b, userId, d.amount, now);
    (Bank(stepped.users, ledger'), row)
  }

  /** `create_deposit` as written: the referral step may raise, and then no deposit row is stored. */
  function CreateDepositAsWritten(b: Bank, userId: int, d: CreateDeposit, now: int)
    : (r: Result<(Bank, Transaction), DepositError>)
    requires HasUserId(b.users, userId)
    ensures r.Err? <==> ApplyReferralBonusAsWritten(b, userId, d.amount, now).Err?
    ensures r.Ok? ==> r.value == CreateDepositOp(b, userId, d, now)
  {
    match ApplyReferralBonusAsWritten(b, userId, d.amount, now)
    case Err(e) => Err(e)
    case Ok(_) => Ok(CreateDepositOp(b, userId, d, now))
  }

  /** The depositor is new, and the referrer exists and keeps the default rate 0.1. */
  predicate ReferredAtDefaultRate(b: Bank, userId: int)
    requires HasUserId(b.users, userId)
  {
    var u := b.users[FindUser(b.users, userId).value];
    && !u.hasDeposited
    && ReferrerIndex(b.users, u).Some?
    && b.users[ReferrerIndex(b.users, u).value].referralBonusRate == Some(DefaultReferralBonusRate)
  }

  /**
   * A referred user whose referrer keeps the default rate 0.1 can never
   * deposit as written: the first attempt fails and leaves the flag unset, so
   * every retry fails the same way.
   */
  lemma DefaultRateBreaksFirstDeposit(b: Bank, userId: int, d: CreateDeposit, now: int)
    requires HasUserId(b.users, userId)
    requires ReferredAtDefaultRate(b, userId)
    ensures CreateDepositAsWritten(b, userId, d, now) == Err(RateTypeError)
  {
    assert ApplyReferralBonusAsWritten(b, userId, d.amount, now) == Err(RateTypeError);
  }

  /** With the rate applied exactly, the same deposit credits the referrer a tenth of it. */
  lemma DefaultRateCreditsATenth(b: Bank, userId: int, d: CreateDeposit, now: int)
    requires HasUserId(b.users, userId)
    requires ReferredAtDefaultRate(b, userId)
    ensures var ri := ReferrerIndex(b.users, b.users[FindUser(b.users, userId).value]).value;
            var stepped := ApplyReferralBonus(b, userId, d.amount, now);
            && stepped.ledger[|b.ledger|].kind == Referral
            && stepped.ledger[|b.ledger|].amount == d.amount / 10.0
            && stepped.users[ri].referralEarnings == Some(b.users[ri].referralEarnings.GetOr(0.0) + d.amount / 10.0)
  {
    var k := FindUser(b.users, userId).value;
    var ri := ReferrerIndex(b.users, b.users[k]);
    StepCreditsATenth(b, k, ri.value, d.amount, now);
    assert ApplyReferralBonus(b, userId, d.amount, now) == StepAt(b, k, ri, d.amount, now);
  }

  lemma StepCreditsATenth(b: Bank, d: nat, ri: nat, amount: real, now: int)
    requires d < |b.users| && ri < |b.users|
    requires !b.users[d].hasDeposited && b.users[ri].referralBonusRate == Some(DefaultReferralBonusRate)
    ensures var stepped := StepAt(b, d, Some(ri), amount, now);
            && stepped.ledger[|b.ledger|].kind == Referral
            && stepped.ledger[|b.ledger|].amount == amount / 10.0
            && stepped.users[ri].referralEarnings == Some(b.users[ri].referralEarnings.GetOr(0.0) + amount / 10.0)
  {
    assert ReferralBonus(amount, b.users[ri].referralBonusRate) == amount / 10.0;
  }

  /** The depositor is new, names themself as referrer, and has no stored rate. */
  predicate SelfReferred(b: Bank, userId: int)
    requires HasUserId(b.users, userId)
  {
    var u := b.users[FindUser(b.users, userId).value];
    !u.hasDeposited && userId != 0 && u.referrerId == Some(userId) && u.referralBonusRate.None?
  }

  /** A self-referred user's first deposit fails as written, whatever the amount. */
  lemma SelfReferralFailsAsWritten(b: Bank, userId: int, d: CreateDeposit, now: int)
    requires HasUserId(b.users, userId)
    requires SelfReferred(b, userId)
    ensures CreateDepositAsWritten(b, userId, d, now) == Err(IdentityConflict)
  {
    var k := FindUser(b.users, userId).value;
    assert ReferrerIndex(b.users, b.users[k]) == Some(k);
  }

  /**
   * With the one user object updated in place, the same deposit's referral step
   * goes through: the user is marked as having deposited and credited a tenth
   * of it as their own referrer.
   */
  lemma SelfReferralCreditsSelf(b: Bank, userId: int, d: CreateDeposit, now: int)
    requires HasUserId(b.users, userId)
    requires SelfReferred(b, userId)
    ensures var k := FindUser(b.users, userId).value;
            var u := b.users[k];
            var stepped := ApplyReferralBonus(b, userId, d.amount, now);
            && stepped.users[k] == u.(referralEarnings := Some(u.referralEarnings.GetOr(0.0) + d.amount / 10.0),
                                      hasDeposited := true)
            && |stepped.ledger| == |b.ledger| + 1
            && stepped.ledger[|b.ledger|].kind == Referral
            && stepped.ledger[|b.ledger|].userId == userId
            && stepped.ledger[|b.ledger|].amount == d.amount / 10.0
  {
    var k := FindUser(b.users, userId).value;
    assert ReferrerIndex(b.users, b.users[k]) == Some(k);
    assert ApplyReferralBonus(b, userId, d.amount, now) == StepAt(b, k, Some(k), d.amount, now);
    StepCreditsSelf(b, k, d.amount, now);
  }

  lemma StepCreditsSelf(b: Bank, k: nat, amount: real, now: int)
    requires k < |b.users| && !b.users[k].hasDeposited && b.users[k].referralBonusRate.None?
    ensures var u := b.users[k];
            var stepped := StepAt(b, k, Some(k), amount, now);
            && stepped.users[k] == u.(referralEarnings := Some(u.referralEarnings.GetOr(0.0) + amount / 10.0),
                                      hasDeposited := true)
            && |stepped.ledger| == |b.ledger| + 1
            && stepped.ledger[|b.ledger|].kind == Referral
            && stepped.ledger[|b.ledger|].userId == u.id
            && stepped.ledger[|b.ledger|].amount == amount / 10.0
  {
  }

  /** The referral step seen from the referrer's earnings and revenue: both rise by the same amount. */
  predicate EarningsMatchRevenue(b: Bank) {
    forall i | 0 <= i < |b.users| :: b.users[i].referralEarnings.GetOr(0.0) == GetUserRevenue(b.ledger, b.users[i].id)
  }

  /**
   * The referral step keeps every user's stored `referral_earnings` equal to
   * the revenue `get_user_revenue` computes from the ledger.
   */
  lemma ReferralStepKeepsEarningsInStep(b: Bank, depositorId: int, amount: real, now: int)
    requires HasUserId(b.users, depositorId)
    requires UniqueUserIds(b.users)
    requires EarningsMatchRevenue(b)
    ensures EarningsMatchRevenue(ApplyReferralBonus(b, depositorId, amount, now))
  {
    var r := ApplyReferralBonus(b, depositorId, amount, now);
    var d := FindUser(b.users, depositorId).value;
    if r.ledger != b.ledger {
      var ri := ReferrerIndex(b.users, b.users[d]).value;
      var row := r.ledger[|b.ledger|];
      assert r.ledger == b.ledger + [row];
      forall i | 0 <= i < |r.users|
        ensures r.users[i].referralEarnings.GetOr(0.0) == GetUserRevenue(r.ledger, r.users[i].id)
      {
        RevenueSnoc(b.ledger, row, b.users[i].id);
        assert r.users[i].id == b.users[i].id;
        if i != ri {
          assert b.users[i].id != b.users[ri].id;
          assert r.users[i].referralEarnings == b.users[i].referralEarnings;
        }
      }
    }
  }

  /** An entry of the promo list: code, bonus amount, and whether it was used. */
  datatype PromoCode = PromoCode(code: string, amount: real, used: bool)

  datatype PromoError =
    | PromoNotFound      // HTTP 404
    | PromoAlreadyUsed   // HTTP 400

  /** The first promo with the code (`next(p for p in promo_codes if ...)`). */
  function FindPromo(promos: seq<PromoCode>, code: string): (r: Option<nat>)
    ensures r.Some? ==> r.value < |promos| && promos[r.value].code == code
    ensures r.Some? ==> forall j | 0 <= j < r.value :: promos[j].code != code
    ensures r.None? <==> forall j | 0 <= j < |promos| :: promos[j].code != code
  {
    FirstMatching(promos, (x: PromoCode) => x.code == code)
  }

  /**
   * `apply_promo_code`: an unknown code and a used code fail with no change;
   * otherwise the code's amount is added as a bonus and the code is marked used.
   */
  function ApplyPromoCode(t: Table, promos: seq<PromoCode>, userId: int, code: string, now: int)
    : (r: Result<(Table, seq<PromoCode>, real), PromoError>)
    ensures r == Err(PromoNotFound) <==> forall j | 0 <= j < |promos| :: promos[j].code != code
    ensures r == Err(PromoAlreadyUsed) <==> FindPromo(promos, code).Some? && promos[FindPromo(promos, code).value].used
    ensures r.Ok? ==> var i := FindPromo(promos, code).value;
                      && r.value.2 == promos[i].amount
                      && r.value.0 == AddBonuses(t, userId, promos[i].amount, now).0
                      && GetBonusBalance(r.value.0, userId) == GetBonusBalance(t, userId) + promos[i].amount
                      && |r.value.1| == |promos|
                      && r.value.1[i] == promos[i].(used := true)
                      && forall j | 0 <= j < |promos| && j != i :: r.value.1[j] == promos[j]
  {
    match FindPromo(promos, code)
    case None => Err(PromoNotFound)
    case Some(i) =>
      if promos[i].used then Err(PromoAlreadyUsed)
      else Ok((AddBonuses(t, userId, promos[i].amount, now).0, promos[i := promos[i].(used := true)], promos[i].amount))
  }

  /** Each promo code pays at most once: a second use, by anybody, fails as already used. */
  lemma PromoCodePaysOnce(t: Table, promos: seq<PromoCode>, userId: int, otherId: int, code: string,
                          now: int, later: int)
    requires ApplyPromoCode(t, promos, userId, code, now).Ok?
    ensures var (t', promos', _) := ApplyPromoCode(t, promos, userId, code, now).value;
            ApplyPromoCode(t', promos', otherId, code, later) == Err(PromoAlreadyUsed)
  {
    var (t', promos', _) := ApplyPromoCode(t, promos, userId, code, now).value;
    var i := FindPromo(promos, code).value;
    assert promos'[i].code == code;
    assert FindPromo(promos', code) == Some(i) by {
      assert forall j | 0 <= j < i :: promos'[j].code != code;
      FirstPromoWithCode(promos', code, i);
    }
  }

  lemma FirstPromoWithCode(promos: seq<PromoCode>, code: string, i: nat)
    requires i < |promos| && promos[i].code == code
    requires forall j | 0 <= j < i :: promos[j].code != code
    ensures FindPromo(promos, code) == Some(i)
  {
  }
}
