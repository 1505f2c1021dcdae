/**
 * The wallet as a whole: any sequence of the wallet's operations, each either
 * applied or refused with nothing stored (an error rolls the session back).
 * Over every such run the table-wide credit premise of the balance facts holds,
 * so a user's pure balance never exceeds what the withdrawal route compares
 * against.
 */
module WalletRuns {
  import opened Results
  import opened WalletModels
  import opened WalletSchemas
  import opened Ledger
  import opened Balance
  import opened Bonus
  import opened Withdrawals
  import opened AccountModels
  import opened Deposits

  /** The state the wallet routes share: users, transactions and the promo list. */
  datatype World = World(bank: Bank, promos: seq<PromoCode>)

  /** One request to a wallet route; `draw` is the value `randint(10, 100)` returned. */
  datatype Op =
    | Deposit(userId: int, d: CreateDeposit, now: int)
    | BonusDeposit(userId: int, d: CreateDeposit, now: int)
    | ClaimBonus(userId: int, draw: int, now: int)
    | Withdraw(userId: int, w: CreateWithdrawal, now: int)
    | Confirm(id: int)
    | Reject(id: int)
    | UsePromo(userId: int, code: string, now: int)

  /** One request: the operation's new state, or the old one when it is refused. */
  function Step(w: World, op: Op): World {
    var b := w.bank;
    match op
    case Deposit(u, d, now) =>
      if HasUserId(b.users, u) then w.(bank := CreateDepositOp(b, u, d, now).0) else w
    case BonusDeposit(u, d, now) =>
      if HasUserId(b.users, u) then w.(bank := CreateBonusDepositOp(b, u, d, now).0) else w
    case ClaimBonus(u, draw, now) =>
      if MinDraw <= draw <= MaxDraw && EarnBonuses(b.ledger, u, now, draw).Ok?
      then w.(bank := b.(ledger := EarnBonuses(b.ledger, u, now, draw).value.0)) else w
    case Withdraw(u, wd, now) =>
      if CreateWithdrawalRequest(b.ledger, u, wd, now).Ok?
      then w.(bank := b.(ledger := CreateWithdrawalRequest(b.ledger, u, wd, now).value.0)) else w
    case Confirm(id) =>
      if ConfirmWithdrawal(b.ledger, id).Ok? then w.(bank := b.(ledger := ConfirmWithdrawal(b.ledger, id).value)) else w
    case Reject(id) =>
      if RejectWithdrawal(b.ledger, id).Ok? then w.(bank := b.(ledger := RejectWithdrawal(b.ledger, id).value)) else w
    case UsePromo(u, code, now) =>
      match ApplyPromoCode(b.ledger, w.promos, u, code, now)
      case Ok((t', promos', _)) => World(b.(ledger := t'), promos')
      case Err(_) => w
  }

  /** The requests applied one after another. */
  function Run(w: World, ops: seq<Op>): World
    decreases |ops|
  {
    if |ops| == 0 then w else Run(Step(w, ops[0]), ops[1..])
  }

  /** No stored referral rate is negative. */
  predicate RatesNonNegative(users: Users) {
    forall i | 0 <= i < |users| :: users[i].referralBonusRate.None? || users[i].referralBonusRate.value >= 0.0
  }

  /** No promo code pays a negative amount. */
  predicate PromosNonNegative(promos: seq<PromoCode>) {
    forall i | 0 <= i < |promos| :: promos[i].amount >= 0.0
  }

  predicate Sound(w: World) {
    CreditAmountsNonNegative(w.bank.ledger) && RatesNonNegative(w.bank.users) && PromosNonNegative(w.promos)
  }

  /** A positive deposit at a non-negative (or default) rate earns a non-negative bonus. */
  lemma ReferralBonusNonNegative(amount: real, stored: Option<real>)
    requires amount >= 0.0 && (stored.None? || stored.value >= 0.0)
    ensures ReferralBonus(amount, stored) >= 0.0
  {
    var rate := EffectiveRate(stored);
    assert rate >= 0.0;
    assert amount * rate >= 0.0;
  }

  /** The referral step keeps every stored rate and adds at most one non-negative credit. */
  lemma StepKeepsSound(b: Bank, d: nat, ri: Option<nat>, amount: real, now: int)
    requires d < |b.users| && (ri.Some? ==> ri.value < |b.users|) && amount >= 0.0
    requires CreditAmountsNonNegative(b.ledger) && RatesNonNegative(b.users)
    ensures var r := StepAt(b, d, ri, amount, now);
            CreditAmountsNonNegative(r.ledger) && RatesNonNegative(r.users)
  {
    var r := StepAt(b, d, ri, amount, now);
    forall i | 0 <= i < |r.users| ensures r.users[i].referralBonusRate == b.users[i].referralBonusRate {
    }
    if !b.users[d].hasDeposited && ri.Some? {
      var referrer := b.users[ri.value];
      ReferralBonusNonNegative(amount, referrer.referralBonusRate);
      assert r.ledger == b.ledger + [r.ledger[|b.ledger|]];
      CreditAmountsSnoc(b.ledger, r.ledger[|b.ledger|]);
    }
  }

  lemma ReferralStepKeepsSound(b: Bank, userId: int, amount: real, now: int)
    requires HasUserId(b.users, userId) && amount >= 0.0
    requires CreditAmountsNonNegative(b.ledger) && RatesNonNegative(b.users)
    ensures var r := ApplyReferralBonus(b, userId, amount, now);
            CreditAmountsNonNegative(r.ledger) && RatesNonNegative(r.users)
  {
    var d := FindUser(b.users, userId).value;
    StepKeepsSound(b, d, ReferrerIndex(b.users, b.users[d]), amount, now);
  }

  /** Every wallet request keeps the premise: the rates and promo amounts unchanged, every new credit non-negative. */
  lemma StepKeepsSoundWorld(w: World, op: Op)
    requires Sound(w)
    ensures Sound(Step(w, op))
  {
    var b := w.bank;
    match op
    case Deposit(u, d, now) =>
      if HasUserId(b.users, u) {
        ReferralStepKeepsSound(b, u, d.amount, now);
        var r := CreateDepositOp(b, u, d, now);
        CreditAmountsSnoc(ApplyReferralBonus(b, u, d.amount, now).ledger, r.1);
      }
    case BonusDeposit(u, d, now) =>
      if HasUserId(b.users, u) {
        ReferralStepKeepsSound(b, u, d.amount, now);
        var r := CreateBonusDepositOp(b, u, d, now);
        CreditAmountsSnoc(ApplyReferralBonus(b, u, d.amount, now).ledger, r.1);
      }
    case ClaimBonus(u, draw, now) =>
      if MinDraw <= draw <= MaxDraw && EarnBonuses(b.ledger, u, now, draw).Ok? {
        var t' := EarnBonuses(b.ledger, u, now, draw).value.0;
        assert t' == b.ledger + [t'[|b.ledger|]];
        CreditAmountsSnoc(b.ledger, t'[|b.ledger|]);
      }
    case Withdraw(u, wd, now) =>
      if CreateWithdrawalRequest(b.ledger, u, wd, now).Ok? {
        CreditAmountsSnoc(b.ledger, CreateWithdrawalRequest(b.ledger, u, wd, now).value.1);
      }
    case Confirm(id) =>
    case Reject(id) =>
    case UsePromo(u, code, now) =>
      if ApplyPromoCode(b.ledger, w.promos, u, code, now).Ok? {
        var (t', promos', _) := ApplyPromoCode(b.ledger, w.promos, u, code, now).value;
        var i := FindPromo(w.promos, code).value;
        CreditAmountsSnoc(b.ledger, AddBonuses(b.ledger, u, w.promos[i].amount, now).1);
        assert PromosNonNegative(promos') by {
          forall j | 0 <= j < |promos'| ensures promos'[j].amount >= 0.0 {
            assert promos'[j].amount == w.promos[j].amount;
          }
        }
      }
  }

  lemma {:induction false} RunKeepsSound(w: World, ops: seq<Op>)
    requires Sound(w)
    ensures Sound(Run(w, ops))
    decreases |ops|
  {
    if |ops| > 0 {
      StepKeepsSoundWorld(w, ops[0]);
      RunKeepsSound(Step(w, ops[0]), ops[1..]);
    }
  }

  /**
   * Starting from an empty ledger, with non-negative rates and promo amounts,
   * every run leaves each user's pure balance at most their balance, and at
   * most their balance minus bonus, the amount the withdrawal route allows.
   */
  lemma PureAtMostWithdrawableOnEveryRun(users: Users, promos: seq<PromoCode>, ops: seq<Op>, user: int)
    requires RatesNonNegative(users) && PromosNonNegative(promos)
    ensures var t := Run(World(Bank(users, []), promos), ops).bank.ledger;
            && GetPureBalance(t, user) <= GetBalance(t, user)
            && GetPureBalance(t, user) <= Withdrawable(t, user)
  {
    var w := World(Bank(users, []), promos);
    RunKeepsSound(w, ops);
    var t := Run(w, ops).bank.ledger;
    PureAtMostTotal(t, user);
  }
}
