/**
 * The daily bonus gate (`get_latest_bonus_earn_transaction`, `add_bonuses`
 * and `earn_bonuses` of src/wallet/service.py). The random draw is a
 * parameter and the clock is the parameter `now`, in seconds.
 */
module Bonus {
  import opened Results
  import opened Numerals
  import opened WalletModels
  import opened WalletSchemas
  import opened Ledger
  import opened Balance

  /** Seconds that must pass between two bonus rows of a user. */
  const BonusCooldown: int := 86400
  /** Bounds of `randint(10, 100)`, both inclusive. */
  const MinDraw: int := 10
  const MaxDraw: int := 100

  /** A BONUS row of the user, whatever its status. */
  predicate IsBonusOf(t: Transaction, user: int) {
    t.userId == user && t.kind == Bonus
  }

  /** `get_latest_bonus_earn_transaction`: a BONUS row of the user with the greatest `created_at`. */
  function LatestBonus(t: Table, user: int): (r: Option<Transaction>)
    ensures r.None? <==> forall i | 0 <= i < |t| :: !IsBonusOf(t[i], user)
    ensures r.Some? ==> r.value in t && IsBonusOf(r.value, user)
    ensures r.Some? ==> forall i | 0 <= i < |t| && IsBonusOf(t[i], user) :: t[i].createdAt <= r.value.createdAt
    decreases |t|
  {
    if |t| == 0 then None
    else
      var rest := LatestBonus(t[1..], user);
      assert forall i | 1 <= i < |t| :: t[i] == t[1..][i - 1];
      if IsBonusOf(t[0], user) && (rest.None? || rest.value.createdAt <= t[0].createdAt) then Some(t[0])
      else rest
  }

  /** The creation request `add_bonuses` builds: internal, from 'system' to `str(user)`, confirmed by default. */
  function BonusRequest(user: int, amount: real): CreateTransaction {
    CreateTransaction(Internal, Bonus, "system", IntToString(user), amount, user, Confirmed)
  }

  /** `add_bonuses`: append one confirmed BONUS row; the bonus balance and the total grow by the amount. */
  function AddBonuses(t: Table, user: int, amount: real, now: int): (r: (Table, Transaction))
    ensures r.0 == t + [r.1]
    ensures r.1.kind == Bonus && r.1.status == Confirmed && r.1.paymentSystem == Internal
    ensures r.1.fromAccount == "system" && r.1.toAccount == IntToString(user)
    ensures r.1.userId == user && r.1.amount == amount && r.1.createdAt == now
    ensures GetBonusBalance(r.0, user) == GetBonusBalance(t, user) + amount
    ensures GetBalance(r.0, user) == GetBalance(t, user) + amount
    ensures GetPureBalance(r.0, user) == GetPureBalance(t, user)
  {
    var (t', row) := Create(t, BonusRequest(user, amount), now);
    FoldSnoc(Total, t, row, user);
    FoldSnoc(BonusOnly, t, row, user);
    FoldSnoc(Pure, t, row, user);
    (t', row)
  }

  /**
   * Why a claim yields no bonus. `TooEarly` carries the seconds still to wait
   * (the source logs them); `RandintUndefined` is the `NameError` of the code as written.
   */
  datatype BonusError = TooEarly(secondsLeft: int) | RandintUndefined

  /** True when some BONUS row of the user is less than a day old at `now` (or dated after it). */
  predicate RecentBonus(t: Table, user: int, now: int) {
    exists i | 0 <= i < |t| :: IsBonusOf(t[i], user) && now - t[i].createdAt < BonusCooldown
  }

  /**
   * `earn_bonuses` with `randint(10, 100)` supplied as `draw`. It refuses with
   * `TooEarly` exactly when a BONUS row of the user is less than a day old, and
   * otherwise appends exactly one confirmed BONUS row of `draw`.
   */
  function EarnBonuses(t: Table, user: int, now: int, draw: int): (r: Result<(Table, real), BonusError>)
    requires MinDraw <= draw <= MaxDraw
    ensures r.Err? <==> RecentBonus(t, user, now)
    ensures r.Err? ==> r.error.TooEarly? && 0 < r.error.secondsLeft
    ensures r.Ok? ==> r.value.1 == draw as real && 10.0 <= r.value.1 <= 100.0
    ensures r.Ok? ==> |r.value.0| == |t| + 1 && r.value.0[..|t|] == t
    ensures r.Ok? ==> var row := r.value.0[|t|];
                      IsBonusOf(row, user) && row.status == Confirmed && row.createdAt == now
                      && row.amount == draw as real
    ensures r.Ok? ==> GetBonusBalance(r.value.0, user) == GetBonusBalance(t, user) + draw as real
    ensures r.Ok? ==> r.value.0 == AddBonuses(t, user, draw as real, now).0
  {
    match LatestBonus(t, user)
    case None =>
      var (t', row) := AddBonuses(t, user, draw as real, now);
      assert t'[..|t|] == t;
      Ok((t', draw as real))
    case Some(latest) =>
      var elapsed := now - latest.createdAt;
      if elapsed >= BonusCooldown then
        var (t', row) := AddBonuses(t, user, draw as real, now);
        assert t'[..|t|] == t;
        Ok((t', draw as real))
      else
        assert exists i | 0 <= i < |t| :: t[i] == latest;
        Err(TooEarly(BonusCooldown - elapsed))
  }

  /**
   * A second claim less than a day after a successful one is refused, and the
   * reported wait is at least what remains of that day.
   */
  lemma SecondClaimWithinADayFails(t: Table, user: int, now: int, draw: int, later: int, draw2: int)
    requires MinDraw <= draw <= MaxDraw && MinDraw <= draw2 <= MaxDraw
    requires EarnBonuses(t, user, now, draw).Ok?
    requires now <= later < now + BonusCooldown
    ensures var second := EarnBonuses(EarnBonuses(t, user, now, draw).value.0, user, later, draw2);
            second.Err? && second.error.secondsLeft >= BonusCooldown - (later - now)
  {
    var t' := EarnBonuses(t, user, now, draw).value.0;
    assert IsBonusOf(t'[|t|], user) && later - t'[|t|].createdAt < BonusCooldown;
    var latest := LatestBonus(t', user);
    assert latest.value.createdAt >= now;
  }

  /** A claim a full day after the user's latest BONUS row succeeds. */
  lemma ClaimAfterADaySucceeds(t: Table, user: int, now: int, draw: int)
    requires MinDraw <= draw <= MaxDraw
    requires forall i | 0 <= i < |t| && IsBonusOf(t[i], user) :: t[i].createdAt + BonusCooldown <= now
    ensures EarnBonuses(t, user, now, draw).Ok?
  {
  }

  /**
   * `earn_bonuses` as written: `randint` is never imported, so every call that
   * gets past the gate raises `NameError` before anything is stored.
   */
  function EarnBonusesAsWritten(t: Table, user: int, now: int): (r: Result<(Table, real), BonusError>)
    ensures r.Err?
    ensures r.error.RandintUndefined? <==> !RecentBonus(t, user, now)
  {
    match LatestBonus(t, user)
    case None => Err(RandintUndefined)
    case Some(latest) =>
      var elapsed := now - latest.createdAt;
      if elapsed >= BonusCooldown then Err(RandintUndefined)
      else
        assert exists i | 0 <= i < |t| :: t[i] == latest;
        Err(TooEarly(BonusCooldown - elapsed))
  }

  /** A user's very first claim: the corrected gate pays, the code as written never does. */
  lemma FirstClaimFailsAsWritten(user: int, now: int)
    ensures EarnBonusesAsWritten([], user, now) == Err(RandintUndefined)
    ensures EarnBonuses([], user, now, MinDraw).Ok?
  {
  }
}
