/**
 * The withdrawal workflow: the request check of `create_withdrawal`
 * (src/wallet/route.py) and the admin side of src/wallet/service.py
 * (`get_pending_withdrawals`, `confirm_withdrawal`, `reject_withdrawal`).
 */
module Withdrawals {
  import opened Results
  import opened WalletModels
  import opened WalletSchemas
  import opened Ledger
  import opened Balance

  datatype WithdrawalError =
    | InsufficientPureBalance   // HTTP 400 from the route
    | NotFoundOrNotPending      // WalletException from the service

  /**
   * What the route compares a withdrawal against: `get_balance - get_bonus_balance`.
   * It is the pure balance plus confirmed referral credits, unlike `get_pure_balance`.
   */
  function Withdrawable(t: Table, user: int): (r: real)
    ensures r == GetPureBalance(t, user) + SumWhere(t, user, Referral, Confirmed)
  {
    GetBalance(t, user) - GetBonusBalance(t, user)
  }

  /**
   * `create_withdrawal`: refused with no change when the amount exceeds the
   * withdrawable amount; otherwise one PENDING OUT row of the amount is appended.
   */
  function CreateWithdrawalRequest(t: Table, user: int, w: CreateWithdrawal, now: int)
    : (r: Result<(Table, Transaction), WithdrawalError>)
    ensures r.Ok? <==> w.amount <= GetPureBalance(t, user) + SumWhere(t, user, Referral, Confirmed)
    ensures r.Err? ==> r.error == InsufficientPureBalance
    ensures r.Ok? ==> r.value.0 == t + [r.value.1]
    ensures r.Ok? ==> var row := r.value.1;
                      row.kind == Out && row.status == Pending && row.amount == w.amount
                      && row.userId == user && row.paymentSystem == w.paymentSystem && row.createdAt == now
  {
    if w.amount > Withdrawable(t, user) then Err(InsufficientPureBalance)
    else Ok(Create(t, CreateTransaction(w.paymentSystem, Out, "", "", w.amount, user, Pending), now))
  }

  /**
   * A pending withdrawal reserves nothing: after one request succeeds, the
   * withdrawable amount is unchanged, so an identical second request succeeds too.
   */
  lemma PendingWithdrawalReservesNothing(t: Table, user: int, w: CreateWithdrawal, now: int, later: int)
    requires CreateWithdrawalRequest(t, user, w, now).Ok?
    ensures var t' := CreateWithdrawalRequest(t, user, w, now).value.0;
            Withdrawable(t', user) == Withdrawable(t, user)
            && CreateWithdrawalRequest(t', user, w, later).Ok?
  {
    var (t', row) := CreateWithdrawalRequest(t, user, w, now).value;
    InertRowChangesNothing(t, row, user);
  }

  /** `get_pending_withdrawals`: every user's PENDING OUT rows, in table order. */
  function PendingWithdrawals(t: Table): (r: Table)
    ensures forall x :: x in r <==> x in t && x.kind == Out && x.status == Pending
    ensures forall x :: multiset(r)[x] == if x.kind == Out && x.status == Pending then multiset(t)[x] else 0
    ensures |r| <= |t|
    decreases |t|
  {
    if |t| == 0 then []
    else
      assert t == [t[0]] + t[1..];
      if t[0].kind == Out && t[0].status == Pending then [t[0]] + PendingWithdrawals(t[1..])
      else PendingWithdrawals(t[1..])
  }

  /**
   * The shared body of `confirm_withdrawal` and `reject_withdrawal`: the row
   * with the id must exist and be PENDING; only its status changes. The row's
   * kind is not checked.
   */
  function Settle(t: Table, id: int, outcome: TransactionStatus): (r: Result<Table, WithdrawalError>)
    ensures r.Ok? <==> Find(t, id).Some? && t[Find(t, id).value].status == Pending
    ensures r.Err? ==> r.error == NotFoundOrNotPending
    ensures r.Ok? ==> var i := Find(t, id).value;
                      r.value == t[i := t[i].(status := outcome)]
  {
    match Find(t, id)
    case None => Err(NotFoundOrNotPending)
    case Some(i) =>
      if t[i].status == Pending then Ok(t[i := t[i].(status := outcome)])
      else Err(NotFoundOrNotPending)
  }

  /** `confirm_withdrawal`: PENDING becomes CONFIRMED on the row with the id; every other row and field is kept. */
  function ConfirmWithdrawal(t: Table, id: int): (r: Result<Table, WithdrawalError>)
    ensures r.Ok? <==> exists i | 0 <= i < |t| :: t[i].id == id && t[i].status == Pending
                                                   && forall j | 0 <= j < i :: t[j].id != id
    ensures r.Ok? ==> |r.value| == |t|
    ensures r.Ok? ==> forall j | 0 <= j < |t| ::
                        if t[j].id == id && (forall k | 0 <= k < j :: t[k].id != id)
                        then r.value[j] == t[j].(status := Confirmed)
                        else r.value[j] == t[j]
  {
    Settle(t, id, Confirmed)
  }

  /** `reject_withdrawal`: PENDING becomes REJECTED on the row with the id; every other row and field is kept. */
  function RejectWithdrawal(t: Table, id: int): (r: Result<Table, WithdrawalError>)
    ensures r.Ok? <==> exists i | 0 <= i < |t| :: t[i].id == id && t[i].status == Pending
                                                   && forall j | 0 <= j < i :: t[j].id != id
    ensures r.Ok? ==> |r.value| == |t|
    ensures r.Ok? ==> forall j | 0 <= j < |t| ::
                        if t[j].id == id && (forall k | 0 <= k < j :: t[k].id != id)
                        then r.value[j] == t[j].(status := Rejected)
                        else r.value[j] == t[j]
  {
    Settle(t, id, Rejected)
  }

  /** A decision is final: a second confirm or reject of the same id always fails. */
  lemma SecondDecisionFails(t: Table, id: int, first: TransactionStatus, second: TransactionStatus)
    requires first != Pending
    requires Settle(t, id, first).Ok?
    ensures Settle(Settle(t, id, first).value, id, second).Err?
  {
    var i := Find(t, id).value;
    var t' := Settle(t, id, first).value;
    assert t'[i].id == id;
    assert forall j | 0 <= j < i :: t'[j].id != id;
    FindFirst(t', id, i);
  }

  /** The first row carrying an id is the one `Find` returns. */
  lemma FindFirst(t: Table, id: int, i: nat)
    requires i < |t| && t[i].id == id
    requires forall j | 0 <= j < i :: t[j].id != id
    ensures Find(t, id) == Some(i)
  {
  }

  /**
   * Confirming a user's pending withdrawal lowers their total and pure balances
   * by its amount; rejecting it leaves every balance as it was.
   */
  lemma SettlementEffectOnBalances(t: Table, id: int, user: int)
    requires Find(t, id).Some?
    requires var row := t[Find(t, id).value]; row.status == Pending && row.kind == Out && row.userId == user
    ensures var amount := t[Find(t, id).value].amount;
            && GetBalance(ConfirmWithdrawal(t, id).value, user) == GetBalance(t, user) - amount
            && GetPureBalance(ConfirmWithdrawal(t, id).value, user) == GetPureBalance(t, user) - amount
            && GetBonusBalance(ConfirmWithdrawal(t, id).value, user) == GetBonusBalance(t, user)
            && GetBalance(RejectWithdrawal(t, id).value, user) == GetBalance(t, user)
            && GetPureBalance(RejectWithdrawal(t, id).value, user) == GetPureBalance(t, user)
  {
    var i := Find(t, id).value;
    var confirmed := t[i].(status := Confirmed);
    var rejected := t[i].(status := Rejected);
    FoldUpdate(Total, t, i, confirmed, user);
    FoldUpdate(Pure, t, i, confirmed, user);
    FoldUpdate(BonusOnly, t, i, confirmed, user);
    FoldUpdate(Total, t, i, rejected, user);
    FoldUpdate(Pure, t, i, rejected, user);
  }
}
