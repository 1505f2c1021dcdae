/**
 * The balance engine (`get_balance`, `get_bonus_balance` and
 * `get_pure_balance` of src/wallet/service.py): three folds over one user's
 * rows of the transactions table, and the facts that relate them.
 */
module Balance {
  import opened WalletModels
  import opened WalletSchemas
  import opened Ledger

  /** Which balance a fold computes. */
  datatype View = Total | BonusOnly | Pure

  /** How much one row moves a balance; only CONFIRMED rows move any. */
  function Delta(v: View, t: Transaction): real {
    match v
    case Total =>
      if (t.kind == In || t.kind == Bonus || t.kind == Referral) && t.status == Confirmed then t.amount
      else if t.kind == Out && t.status == Confirmed then -t.amount
      else 0.0
    case BonusOnly =>
      if t.kind == Bonus && t.status == Confirmed then t.amount else 0.0
    case Pure =>
      if t.kind == In && t.status == Confirmed then t.amount
      else if t.kind == Out && t.status == Confirmed then -t.amount
      else 0.0
  }

  /** What one row adds to `user`'s balance: nothing unless the row is theirs. */
  function Contribution(v: View, t: Transaction, user: int): real {
    if t.userId == user then Delta(v, t) else 0.0
  }

  /** The loop over `select(Transaction).where(user_id == user)` accumulating from 0. */
  function Fold(v: View, t: Table, user: int): real
    decreases |t|
  {
    if |t| == 0 then 0.0 else Contribution(v, t[0], user) + Fold(v, t[1..], user)
  }

  /**
   * Reference definition: the sum of the amounts of `user`'s rows of one kind
   * and one status.
   */
  function SumWhere(t: Table, user: int, kind: TransactionType, status: TransactionStatus): real
    decreases |t|
  {
    if |t| == 0 then 0.0
    else
      (if t[0].userId == user && t[0].kind == kind && t[0].status == status then t[0].amount else 0.0)
      + SumWhere(t[1..], user, kind, status)
  }

  /** Each fold equals its signed combination of per-kind confirmed sums. */
  lemma {:induction false} FoldIsSumOfConfirmed(t: Table, user: int)
    ensures Fold(Total, t, user) == SumWhere(t, user, In, Confirmed) + SumWhere(t, user, Bonus, Confirmed)
                                  + SumWhere(t, user, Referral, Confirmed) - SumWhere(t, user, Out, Confirmed)
    ensures Fold(BonusOnly, t, user) == SumWhere(t, user, Bonus, Confirmed)
    ensures Fold(Pure, t, user) == SumWhere(t, user, In, Confirmed) - SumWhere(t, user, Out, Confirmed)
    decreases |t|
  {
    if |t| > 0 {
      FoldIsSumOfConfirmed(t[1..], user);
    }
  }

  /** `get_balance`: confirmed IN, BONUS and REFERRAL amounts minus confirmed OUT amounts. */
  function GetBalance(t: Table, user: int): (b: real)
    ensures b == SumWhere(t, user, In, Confirmed) + SumWhere(t, user, Bonus, Confirmed)
                 + SumWhere(t, user, Referral, Confirmed) - SumWhere(t, user, Out, Confirmed)
  {
    FoldIsSumOfConfirmed(t, user);
    Fold(Total, t, user)
  }

  /** `get_bonus_balance`: confirmed BONUS amounts only. */
  function GetBonusBalance(t: Table, user: int): (b: real)
    ensures b == SumWhere(t, user, Bonus, Confirmed)
  {
    FoldIsSumOfConfirmed(t, user);
    Fold(BonusOnly, t, user)
  }

  /** `get_pure_balance`: confirmed IN minus confirmed OUT; bonus and referral credits excluded. */
  function GetPureBalance(t: Table, user: int): (b: real)
    ensures b == SumWhere(t, user, In, Confirmed) - SumWhere(t, user, Out, Confirmed)
  {
    FoldIsSumOfConfirmed(t, user);
    Fold(Pure, t, user)
  }

  /** The balance endpoint's reply: the total splits into pure, bonus and confirmed referral funds. */
  function ReadBalanceOf(t: Table, user: int): (r: ReadBalance)
    ensures r.balance == r.pureBalance + r.bonusBalance + SumWhere(t, user, Referral, Confirmed)
    ensures r.bonusBalance == SumWhere(t, user, Bonus, Confirmed)
  {
    ReadBalance(GetBalance(t, user), GetBonusBalance(t, user), GetPureBalance(t, user))
  }

  /** A fold over two concatenated tables is the sum of the folds. */
  lemma {:induction false} FoldAppend(v: View, a: Table, b: Table, user: int)
    ensures Fold(v, a + b, user) == Fold(v, a, user) + Fold(v, b, user)
    decreases |a|
  {
    if |a| == 0 {
      assert a + b == b;
    } else {
      assert (a + b)[1..] == a[1..] + b;
      FoldAppend(v, a[1..], b, user);
    }
  }

  /** Appending a row moves each balance by exactly that row's contribution. */
  lemma FoldSnoc(v: View, t: Table, row: Transaction, user: int)
    ensures Fold(v, t + [row], user) == Fold(v, t, user) + Contribution(v, row, user)
  {
    FoldAppend(v, t, [row], user);
  }

  /** A PENDING or REJECTED row, or another user's row, changes none of the balances. */
  lemma InertRowChangesNothing(t: Table, row: Transaction, user: int)
    requires row.status != Confirmed || row.userId != user
    ensures GetBalance(t + [row], user) == GetBalance(t, user)
    ensures GetBonusBalance(t + [row], user) == GetBonusBalance(t, user)
    ensures GetPureBalance(t + [row], user) == GetPureBalance(t, user)
  {
    FoldSnoc(Total, t, row, user);
    FoldSnoc(BonusOnly, t, row, user);
    FoldSnoc(Pure, t, row, user);
  }

  /** Replacing one row moves a balance by the difference of the two rows' contributions. */
  lemma FoldUpdate(v: View, t: Table, i: nat, row: Transaction, user: int)
    requires i < |t|
    ensures Fold(v, t[i := row], user) == Fold(v, t, user) - Contribution(v, t[i], user) + Contribution(v, row, user)
  {
    var before, after := t[..i], t[i + 1..];
    assert t == before + [t[i]] + after;
    assert t[i := row] == before + [row] + after;
    FoldAppend(v, before + [t[i]], after, user);
    FoldAppend(v, before + [row], after, user);
    FoldSnoc(v, before, t[i], user);
    FoldSnoc(v, before, row, user);
  }

  /** Taking one row out of a table takes exactly its contribution out of the fold. */
  lemma FoldRemove(v: View, b: Table, j: nat, user: int)
    requires j < |b|
    ensures Fold(v, b, user) == Contribution(v, b[j], user) + Fold(v, b[..j] + b[j + 1..], user)
  {
    assert b == (b[..j] + [b[j]]) + b[j + 1..];
    FoldAppend(v, b[..j] + [b[j]], b[j + 1..], user);
    FoldSnoc(v, b[..j], b[j], user);
    FoldAppend(v, b[..j], b[j + 1..], user);
  }

  /** Removing an element from the same multiset on both sides keeps the multisets equal. */
  lemma MultisetRemove(a: Table, b: Table, j: nat)
    requires |a| > 0 && j < |b| && b[j] == a[0]
    requires multiset(a) == multiset(b)
    ensures multiset(a[1..]) == multiset(b[..j] + b[j + 1..])
  {
    assert a == [a[0]] + a[1..];
    assert b == b[..j] + [b[j]] + b[j + 1..];
    assert multiset(a[1..]) == multiset(a) - multiset{a[0]};
    assert multiset(b[..j] + b[j + 1..]) == multiset(b) - multiset{b[j]};
  }

  /** Folds are order-independent: any permutation of the table gives the same balance. */
  lemma {:induction false} FoldPermutation(v: View, a: Table, b: Table, user: int)
    requires multiset(a) == multiset(b)
    ensures Fold(v, a, user) == Fold(v, b, user)
    decreases |a|
  {
    if |a| == 0 {
      assert |b| == |multiset(b)| == 0;
    } else {
      assert a[0] in multiset(b);
      var j :| 0 <= j < |b| && b[j] == a[0];
      MultisetRemove(a, b, j);
      FoldPermutation(v, a[1..], b[..j] + b[j + 1..], user);
      FoldRemove(v, b, j, user);
    }
  }

  /** The rows of one user, in table order. */
  function Own(t: Table, user: int): (r: Table)
    ensures forall x :: x in r <==> x in t && x.userId == user
    ensures Fold(Total, r, user) == Fold(Total, t, user)
    ensures Fold(BonusOnly, r, user) == Fold(BonusOnly, t, user)
    ensures Fold(Pure, r, user) == Fold(Pure, t, user)
    decreases |t|
  {
    if |t| == 0 then []
    else if t[0].userId == user then [t[0]] + Own(t[1..], user)
    else Own(t[1..], user)
  }

  /**
   * The three balances depend only on the multiset of the user's own rows:
   * neither the order of the table nor other users' rows matter.
   */
  lemma BalancesDependOnlyOnOwnRows(a: Table, b: Table, user: int)
    requires multiset(Own(a, user)) == multiset(Own(b, user))
    ensures GetBalance(a, user) == GetBalance(b, user)
    ensures GetBonusBalance(a, user) == GetBonusBalance(b, user)
    ensures GetPureBalance(a, user) == GetPureBalance(b, user)
  {
    FoldPermutation(Total, Own(a, user), Own(b, user), user);
    FoldPermutation(BonusOnly, Own(a, user), Own(b, user), user);
    FoldPermutation(Pure, Own(a, user), Own(b, user), user);
  }

  /** No confirmed BONUS or REFERRAL amount of the user is negative. */
  predicate CreditsNonNegative(t: Table, user: int) {
    forall i | 0 <= i < |t| ::
      t[i].userId == user && t[i].status == Confirmed && (t[i].kind == Bonus || t[i].kind == Referral)
      ==> t[i].amount >= 0.0
  }

  /**
   * The table-wide form of the premise: every BONUS and REFERRAL amount, of any
   * user and any status, is non-negative. A status change cannot break it.
   */
  predicate CreditAmountsNonNegative(t: Table) {
    forall i | 0 <= i < |t| :: (t[i].kind == Bonus || t[i].kind == Referral) ==> t[i].amount >= 0.0
  }

  /** Appending a row that is not a negative credit keeps the table-wide premise. */
  lemma CreditAmountsSnoc(t: Table, row: Transaction)
    requires CreditAmountsNonNegative(t)
    requires row.kind == Bonus || row.kind == Referral ==> row.amount >= 0.0
    ensures CreditAmountsNonNegative(t + [row])
    ensures forall user :: CreditsNonNegative(t + [row], user)
  {
    assert forall i | 0 <= i < |t| :: (t + [row])[i] == t[i];
  }

  lemma {:induction false} SumWhereNonNegative(t: Table, user: int, kind: TransactionType)
    requires kind == Bonus || kind == Referral
    requires CreditsNonNegative(t, user)
    ensures SumWhere(t, user, kind, Confirmed) >= 0.0
    decreases |t|
  {
    if |t| > 0 {
      assert CreditsNonNegative(t[1..], user) by {
        forall i | 0 <= i < |t[1..]| ensures t[1..][i] == t[i + 1] { }
      }
      SumWhereNonNegative(t[1..], user, kind);
    }
  }

  /** With non-negative credits, the pure balance and the bonus balance never exceed the total's share. */
  lemma PureAtMostTotal(t: Table, user: int)
    requires CreditsNonNegative(t, user)
    ensures GetPureBalance(t, user) <= GetBalance(t, user)
    ensures GetBalance(t, user) - GetBonusBalance(t, user) >= GetPureBalance(t, user)
  {
    SumWhereNonNegative(t, user, Bonus);
    SumWhereNonNegative(t, user, Referral);
  }
}
