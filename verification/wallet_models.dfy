/**
 * The transaction record of the wallet and its three enumerations
 * (src/wallet/models.py).
 */
module WalletModels {
  import opened Results

  /** The kind of a ledger entry; stored and filtered by its integer code. */
  datatype TransactionType = In | Out | Bonus | Referral

  /** The integer code of a kind; the history filter maps it back. */
  function TypeCode(t: TransactionType): (c: nat)
    ensures c < 4
    ensures TypeOfCode(c) == Some(t)
  {
    match t
    case In => 0
    case Out => 1
    case Bonus => 2
    case Referral => 3
  }

  /** `TransactionType(code)`: `None` where Python raises `ValueError`. */
  function TypeOfCode(c: int): (r: Option<TransactionType>)
    ensures r.Some? <==> 0 <= c < 4
  {
    if c == 0 then Some(In)
    else if c == 1 then Some(Out)
    else if c == 2 then Some(Bonus)
    else if c == 3 then Some(Referral)
    else None
  }

  /** The four kinds have four distinct codes, and every code in 0..3 names a kind. */
  lemma TypeCodesAreABijection()
    ensures forall t, u :: TypeCode(t) == TypeCode(u) ==> t == u
    ensures forall c | 0 <= c < 4 :: TypeOfCode(c).Some? && TypeCode(TypeOfCode(c).value) == c
  {
    forall t, u | TypeCode(t) == TypeCode(u)
      ensures t == u
    {
      assert TypeOfCode(TypeCode(t)) == Some(t);
      assert TypeOfCode(TypeCode(u)) == Some(u);
    }
  }

  datatype PaymentSystem = Fps | Sberpay | Yoomoney | Card | P2p | Internal

  /** The value stored for a payment system. */
  function PaymentSystemValue(p: PaymentSystem): (v: string)
    ensures PaymentSystemOfValue(v) == Some(p)
  {
    match p
    case Fps => "faster_payment_system"
    case Sberpay => "sberpay"
    case Yoomoney => "yoomoney"
    case Card => "card"
    case P2p => "p2p"
    case Internal => "internal"
  }

  function PaymentSystemOfValue(v: string): Option<PaymentSystem> {
    if v == "faster_payment_system" then Some(Fps)
    else if v == "sberpay" then Some(Sberpay)
    else if v == "yoomoney" then Some(Yoomoney)
    else if v == "card" then Some(Card)
    else if v == "p2p" then Some(P2p)
    else if v == "internal" then Some(Internal)
    else None
  }

  datatype TransactionStatus = Pending | Confirmed | Rejected

  /** The value stored for a status. */
  function StatusValue(s: TransactionStatus): (v: string)
    ensures StatusOfValue(v) == Some(s)
  {
    match s
    case Pending => "pending"
    case Confirmed => "confirmed"
    case Rejected => "rejected"
  }

  function StatusOfValue(v: string): Option<TransactionStatus> {
    if v == "pending" then Some(Pending)
    else if v == "confirmed" then Some(Confirmed)
    else if v == "rejected" then Some(Rejected)
    else None
  }

  /**
   * One row of the transactions table. `kind` is the column `type`; `createdAt`
   * is in seconds; `amount` is an exact decimal.
   */
  datatype Transaction = Transaction(
    id: nat,
    paymentSystem: PaymentSystem,
    kind: TransactionType,
    amount: real,
    fromAccount: string,
    toAccount: string,
    createdAt: int,
    status: TransactionStatus,
    userId: int)

  /**
   * A row built with only the required columns given: the account labels
   * default to '' and the status to CONFIRMED.
   */
  function NewTransaction(id: nat, paymentSystem: PaymentSystem, kind: TransactionType, amount: real,
                          userId: int, createdAt: int): (t: Transaction)
    ensures t.status == Confirmed
    ensures t.fromAccount == "" && t.toAccount == ""
    ensures t.id == id && t.paymentSystem == paymentSystem && t.kind == kind && t.amount == amount
    ensures t.userId == userId && t.createdAt == createdAt
  {
    Transaction(id, paymentSystem, kind, amount, "", "", createdAt, Confirmed, userId)
  }
}
