/**
 * Request and response shapes of the wallet (src/wallet/schemas.py): the
 * positive-amount validation of deposit and withdrawal requests, the defaults
 * of a transaction-creation request, and the balance and history replies.
 */
module WalletSchemas {
  import opened Results
  import opened WalletModels

  /** The only way a request body fails validation here: `amount` not greater than 0. */
  datatype ValidationError = AmountNotPositive

  /** `Field(gt=0.0)`: a request body reaches a route only with an amount greater than 0. */
  type PositiveAmount = x: real | x > 0.0 witness 1.0

  datatype CreateDeposit = CreateDeposit(paymentSystem: PaymentSystem, amount: PositiveAmount)

  datatype CreateWithdrawal = CreateWithdrawal(paymentSystem: PaymentSystem, amount: PositiveAmount)

  /** Validation of a deposit body: accepted exactly when the amount is positive. */
  function ValidateDeposit(paymentSystem: PaymentSystem, amount: real): (r: Result<CreateDeposit, ValidationError>)
    ensures r.Ok? <==> amount > 0.0
    ensures r.Ok? ==> r.value.amount == amount && r.value.paymentSystem == paymentSystem
  {
    if amount > 0.0 then Ok(CreateDeposit(paymentSystem, amount)) else Err(AmountNotPositive)
  }

  /** Validation of a withdrawal body: accepted exactly when the amount is positive. */
  function ValidateWithdrawal(paymentSystem: PaymentSystem, amount: real): (r: Result<CreateWithdrawal, ValidationError>)
    ensures r.Ok? <==> amount > 0.0
    ensures r.Ok? ==> r.value.amount == amount && r.value.paymentSystem == paymentSystem
  {
    if amount > 0.0 then Ok(CreateWithdrawal(paymentSystem, amount)) else Err(AmountNotPositive)
  }

  /** Everything a new row needs except the id and creation time, which the store assigns. */
  datatype CreateTransaction = CreateTransaction(
    paymentSystem: PaymentSystem,
    kind: TransactionType,
    fromAccount: string,
    toAccount: string,
    amount: real,
    userId: int,
    status: TransactionStatus)

  /** A creation request with the account labels and status left at their defaults. */
  function DefaultCreateTransaction(paymentSystem: PaymentSystem, kind: TransactionType, amount: real,
                                    userId: int): (c: CreateTransaction)
    ensures c.status == Confirmed && c.fromAccount == "" && c.toAccount == ""
    ensures c.paymentSystem == paymentSystem && c.kind == kind && c.amount == amount && c.userId == userId
  {
    CreateTransaction(paymentSystem, kind, "", "", amount, userId, Confirmed)
  }

  /** `Transaction(**request.model_dump())` stored under `id` at time `now`. */
  function Materialize(c: CreateTransaction, id: nat, now: int): (t: Transaction)
    ensures Describe(t) == c
    ensures t.id == id && t.createdAt == now
  {
    Transaction(id, c.paymentSystem, c.kind, c.amount, c.fromAccount, c.toAccount, now, c.status, c.userId)
  }

  /** The creation request a stored row came from. */
  function Describe(t: Transaction): CreateTransaction {
    CreateTransaction(t.paymentSystem, t.kind, t.fromAccount, t.toAccount, t.amount, t.userId, t.status)
  }

  /** A stored row is the materialisation of its own description: nothing is lost. */
  lemma MaterializeDescribe(t: Transaction)
    ensures Materialize(Describe(t), t.id, t.createdAt) == t
  {
  }

  /** The three balance views returned together by the balance endpoint. */
  datatype ReadBalance = ReadBalance(balance: real, bonusBalance: real, pureBalance: real)

  /** One page of history together with the size of the whole filtered history. */
  datatype ReadTransactionsPaginated = ReadTransactionsPaginated(total: nat, transactions: seq<Transaction>)
}
