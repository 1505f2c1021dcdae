/**
 * The transactions table as an append-only sequence of rows in insertion
 * order (`create_transaction` and `session.get` of src/wallet/service.py).
 * The database's id sequence is modelled by `FreshId`.
 */
module Ledger {
  import opened Results
  import opened WalletModels
  import opened WalletSchemas

  type Table = seq<Transaction>

  /** The primary-key invariant of the table. */
  predicate UniqueIds(t: Table) {
    forall i, j | 0 <= i < j < |t| :: t[i].id != t[j].id
  }

  /** The largest id in use (0 for an empty table). */
  function MaxId(t: Table): (m: nat)
    ensures forall i | 0 <= i < |t| :: t[i].id <= m
    ensures |t| > 0 ==> exists i | 0 <= i < |t| :: t[i].id == m
    decreases |t|
  {
    if |t| == 0 then 0
    else
      var rest := MaxId(t[1..]);
      assert forall i | 1 <= i < |t| :: t[i] == t[1..][i - 1];
      if t[0].id >= rest then t[0].id else rest
  }

  /** The id the database assigns to the next row: positive and not yet used. */
  function FreshId(t: Table): (id: nat)
    ensures id > 0
    ensures forall i | 0 <= i < |t| :: t[i].id != id
  {
    MaxId(t) + 1
  }

  /** `create_transaction`: store the request as a new row, stamped `now`, at the end of the table. */
  function Create(t: Table, c: CreateTransaction, now: int): (r: (Table, Transaction))
    ensures r.0 == t + [r.1]
    ensures Describe(r.1) == c && r.1.createdAt == now
    ensures forall i | 0 <= i < |t| :: t[i].id != r.1.id
    ensures UniqueIds(t) ==> UniqueIds(r.0)
  {
    var row := Materialize(c, FreshId(t), now);
    (t + [row], row)
  }

  /** `session.get(Transaction, id)`: the position of the row with that id, if any. */
  function Find(t: Table, id: int): (r: Option<nat>)
    ensures r.Some? ==> r.value < |t| && t[r.value].id == id
    ensures r.Some? ==> forall j | 0 <= j < r.value :: t[j].id != id
    ensures r.None? <==> forall j | 0 <= j < |t| :: t[j].id != id
  {
    FirstMatching(t, (x: Transaction) => x.id == id)
  }

  /** Under the primary-key invariant the row found is the only one with that id. */
  lemma FindUnique(t: Table, id: int, i: nat)
    requires UniqueIds(t)
    requires i < |t| && t[i].id == id
    ensures Find(t, id) == Some(i)
  {
  }
}
