/**
 * Transaction history paging (`get_transactions` and
 * `get_total_transactions_by_user` of src/wallet/service.py, combined by the
 * history route of src/wallet/route.py). Rows come back in table order.
 */
module History {
  import opened Results
  import opened Numerals
  import opened WalletModels
  import opened WalletSchemas
  import opened Ledger

  datatype HistoryError =
    | InvalidTypeFilter        // `TransactionType(int(t))` raising ValueError
    | NegativeOffsetOrLimit    // the database refusing a negative OFFSET or LIMIT

  /** The kinds named by comma-separated codes, or an error at the first bad code. */
  function ParseCodes(pieces: seq<string>): (r: Result<seq<TransactionType>, HistoryError>)
    ensures r.Ok? <==> forall k | 0 <= k < |pieces| ::
                         ParseInt(pieces[k]).Some? && TypeOfCode(ParseInt(pieces[k]).value).Some?
    ensures r.Ok? ==> |r.value| == |pieces|
    ensures r.Ok? ==> forall k | 0 <= k < |pieces| :: r.value[k] == TypeOfCode(ParseInt(pieces[k]).value).value
    decreases |pieces|
  {
    if |pieces| == 0 then Ok([])
    else
      var code := ParseInt(pieces[0]);
      if code.None? || TypeOfCode(code.value).None? then Err(InvalidTypeFilter)
      else
        match ParseCodes(pieces[1..])
        case Err(e) => Err(e)
        case Ok(rest) => Ok([TypeOfCode(code.value).value] + rest)
  }

  /** The `types` query parameter: absent or empty means no filter. */
  function ParseTypes(types: Option<string>): (r: Result<Option<seq<TransactionType>>, HistoryError>)
    ensures (types.None? || types.value == "") ==> r == Ok(None)
    ensures types.Some? && types.value != "" ==>
              && (r.Ok? <==> ParseCodes(Split(types.value, ',')).Ok?)
              && (r.Ok? ==> r.value == Some(ParseCodes(Split(types.value, ',')).value))
  {
    if types.None? || types.value == "" then Ok(None)
    else
      match ParseCodes(Split(types.value, ','))
      case Err(e) => Err(e)
      case Ok(kinds) => Ok(Some(kinds))
  }

  /** The filter string for a list of kinds: their codes joined by commas. */
  function TypesParam(kinds: seq<TransactionType>): string {
    Join(seq(|kinds|, k requires 0 <= k < |kinds| => NatToString(TypeCode(kinds[k]))), ',')
  }

  /** Parsing the filter string of a non-empty list of kinds gives the list back. */
  lemma TypesParamRoundTrip(kinds: seq<TransactionType>)
    requires |kinds| >= 1
    ensures ParseTypes(Some(TypesParam(kinds))) == Ok(Some(kinds))
  {
    var parts := seq(|kinds|, k requires 0 <= k < |kinds| => NatToString(TypeCode(kinds[k])));
    forall k | 0 <= k < |parts|
      ensures ',' !in parts[k]
      ensures ParseInt(parts[k]) == Some(TypeCode(kinds[k]) as int)
    {
      ParseIntToString(TypeCode(kinds[k]));
      assert IntToString(TypeCode(kinds[k])) == parts[k];
    }
    SplitJoin(parts, ',');
    var codes := ParseCodes(parts);
    assert codes.Ok?;
    assert codes.value == kinds;
  }

  /** Whether a row is one of the user's and passes the kind filter. */
  predicate Matches(t: Transaction, user: int, filter: Option<seq<TransactionType>>) {
    t.userId == user && (filter.None? || t.kind in filter.value)
  }

  /** The user's rows passing the filter, in table order. */
  function Filtered(t: Table, user: int, filter: Option<seq<TransactionType>>): (r: Table)
    ensures forall x :: x in r <==> x in t && Matches(x, user, filter)
    ensures forall x :: multiset(r)[x] == if Matches(x, user, filter) then multiset(t)[x] else 0
    ensures |r| <= |t|
    decreases |t|
  {
    if |t| == 0 then []
    else
      assert t == [t[0]] + t[1..];
      if Matches(t[0], user, filter) then [t[0]] + Filtered(t[1..], user, filter)
      else Filtered(t[1..], user, filter)
  }

  /** Filtering keeps table order: the rows of a prefix come before the rows of what follows it. */
  lemma {:induction false} FilteredAppend(a: Table, b: Table, user: int, filter: Option<seq<TransactionType>>)
    ensures Filtered(a + b, user, filter) == Filtered(a, user, filter) + Filtered(b, user, filter)
    decreases |a|
  {
    if |a| == 0 {
      assert a + b == b;
    } else {
      assert (a + b)[1..] == a[1..] + b;
      FilteredAppend(a[1..], b, user, filter);
    }
  }

  /** `OFFSET offset LIMIT limit` over a list, for non-negative offset and limit. */
  function Page(rows: Table, offset: nat, limit: nat): (r: Table)
    ensures |r| <= limit
    ensures |r| == if offset >= |rows| then 0 else if |rows| - offset < limit then |rows| - offset else limit
    ensures forall k | 0 <= k < |r| :: r[k] == rows[offset + k]
  {
    if offset >= |rows| then []
    else if |rows| - offset < limit then rows[offset..]
    else rows[offset..offset + limit]
  }

  /** `get_total_transactions_by_user`: the number of rows the history pages are cut from. */
  function GetTotalTransactionsByUser(t: Table, user: int, types: Option<string>): (r: Result<nat, HistoryError>)
    ensures r.Ok? <==> ParseTypes(types).Ok?
    ensures r.Ok? ==> r.value == |Filtered(t, user, ParseTypes(types).value)|
    ensures r.Ok? && types.None? ==> r.value == |Filtered(t, user, None)|
  {
    match ParseTypes(types)
    case Err(e) => Err(e)
    case Ok(filter) => Ok(|Filtered(t, user, filter)|)
  }

  /**
   * `get_transactions`: page `page` of `limit` rows of the filtered history,
   * starting at row `(page - 1) * limit`.
   */
  function GetTransactions(t: Table, page: int, limit: int, user: int, types: Option<string>)
    : (r: Result<Table, HistoryError>)
    ensures r.Ok? <==> ParseTypes(types).Ok? && limit >= 0 && (page - 1) * limit >= 0
    ensures r.Err? && ParseTypes(types).Ok? ==> r.error == NegativeOffsetOrLimit
    ensures r.Ok? ==> var rows := Filtered(t, user, ParseTypes(types).value);
                      var offset := (page - 1) * limit;
                      && |r.value| <= limit
                      && |r.value| <= |rows|
                      && 0 <= offset
                      && (|r.value| > 0 ==> offset + |r.value| <= |rows|)
                      && (forall k | 0 <= k < |r.value| :: r.value[k] == rows[offset + k])
                      && (offset < |rows| && limit > 0 ==> |r.value| > 0)
                      && |r.value| == (if offset >= |rows| then 0
                                       else if |rows| - offset < limit then |rows| - offset else limit)
  {
    match ParseTypes(types)
    case Err(e) => Err(e)
    case Ok(filter) =>
      var offset := (page - 1) * limit;
      if offset < 0 || limit < 0 then Err(NegativeOffsetOrLimit)
      else Ok(Page(Filtered(t, user, filter), offset, limit))
  }

  /** The first `n` pages of size `limit`, one after another. */
  function FirstPages(rows: Table, limit: nat, n: nat): Table
    decreases n
  {
    if n == 0 then [] else FirstPages(rows, limit, n - 1) + Page(rows, (n - 1) * limit, limit)
  }

  /** The first `k` rows, or all of them when there are fewer. */
  function Prefix(rows: Table, k: nat): (r: Table)
    ensures |r| == if k <= |rows| then k else |rows|
  {
    rows[..if k <= |rows| then k else |rows|]
  }

  /** The rows before an offset followed by the page at that offset are the rows before offset plus limit. */
  lemma PrefixThenPage(rows: Table, offset: nat, limit: nat)
    ensures Prefix(rows, offset) + Page(rows, offset, limit) == Prefix(rows, offset + limit)
  {
    var lo := if offset <= |rows| then offset else |rows|;
    var hi := if offset + limit <= |rows| then offset + limit else |rows|;
    assert Page(rows, offset, limit) == rows[lo..hi];
    assert rows[..lo] + rows[lo..hi] == rows[..hi];
  }

  /** Reading pages 1..n in turn yields the history's first n*limit rows, without gaps or repeats. */
  lemma {:induction false} PagesTileHistory(rows: Table, limit: nat, n: nat)
    ensures FirstPages(rows, limit, n) == Prefix(rows, n * limit)
    decreases n
  {
    if n > 0 {
      PagesTileHistory(rows, limit, n - 1);
      var offset: nat := (n - 1) * limit;
      assert n * limit == offset + limit;
      PrefixThenPage(rows, offset, limit);
    }
  }

  /** The history route: one page together with the total, which is never smaller than the page. */
  function GetHistory(t: Table, user: int, page: int, limit: int, types: Option<string>)
    : (r: Result<ReadTransactionsPaginated, HistoryError>)
    ensures r.Ok? <==> GetTransactions(t, page, limit, user, types).Ok?
    ensures r.Ok? ==> |r.value.transactions| <= r.value.total && |r.value.transactions| <= limit
    ensures r.Ok? ==> forall x :: x in r.value.transactions ==> Matches(x, user, ParseTypes(types).value)
    ensures r.Ok? ==> r.value.total == GetTotalTransactionsByUser(t, user, types).value
                      && r.value.transactions == GetTransactions(t, page, limit, user, types).value
  {
    match GetTransactions(t, page, limit, user, types)
    case Err(e) => Err(e)
    case Ok(rows) =>
      var total := GetTotalTransactionsByUser(t, user, types).value;
      assert forall x :: x in rows ==> x in Filtered(t, user, ParseTypes(types).value);
      Ok(ReadTransactionsPaginated(total, rows))
  }
}
