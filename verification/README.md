# MoonGamble wallet ledger — a Dafny model

MoonGamble is an online-casino backend. Its money lives in one table of
transactions, and every balance is recomputed from it on demand. This project
models that ledger and the code around it:

- the transaction record and its enumerations, and the request schemas;
- the three balance folds: total, bonus and "pure";
- the daily bonus with its 24-hour cooldown;
- deposits, bonus deposits and the once-per-user referral bonus;
- withdrawal requests and the admin's confirm and reject;
- the paginated, type-filtered history;
- promo codes;
- the users table: sign-up, Telegram and VK linking, password and avatar
  changes, and the referral statistics;
- the slot-provider adapter: the signed request headers, the mapping from
  HTTP status to result or error, and the retry policy.

Everything is pure Dafny over immutable values. A database table is a
`seq` of rows in insertion order, and a lookup by id takes the first row
with that id. An operation that writes takes the table and returns the new
table. Money is `real`, so Python's `Decimal` arithmetic is exact here. Time
is whole seconds, and a calendar day is `createdAt / 86400`.

Some inputs come from outside the model and are parameters instead:

- the clock (`now`);
- the random bonus draw, an integer in [10, 100];
- the generated ids, `uuid4` codes and nonces;
- the password hash, fingerprint hash and HMAC-SHA1, passed as function values.

Modules, one per source concern:

| file | module | models |
|---|---|---|
| results.dfy | Results | `Option`, `Result` and the first-match lookup |
| numerals.dfy | Numerals | `str(int)`, `int(str)`, `str.split` and `str.join` |
| wallet_models.dfy | WalletModels | src/wallet/models.py |
| wallet_schemas.dfy | WalletSchemas | src/wallet/schemas.py |
| ledger.dfy | Ledger | the transactions table, `create_transaction`, `session.get` |
| balance.dfy | Balance | `get_balance`, `get_bonus_balance`, `get_pure_balance` |
| bonus.dfy | Bonus | latest bonus, `add_bonuses`, `earn_bonuses` |
| withdrawals.dfy | Withdrawals | withdrawal request, pending list, confirm and reject |
| history.dfy | History | type filter, paging, totals, the history route |
| account_models.dfy | AccountModels | src/providers/models.py (the `User` row) |
| accounts.dfy | Accounts | `UserService` in src/users/service.py |
| referrals.dfy | Referrals | `ReferralsService` in src/users/service.py |
| deposits.dfy | Deposits | referral bonus, deposits and promo codes in src/wallet/route.py |
| pragmatic.dfy | Pragmatic | src/providers/pragmatic/utils.py |
| wallet_runs.dfy | WalletRuns | any sequence of the wallet routes' requests, and the invariant every run keeps |

## Model

| member | source | states |
|---|---|---|
| Numerals.NatToString | src/wallet/service.py:131 | `str(n)`: a non-empty run of digits with no leading zero |
| Numerals.IntToString | src/users/service.py:122 | `str(i)`: non-empty, and starts with '-' exactly when `i` is negative |
| Numerals.ParseNat | src/wallet/service.py:41 | succeeds exactly on a non-empty run of digits |
| Numerals.ParseInt | src/wallet/service.py:41 | succeeds exactly on digits or on '-' followed by digits, with the digits' value, negated after the '-' |
| Numerals.ParseNatToString | src/wallet/service.py:41 | `int(str(n)) == n` for every natural number |
| Numerals.ParseIntToString | src/users/service.py:122 | `int(str(i)) == i` for every integer, so a stored avatar id reads back as the id |
| Numerals.Split | src/wallet/service.py:41 | `split(',')` yields at least one piece and no piece contains the separator |
| Numerals.Join | src/providers/pragmatic/utils.py:24 | `sep.join(parts)`: empty for no parts; starts with the first part, followed by the separator when more parts follow |
| Numerals.JoinSplit | src/wallet/service.py:41 | joining the pieces of a split gives back the original string |
| Numerals.SplitJoin | src/providers/pragmatic/utils.py:24 | splitting a join of separator-free pieces gives back the pieces |
| WalletModels.TypeCode | src/wallet/models.py:11-15 | each transaction type has a code below 4 that maps back to it |
| WalletModels.TypeOfCode | src/wallet/models.py:11-15 | `TransactionType(c)` succeeds exactly for codes 0 to 3 |
| WalletModels.TypeCodesAreABijection | src/wallet/models.py:11-15 | types and the codes 0..3 correspond one to one |
| WalletModels.PaymentSystemValue | src/wallet/models.py:18-24 | each payment system's stored value maps back to it |
| WalletModels.StatusValue | src/wallet/models.py:27-30 | each status's stored value maps back to it |
| WalletModels.NewTransaction | src/wallet/models.py:40-45 | a new row is CONFIRMED with empty accounts unless told otherwise |
| WalletSchemas.ValidateDeposit | src/wallet/schemas.py:11-16 | a deposit body is accepted exactly when its amount is positive |
| WalletSchemas.ValidateWithdrawal | src/wallet/schemas.py:19-21 | a withdrawal body is accepted exactly when its amount is positive |
| WalletSchemas.DefaultCreateTransaction | src/wallet/schemas.py:24-31 | the request's defaults: empty accounts, CONFIRMED |
| WalletSchemas.Materialize | src/wallet/service.py:29 | a stored row carries exactly the request's fields, plus its id and time |
| WalletSchemas.MaterializeDescribe | src/wallet/service.py:29 | a row is rebuilt exactly from its request, id and time |
| Ledger.MaxId | src/wallet/models.py:35 | no row's id exceeds it, and some row has it |
| Ledger.FreshId | src/wallet/models.py:35 | the database's next id is positive and unused |
| Ledger.Create | src/wallet/service.py:27-34 | appends exactly one row holding the request, under a fresh id; unique ids stay unique |
| Ledger.Find | src/wallet/service.py:172 | finds the first row with the id, and fails exactly when no row has it |
| Ledger.FindUnique | src/wallet/models.py:35 | when ids are unique, the lookup finds the only row with the id |
| Balance.FoldIsSumOfConfirmed | src/wallet/service.py:63-105 | each balance loop equals a signed sum of per-kind confirmed amounts |
| Balance.GetBalance | src/wallet/service.py:63-80 | confirmed IN+BONUS+REFERRAL minus confirmed OUT; pending and rejected rows ignored |
| Balance.GetBonusBalance | src/wallet/service.py:82-92 | the sum of confirmed BONUS amounts |
| Balance.GetPureBalance | src/wallet/service.py:94-105 | confirmed IN minus confirmed OUT |
| Balance.ReadBalanceOf | src/wallet/route.py:162-174 | the reported balance is pure plus bonus plus the confirmed referral credits |
| Balance.FoldAppend | src/wallet/service.py:69-77 | a balance over two tables is the sum of the two balances |
| Balance.FoldSnoc | src/wallet/service.py:69-77 | one appended row moves a balance by exactly its own contribution |
| Balance.InertRowChangesNothing | src/wallet/service.py:72-77 | a pending or rejected row, or another user's row, moves none of the three balances |
| Balance.FoldUpdate | src/wallet/service.py:72-77 | rewriting one row moves a balance by the new contribution minus the old one |
| Balance.FoldRemove | src/wallet/service.py:69 | a balance is one row's contribution plus the balance of the other rows |
| Balance.MultisetRemove | src/wallet/service.py:69 | taking the same row out of two equal multisets leaves equal multisets |
| Balance.FoldPermutation | src/wallet/service.py:65-69 | the balances do not depend on the order in which the query returns rows |
| Balance.Own | src/wallet/service.py:65 | keeps exactly the user's rows, and every balance is the same over them |
| Balance.BalancesDependOnlyOnOwnRows | src/wallet/service.py:65 | two tables with the same rows for a user give that user the same balances |
| Balance.SumWhereNonNegative | src/wallet/schemas.py:11 | with non-negative credits (which every run keeps, see WalletRuns.RunKeepsSound), the confirmed bonus and referral sums are non-negative |
| Balance.CreditAmountsSnoc | src/wallet/schemas.py:11 | appending a row that is not a negative credit keeps every BONUS and REFERRAL amount non-negative, for every user |
| Balance.PureAtMostTotal | src/wallet/route.py:126-128 | with non-negative credits, pure balance never exceeds balance minus bonus; WalletRuns.PureAtMostWithdrawableOnEveryRun discharges the premise for every reachable ledger |
| WalletRuns.ReferralBonusNonNegative | src/wallet/route.py:35-36 | a non-negative amount at a non-negative (or default) rate earns a non-negative referral bonus |
| WalletRuns.StepKeepsSound | src/wallet/route.py:31-56 | the referral step keeps every stored rate and adds only non-negative REFERRAL credits |
| WalletRuns.ReferralStepKeepsSound | src/wallet/route.py:31-56 | the same for the step looked up by user id |
| WalletRuns.StepKeepsSoundWorld | src/wallet/route.py:61-282 | every wallet request (deposit, bonus deposit, daily bonus, withdrawal, confirm, reject, promo code) keeps credits, rates and promo amounts non-negative; a refused request stores nothing |
| WalletRuns.RunKeepsSound | src/wallet/route.py:61-282 | any sequence of wallet requests keeps the same invariant |
| WalletRuns.PureAtMostWithdrawableOnEveryRun | src/wallet/route.py:126-128 | from an empty ledger with non-negative rates and promo amounts, after any run each user's pure balance is at most their balance and at most balance minus bonus |
| Withdrawals.Withdrawable | src/wallet/route.py:126-128 | balance minus bonus is the pure balance plus the confirmed referral credits |
| Bonus.LatestBonus | src/wallet/service.py:107-123 | none exactly when the user has no BONUS row; otherwise one of the user's BONUS rows with the latest time |
| Bonus.AddBonuses | src/wallet/service.py:125-134 | appends one confirmed internal BONUS row, system to `str(user)`; bonus and total rise by the amount, pure does not move |
| Bonus.EarnBonuses | src/wallet/service.py:136-156 | refused, with seconds left, exactly when a bonus is under 24 h old; otherwise exactly what `add_bonuses` stores for the draw: one confirmed internal BONUS row from "system" to `str(user)` |
| Bonus.SecondClaimWithinADayFails | src/wallet/service.py:148-156 | a second claim within 24 hours of a granted one is refused |
| Bonus.ClaimAfterADaySucceeds | src/wallet/service.py:149-153 | a claim at least 24 hours after every earlier bonus is granted |
| Bonus.EarnBonusesAsWritten | src/wallet/service.py:142-153 | as written, every claim fails: too early, or `randint` is undefined |
| Bonus.FirstClaimFailsAsWritten | src/wallet/service.py:142-146 | a user's first claim fails as written, while the intended operation grants it |
| Withdrawals.CreateWithdrawalRequest | src/wallet/route.py:109-137 | takes a validated body (amount > 0, typed `PositiveAmount`); accepted exactly when the amount is within balance minus bonus; appends one PENDING OUT row of the amount |
| Withdrawals.PendingWithdrawalReservesNothing | src/wallet/route.py:117-135 | a pending request leaves every balance unchanged, so an identical second request is also accepted |
| Withdrawals.PendingWithdrawals | src/wallet/service.py:158-168 | exactly the OUT rows that are PENDING, each as often as it occurs in the table |
| Withdrawals.Settle | src/wallet/service.py:170-190 | succeeds exactly when the id names a PENDING row; changes only that row's status |
| Withdrawals.ConfirmWithdrawal | src/wallet/service.py:170-179 | the pending row becomes CONFIRMED and no other row changes; otherwise an error |
| Withdrawals.RejectWithdrawal | src/wallet/service.py:181-190 | the pending row becomes REJECTED and no other row changes; otherwise an error |
| Withdrawals.SecondDecisionFails | src/wallet/service.py:173 | once confirmed or rejected, a row cannot be decided again |
| Withdrawals.FindFirst | src/wallet/service.py:172 | the lookup returns the first row carrying the id |
| Withdrawals.SettlementEffectOnBalances | src/wallet/service.py:174 | confirming lowers balance and pure balance by the amount; rejecting changes nothing |
| History.ParseCodes | src/wallet/service.py:41 | accepted exactly when every piece is a number naming a type; the types in order |
| History.ParseTypes | src/wallet/service.py:40-42 | no filter for a missing or empty parameter; otherwise the parsed types, or an error |
| History.TypesParamRoundTrip | src/wallet/service.py:41 | the parameter built from a non-empty list of types parses back to that list |
| History.Filtered | src/wallet/service.py:38-42 | exactly the user's rows, of the requested types when a filter is given, each as often as in the table |
| History.FilteredAppend | src/wallet/service.py:38-42 | filtering keeps table order: it distributes over concatenation |
| History.Page | src/wallet/service.py:57 | rows `offset` up to `offset + limit`, clipped to the end |
| History.GetTotalTransactionsByUser | src/wallet/service.py:36-47 | the number of filtered rows; fails exactly when the filter does not parse |
| History.GetTransactions | src/wallet/service.py:49-61 | rows `(page-1)*limit` onward of the filtered rows, min(limit, rows left) of them; refused for a negative offset or limit |
| History.Prefix | src/wallet/service.py:57 | the first `k` rows, or all rows when there are fewer |
| History.PrefixThenPage | src/wallet/service.py:57 | the rows before an offset followed by the page at it are the rows before offset plus limit |
| History.PagesTileHistory | src/wallet/service.py:57 | pages 1..n read in turn give the first n*limit rows, without gaps or repeats |
| History.GetHistory | src/wallet/route.py:139-160 | the page of `get_transactions` with the total of `get_total_transactions_by_user`; every row shown matches the user and filter, and the page is no longer than the total or the limit |
| AccountModels.RoleValue | src/providers/models.py:10-14 | each role's stored value maps back to it |
| AccountModels.NewUser | src/providers/models.py:78-115 | a new user is active, has not deposited, has rate 0.1, zero earnings and count, and no Telegram link |
| AccountModels.FindUser | src/users/service.py:51-52 | the first user with the id; none exactly when no user has it |
| Accounts.DefaultRegistration | src/users/schemas.py:12-20 | the sign-up defaults: avatar "1", role 'user', no fingerprint hash |
| Accounts.Register | src/users/service.py:29-49 | refused exactly for a taken username or a missing referrer; appends one user with hashed secrets; ids, usernames and referrers stay consistent |
| Accounts.UsernameCannotBeReused | src/users/service.py:31-37 | after a sign-up, a second sign-up with the same username is refused |
| Accounts.CountMatching | src/users/service.py:80 | at most the number of users; zero exactly when no user matches |
| Results.FirstMatching | src/users/service.py:80 | the first element that matches, with none matching before it; none exactly when nothing matches |
| Accounts.MatchingKeptByUpdate | src/users/service.py:88-90 | rewriting a user without changing whether it matches keeps both lookups |
| Accounts.ScalarOneOrNone | src/users/service.py:80 | nothing for no match, the only match, and an error for several |
| Accounts.LinkTelegram | src/users/service.py:68-96 | links only the one unlinked user with the code, setting exactly its three Telegram fields; otherwise no change |
| Accounts.TelegramLinkedAtMostOnce | src/users/service.py:85-86 | a code that has linked once never links again |
| Accounts.GetUserByVkId | src/users/service.py:54-58 | the one user with the VK id; none exactly when no user has it |
| Accounts.GetUserByUsername | src/users/service.py:60-66 | the user with the username; none exactly when the name is free |
| Accounts.UsernameLookupNeverFails | src/providers/models.py:33-37 | with unique usernames the lookup never errs, and finds someone exactly when the name is taken |
| Accounts.UpdateUserById | src/users/service.py:51-52 | rewrites only the user with the id; fails when there is none |
| Accounts.LinkVk | src/users/service.py:98-107 | sets that user's VK id and nothing else |
| Accounts.ChangePassword | src/users/service.py:109-117 | sets that user's password and nothing else |
| Accounts.UpdateAvatar | src/users/service.py:119-127 | sets that user's avatar to a string that parses back to the id, and nothing else |
| Referrals.CountAllUserReferrals | src/users/service.py:151-157 | zero exactly when nobody names the referrer |
| Referrals.CountAllAppend | src/users/service.py:151-157 | one more user adds one exactly when that user names the referrer |
| Referrals.NewReferralCountsOnce | src/users/service.py:151-157 | a new referral counts once; any other new user not at all |
| Referrals.CountInDays | src/users/service.py:139-146 | a count over a span of days never exceeds the all-time count |
| Referrals.DayOf | src/users/service.py:143 | the calendar day holding a timestamp: the day starts at or before it and ends after it |
| Referrals.SplitFirstDay | src/users/service.py:139-147 | a span of days counts its first day plus the rest |
| Referrals.CountUserReferralsLastNDays | src/users/service.py:135-149 | always 30 entries, day k back from today paired with the referrals made that day |
| Referrals.DailySumIsWindow | src/users/service.py:139-147 | the first n daily counts add up to the count over those n days |
| Referrals.EmptyWindow | src/users/service.py:139-147 | an empty span of days counts nothing |
| Referrals.LastMonthAtMostAll | src/users/service.py:135-157 | the 30 daily counts never add up to more than the all-time count |
| Referrals.GetUserRevenue | src/users/service.py:159-169 | the sum of the user's REFERRAL amounts, whatever their status |
| Referrals.RevenueAppend | src/users/service.py:166-169 | revenue over two tables is the sum of the two revenues |
| Referrals.RevenueSnoc | src/users/service.py:166-169 | one appended row moves revenue by its own referral amount |
| Referrals.RevenueIgnoresStatus | src/users/service.py:160-165 | changing a row's status does not change revenue |
| Deposits.EffectiveRate | src/wallet/route.py:35 | the stored rate when truthy, otherwise 0.1 |
| Deposits.ReferralBonus | src/wallet/route.py:35-36 | with no stored rate, the referrer is credited a tenth of the deposit |
| Deposits.ReferrerIndex | src/wallet/route.py:30-32 | the referrer's position exactly when a non-zero referrer id names an existing user |
| Deposits.ApplyReferralBonus | src/wallet/route.py:28-59 | only a first deposit counts: it sets the flag and, with an existing referrer, adds one REFERRAL row of amount×rate and the same rise in earnings; nobody else changes |
| Deposits.StepAt | src/wallet/route.py:29-57 | the same step, stated on positions in the users table |
| Deposits.CreditReferrer | src/wallet/route.py:35-49 | the referrer's earnings and the new confirmed internal REFERRAL row both carry amount×rate |
| Deposits.ReferralBonusAppliedOnce | src/wallet/route.py:29 | the referral step is idempotent: a second deposit changes nothing |
| Deposits.FirstUserWithId | src/wallet/route.py:31 | the lookup returns the first user carrying the id |
| Deposits.AtMostOneReferralRow | src/wallet/route.py:29-55 | however often a user deposits, at most one REFERRAL row is added for them |
| Deposits.ApplyReferralBonusAsWritten | src/wallet/route.py:28-57 | as written, a first deposit fails with TypeError when the existing referrer has a truthy (float) rate, and with a session identity conflict when a user with a falsy rate refers themself |
| Deposits.CreateDepositOp | src/wallet/route.py:61-83 | takes a validated body (amount > 0); the referral step, then one confirmed IN row; the depositor's pure balance rises by the amount |
| Deposits.ReferralStepKeepsPure | src/wallet/route.py:42-48 | the referral step moves nobody's pure or bonus balance |
| Deposits.StepKeepsPure | src/wallet/route.py:42-48 | the same, stated on positions |
| Deposits.CreateBonusDepositOp | src/wallet/route.py:85-107 | the referral step, then one confirmed BONUS row; bonus balance rises by the amount, pure does not move |
| Deposits.CreateDepositAsWritten | src/wallet/route.py:69-70 | as written, a deposit fails exactly when the referral step raises, with the same error, and then nothing is stored |
| Deposits.DefaultRateBreaksFirstDeposit | src/wallet/route.py:35-36 | a referred user whose referrer keeps the default rate cannot deposit as written |
| Deposits.DefaultRateCreditsATenth | src/wallet/route.py:35-40 | with the rate applied exactly, that deposit credits the referrer a tenth of the amount |
| Deposits.StepCreditsATenth | src/wallet/route.py:35-40 | the same, stated on positions |
| Deposits.SelfReferralFailsAsWritten | src/wallet/route.py:31-56 | a new user who refers themself, with no stored rate, cannot deposit as written |
| Deposits.SelfReferralCreditsSelf | src/wallet/route.py:29-56 | with the user updated in place, that step marks them as deposited and credits them a tenth, with one REFERRAL row |
| Deposits.StepCreditsSelf | src/wallet/route.py:29-56 | the same, stated on positions |
| Deposits.ReferralStepKeepsEarningsInStep | src/wallet/route.py:38-48 | the referral step keeps every user's stored earnings equal to the revenue computed from the ledger |
| Deposits.FindPromo | src/wallet/route.py:222 | the first promo with the code; none exactly when no promo has it |
| Deposits.ApplyPromoCode | src/wallet/route.py:212-237 | not found, already used, or one BONUS row of the promo's amount, with only that promo marked used |
| Deposits.PromoCodePaysOnce | src/wallet/route.py:228-234 | a used promo code pays nobody again |
| Deposits.FirstPromoWithCode | src/wallet/route.py:222 | the lookup returns the first promo carrying the code |
| Pragmatic.Lookup | src/providers/pragmatic/utils.py:22 | absent exactly when no pair has the key; otherwise a pair that is present |
| Pragmatic.LookupMembership | src/providers/pragmatic/utils.py:22 | in a dict, a pair is present exactly when its key looks up its value |
| Pragmatic.Put | src/providers/pragmatic/utils.py:22 | the key now maps to the value, every other key is unchanged, keys stay distinct |
| Pragmatic.Merge | src/providers/pragmatic/utils.py:22 | every key of either dict; on a clash the header's value wins |
| Pragmatic.StrLtIrreflexive | src/providers/pragmatic/utils.py:23 | no string sorts before itself |
| Pragmatic.StrLtTransitive | src/providers/pragmatic/utils.py:23 | string order is transitive |
| Pragmatic.StrLtTotal | src/providers/pragmatic/utils.py:23 | of two different strings, one sorts first |
| Pragmatic.StrLtAsymmetric | src/providers/pragmatic/utils.py:23 | two strings never both sort before each other |
| Pragmatic.ConsSorted | src/providers/pragmatic/utils.py:23 | a pair below every key of a sorted list extends it at the front |
| Pragmatic.LowerBoundCarries | src/providers/pragmatic/utils.py:23 | a lower bound of a list and of one new pair bounds their union |
| Pragmatic.Insert | src/providers/pragmatic/utils.py:23 | inserting keeps the list sorted and adds exactly the one pair |
| Pragmatic.SortByKey | src/providers/pragmatic/utils.py:23 | `sorted(items())`: strictly increasing keys, the same pairs |
| Pragmatic.SortedUnique | src/providers/pragmatic/utils.py:23 | two sorted lists with the same pairs are the same list |
| Pragmatic.SignedPairs | src/providers/pragmatic/utils.py:22-23 | sorted by key; each key's value comes from the headers if they have it, else from the params |
| Pragmatic.SameLookup | src/providers/pragmatic/utils.py:22-23 | two dicts with the same pairs agree on every key |
| Pragmatic.Rendered | src/providers/pragmatic/utils.py:24 | the `k=v` string of each pair, in the pairs' order |
| Pragmatic.CanonicalString | src/providers/pragmatic/utils.py:22-24 | with at least one pair and no '&' in a rendered pair, the signed string splits at '&' into exactly the rendered sorted pairs |
| Pragmatic.CanonicalStringSplits | src/providers/pragmatic/utils.py:24 | with no '&' in keys or values, the signed string splits back into the rendered pairs |
| Pragmatic.CanonicalIgnoresParamOrder | src/providers/pragmatic/utils.py:22-24 | the signed string depends on the params' contents, not their order |
| Pragmatic.BaseHeaders | src/providers/pragmatic/utils.py:16-20 | the three signed headers have distinct names |
| Pragmatic.GenerateHeaders | src/providers/pragmatic/utils.py:12-29 | exactly the merchant id, timestamp, nonce and the HMAC of the signed string, in that order |
| Pragmatic.HandleResponse | src/providers/pragmatic/utils.py:32-60 | 200/201 give the body, 204/304 a fixed detail; each listed error status keeps its code and detail; any other status becomes 430 |
| Pragmatic.AwaitResponseAsWritten | src/providers/pragmatic/utils.py:73 | as written, awaiting fails exactly for 204 and 304 |
| Pragmatic.AwaitResponse | src/providers/pragmatic/utils.py:66-76 | the caller gets exactly what `handle_response` maps |
| Pragmatic.NoContentFailsAsWritten | src/providers/pragmatic/utils.py:37-38 | a 204 fails as written, but the intended result is the "No content" detail |
| Pragmatic.CountTries | src/providers/pragmatic/utils.py:63-65 | one to three calls; every call but the last raised a retryable response error |

## Left out

- HTTP routing, authentication, dependency injection and JSON bodies are left out. Every route is modelled by the operation it performs.
- Sessions, commits, refreshes and logging are left out. Each operation is atomic in the model.
- Concurrency is left out. Two simultaneous bonus claims, withdrawals or promo uses could both pass their checks in the real service. The model runs operations one at a time.
- The order in which the database returns rows is unspecified. The model uses insertion order. `Balance.FoldPermutation` shows the balances do not depend on it.
- History.PagesTileHistory: tiling holds only for one fixed row order. `get_transactions` has no ORDER BY, so two page queries may see the rows in different orders, for instance after an UPDATE between them, and the real pages may then skip or repeat rows.
- `datetime.now()`, `random.randint`, `uuid4`, `time.time()`, password and fingerprint hashing, and HMAC-SHA1 are parameters.
- Decimal and float arithmetic is exact `real` arithmetic. In the source, the fallback `Decimal(0.1)` is built from a float and is not exactly one tenth.
- Deposits.EffectiveRate: the rate is exactly 0.1, not the binary value of `Decimal(0.1)`, because reals carry no float rounding.
- Timezones are left out. The last-earn route's UTC rendering is not modelled, and a day is `createdAt / 86400`.
- Numerals.ParseInt: accepts only an optional '-' followed by digits. Python's `int()` also accepts surrounding whitespace, a '+' sign and underscores.
- History.ParseCodes: because of the narrower ParseInt, a space after a comma in `types` (for example `0, 2`) is refused here, while the source accepts it, since `int(" 2")` strips the space.
- `promo_codes` is never defined in src/wallet/route.py. `Deposits.ApplyPromoCode` takes the list as an input.
- WalletRuns.PureAtMostWithdrawableOnEveryRun: the runs cover the wallet routes only. Registration stores the default rate 0.1, but admin edits of a user's rate and the contents of the promo list are outside the model, so their non-negativity is a premise about the starting users and promo list.
- `get_last_withdrawal_attempt` (src/wallet/route.py:284-298) calls a service method that does not exist, so it always raises. It is not modelled.
- The `referral_count += 1` done by the sign-up route after `register_user` belongs to src/users/route.py. It is not part of this model.
- `update_user` (src/users/service.py:129-132) only commits an already modified object. `Accounts.UpdateUserById` stands for it.
- Accounts.UpdateUserById: a missing user is an error (`UserNotFound`). The source fails on the `None` it gets back with an AttributeError.
- The wallet routes receive the user object from the authentication dependency and add it to a fresh session. The model reads and writes the user's row in the table instead. The one consequence it keeps is the identity conflict when the user is their own referrer. `Deposits.ApplyReferralBonusAsWritten` records it.
- The database's own limits are left out: column widths (`String(64)`), integer overflow, and the NOT NULL and enum constraints beyond those the types express.
- Registration's fingerprint checks (`InvalidFingerprint`, `FingerprintExists`) come from code outside this model.
- In the provider adapter, the HTTP session, the network, the URL and `aiohttp`'s exceptions are left out. `Pragmatic.CountTries` takes how each call ends as input.
- Exponential backoff delays are left out. Only the number of calls is modelled.
- `make_request` refuses any method other than GET and POST. That branch is not modelled.
- Pragmatic.GenerateHeaders: params and header values are already-rendered strings. Python's `f"{v}"` of a non-string value, such as `None` for an unset merchant id, is not modelled.
- Support tickets, bots, OAuth and the other provider routes are outside the modelled core.

## Findings

| source | as written | input that shows it | evidently intended | confidence | as-written member | corrected member |
|---|---|---|---|---|---|---|
| src/wallet/route.py:35-36 | `Decimal(deposit_amount) * referrer.referral_bonus_rate`, with the rate read from a Float column, raises TypeError whenever the rate is truthy. The session rolls back, `has_deposited` stays false, and every retry fails the same way. | A user registered with a referrer whose rate is the default 0.1 makes a first deposit. | The referrer is credited deposit × rate and the deposit is stored. | high, not executed | Deposits.DefaultRateBreaksFirstDeposit | Deposits.DefaultRateCreditsATenth |
| src/wallet/service.py:143 | `randint` is used but never imported, so NameError is raised whenever a bonus would be granted. | A user with no bonus yet claims the daily bonus. | A random amount from 10 to 100 is granted. | high, not executed | Bonus.FirstClaimFailsAsWritten | Bonus.EarnBonuses |
| src/wallet/route.py:31-56 | A user can name their own id as referrer. `session.get(User, user.referrer_id)` then loads the depositor's own row into the fresh session, and `session.add(user)` of the detached user object with the same key raises InvalidRequestError. Nothing is committed. | A new user whose `referrer_id` is their own id and whose rate is NULL makes a first deposit. | The deposit is stored, and the user is credited as their own referrer. | medium, not executed | Deposits.SelfReferralFailsAsWritten | Deposits.SelfReferralCreditsSelf |
| src/providers/pragmatic/utils.py:73 | `await handle_response(response)` awaits the plain dict returned for 204 and 304, which raises TypeError. | The provider answers 204 No Content. | The caller receives the "No content" detail. | high, not executed | Pragmatic.NoContentFailsAsWritten | Pragmatic.AwaitResponse |
