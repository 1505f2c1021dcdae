/**
 * Referral statistics of `ReferralsService` (src/users/service.py): the
 * number of referrals, the per-day counts of the last thirty days, and the
 * revenue from REFERRAL rows. Dates are day numbers (`createdAt / 86400`).
 */
module Referrals {
  import opened Results
  import opened WalletModels
  import opened Ledger
  import opened Balance
  import opened AccountModels

  const SecondsPerDay: int := 86400
  /** The number of days reported, whatever `n_days` is passed. */
  const ReportedDays: nat := 30

  /** The calendar day of a timestamp (`func.date(created_at)`). */
  function DayOf(createdAt: int): (day: int)
    ensures day * 86400 <= createdAt < day * 86400 + 86400
  {
    createdAt / SecondsPerDay
  }

  predicate Refers(u: User, referrer: int) {
    u.referrerId == Some(referrer)
  }

  /** `count_all_user_referrals`: how many users name `referrer` as their referrer. */
  function CountAllUserReferrals(users: Users, referrer: int): (n: nat)
    ensures n <= |users|
    ensures n == 0 <==> forall i | 0 <= i < |users| :: !Refers(users[i], referrer)
    decreases |users|
  {
    if |users| == 0 then 0
    else
      assert forall i | 1 <= i < |users| :: users[i] == users[1..][i - 1];
      (if Refers(users[0], referrer) then 1 else 0) + CountAllUserReferrals(users[1..], referrer)
  }

  lemma {:induction false} CountAllAppend(users: Users, u: User, referrer: int)
    ensures CountAllUserReferrals(users + [u], referrer)
            == CountAllUserReferrals(users, referrer) + (if Refers(u, referrer) then 1 else 0)
    decreases |users|
  {
    if |users| > 0 {
      assert (users + [u])[1..] == users[1..] + [u];
      CountAllAppend(users[1..], u, referrer);
    }
  }

  /** Signing up a user with referrer `r` raises r's referral count by exactly one and no one else's. */
  lemma NewReferralCountsOnce(users: Users, u: User, referrer: int)
    ensures Refers(u, referrer) ==> CountAllUserReferrals(users + [u], referrer) == CountAllUserReferrals(users, referrer) + 1
    ensures !Refers(u, referrer) ==> CountAllUserReferrals(users + [u], referrer) == CountAllUserReferrals(users, referrer)
  {
    CountAllAppend(users, u, referrer);
  }

  /** The referrals of `referrer` whose sign-up falls on days `lo..hi`. */
  function CountInDays(users: Users, referrer: int, lo: int, hi: int): (n: nat)
    ensures n <= CountAllUserReferrals(users, referrer)
    decreases |users|
  {
    if |users| == 0 then 0
    else
      (if Refers(users[0], referrer) && lo <= DayOf(users[0].createdAt) <= hi then 1 else 0)
      + CountInDays(users[1..], referrer, lo, hi)
  }

  /** The referrals of `referrer` signed up on `day`. */
  function CountOnDay(users: Users, referrer: int, day: int): nat {
    CountInDays(users, referrer, day, day)
  }

  /** A window of days splits into its first day and the rest. */
  lemma {:induction false} SplitFirstDay(users: Users, referrer: int, lo: int, hi: int)
    requires lo <= hi
    ensures CountInDays(users, referrer, lo, hi) == CountOnDay(users, referrer, lo) + CountInDays(users, referrer, lo + 1, hi)
    decreases |users|
  {
    if |users| > 0 {
      SplitFirstDay(users[1..], referrer, lo, hi);
    }
  }

  /**
   * `count_user_referrals_last_n_days`: thirty (date, count) entries, from
   * `today` back one day at a time, whatever `nDays` is.
   */
  method CountUserReferralsLastNDays(users: Users, referrer: int, today: int, nDays: int)
    returns (counts: seq<(int, nat)>)
    ensures |counts| == ReportedDays
    ensures forall k | 0 <= k < |counts| :: counts[k] == (today - k, CountOnDay(users, referrer, today - k))
  {
    counts := [];
    var current := today;
    var k := 0;
    while k < ReportedDays
      invariant 0 <= k <= ReportedDays
      invariant current == today - k
      invariant |counts| == k
      invariant forall j | 0 <= j < k :: counts[j] == (today - j, CountOnDay(users, referrer, today - j))
    {
      counts := counts + [(current, CountOnDay(users, referrer, current))];
      current := current - 1;
      k := k + 1;
    }
  }

  /** The sum of the counts in a list of (date, count) entries. */
  function SumCounts(counts: seq<(int, nat)>): nat
    decreases |counts|
  {
    if |counts| == 0 then 0 else SumCounts(counts[..|counts| - 1]) + counts[|counts| - 1].1
  }

  /** The first n entries of the daily report add up to the referrals of those n days. */
  lemma {:induction false} DailySumIsWindow(users: Users, referrer: int, today: int, counts: seq<(int, nat)>, n: nat)
    requires n <= |counts|
    requires forall k | 0 <= k < |counts| :: counts[k] == (today - k, CountOnDay(users, referrer, today - k))
    ensures SumCounts(counts[..n]) == CountInDays(users, referrer, today - n + 1, today)
    decreases n
  {
    if n == 0 {
      EmptyWindow(users, referrer, today + 1, today);
    } else {
      DailySumIsWindow(users, referrer, today, counts, n - 1);
      assert counts[..n][..n - 1] == counts[..n - 1];
      SplitFirstDay(users, referrer, today - n + 1, today);
    }
  }

  lemma {:induction false} EmptyWindow(users: Users, referrer: int, lo: int, hi: int)
    requires hi < lo
    ensures CountInDays(users, referrer, lo, hi) == 0
    decreases |users|
  {
    if |users| > 0 {
      EmptyWindow(users[1..], referrer, lo, hi);
    }
  }

  /** The thirty daily counts never add up to more than the total number of referrals. */
  lemma LastMonthAtMostAll(users: Users, referrer: int, today: int, counts: seq<(int, nat)>)
    requires forall k | 0 <= k < |counts| :: counts[k] == (today - k, CountOnDay(users, referrer, today - k))
    ensures SumCounts(counts) <= CountAllUserReferrals(users, referrer)
  {
    DailySumIsWindow(users, referrer, today, counts, |counts|);
    assert counts[..|counts|] == counts;
  }

  /** `get_user_revenue`: the amounts of the user's REFERRAL rows, whatever their status. */
  function GetUserRevenue(t: Table, user: int): (r: real)
    ensures r == SumWhere(t, user, Referral, Confirmed) + SumWhere(t, user, Referral, Pending)
                 + SumWhere(t, user, Referral, Rejected)
    decreases |t|
  {
    if |t| == 0 then 0.0
    else (if t[0].userId == user && t[0].kind == Referral then t[0].amount else 0.0) + GetUserRevenue(t[1..], user)
  }

  /** What one row adds to a user's revenue. */
  function RevenueOf(row: Transaction, user: int): real {
    if row.userId == user && row.kind == Referral then row.amount else 0.0
  }

  lemma {:induction false} RevenueAppend(a: Table, b: Table, user: int)
    ensures GetUserRevenue(a + b, user) == GetUserRevenue(a, user) + GetUserRevenue(b, user)
    decreases |a|
  {
    if |a| == 0 {
      assert a + b == b;
    } else {
      assert (a + b)[1..] == a[1..] + b;
      RevenueAppend(a[1..], b, user);
    }
  }

  /** Appending a row raises revenue by that row's share of it. */
  lemma RevenueSnoc(t: Table, row: Transaction, user: int)
    ensures GetUserRevenue(t + [row], user) == GetUserRevenue(t, user) + RevenueOf(row, user)
  {
    RevenueAppend(t, [row], user);
  }

  /** Revenue ignores status, so settling a row (changing only its status) never changes it. */
  lemma RevenueIgnoresStatus(t: Table, i: nat, status: TransactionStatus, user: int)
    requires i < |t|
    ensures GetUserRevenue(t[i := t[i].(status := status)], user) == GetUserRevenue(t, user)
  {
    var before, after := t[..i], t[i + 1..];
    assert t == before + [t[i]] + after;
    assert t[i := t[i].(status := status)] == before + [t[i].(status := status)] + after;
    RevenueAppend(before + [t[i]], after, user);
    RevenueAppend(before + [t[i].(status := status)], after, user);
    RevenueSnoc(before, t[i], user);
    RevenueSnoc(before, t[i].(status := status), user);
  }
}
