/**
 * The pure part of the slot-provider adapter (src/providers/pragmatic/utils.py):
 * the canonical "k=v&..." string that is signed, the request headers, the
 * mapping from HTTP status to result or error, and the retry policy. The
 * HMAC, nonce and clock are parameters. Dictionaries are association lists
 * with distinct keys, as Python dicts are.
 */
module Pragmatic {
  import opened Results
  import opened Numerals

  type Dict = seq<(string, string)>

  predicate DistinctKeys(d: Dict) {
    forall i, j | 0 <= i < j < |d| :: d[i].0 != d[j].0
  }

  /** `d.get(k)`. */
  function Lookup(d: Dict, k: string): (r: Option<string>)
    ensures r.None? <==> forall i | 0 <= i < |d| :: d[i].0 != k
    ensures r.Some? ==> (k, r.value) in d
    decreases |d|
  {
    if |d| == 0 then None
    else if d[0].0 == k then Some(d[0].1)
    else
      assert forall i | 1 <= i < |d| :: d[i] == d[1..][i - 1];
      Lookup(d[1..], k)
  }

  /** In a dict with distinct keys, a pair is present exactly when its key looks up its value. */
  lemma LookupMembership(d: Dict, p: (string, string))
    requires DistinctKeys(d)
    ensures p in d <==> Lookup(d, p.0) == Some(p.1)
    decreases |d|
  {
    if |d| > 0 && d[0].0 != p.0 {
      assert DistinctKeys(d[1..]) by {
        forall i, j | 0 <= i < j < |d[1..]| ensures d[1..][i].0 != d[1..][j].0 {
          assert d[1..][i] == d[i + 1] && d[1..][j] == d[j + 1];
        }
      }
      LookupMembership(d[1..], p);
      assert p in d <==> p in d[1..] by {
        assert d == [d[0]] + d[1..];
      }
    } else if |d| > 0 {
      forall i | 0 < i < |d| ensures d[i] != p {
        assert d[i].0 != d[0].0;
      }
    }
  }

  /** `d[k] = v`: overwrite in place when the key exists, otherwise append. */
  function Put(d: Dict, k: string, v: string): (r: Dict)
    requires DistinctKeys(d)
    ensures DistinctKeys(r)
    ensures Lookup(r, k) == Some(v)
    ensures forall j :: j != k ==> Lookup(r, j) == Lookup(d, j)
    decreases |d|
  {
    if |d| == 0 then [(k, v)]
    else if d[0].0 == k then
      assert forall i | 1 <= i < |d| :: d[i].0 != k;
      [(k, v)] + d[1..]
    else
      assert DistinctKeys(d[1..]) by {
        forall i, j | 0 <= i < j < |d[1..]| ensures d[1..][i].0 != d[1..][j].0 {
          assert d[1..][i] == d[i + 1] && d[1..][j] == d[j + 1];
        }
      }
      var rest := Put(d[1..], k, v);
      assert forall i | 0 <= i < |d[1..]| :: d[1..][i].0 != d[0].0 by {
        forall i | 0 <= i < |d[1..]| ensures d[1..][i].0 != d[0].0 {
          assert d[1..][i] == d[i + 1];
        }
      }
      assert Lookup(rest, d[0].0).None?;
      [d[0]] + rest
  }

  /** `{**a, **b}`: every key of either; on a clash the value from `b` wins. */
  function Merge(a: Dict, b: Dict): (r: Dict)
    requires DistinctKeys(a) && DistinctKeys(b)
    ensures DistinctKeys(r)
    ensures forall k :: Lookup(r, k) == if Lookup(b, k).Some? then Lookup(b, k) else Lookup(a, k)
    decreases |b|
  {
    if |b| == 0 then a
    else
      assert DistinctKeys(b[1..]) by {
        forall i, j | 0 <= i < j < |b[1..]| ensures b[1..][i].0 != b[1..][j].0 {
          assert b[1..][i] == b[i + 1] && b[1..][j] == b[j + 1];
        }
      }
      assert forall i | 1 <= i < |b| :: b[i].0 != b[0].0 && b[i] == b[1..][i - 1];
      Merge(Put(a, b[0].0, b[0].1), b[1..])
  }

  /** Python's `<` on strings: lexicographic by code point, a proper prefix first. */
  predicate StrLt(a: string, b: string)
    decreases |a|
  {
    if |a| == 0 then |b| > 0
    else if |b| == 0 then false
    else if a[0] != b[0] then a[0] < b[0]
    else StrLt(a[1..], b[1..])
  }

  lemma StrLtIrreflexive(a: string)
    ensures !StrLt(a, a)
  {
  }

  lemma {:induction false} StrLtTransitive(a: string, b: string, c: string)
    requires StrLt(a, b) && StrLt(b, c)
    ensures StrLt(a, c)
    decreases |a|
  {
    if |a| > 0 && |b| > 0 && |c| > 0 && a[0] == b[0] && b[0] == c[0] {
      StrLtTransitive(a[1..], b[1..], c[1..]);
    }
  }

  lemma {:induction false} StrLtTotal(a: string, b: string)
    requires a != b
    ensures StrLt(a, b) || StrLt(b, a)
    decreases |a|
  {
    if |a| > 0 && |b| > 0 && a[0] == b[0] {
      assert a[1..] != b[1..] by {
        assert a == [a[0]] + a[1..] && b == [b[0]] + b[1..];
      }
      StrLtTotal(a[1..], b[1..]);
    }
  }

  lemma StrLtAsymmetric(a: string, b: string)
    requires StrLt(a, b)
    ensures !StrLt(b, a)
  {
    if StrLt(b, a) {
      StrLtTransitive(a, b, a);
      StrLtIrreflexive(a);
    }
  }

  /** Pairs in strictly increasing key order (what `sorted(d.items())` gives for distinct keys). */
  predicate SortedByKey(d: Dict) {
    forall i, j | 0 <= i < j < |d| :: StrLt(d[i].0, d[j].0)
  }

  /** A pair whose key is below every key of a sorted list extends it at the front. */
  lemma ConsSorted(x: (string, string), rest: Dict)
    requires SortedByKey(rest)
    requires forall y | y in rest :: StrLt(x.0, y.0)
    ensures SortedByKey([x] + rest)
  {
    var r := [x] + rest;
    forall i, j | 0 <= i < j < |r| ensures StrLt(r[i].0, r[j].0) {
      if i == 0 { assert r[j] == rest[j - 1]; } else { assert r[i] == rest[i - 1] && r[j] == rest[j - 1]; }
    }
  }

  /** A key below every key of `s` and below `p.0` is below every key of `s` with `p` added. */
  lemma LowerBoundCarries(x: (string, string), s: Dict, p: (string, string), r: Dict)
    requires multiset(r) == multiset(s) + multiset{p}
    requires StrLt(x.0, p.0)
    requires forall y | y in s :: StrLt(x.0, y.0)
    ensures forall y | y in r :: StrLt(x.0, y.0)
  {
    forall y | y in r ensures StrLt(x.0, y.0) {
      assert y in multiset(r);
      if y != p { assert y in multiset(s); }
    }
  }

  /** Insert a pair with a new key into a key-sorted list, keeping it sorted. */
  function Insert(s: Dict, p: (string, string)): (r: Dict)
    requires SortedByKey(s)
    requires forall i | 0 <= i < |s| :: s[i].0 != p.0
    ensures SortedByKey(r)
    ensures multiset(r) == multiset(s) + multiset{p}
    decreases |s|
  {
    if |s| == 0 then [p]
    else if StrLt(p.0, s[0].0) then
      assert forall y | y in s :: StrLt(p.0, y.0) by {
        forall y | y in s ensures StrLt(p.0, y.0) {
          var j :| 0 <= j < |s| && s[j] == y;
          if j > 0 { StrLtTransitive(p.0, s[0].0, s[j].0); }
        }
      }
      ConsSorted(p, s);
      [p] + s
    else
      StrLtTotal(p.0, s[0].0);
      assert SortedByKey(s[1..]) by {
        forall i, j | 0 <= i < j < |s[1..]| ensures StrLt(s[1..][i].0, s[1..][j].0) {
          assert s[1..][i] == s[i + 1] && s[1..][j] == s[j + 1];
        }
      }
      assert forall i | 0 <= i < |s[1..]| :: s[1..][i].0 != p.0 by {
        forall i | 0 <= i < |s[1..]| ensures s[1..][i].0 != p.0 {
          assert s[1..][i] == s[i + 1];
        }
      }
      var rest := Insert(s[1..], p);
      assert s == [s[0]] + s[1..];
      assert forall y | y in s[1..] :: StrLt(s[0].0, y.0) by {
        forall y | y in s[1..] ensures StrLt(s[0].0, y.0) {
          var j :| 0 <= j < |s[1..]| && s[1..][j] == y;
          assert s[j + 1] == y;
        }
      }
      LowerBoundCarries(s[0], s[1..], p, rest);
      ConsSorted(s[0], rest);
      [s[0]] + rest
  }

  /** `sorted(d.items())` for a dict: strictly increasing keys, the same pairs. */
  function SortByKey(d: Dict): (r: Dict)
    requires DistinctKeys(d)
    ensures SortedByKey(r)
    ensures multiset(r) == multiset(d)
    decreases |d|
  {
    if |d| == 0 then []
    else
      var last := d[|d| - 1];
      var init := d[..|d| - 1];
      assert DistinctKeys(init);
      var sorted := SortByKey(init);
      assert forall i | 0 <= i < |sorted| :: sorted[i].0 != last.0 by {
        forall i | 0 <= i < |sorted| ensures sorted[i].0 != last.0 {
          assert sorted[i] in multiset(init);
          var j :| 0 <= j < |init| && init[j] == sorted[i];
        }
      }
      assert d == init + [last];
      Insert(sorted, last)
  }

  /** Two key-sorted lists with the same pairs are the same list. */
  lemma {:induction false} SortedUnique(a: Dict, b: Dict)
    requires SortedByKey(a) && SortedByKey(b)
    requires forall x :: x in a <==> x in b
    ensures a == b
    decreases |a|
  {
    assert |b| > 0 ==> b[0] in b;
    if |a| > 0 {
      assert a[0] in b;
      assert |b| > 0;
      assert b[0] in b;
      var j :| 0 <= j < |b| && b[j] == a[0];
      var i :| 0 <= i < |a| && a[i] == b[0];
      if i > 0 && j > 0 {
        StrLtAsymmetric(a[0].0, b[0].0);
        assert false;
      }
      assert a[0] == b[0];
      forall x
        ensures x in a[1..] <==> x in b[1..]
      {
        if x in a[1..] {
          var i :| 0 <= i < |a[1..]| && a[1..][i] == x;
          assert StrLt(a[0].0, x.0) by { assert a[i + 1] == x; }
          StrLtIrreflexive(x.0);
          assert x in b;
          assert x != b[0];
          assert b == [b[0]] + b[1..];
        }
        if x in b[1..] {
          var i :| 0 <= i < |b[1..]| && b[1..][i] == x;
          assert StrLt(b[0].0, x.0) by { assert b[i + 1] == x; }
          StrLtIrreflexive(x.0);
          assert x in a;
          assert x != a[0];
          assert a == [a[0]] + a[1..];
        }
      }
      SortedUnique(a[1..], b[1..]);
      assert a == [a[0]] + a[1..] && b == [b[0]] + b[1..];
    }
  }

  /** `f"{k}={v}"`. */
  function RenderPair(p: (string, string)): string {
    p.0 + "=" + p.1
  }

  /** The pairs that are signed: params merged with the headers, sorted by key. */
  function SignedPairs(params: Dict, headers: Dict): (r: Dict)
    requires DistinctKeys(params) && DistinctKeys(headers)
    ensures SortedByKey(r)
    ensures forall k :: Lookup(headers, k).Some? ==> Lookup(r, k) == Lookup(headers, k)
    ensures forall k :: Lookup(headers, k).None? ==> Lookup(r, k) == Lookup(params, k)
  {
    var merged := Merge(params, headers);
    var sorted := SortByKey(merged);
    assert DistinctKeys(sorted) by {
      forall i, j | 0 <= i < j < |sorted| ensures sorted[i].0 != sorted[j].0 {
        StrLtIrreflexive(sorted[i].0);
      }
    }
    forall k
      ensures Lookup(sorted, k) == Lookup(merged, k)
    {
      SameLookup(sorted, merged, k);
    }
    sorted
  }

  /** Two distinct-key dicts holding the same pairs agree on every lookup. */
  lemma SameLookup(a: Dict, b: Dict, k: string)
    requires DistinctKeys(a) && DistinctKeys(b)
    requires multiset(a) == multiset(b)
    ensures Lookup(a, k) == Lookup(b, k)
  {
    if Lookup(a, k).Some? {
      var v := Lookup(a, k).value;
      LookupMembership(a, (k, v));
      assert (k, v) in multiset(b);
      LookupMembership(b, (k, v));
    }
    if Lookup(b, k).Some? {
      var v := Lookup(b, k).value;
      LookupMembership(b, (k, v));
      assert (k, v) in multiset(a);
      LookupMembership(a, (k, v));
    }
  }

  /** The string that is signed: the sorted pairs rendered `k=v` and joined with '&'. */
  function CanonicalString(params: Dict, headers: Dict): (s: string)
    requires DistinctKeys(params) && DistinctKeys(headers)
    ensures |SignedPairs(params, headers)| >= 1
            && (forall p | p in SignedPairs(params, headers) :: '&' !in RenderPair(p))
            ==> Split(s, '&') == Rendered(SignedPairs(params, headers))
  {
    var pairs := SignedPairs(params, headers);
    var parts := Rendered(pairs);
    assert |pairs| >= 1 && (forall p | p in pairs :: '&' !in RenderPair(p)) ==> Split(Join(parts, '&'), '&') == parts by {
      if |pairs| >= 1 && (forall p | p in pairs :: '&' !in RenderPair(p)) {
        assert forall k | 0 <= k < |parts| :: parts[k] == RenderPair(pairs[k]) && pairs[k] in pairs;
        SplitJoin(parts, '&');
      }
    }
    Join(parts, '&')
  }

  /** One `k=v` string per pair, in the pairs' order. */
  function Rendered(pairs: Dict): (r: seq<string>)
    ensures |r| == |pairs|
    ensures forall i | 0 <= i < |pairs| :: r[i] == RenderPair(pairs[i])
  {
    seq(|pairs|, i requires 0 <= i < |pairs| => RenderPair(pairs[i]))
  }

  /**
   * When no key or value contains '&', the signed string splits back at '&'
   * into exactly the rendered pairs, in key order.
   */
  lemma CanonicalStringSplits(params: Dict, headers: Dict)
    requires DistinctKeys(params) && DistinctKeys(headers) && |headers| >= 1
    requires forall p | p in params :: '&' !in p.0 && '&' !in p.1
    requires forall p | p in headers :: '&' !in p.0 && '&' !in p.1
    ensures Split(CanonicalString(params, headers), '&') == Rendered(SignedPairs(params, headers))
  {
    var pairs := SignedPairs(params, headers);
    assert DistinctKeys(pairs) by {
      forall i, j | 0 <= i < j < |pairs| ensures pairs[i].0 != pairs[j].0 { StrLtIrreflexive(pairs[i].0); }
    }
    assert Lookup(pairs, headers[0].0).Some?;
    forall k | 0 <= k < |pairs|
      ensures '&' !in RenderPair(pairs[k])
    {
      var x := pairs[k];
      LookupMembership(pairs, x);
      if Lookup(headers, x.0).Some? {
        assert (x.0, x.1) in headers;
      } else {
        assert (x.0, x.1) in params;
      }
      assert RenderPair(x) == x.0 + "=" + x.1;
    }
  }

  /**
   * The signed string depends only on the contents of the params, not on the
   * order in which they were given.
   */
  lemma CanonicalIgnoresParamOrder(p1: Dict, p2: Dict, headers: Dict)
    requires DistinctKeys(p1) && DistinctKeys(p2) && DistinctKeys(headers)
    requires forall k :: Lookup(p1, k) == Lookup(p2, k)
    ensures CanonicalString(p1, headers) == CanonicalString(p2, headers)
  {
    var s1, s2 := SignedPairs(p1, headers), SignedPairs(p2, headers);
    assert DistinctKeys(s1) && DistinctKeys(s2) by {
      forall i, j | 0 <= i < j < |s1| ensures s1[i].0 != s1[j].0 { StrLtIrreflexive(s1[i].0); }
      forall i, j | 0 <= i < j < |s2| ensures s2[i].0 != s2[j].0 { StrLtIrreflexive(s2[i].0); }
    }
    forall x
      ensures x in s1 <==> x in s2
    {
      LookupMembership(s1, x);
      LookupMembership(s2, x);
    }
    SortedUnique(s1, s2);
  }

  /** The three headers that are signed along with the params. */
  function BaseHeaders(merchantId: string, timestamp: string, nonce: string): (h: Dict)
    ensures DistinctKeys(h)
  {
    [("X-Merchant-Id", merchantId), ("X-Timestamp", timestamp), ("X-Nonce", nonce)]
  }

  /**
   * `generate_headers`: exactly the merchant id, timestamp, nonce and the
   * signature of the canonical string under the merchant key; no params.
   */
  function GenerateHeaders(params: Dict, merchantId: string, timestamp: string, nonce: string,
                           merchantKey: string, hmacSha1: (string, string) -> string): (h: Dict)
    requires DistinctKeys(params)
    ensures |h| == 4
    ensures h[0] == ("X-Merchant-Id", merchantId) && h[1] == ("X-Timestamp", timestamp)
    ensures h[2] == ("X-Nonce", nonce)
    ensures h[3] == ("X-Sign", hmacSha1(merchantKey, CanonicalString(params, BaseHeaders(merchantId, timestamp, nonce))))
  {
    var base := BaseHeaders(merchantId, timestamp, nonce);
    base + [("X-Sign", hmacSha1(merchantKey, CanonicalString(params, base)))]
  }

  /** What a successful response yields: the parsed body or a fixed detail. */
  datatype Reply = ParsedBody(body: string) | Detail(detail: string)

  datatype HttpError = HttpError(status: int, detail: string)

  /** Reference table of the statuses reported under their own code. */
  const ErrorDetails: map<int, string> := map[
    400 := "Bad request", 401 := "Authentication failed", 403 := "Forbidden",
    404 := "Resource not found", 405 := "Method not allowed", 415 := "Unsupported media type",
    422 := "Data validation failed", 429 := "Too many requests"]

  /**
   * `handle_response`: 200 and 201 give the body, 204 and 304 a fixed detail;
   * the statuses of the error table raise under their own code and every other
   * status raises 430.
   */
  function HandleResponse(status: int, body: string): (r: Result<Reply, HttpError>)
    ensures r.Ok? <==> status in {200, 201, 204, 304}
    ensures status in {200, 201} ==> r == Ok(ParsedBody(body))
    ensures status == 204 ==> r == Ok(Detail("No content"))
    ensures status == 304 ==> r == Ok(Detail("Not modified"))
    ensures r.Err? && status in ErrorDetails ==> r.error == HttpError(status, ErrorDetails[status])
    ensures r.Err? && status !in ErrorDetails ==> r.error == HttpError(430, "Unexpected error")
  {
    if status == 200 then Ok(ParsedBody(body))
    else if status == 201 then Ok(ParsedBody(body))
    else if status == 204 then Ok(Detail("No content"))
    else if status == 304 then Ok(Detail("Not modified"))
    else if status == 400 then Err(HttpError(400, "Bad request"))
    else if status == 401 then Err(HttpError(401, "Authentication failed"))
    else if status == 403 then Err(HttpError(403, "Forbidden"))
    else if status == 404 then Err(HttpError(404, "Resource not found"))
    else if status == 405 then Err(HttpError(405, "Method not allowed"))
    else if status == 415 then Err(HttpError(415, "Unsupported media type"))
    else if status == 422 then Err(HttpError(422, "Data validation failed"))
    else if status == 429 then Err(HttpError(429, "Too many requests"))
    else if status == 430 || status == 500 then Err(HttpError(430, "Unexpected error"))
    else Err(HttpError(430, "Unexpected error"))
  }

  datatype RequestError = Http(error: HttpError) | AwaitedDict

  /**
   * `make_request`'s `await handle_response(response)` as written: the value
   * returned for 200/201 is the awaitable `response.json()`, but for 204/304 it
   * is a plain dict, and awaiting a dict raises TypeError.
   */
  function AwaitResponseAsWritten(status: int, body: string): (r: Result<Reply, RequestError>)
    ensures r == Err(AwaitedDict) <==> status == 204 || status == 304
    ensures status in {200, 201} ==> r == Ok(ParsedBody(body))
  {
    match HandleResponse(status, body)
    case Err(e) => Err(Http(e))
    case Ok(ParsedBody(b)) => Ok(ParsedBody(b))
    case Ok(Detail(_)) => Err(AwaitedDict)
  }

  /** What `make_request` evidently intends: the caller receives exactly what `handle_response` maps. */
  function AwaitResponse(status: int, body: string): (r: Result<Reply, RequestError>)
    ensures r.Ok? <==> HandleResponse(status, body).Ok?
    ensures r.Ok? ==> r.value == HandleResponse(status, body).value
    ensures r.Err? ==> r.error == Http(HandleResponse(status, body).error)
  {
    match HandleResponse(status, body)
    case Err(e) => Err(Http(e))
    case Ok(reply) => Ok(reply)
  }

  /** A 204 reply: the code as written fails where the intended behaviour returns the detail. */
  lemma NoContentFailsAsWritten(body: string)
    ensures AwaitResponseAsWritten(204, body) == Err(AwaitedDict)
    ensures AwaitResponse(204, body) == Ok(Detail("No content"))
  {
  }

  /** At most three calls are made. */
  const MaxTries: nat := 3

  /** The statuses for which the `giveup` predicate lets a response error be retried. */
  const RetryStatuses: set<int> := {429, 430, 500, 503}

  /**
   * How one call of `make_request` ends: it returns, it raises the client
   * library's response error (which carries a status), it raises another
   * client error (which has none, so `giveup` itself raises), or it raises
   * something the decorator does not catch, such as the HTTPException of
   * `handle_response`.
   */
  datatype Attempt = Returned | ResponseError(status: int) | ClientErrorWithoutStatus | Uncaught

  /** Whether the decorator calls again after this outcome (given calls remain). */
  predicate Retries(a: Attempt) {
    a.ResponseError? && a.status in RetryStatuses
  }

  /**
   * The retry decorator around `make_request`, given how each call would end:
   * the number of calls made. Every call but the last ended in a retryable
   * response error; the last one ended otherwise or was the third.
   */
  method CountTries(outcomes: seq<Attempt>) returns (tries: nat)
    requires |outcomes| >= MaxTries
    ensures 1 <= tries <= MaxTries
    ensures forall k | 0 <= k < tries - 1 :: Retries(outcomes[k])
    ensures !Retries(outcomes[tries - 1]) || tries == MaxTries
  {
    tries := 1;
    while tries < MaxTries && Retries(outcomes[tries - 1])
      invariant 1 <= tries <= MaxTries
      invariant forall k | 0 <= k < tries - 1 :: Retries(outcomes[k])
    {
      tries := tries + 1;
    }
  }
}
