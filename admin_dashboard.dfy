/**
 * The token tables of the admin dashboard: each listed token gets a status
 * (Expired, Used or Unused), the status tab and the search box filter the
 * list, and the result is split into time-based and shared tokens.  Also the
 * invite link the copy button builds and the bodies the two generate buttons
 * send.
 */
module AdminDashboard {
  import opened Wrappers
  import opened Text
  import TS = TokenStore

  datatype Status = Expired | Used | Unused

  /** The four tabs: "All", or one status. */
  datatype Tab = All | Only(status: Status)

  /** Expired when an expiry is set and already past, else Used once `used_at` is set, else Unused. */
  function StatusOf(t: TS.TokenRecord, now: int): Status
  {
    if TS.IsExpired(t, now) then Expired
    else if t.usedAt.Some? then Used
    else Unused
  }

  /** `tab !== "All" && status !== tab` rejects; everything else passes the tab test. */
  predicate TabAdmits(tab: Tab, s: Status)
  {
    tab == All || tab == Only(s)
  }

  /** `token.toLowerCase().includes(search.toLowerCase())`. */
  predicate MatchesSearch(t: TS.TokenRecord, search: string)
  {
    Contains(ToLower(t.token), ToLower(search))
  }

  predicate Shown(t: TS.TokenRecord, tab: Tab, search: string, now: int)
  {
    TabAdmits(tab, StatusOf(t, now)) && MatchesSearch(t, search)
  }

  /** `s.filter(keep)`: the elements that pass, in their order, each occurrence kept. */
  function Filter<T(==,!new)>(s: seq<T>, keep: T -> bool): (r: seq<T>)
    ensures |r| <= |s|
    ensures forall x :: x in r <==> x in s && keep(x)
    ensures forall x :: multiset(r)[x] == if keep(x) then multiset(s)[x] else 0
  {
    if s == [] then []
    else
      assert s == [s[0]] + s[1..];
      if keep(s[0]) then [s[0]] + Filter(s[1..], keep)
    else Filter(s[1..], keep)
  }

  /** `a` is `b` with some elements left out and the rest in their original order. */
  predicate IsSubsequence<T(==,!new)>(a: seq<T>, b: seq<T>)
    decreases |b|
  {
    a == [] || (b != [] && ((a[0] == b[0] && IsSubsequence(a[1..], b[1..])) || IsSubsequence(a, b[1..])))
  }

  function FilteredTokens(tokens: seq<TS.TokenRecord>, tab: Tab, search: string, now: int): seq<TS.TokenRecord>
  {
    Filter(tokens, t => Shown(t, tab, search, now))
  }

  function TimeBasedTokens(filtered: seq<TS.TokenRecord>): seq<TS.TokenRecord>
  {
    Filter(filtered, (t: TS.TokenRecord) => t.mode == TS.Time)
  }

  function SharedTokens(filtered: seq<TS.TokenRecord>): seq<TS.TokenRecord>
  {
    Filter(filtered, (t: TS.TokenRecord) => t.mode == TS.Usage)
  }

  /** The parts of an invite link: the site, the registration route and the token's query parameter. */
  const SITE := "https://j5.chat/"
  const REGISTER_ROUTE := "#/register?"
  const TOKEN_PARAM := "registration_token"

  /** The link the copy button puts on the clipboard: `https://j5.chat/#/register?registration_token=` and the token. */
  function InviteLink(token: string): string
  {
    SITE + REGISTER_ROUTE + TOKEN_PARAM + "=" + token
  }

  /* ---------- status ---------- */

  /** Expired wins over Used: a redeemed token past its expiry shows as Expired. */
  lemma ExpiredTakesPrecedence(t: TS.TokenRecord, now: int)
    requires t.usedAt.Some?
    ensures StatusOf(t, now) == (if TS.IsExpired(t, now) then Expired else Used)
  {
  }

  /** The dashboard shows Expired exactly when the server would refuse the token as expired. */
  lemma ExpiredAgreesWithServer(t: TS.TokenRecord, req: TS.Redemption, now: int)
    ensures StatusOf(t, now) == Expired <==> TS.Redeem(t, req, now) == TS.Rejected(TS.Expired)
  {
  }

  /** A fresh time token shows Unused for its two-minute claim window and Expired after. */
  lemma FreshTimeTokenStatus(id: string, created: int, limit: Option<int>, now: int)
    ensures StatusOf(TS.NewRecord(id, created, TS.Time, limit), now)
         == if now > created + TS.CLAIM_WINDOW_MS then Expired else Unused
  {
  }

  /** A redeemed time token shows Used for 24 hours after the redemption and Expired after. */
  lemma RedeemedTimeTokenStatus(r: TS.TokenRecord, req: TS.Redemption, at: int, now: int)
    requires r.mode == TS.Time && TS.Redeem(r, req, at).Accepted?
    ensures StatusOf(TS.Redeem(r, req, at).updated, now)
         == if now > at + TS.COMPLETION_WINDOW_MS then Expired else Used
  {
  }

  /**
   * A shared token never has an expiry and never gets `used_at`, so the
   * dashboard shows it as Unused however often it has been redeemed.
   */
  lemma SharedTokenAlwaysUnused(t: TS.TokenRecord, now: int)
    requires TS.WellFormed(t) && t.mode == TS.Usage
    ensures StatusOf(t, now) == Unused
  {
  }

  /* ---------- tab and search ---------- */

  /** The All tab passes every status; any other tab passes exactly its own status. */
  lemma TabTest(tab: Tab, s: Status)
    ensures TabAdmits(All, s)
    ensures tab.Only? ==> (TabAdmits(tab, s) <==> tab.status == s)
  {
  }

  /** An empty search box matches every token. */
  lemma EmptySearchMatchesAll(t: TS.TokenRecord)
    ensures MatchesSearch(t, "")
  {
    assert ToLower("") == "";
    ContainsEmpty(ToLower(t.token));
  }

  /** The search ignores ASCII case: typing it in upper case finds the same tokens. */
  lemma SearchIgnoresCase(t: TS.TokenRecord, search: string)
    ensures MatchesSearch(t, ToUpper(search)) == MatchesSearch(t, search)
  {
    assert ToLower(ToUpper(search)) == ToLower(search) by {
      forall i | 0 <= i < |search|
        ensures LowerChar(UpperChar(search[i])) == LowerChar(search[i])
      {
      }
    }
  }

  /* ---------- filtering ---------- */

  /** Filtering keeps the order: the result is a subsequence of the input. */
  lemma {:induction false} FilterIsSubsequence<T(!new)>(s: seq<T>, keep: T -> bool)
    ensures IsSubsequence(Filter(s, keep), s)
  {
    if s != [] {
      FilterIsSubsequence(s[1..], keep);
      if !keep(s[0]) {
        var r := Filter(s, keep);
        if r != [] {
          assert IsSubsequence(r, s[1..]);
        }
      }
    }
  }

  /** When everything passes, filtering returns the input unchanged. */
  lemma {:induction false} FilterKeepsAll<T(!new)>(s: seq<T>, keep: T -> bool)
    requires forall x | x in s :: keep(x)
    ensures Filter(s, keep) == s
  {
    if s != [] {
      assert s[0] in s;
      assert forall x | x in s[1..] :: x in s;
      FilterKeepsAll(s[1..], keep);
      assert s == [s[0]] + s[1..];
    }
  }

  /** Filtering twice is filtering once by both tests. */
  lemma {:induction false} FilterOfFilter<T(!new)>(s: seq<T>, p: T -> bool, q: T -> bool, both: T -> bool)
    requires forall x :: both(x) == (p(x) && q(x))
    ensures Filter(Filter(s, p), q) == Filter(s, both)
  {
    if s != [] {
      FilterOfFilter(s[1..], p, q, both);
    }
  }

  /** Two exclusive tests split the elements passing either one, with every count preserved. */
  lemma {:induction false} FilterSplit<T(!new)>(s: seq<T>, p: T -> bool, q: T -> bool, either: T -> bool)
    requires forall x :: !(p(x) && q(x))
    requires forall x :: either(x) == (p(x) || q(x))
    ensures multiset(Filter(s, p)) + multiset(Filter(s, q)) == multiset(Filter(s, either))
  {
    if s != [] {
      FilterSplit(s[1..], p, q, either);
    }
  }

  /**
   * `filtered_tokens` is an order-preserving subsequence of `tokens` that holds
   * exactly the tokens passing both the tab test and the search.
   */
  lemma FilteredTokensSpec(tokens: seq<TS.TokenRecord>, tab: Tab, search: string, now: int)
    ensures IsSubsequence(FilteredTokens(tokens, tab, search, now), tokens)
    ensures forall t :: t in FilteredTokens(tokens, tab, search, now) <==>
      t in tokens && TabAdmits(tab, StatusOf(t, now)) && MatchesSearch(t, search)
  {
    FilterIsSubsequence(tokens, t => Shown(t, tab, search, now));
  }

  /** With the All tab and an empty search every token is listed, in order. */
  lemma AllTabEmptySearchShowsAll(tokens: seq<TS.TokenRecord>, now: int)
    ensures FilteredTokens(tokens, All, "", now) == tokens
  {
    forall t | t in tokens
      ensures Shown(t, All, "", now)
    {
      EmptySearchMatchesAll(t);
    }
    FilterKeepsAll(tokens, t => Shown(t, All, "", now));
  }

  /**
   * The two tables: both keep the filtered order, no token is in both, and
   * together they hold each filtered token of mode time or usage once.
   */
  lemma ModePartition(filtered: seq<TS.TokenRecord>)
    ensures IsSubsequence(TimeBasedTokens(filtered), filtered)
    ensures IsSubsequence(SharedTokens(filtered), filtered)
    ensures forall t :: !(t in TimeBasedTokens(filtered) && t in SharedTokens(filtered))
    ensures multiset(TimeBasedTokens(filtered)) + multiset(SharedTokens(filtered))
         == multiset(Filter(filtered, (t: TS.TokenRecord) => t.mode == TS.Time || t.mode == TS.Usage))
  {
    var isTime := (t: TS.TokenRecord) => t.mode == TS.Time;
    var isUsage := (t: TS.TokenRecord) => t.mode == TS.Usage;
    FilterIsSubsequence(filtered, isTime);
    FilterIsSubsequence(filtered, isUsage);
    FilterSplit(filtered, isTime, isUsage, (t: TS.TokenRecord) => t.mode == TS.Time || t.mode == TS.Usage);
  }

  /** The time-based table holds exactly the tokens that pass the filter and have mode time. */
  lemma TimeBasedSpec(tokens: seq<TS.TokenRecord>, tab: Tab, search: string, now: int)
    ensures TimeBasedTokens(FilteredTokens(tokens, tab, search, now))
         == Filter(tokens, t => Shown(t, tab, search, now) && t.mode == TS.Time)
  {
    FilterOfFilter(tokens, t => Shown(t, tab, search, now), (t: TS.TokenRecord) => t.mode == TS.Time,
                   t => Shown(t, tab, search, now) && t.mode == TS.Time);
  }

  /* ---------- generate buttons ---------- */

  /** "Generate 1 Token": one time token. */
  function TimeTokenRequest(): TS.GenerateRequest
  {
    TS.GenerateRequest(TS.Given(1), TS.Given("time"), None)
  }

  /**
   * "Generate Shared Token" as written: the limit travels under the key
   * `usage_limit`, which `/generate` never reads, so the route sees no limit.
   */
  function SharedTokenRequest(usageLimitField: int): TS.GenerateRequest
  {
    TS.GenerateRequest(TS.Given(1), TS.Given("usage"), None)
  }

  /** "Generate Shared Token" with the limit sent under the key the route reads. */
  function SharedTokenRequestFixed(usageLimitField: int): TS.GenerateRequest
  {
    TS.GenerateRequest(TS.Given(1), TS.Given("usage"), Some(usageLimitField))
  }

  /** The row a one-token request creates, as `/generate` builds it. */
  function CreatedRow(req: TS.GenerateRequest, id: string, now: int): TS.TokenRecord
  {
    TS.NewRecord(id, now, TS.RequestMode(req), req.usageLimit)
  }

  /** As written, whatever limit the admin types, the shared token gets limit 100. */
  lemma SharedTokenLimitIgnored(usageLimitField: int, id: string, now: int)
    ensures TS.RequestedCount(SharedTokenRequest(usageLimitField)) == 1
    ensures CreatedRow(SharedTokenRequest(usageLimitField), id, now).usageLimit == Some(TS.DEFAULT_USAGE_LIMIT)
  {
  }

  /** With the key corrected, a non-zero limit typed by the admin is the token's limit. */
  lemma SharedTokenLimitHonoured(usageLimitField: int, id: string, now: int)
    ensures TS.RequestedCount(SharedTokenRequestFixed(usageLimitField)) == 1
    ensures CreatedRow(SharedTokenRequestFixed(usageLimitField), id, now).mode == TS.Usage
    ensures CreatedRow(SharedTokenRequestFixed(usageLimitField), id, now).usageLimit
         == Some(if usageLimitField != 0 then usageLimitField else TS.DEFAULT_USAGE_LIMIT)
  {
  }

  /** "Generate 1 Token" creates one time token open for two minutes. */
  lemma TimeTokenRequestCreates(id: string, now: int)
    ensures TS.RequestedCount(TimeTokenRequest()) == 1
    ensures CreatedRow(TimeTokenRequest(), id, now).mode == TS.Time
    ensures CreatedRow(TimeTokenRequest(), id, now).expiresAt == Some(now + TS.CLAIM_WINDOW_MS)
  {
  }
}
