/**
 * The invitation-token table behind the admin routes: generating tokens,
 * listing them, redeeming one and deleting one.  The table is a map from
 * identifier to record, changed in place by the handlers; the clock and the
 * random bytes are parameters.
 */
module TokenStore {
  import opened Wrappers
  import opened Text

  type byte = x: int | 0 <= x < 256

  /** The four random bytes drawn for one identifier. */
  type Draw = s: seq<byte> | |s| == 4 witness [0, 0, 0, 0]

  /** A fresh time token may be claimed for two minutes (milliseconds). */
  const CLAIM_WINDOW_MS := 2 * 60 * 1000
  /** After a time token is redeemed, registration has 24 hours to complete. */
  const COMPLETION_WINDOW_MS := 24 * 60 * 60 * 1000
  /** The limit a shared token gets when the request gives none (or 0). */
  const DEFAULT_USAGE_LIMIT := 100

  /**
   * The `mode` column: the two modes the routes know, or anything else a
   * request sent: other text, or `null` (`None`).
   */
  datatype Mode = Time | Usage | Other(name: Option<string>)

  datatype UsageLog = UsageLog(email: string, usedAt: int, usedByIp: string)

  /** One row of the tokens table; times are milliseconds since the epoch. */
  datatype TokenRecord = TokenRecord(
    token: string,
    createdAt: int,
    mode: Mode,
    expiresAt: Option<int>,
    usageLimit: Option<int>,
    usageCount: int,
    usedByIp: Option<string>,
    usedAt: Option<int>,
    fullName: Option<string>,
    email: Option<string>,
    usedEmails: seq<string>,
    usageLogs: seq<UsageLog>)

  /** A field of a JSON request body: left out, sent as `null`, or given. */
  datatype Field<T> = Absent | Null | Given(value: T)

  /**
   * The fields of a `/generate` body that the route reads.  A left-out and a
   * `null` limit both read as `None`, since `usageLimit || 100` treats them alike.
   */
  datatype GenerateRequest = GenerateRequest(count: Field<int>, mode: Field<string>, usageLimit: Option<int>)

  /** One entry of the `/generate` answer. */
  datatype Issued = Issued(token: string, mode: Mode)

  /** The body of a `/use-token` request. */
  datatype Redemption = Redemption(token: string, ip: string, fullName: string, email: string)

  /** Why a redemption was refused. */
  datatype Failure = NotFound | Expired | LimitReached | EmailMismatch | EmailAlreadyUsed
  {
    function Status(): int
    {
      match this
      case NotFound => 404
      case Expired => 410
      case LimitReached => 410
      case EmailMismatch => 403
      case EmailAlreadyUsed => 403
    }

    function Message(): string
    {
      match this
      case NotFound => "Token not found"
      case Expired => "Token expired"
      case LimitReached => "Usage limit reached"
      case EmailMismatch => "Email mismatch"
      case EmailAlreadyUsed => "Email already used"
    }
  }

  /** What redeeming does to one stored record. */
  datatype Reply = Accepted(updated: TokenRecord) | Rejected(failure: Failure)

  /* ---------- identifiers ---------- */

  function HexDigit(n: int): char
    requires 0 <= n < 16
  {
    "0123456789abcdef"[n]
  }

  /** `buffer.toString('hex')`: two lower-case digits per byte, high nibble first. */
  function HexLower(bytes: seq<byte>): (h: string)
    ensures |h| == 2 * |bytes|
    ensures forall i | 0 <= i < |h| :: h[i] in "0123456789abcdef"
  {
    if bytes == [] then []
    else [HexDigit(bytes[0] / 16), HexDigit(bytes[0] % 16)] + HexLower(bytes[1..])
  }

  /** `'J5-' + crypto.randomBytes(4).toString('hex').toUpperCase()`, with the bytes given. */
  function TokenId(d: Draw): string
  {
    "J5-" + ToUpper(HexLower(d))
  }

  /** The shape of every identifier the server issues: `J5-` and eight upper-case hex digits. */
  predicate IsTokenId(s: string)
  {
    |s| == 11 && s[..3] == "J5-" && forall i | 3 <= i < 11 :: s[i] in "0123456789ABCDEF"
  }

  lemma TokenIdShape(d: Draw)
    ensures IsTokenId(TokenId(d))
  {
    var h := HexLower(d);
    var id := TokenId(d);
    forall i | 3 <= i < 11
      ensures id[i] in "0123456789ABCDEF"
    {
      assert id[i] == UpperChar(h[i - 3]);
      assert h[i - 3] in "0123456789abcdef";
    }
  }

  /** Distinct nibbles have distinct digits. */
  lemma HexDigitInjective(a: int, b: int)
    requires 0 <= a < 16 && 0 <= b < 16 && HexDigit(a) == HexDigit(b)
    ensures a == b
  {
    var digits := "0123456789abcdef";
    assert forall i, j | 0 <= i < j < 16 :: digits[i] != digits[j];
  }

  /** A byte is its high and low nibble. */
  lemma SameNibbles(a: byte, b: byte)
    requires a / 16 == b / 16 && a % 16 == b % 16
    ensures a == b
  {
    assert a == 16 * (a / 16) + a % 16;
    assert b == 16 * (b / 16) + b % 16;
  }

  /** The hex text determines the bytes. */
  lemma {:induction false} HexLowerInjective(x: seq<byte>, y: seq<byte>)
    requires HexLower(x) == HexLower(y)
    ensures x == y
    decreases |x|
  {
    if x != [] {
      assert y != [];
      var hx := HexLower(x);
      var tx := HexLower(x[1..]);
      var ty := HexLower(y[1..]);
      assert hx == [HexDigit(x[0] / 16), HexDigit(x[0] % 16)] + tx;
      assert hx == [HexDigit(y[0] / 16), HexDigit(y[0] % 16)] + ty;
      assert hx[0] == HexDigit(x[0] / 16) == HexDigit(y[0] / 16);
      assert hx[1] == HexDigit(x[0] % 16) == HexDigit(y[0] % 16);
      HexDigitInjective(x[0] / 16, y[0] / 16);
      HexDigitInjective(x[0] % 16, y[0] % 16);
      SameNibbles(x[0], y[0]);
      assert tx == hx[2..] == ty;
      HexLowerInjective(x[1..], y[1..]);
      assert x == [x[0]] + x[1..];
      assert y == [y[0]] + y[1..];
    }
  }

  /** Two draws give the same identifier only when they are the same bytes. */
  lemma TokenIdInjective(d1: Draw, d2: Draw)
    ensures TokenId(d1) == TokenId(d2) ==> d1 == d2
  {
    if TokenId(d1) == TokenId(d2) {
      var h1 := HexLower(d1);
      var h2 := HexLower(d2);
      forall i | 0 <= i < |h1|
        ensures h1[i] == h2[i]
      {
        assert TokenId(d1)[i + 3] == UpperChar(h1[i]);
        assert TokenId(d2)[i + 3] == UpperChar(h2[i]);
        assert h1[i] in "0123456789abcdef" && h2[i] in "0123456789abcdef";
      }
      HexLowerInjective(d1, d2);
    }
  }

  /* ---------- generation ---------- */

  /**
   * `count = 1` applies only to a left-out count; the loop `i < count` runs
   * no times for a count below 1, nor for `null` (`0 < null` is false).
   */
  function RequestedCount(req: GenerateRequest): nat
  {
    match req.count
    case Absent => 1
    case Null => 0
    case Given(c) => if c > 0 then c else 0
  }

  function ModeFromText(s: string): Mode
  {
    if s == "time" then Time
    else if s == "usage" then Usage
    else Other(Some(s))
  }

  /** `mode = 'time'` applies only to a left-out mode; a `null` mode is stored as `null`. */
  function RequestMode(req: GenerateRequest): Mode
  {
    match req.mode
    case Absent => Time
    case Null => Other(None)
    case Given(s) => ModeFromText(s)
  }

  /**
   * The defaults cover left-out fields only: a `null` count inserts nothing,
   * and a `null` mode makes a row with neither an expiry nor a limit.
   */
  lemma NullIsNotLeftOut(req: GenerateRequest, id: string, now: int)
    ensures req.count == Absent ==> RequestedCount(req) == 1
    ensures req.count == Null ==> RequestedCount(req) == 0
    ensures req.mode == Absent ==> RequestMode(req) == Time
    ensures req.mode == Null ==>
      && RequestMode(req) == Other(None)
      && NewRecord(id, now, RequestMode(req), req.usageLimit).expiresAt == None
      && NewRecord(id, now, RequestMode(req), req.usageLimit).usageLimit == None
  {
  }

  /** `usageLimit || 100`: an absent or zero limit becomes the default. */
  function EffectiveLimit(usageLimit: Option<int>): (l: int)
    ensures l != 0
    ensures usageLimit.Some? && usageLimit.value != 0 ==> l == usageLimit.value
    ensures usageLimit == None || usageLimit == Some(0) ==> l == DEFAULT_USAGE_LIMIT
  {
    match usageLimit
    case None => DEFAULT_USAGE_LIMIT
    case Some(n) => if n != 0 then n else DEFAULT_USAGE_LIMIT
  }

  /** The row `/generate` inserts for one identifier created at `now`. */
  function NewRecord(id: string, now: int, mode: Mode, usageLimit: Option<int>): (r: TokenRecord)
    ensures r.token == id && r.createdAt == now && r.mode == mode
    ensures r.expiresAt == (if mode == Time then Some(now + CLAIM_WINDOW_MS) else None)
    ensures r.usageLimit == (if mode == Usage then Some(EffectiveLimit(usageLimit)) else None)
    ensures r.usageCount == 0 && r.usedEmails == [] && r.usageLogs == []
    ensures r.usedByIp == None && r.usedAt == None && r.fullName == None && r.email == None
    ensures WellFormed(r)
  {
    TokenRecord(id, now, mode,
      if mode == Time then Some(now + CLAIM_WINDOW_MS) else None,
      if mode == Usage then Some(EffectiveLimit(usageLimit)) else None,
      0, None, None, None, None, [], [])
  }

  /* ---------- redemption ---------- */

  /** `expires_at && new Date(expires_at) < now`: strictly past a set expiry. */
  predicate IsExpired(r: TokenRecord, now: int)
  {
    r.expiresAt.Some? && r.expiresAt.value < now
  }

  /** `usage_limit && usage_count >= usage_limit`: a zero or absent limit is never reached. */
  predicate AtLimit(r: TokenRecord)
  {
    r.usageLimit.Some? && r.usageLimit.value != 0 && r.usageCount >= r.usageLimit.value
  }

  /** `email && email !== requested`: bound to some other, non-empty email. */
  predicate BoundElsewhere(r: TokenRecord, email: string)
  {
    r.email.Some? && r.email.value != "" && r.email.value != email
  }

  /** Every usage-mode redemption adds one email and one log entry, in the same order. */
  predicate LogsMatchEmails(r: TokenRecord)
  {
    |r.usageLogs| == |r.usedEmails| &&
    forall i | 0 <= i < |r.usedEmails| :: r.usageLogs[i].email == r.usedEmails[i]
  }

  predicate NoDuplicates(s: seq<string>)
  {
    forall i, j | 0 <= i < j < |s| :: s[i] != s[j]
  }

  /** The most redemptions a usage limit admits: a negative limit is always reached. */
  function Capacity(limit: int): nat
  {
    if limit > 0 then limit else 0
  }

  /**
   * What holds of every row the routes ever write.  A time token keeps its
   * claim or completion window and is bound to a person exactly when it has
   * been used; a shared token never exceeds its limit, has each email once
   * and one log entry per email; a token of any other mode never changes.
   */
  predicate WellFormed(r: TokenRecord)
  {
    match r.mode
    case Time =>
      && r.usageLimit == None && r.usageCount == 0 && r.usedEmails == [] && r.usageLogs == []
      && (r.usedAt.Some? <==> r.email.Some?)
      && (r.usedAt.Some? <==> r.fullName.Some?)
      && (r.usedAt.Some? <==> r.usedByIp.Some?)
      && r.expiresAt == (if r.usedAt.Some? then Some(r.usedAt.value + COMPLETION_WINDOW_MS)
                         else Some(r.createdAt + CLAIM_WINDOW_MS))
    case Usage =>
      && r.expiresAt == None && r.usedAt == None && r.email == None
      && r.fullName == None && r.usedByIp == None
      && r.usageLimit.Some? && r.usageLimit.value != 0
      && 0 <= r.usageCount <= Capacity(r.usageLimit.value)
      && |r.usedEmails| == r.usageCount
      && NoDuplicates(r.usedEmails)
      && LogsMatchEmails(r)
    case Other(_) =>
      && r.expiresAt == None && r.usageLimit == None && r.usageCount == 0
      && r.usedAt == None && r.email == None && r.fullName == None && r.usedByIp == None
      && r.usedEmails == [] && r.usageLogs == []
  }

  /**
   * `/use-token` on a stored record at time `now`: the guards in their order
   * (expired, limit reached), then the mode's own check and update.
   */
  function Redeem(r: TokenRecord, req: Redemption, now: int): (res: Reply)
    ensures res.Rejected? ==> res.failure != NotFound
    ensures res.Accepted? ==>
      && res.updated.token == r.token && res.updated.createdAt == r.createdAt
      && res.updated.mode == r.mode && res.updated.usageLimit == r.usageLimit
    ensures res.Accepted? ==> !IsExpired(r, now) && !AtLimit(r)
  {
    if IsExpired(r, now) then Rejected(Expired)
    else if AtLimit(r) then Rejected(LimitReached)
    else match r.mode
      case Time =>
        if BoundElsewhere(r, req.email) then Rejected(EmailMismatch)
        else Accepted(r.(usedByIp := Some(req.ip), usedAt := Some(now), email := Some(req.email),
                         fullName := Some(req.fullName), expiresAt := Some(now + COMPLETION_WINDOW_MS)))
      case Usage =>
        if req.email in r.usedEmails then Rejected(EmailAlreadyUsed)
        else Accepted(r.(usedEmails := r.usedEmails + [req.email], usageCount := r.usageCount + 1,
                         usageLogs := r.usageLogs + [UsageLog(req.email, now, req.ip)]))
      case Other(_) => Accepted(r)
  }

  /** The handler's answer for the whole table: an unknown identifier is refused first. */
  function Respond(records: map<string, TokenRecord>, req: Redemption, now: int): Reply
  {
    if req.token !in records then Rejected(NotFound)
    else Redeem(records[req.token], req, now)
  }

  /** A successful redemption keeps a row well formed. */
  lemma RedeemKeepsWellFormed(r: TokenRecord, req: Redemption, now: int)
    requires WellFormed(r)
    ensures Redeem(r, req, now).Accepted? ==> WellFormed(Redeem(r, req, now).updated)
  {
    if r.mode == Usage && Redeem(r, req, now).Accepted? {
      var u := Redeem(r, req, now).updated;
      assert u.usedEmails == r.usedEmails + [req.email];
      forall i, j | 0 <= i < j < |u.usedEmails|
        ensures u.usedEmails[i] != u.usedEmails[j]
      {
        if j == |r.usedEmails| {
          assert u.usedEmails[i] == r.usedEmails[i];
        }
      }
    }
  }

  /** A token past its expiry is refused as expired, whatever its limit, mode or binding. */
  lemma ExpiredComesFirst(r: TokenRecord, req: Redemption, now: int)
    requires IsExpired(r, now)
    ensures Redeem(r, req, now) == Rejected(Expired)
  {
  }

  /** A token at its limit and not expired is refused for the limit, even for a repeated email. */
  lemma LimitComesSecond(r: TokenRecord, req: Redemption, now: int)
    requires !IsExpired(r, now) && AtLimit(r)
    ensures Redeem(r, req, now) == Rejected(LimitReached)
  {
  }

  /**
   * The expiry test is strict: at the very millisecond of expiry the token is
   * still accepted, and a row without an expiry never expires.
   */
  lemma ExpiryIsStrict(r: TokenRecord, req: Redemption, now: int)
    requires r.expiresAt == Some(now) || r.expiresAt == None
    ensures Redeem(r, req, now) != Rejected(Expired)
  {
  }

  /** A row whose limit is absent or zero is never refused for the limit. */
  lemma FalsyLimitNeverReached(r: TokenRecord, req: Redemption, now: int)
    requires r.usageLimit == None || r.usageLimit == Some(0)
    ensures Redeem(r, req, now) != Rejected(LimitReached)
  {
  }

  /**
   * Time mode: refused only for another bound email; otherwise it binds the
   * requester and opens a 24-hour window, leaving the usage fields alone.
   */
  lemma TimeRedemption(r: TokenRecord, req: Redemption, now: int)
    requires r.mode == Time && !IsExpired(r, now) && r.usageLimit == None
    ensures BoundElsewhere(r, req.email) ==> Redeem(r, req, now) == Rejected(EmailMismatch)
    ensures !BoundElsewhere(r, req.email) ==>
      && Redeem(r, req, now).Accepted?
      && var u := Redeem(r, req, now).updated;
      && u.email == Some(req.email) && u.fullName == Some(req.fullName)
      && u.usedByIp == Some(req.ip) && u.usedAt == Some(now)
      && u.expiresAt == Some(now + COMPLETION_WINDOW_MS)
      && u.usageCount == r.usageCount && u.usedEmails == r.usedEmails && u.usageLogs == r.usageLogs
  {
  }

  /**
   * Redeeming a time token again with the same email inside its 24-hour window
   * succeeds and moves the window to start at the new redemption.
   */
  lemma TimeRebindRefreshesExpiry(r: TokenRecord, first: Redemption, t1: int, again: Redemption, t2: int)
    requires WellFormed(r) && r.mode == Time
    requires Redeem(r, first, t1).Accepted?
    requires again.email == first.email && t2 <= t1 + COMPLETION_WINDOW_MS
    ensures var u := Redeem(r, first, t1).updated;
      && Redeem(u, again, t2).Accepted?
      && Redeem(u, again, t2).updated.expiresAt == Some(t2 + COMPLETION_WINDOW_MS)
      && Redeem(u, again, t2).updated.email == Some(first.email)
  {
  }

  /**
   * Usage mode: refused for an email already recorded; otherwise exactly one
   * email, one count and one log entry are added and nothing else changes.
   */
  lemma UsageRedemption(r: TokenRecord, req: Redemption, now: int)
    requires r.mode == Usage && !IsExpired(r, now) && !AtLimit(r)
    ensures req.email in r.usedEmails ==> Redeem(r, req, now) == Rejected(EmailAlreadyUsed)
    ensures req.email !in r.usedEmails ==>
      Redeem(r, req, now) == Accepted(r.(usedEmails := r.usedEmails + [req.email],
                                         usageCount := r.usageCount + 1,
                                         usageLogs := r.usageLogs + [UsageLog(req.email, now, req.ip)]))
  {
  }

  /**
   * A row of any other mode, a `null` mode included, passes both guards and
   * matches neither mode's branch: every redemption succeeds and changes nothing.
   */
  lemma OtherModeAlwaysAccepted(r: TokenRecord, req: Redemption, now: int)
    requires WellFormed(r) && r.mode.Other?
    ensures Redeem(r, req, now) == Accepted(r)
  {
  }

  /* ---------- many redemptions of one token ---------- */

  /** One `/use-token` call on the token under study, made at `now`. */
  datatype Attempt = Attempt(req: Redemption, now: int)

  /** The row after a run of redemption attempts; a refused attempt leaves it as it was. */
  function Replay(r: TokenRecord, attempts: seq<Attempt>): TokenRecord
    decreases |attempts|
  {
    if attempts == [] then r
    else match Redeem(r, attempts[0].req, attempts[0].now)
      case Accepted(u) => Replay(u, attempts[1..])
      case Rejected(_) => Replay(r, attempts[1..])
  }

  /** How many of the attempts succeed. */
  function Successes(r: TokenRecord, attempts: seq<Attempt>): nat
    decreases |attempts|
  {
    if attempts == [] then 0
    else match Redeem(r, attempts[0].req, attempts[0].now)
      case Accepted(u) => 1 + Successes(u, attempts[1..])
      case Rejected(_) => Successes(r, attempts[1..])
  }

  /**
   * Across any run of redemptions a row stays well formed: a shared token's
   * count never passes its limit and its emails stay distinct.
   */
  lemma {:induction false} ReplayKeepsWellFormed(r: TokenRecord, attempts: seq<Attempt>)
    requires WellFormed(r)
    ensures WellFormed(Replay(r, attempts))
    ensures Replay(r, attempts).mode == r.mode && Replay(r, attempts).usageLimit == r.usageLimit
    decreases |attempts|
  {
    if attempts != [] {
      var res := Redeem(r, attempts[0].req, attempts[0].now);
      RedeemKeepsWellFormed(r, attempts[0].req, attempts[0].now);
      if res.Accepted? {
        ReplayKeepsWellFormed(res.updated, attempts[1..]);
      } else {
        ReplayKeepsWellFormed(r, attempts[1..]);
      }
    }
  }

  /**
   * For a shared token the count, the email list and the log all grow by
   * exactly the number of successful redemptions.
   */
  lemma {:induction false} UsageCountsSuccesses(r: TokenRecord, attempts: seq<Attempt>)
    requires r.mode == Usage
    ensures Replay(r, attempts).usageCount == r.usageCount + Successes(r, attempts)
    ensures |Replay(r, attempts).usedEmails| == |r.usedEmails| + Successes(r, attempts)
    ensures |Replay(r, attempts).usageLogs| == |r.usageLogs| + Successes(r, attempts)
    decreases |attempts|
  {
    if attempts != [] {
      var res := Redeem(r, attempts[0].req, attempts[0].now);
      if res.Accepted? {
        UsageCountsSuccesses(res.updated, attempts[1..]);
      } else {
        UsageCountsSuccesses(r, attempts[1..]);
      }
    }
  }

  /** A shared token created with a positive limit is redeemed at most that many times. */
  lemma SharedTokenSuccessesBounded(id: string, created: int, limit: int, attempts: seq<Attempt>)
    requires limit > 0
    ensures Successes(NewRecord(id, created, Usage, Some(limit)), attempts) <= limit
  {
    var r := NewRecord(id, created, Usage, Some(limit));
    ReplayKeepsWellFormed(r, attempts);
    UsageCountsSuccesses(r, attempts);
  }

  /**
   * Once a time token is bound to a non-empty email it stays bound to that
   * email, whatever is attempted afterwards.
   */
  lemma {:induction false} TimeBindingSticks(r: TokenRecord, attempts: seq<Attempt>, e: string)
    requires r.mode == Time && r.email == Some(e) && e != ""
    ensures Replay(r, attempts).email == Some(e)
    decreases |attempts|
  {
    if attempts != [] {
      var res := Redeem(r, attempts[0].req, attempts[0].now);
      if res.Accepted? {
        TimeBindingSticks(res.updated, attempts[1..], e);
      } else {
        TimeBindingSticks(r, attempts[1..], e);
      }
    }
  }

  /**
   * A shared token with limit 2: two distinct emails succeed, a third is
   * refused for the limit, and so is a repeat of the first email, because the
   * limit guard runs before the repeated-email check.
   */
  lemma SharedLimitTwoScenario(id: string, created: int, a: Redemption, b: Redemption, c: Redemption, now: int)
    requires a.email != b.email && created <= now
    ensures var r0 := NewRecord(id, created, Usage, Some(2));
      && Redeem(r0, a, now).Accepted?
      && var r1 := Redeem(r0, a, now).updated;
      && Redeem(r1, b, now).Accepted?
      && var r2 := Redeem(r1, b, now).updated;
      && r2.usageCount == 2
      && Redeem(r2, c, now) == Rejected(LimitReached)
      && Redeem(r2, a, now) == Rejected(LimitReached)
  {
  }

  /* ---------- the table ---------- */

  /** Each row is stored under its own identifier and is well formed. */
  predicate ValidTable(records: map<string, TokenRecord>)
  {
    forall k | k in records :: records[k].token == k && WellFormed(records[k])
  }

  /** Storing a well-formed row under its own identifier keeps the table valid. */
  lemma ValidTableInsert(records: map<string, TokenRecord>, r: TokenRecord)
    requires ValidTable(records) && WellFormed(r)
    ensures ValidTable(records[r.token := r])
  {
  }

  /**
   * Part way through listing: the rows of the keys no longer pending, each
   * once and newest first.
   */
  predicate ListedSoFar(records: map<string, TokenRecord>, pending: set<string>, rows: seq<TokenRecord>)
  {
    && pending <= records.Keys
    && |rows| + |pending| == |records|
    && (forall i | 0 <= i < |rows| ::
          rows[i].token in records && rows[i].token !in pending && records[rows[i].token] == rows[i])
    && (forall k | k in records && k !in pending :: records[k] in rows)
    && NewestFirst(rows)
  }

  /** Placing one pending row at its insertion point lists one more key. */
  lemma ListStep(records: map<string, TokenRecord>, pending: set<string>, rows: seq<TokenRecord>, k: string, p: nat)
    requires ValidTable(records) && ListedSoFar(records, pending, rows) && k in pending
    requires p <= |rows|
    requires forall i | 0 <= i < p :: rows[i].createdAt >= records[k].createdAt
    requires p < |rows| ==> rows[p].createdAt < records[k].createdAt
    ensures ListedSoFar(records, pending - {k}, rows[..p] + [records[k]] + rows[p..])
  {
    InsertNewestFirst(rows, p, records[k]);
  }

  /**
   * Inserting a row just before the first strictly older one keeps the list
   * newest first; every other row keeps its relative place.
   */
  lemma InsertNewestFirst(rows: seq<TokenRecord>, p: nat, r: TokenRecord)
    requires NewestFirst(rows) && p <= |rows|
    requires forall i | 0 <= i < p :: rows[i].createdAt >= r.createdAt
    requires p < |rows| ==> rows[p].createdAt < r.createdAt
    ensures var s := rows[..p] + [r] + rows[p..];
      && |s| == |rows| + 1
      && (forall i | 0 <= i < |s| :: s[i] == if i < p then rows[i] else if i == p then r else rows[i - 1])
      && NewestFirst(s)
  {
    var s := rows[..p] + [r] + rows[p..];
    assert forall i | 0 <= i < |s| :: s[i] == if i < p then rows[i] else if i == p then r else rows[i - 1];
  }

  /**
   * The place a row created at `createdAt` goes in a newest-first list: after
   * every row at least as new, before the first strictly older one.
   */
  method InsertionPoint(rows: seq<TokenRecord>, createdAt: int) returns (p: nat)
    ensures p <= |rows|
    ensures forall i | 0 <= i < p :: rows[i].createdAt >= createdAt
    ensures p < |rows| ==> rows[p].createdAt < createdAt
  {
    p := 0;
    while p < |rows| && rows[p].createdAt >= createdAt
      invariant p <= |rows|
      invariant forall i | 0 <= i < p :: rows[i].createdAt >= createdAt
    {
      p := p + 1;
    }
  }

  /** No identifier is issued twice. */
  predicate Distinct(issued: seq<Issued>)
  {
    forall i, j | 0 <= i < j < |issued| :: issued[i].token != issued[j].token
  }

  /** The rows one `POST /generate` inserts: each issued identifier with a fresh row created at `now`. */
  function NewRows(issued: seq<Issued>, now: int, usageLimit: Option<int>): (m: map<string, TokenRecord>)
    ensures forall i | 0 <= i < |issued| :: issued[i].token in m
  {
    if issued == [] then map[]
    else
      var last := issued[|issued| - 1];
      NewRows(issued[..|issued| - 1], now, usageLimit)[last.token := NewRecord(last.token, now, last.mode, usageLimit)]
  }

  /** The identifiers the draws name, in order. */
  function TokenIds(draws: seq<Draw>): (ids: seq<string>)
    ensures |ids| == |draws|
    ensures forall i | 0 <= i < |draws| :: ids[i] == TokenId(draws[i])
  {
    seq(|draws|, i requires 0 <= i < |draws| => TokenId(draws[i]))
  }

  /**
   * The identifiers issued so far: the i-th is the i-th candidate, none was in
   * the table before, and none repeats.
   */
  predicate FreshIds(before: map<string, TokenRecord>, issued: seq<Issued>, ids: seq<string>, mode: Mode)
  {
    && |issued| <= |ids|
    && (forall j | 0 <= j < |issued| :: issued[j] == Issued(ids[j], mode))
    && (forall j | 0 <= j < |issued| :: issued[j].token !in before)
    && Distinct(issued)
  }

  /** The next candidate, when it is new, extends the issued identifiers by one. */
  lemma FreshIdsStep(before: map<string, TokenRecord>, issued: seq<Issued>, ids: seq<string>, mode: Mode)
    requires FreshIds(before, issued, ids, mode)
    requires |issued| < |ids| && ids[|issued|] !in before
    requires forall j | 0 <= j < |issued| :: issued[j].token != ids[|issued|]
    ensures FreshIds(before, issued + [Issued(ids[|issued|], mode)], ids, mode)
  {
    var s := issued + [Issued(ids[|issued|], mode)];
    assert forall j | 0 <= j < |issued| :: s[j] == issued[j];
  }

  /**
   * What the first |issued| steps of `POST /generate` leave behind: fresh
   * identifiers, and the table is the old one plus their new rows.
   */
  predicate GeneratedFrom(before: map<string, TokenRecord>, after: map<string, TokenRecord>, issued: seq<Issued>,
                          ids: seq<string>, mode: Mode, now: int, usageLimit: Option<int>)
  {
    FreshIds(before, issued, ids, mode) && after == before + NewRows(issued, now, usageLimit)
  }

  /** One more insert whose identifier is not yet in the table extends what was generated by one. */
  lemma GenerateStep(before: map<string, TokenRecord>, after: map<string, TokenRecord>, issued: seq<Issued>,
                     ids: seq<string>, mode: Mode, now: int, usageLimit: Option<int>)
    requires GeneratedFrom(before, after, issued, ids, mode, now, usageLimit)
    requires |issued| < |ids| && ids[|issued|] !in after
    ensures var token := ids[|issued|];
      GeneratedFrom(before, after[token := NewRecord(token, now, mode, usageLimit)], issued + [Issued(token, mode)],
                    ids, mode, now, usageLimit)
  {
    var token := ids[|issued|];
    FreshIdsStep(before, issued, ids, mode);
    NewRowsAppend(issued, Issued(token, mode), now, usageLimit);
  }

  /** Issuing one more identifier adds exactly its row. */
  lemma NewRowsAppend(issued: seq<Issued>, x: Issued, now: int, usageLimit: Option<int>)
    ensures NewRows(issued + [x], now, usageLimit) == NewRows(issued, now, usageLimit)[x.token := NewRecord(x.token, now, x.mode, usageLimit)]
  {
    assert (issued + [x])[..|issued|] == issued;
  }

  /** The identifiers in an issued list, as a set. */
  function IssuedIds(issued: seq<Issued>): set<string>
  {
    set i | 0 <= i < |issued| :: issued[i].token
  }

  /** Issuing one more identifier adds exactly that identifier. */
  lemma IssuedIdsAppend(issued: seq<Issued>, x: Issued)
    ensures IssuedIds(issued + [x]) == IssuedIds(issued) + {x.token}
  {
    var s := issued + [x];
    assert s[|issued|].token == x.token;
    assert forall i | 0 <= i < |issued| :: s[i].token == issued[i].token;
  }

  /** A generate request inserts rows under exactly the identifiers it issues. */
  lemma {:induction false} NewRowsKeys(issued: seq<Issued>, now: int, usageLimit: Option<int>)
    ensures NewRows(issued, now, usageLimit).Keys == IssuedIds(issued)
    decreases |issued|
  {
    if issued != [] {
      var init := issued[..|issued| - 1];
      NewRowsKeys(init, now, usageLimit);
      IssuedIdsAppend(init, issued[|issued| - 1]);
      assert init + [issued[|issued| - 1]] == issued;
    }
  }

  /** With no identifier repeated, each issued identifier gets the fresh row of its own mode. */
  lemma {:induction false} NewRowsAt(issued: seq<Issued>, now: int, usageLimit: Option<int>, i: nat)
    requires Distinct(issued) && i < |issued|
    ensures NewRows(issued, now, usageLimit)[issued[i].token] == NewRecord(issued[i].token, now, issued[i].mode, usageLimit)
    decreases |issued|
  {
    if i < |issued| - 1 {
      var init := issued[..|issued| - 1];
      assert init[i] == issued[i];
      NewRowsAt(init, now, usageLimit, i);
    }
  }

  /** Non-increasing creation times. */
  predicate NewestFirst(rows: seq<TokenRecord>)
  {
    forall i, j | 0 <= i < j < |rows| :: rows[i].createdAt >= rows[j].createdAt
  }

  /** The tokens table, changed in place by the admin routes. */
  class Store {
    var records: map<string, TokenRecord>

    /** Each row is stored under its own identifier and is well formed. */
    predicate Valid()
      reads this
    {
      ValidTable(records)
    }

    constructor ()
      ensures Valid() && records == map[]
    {
      records := map[];
    }

    /**
     * `POST /generate`: inserts one row per requested token, the i-th named by
     * the i-th random draw.  An identifier already in the table makes the
     * insert fail, which ends the request; the rows inserted before it stay.
     */
    method Generate(req: GenerateRequest, now: int, draws: seq<Draw>) returns (issued: seq<Issued>, aborted: bool)
      requires Valid()
      requires RequestedCount(req) <= |draws|
      modifies this
      ensures Valid()
      ensures |issued| <= RequestedCount(req)
      ensures !aborted ==> |issued| == RequestedCount(req)
      ensures aborted ==> |issued| < RequestedCount(req) && TokenId(draws[|issued|]) in records
      ensures forall i | 0 <= i < |issued| :: issued[i] == Issued(TokenId(draws[i]), RequestMode(req))
      ensures forall i | 0 <= i < |issued| :: issued[i].token !in old(records)
      ensures Distinct(issued)
      ensures records == old(records) + NewRows(issued, now, req.usageLimit)
    {
      var count := RequestedCount(req);
      var mode := RequestMode(req);
      var ids := TokenIds(draws);
      issued := [];
      aborted := false;
      var i := 0;
      while i < count
        invariant 0 <= i <= count && |issued| == i
        invariant Valid()
        invariant GeneratedFrom(old(records), records, issued, ids, mode, now, req.usageLimit)
      {
        var token := ids[i];
        if token in records {
          aborted := true;
          return;
        }
        var row := NewRecord(token, now, mode, req.usageLimit);
        ValidTableInsert(records, row);
        GenerateStep(old(records), records, issued, ids, mode, now, req.usageLimit);
        records := records[token := row];
        issued := issued + [Issued(token, mode)];
        i := i + 1;
      }
    }

    /**
     * `GET /tokens`: every row once, newest first (`ORDER BY created_at DESC`);
     * rows created in the same millisecond come in no promised order.
     */
    method List() returns (rows: seq<TokenRecord>)
      requires Valid()
      ensures |rows| == |records|
      ensures forall i | 0 <= i < |rows| :: rows[i].token in records && records[rows[i].token] == rows[i]
      ensures forall k | k in records :: records[k] in rows
      ensures NewestFirst(rows)
    {
      rows := [];
      var pending := records.Keys;
      while pending != {}
        invariant ListedSoFar(records, pending, rows)
        decreases pending
      {
        var k :| k in pending;
        var r := records[k];
        var p := InsertionPoint(rows, r.createdAt);
        ListStep(records, pending, rows, k, p);
        rows := rows[..p] + [r] + rows[p..];
        pending := pending - {k};
      }
    }

    /**
     * `POST /use-token`, one atomic step: the reply is the table's answer, and
     * only a successful redemption writes, to the one row it names.
     */
    method UseToken(req: Redemption, now: int) returns (reply: Reply)
      requires Valid()
      modifies this
      ensures Valid()
      ensures reply == Respond(old(records), req, now)
      ensures records == if reply.Accepted? then old(records)[req.token := reply.updated] else old(records)
    {
      if req.token !in records {
        return Rejected(NotFound);
      }
      var data := records[req.token];
      if data.expiresAt.Some? && data.expiresAt.value < now {
        return Rejected(Expired);
      }
      if data.usageLimit.Some? && data.usageLimit.value != 0 && data.usageCount >= data.usageLimit.value {
        return Rejected(LimitReached);
      }
      var updated := data;
      if data.mode == Time {
        if data.email.Some? && data.email.value != "" && data.email.value != req.email {
          return Rejected(EmailMismatch);
        }
        updated := data.(usedByIp := Some(req.ip), usedAt := Some(now), email := Some(req.email),
                         fullName := Some(req.fullName), expiresAt := Some(now + COMPLETION_WINDOW_MS));
      } else if data.mode == Usage {
        var usedEmails := data.usedEmails;
        if req.email in usedEmails {
          return Rejected(EmailAlreadyUsed);
        }
        usedEmails := usedEmails + [req.email];
        var newUsageCount := data.usageCount + 1;
        var usageLogs := data.usageLogs + [UsageLog(req.email, now, req.ip)];
        updated := data.(usedEmails := usedEmails, usageCount := newUsageCount, usageLogs := usageLogs);
      }
      RedeemKeepsWellFormed(data, req, now);
      records := records[req.token := updated];
      reply := Accepted(updated);
    }

    /** `DELETE /tokens/:token`: removes that row if present and answers 200 either way. */
    method Delete(token: string) returns (status: int)
      requires Valid()
      modifies this
      ensures Valid()
      ensures status == 200
      ensures records == old(records) - {token}
      ensures token !in records && forall k | k in old(records) && k != token :: k in records && records[k] == old(records)[k]
    {
      records := records - {token};
      status := 200;
    }
  }
}
