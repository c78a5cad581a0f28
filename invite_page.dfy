/**
 * The invite page's Continue button: it reads the pasted invite link, takes
 * the `registration_token` out of the link's fragment, asks the server to
 * redeem it, and then either stores the token and redirects to registration
 * or shows an error chosen from the server's answer.
 */
module InvitePage {
  import opened Wrappers
  import opened Text
  import TS = TokenStore
  import AD = AdminDashboard

  const EMPTY_LINK_MESSAGE := "Please paste your invite link."
  const MISSING_TOKEN_MESSAGE := "Token missing from link."
  const ACCEPTED_MESSAGE := "Token accepted! Redirecting..."
  const DEFAULT_ERROR_MESSAGE := "Invalid or already used token."

  /* ---------- reading the link ---------- */

  predicate IsAsciiLetter(c: char)
  {
    'a' <= c <= 'z' || 'A' <= c <= 'Z'
  }

  predicate IsSchemeChar(c: char)
  {
    IsAsciiLetter(c) || '0' <= c <= '9' || c == '+' || c == '-' || c == '.'
  }

  /**
   * `new URL(link)` does not throw, read as "the link starts with a scheme":
   * a letter, then letters, digits, `+`, `-` or `.`, then a colon.
   */
  predicate ParsesAsUrl(link: string)
  {
    var i := IndexOf(link, ':');
    0 < i < |link| && IsAsciiLetter(link[0]) && forall j | 1 <= j < i :: IsSchemeChar(link[j])
  }

  /** `url.hash`: from the first `#` to the end, or "" when the fragment is absent or empty. */
  function Hash(link: string): string
  {
    var i := IndexOf(link, '#');
    if i + 1 < |link| then link[i..] else ""
  }

  /** The first `name=value` pair with the given name; a pair without `=` has the value "". */
  function Lookup(pairs: seq<string>, name: string): Option<string>
  {
    if pairs == [] then None
    else
      var i := IndexOf(pairs[0], '=');
      if pairs[0][..i] == name then Some(if i < |pairs[0]| then pairs[0][i + 1..] else "")
      else Lookup(pairs[1..], name)
  }

  /** `new URLSearchParams(query).get(name)`: a leading `?` is dropped and the pairs split on `&`. */
  function QueryGet(query: string, name: string): Option<string>
  {
    var q := if |query| > 0 && query[0] == '?' then query[1..] else query;
    Lookup(SplitOn(q, '&'), name)
  }

  datatype LinkParse = Malformed | NoToken | HasToken(token: string)

  /**
   * What `handleContinue` gets out of a non-empty link: `new URL` fails, or
   * the token read from the fragment once its first `#/register?` is removed;
   * an absent or empty token is no token.
   */
  function ParseLink(link: string): LinkParse
  {
    if !ParsesAsUrl(link) then Malformed
    else match QueryGet(ReplaceFirst(Hash(link), AD.REGISTER_ROUTE, ""), AD.TOKEN_PARAM)
      case Some(t) => if t != "" then HasToken(t) else NoToken
      case None => NoToken
  }

  /**
   * Where the page sends the browser after the server accepts the token.  The
   * page writes out its own copy of the link template that the dashboard's
   * copy button uses; `IssuedTokenRoundTrip` shows the two agree.
   */
  function RegisterUrl(token: string): string
  {
    AD.SITE + AD.REGISTER_ROUTE + AD.TOKEN_PARAM + "=" + token
  }

  /* ---------- error messages ---------- */

  /** The part of a failed call's HTTP answer that the page reads. */
  datatype ErrorResponse = ErrorResponse(status: int, message: Option<string>)

  /**
   * The message shown for a failed call: the server's non-empty message, else
   * one chosen by status (404, 410, 403), else the generic one.  `None` is a
   * failure without an HTTP answer.
   */
  function ErrorMessage(response: Option<ErrorResponse>): string
  {
    if response.Some? && response.value.message.Some? && response.value.message.value != "" then
      response.value.message.value
    else if response.Some? && response.value.status == 404 then "Token not found"
    else if response.Some? && response.value.status == 410 then "Token expired"
    else if response.Some? && response.value.status == 403 then "Email mismatch"
    else DEFAULT_ERROR_MESSAGE
  }

  /* ---------- the Continue button ---------- */

  datatype Severity = Success | Error

  datatype Toast = Toast(message: string, severity: Severity)

  /** How the `/use-token` call ends: a 2xx answer, or a failure with or without an HTTP answer. */
  datatype ApiReply = Ok | Failed(response: Option<ErrorResponse>)

  /** What one press of Continue leaves behind: the toast, the request sent, the token stored, the redirect. */
  datatype Effect = Effect(toast: Toast, sent: Option<TS.Redemption>, stored: Option<string>, redirect: Option<string>)

  /**
   * `handleContinue`, step by step.  `reply` is how the server call would end;
   * it is used only when a request is sent.
   */
  method HandleContinue(inviteLink: string, ip: string, fullName: string, email: string, reply: ApiReply)
    returns (e: Effect)
    ensures e.sent.Some? <==> ParseLink(inviteLink).HasToken?
    ensures e.stored.Some? <==> e.sent.Some? && reply == Ok
    ensures e.redirect.Some? <==> e.stored.Some?
    ensures e.toast.severity == Success <==> e.stored.Some?
    ensures inviteLink == "" ==> e.toast.message == EMPTY_LINK_MESSAGE
    ensures inviteLink != "" && ParseLink(inviteLink) == Malformed ==> e.toast.message == ErrorMessage(None)
    ensures ParseLink(inviteLink) == NoToken ==> e.toast.message == MISSING_TOKEN_MESSAGE
    ensures ParseLink(inviteLink).HasToken? ==>
      && var t := ParseLink(inviteLink).token;
      && e.sent == Some(TS.Redemption(t, ip, fullName, email))
      && (reply == Ok ==> e.toast.message == ACCEPTED_MESSAGE && e.stored == Some(t) && e.redirect == Some(RegisterUrl(t)))
      && (reply.Failed? ==> e.toast.message == ErrorMessage(reply.response))
  {
    if inviteLink == "" {
      return Effect(Toast(EMPTY_LINK_MESSAGE, Error), None, None, None);
    }
    if !ParsesAsUrl(inviteLink) {
      // `new URL` throws; the error carries no HTTP answer.
      return Effect(Toast(ErrorMessage(None), Error), None, None, None);
    }
    var hashParams := ReplaceFirst(Hash(inviteLink), AD.REGISTER_ROUTE, "");
    var token := QueryGet(hashParams, AD.TOKEN_PARAM);
    if token.None? || token.value == "" {
      return Effect(Toast(MISSING_TOKEN_MESSAGE, Error), None, None, None);
    }
    var request := TS.Redemption(token.value, ip, fullName, email);
    match reply {
      case Ok =>
        e := Effect(Toast(ACCEPTED_MESSAGE, Success), Some(request), Some(token.value), Some(RegisterUrl(token.value)));
      case Failed(response) =>
        e := Effect(Toast(ErrorMessage(response), Error), Some(request), None, None);
    }
  }

  /* ---------- properties ---------- */

  /**
   * Round trip: the link built around a token gives that token back, as long
   * as the token is non-empty and holds none of `&`, `+` or `%`, which a real
   * query parser would split or decode.
   */
  lemma LinkRoundTrip(t: string)
    requires t != "" && '&' !in t && '+' !in t && '%' !in t
    ensures ParseLink(AD.InviteLink(t)) == HasToken(t)
  {
    var link := AD.InviteLink(t);
    var query := AD.TOKEN_PARAM + "=" + t;
    var fragment := AD.REGISTER_ROUTE + query;
    LinkIsUrl(t);
    LinkHash(t);
    assert AD.REGISTER_ROUTE <= fragment;
    assert ReplaceFirst(Hash(link), AD.REGISTER_ROUTE, "") == query;
    QueryHoldsToken(t);
  }

  /** The invite link starts with the scheme `https`. */
  lemma LinkIsUrl(t: string)
    ensures ParsesAsUrl(AD.InviteLink(t))
  {
    var link := AD.InviteLink(t);
    assert forall j | 0 <= j < |AD.SITE| :: link[j] == AD.SITE[j];
    IndexOfIs(link, ':', 5);
  }

  /** The fragment of an invite link is the route followed by the token parameter. */
  lemma LinkHash(t: string)
    ensures Hash(AD.InviteLink(t)) == AD.REGISTER_ROUTE + (AD.TOKEN_PARAM + "=" + t)
  {
    var link := AD.InviteLink(t);
    var fragment := AD.REGISTER_ROUTE + (AD.TOKEN_PARAM + "=" + t);
    assert link == AD.SITE + fragment;
    assert forall j | 0 <= j < |AD.SITE| :: link[j] == AD.SITE[j];
    IndexOfIs(link, '#', |AD.SITE|);
  }

  /** The query `registration_token=<t>` yields `t` for a token without `&`. */
  lemma QueryHoldsToken(t: string)
    requires '&' !in t
    ensures QueryGet(AD.TOKEN_PARAM + "=" + t, AD.TOKEN_PARAM) == Some(t)
  {
    var query := AD.TOKEN_PARAM + "=" + t;
    assert forall j | 0 <= j < |AD.TOKEN_PARAM| :: query[j] == AD.TOKEN_PARAM[j];
    assert forall j | |AD.TOKEN_PARAM| < j < |query| :: query[j] == t[j - |AD.TOKEN_PARAM| - 1];
    assert '&' !in query;
    SplitWithoutSeparator(query, '&');
    IndexOfIs(query, '=', |AD.TOKEN_PARAM|);
    assert query[..|AD.TOKEN_PARAM|] == AD.TOKEN_PARAM;
    assert query[|AD.TOKEN_PARAM| + 1..] == t;
  }

  /**
   * Every identifier the server issues survives the trip through the
   * dashboard's copied link, and the page redirects to that same link.
   */
  lemma IssuedTokenRoundTrip(d: TS.Draw)
    ensures var t := TS.TokenId(d);
      && ParseLink(AD.InviteLink(t)) == HasToken(t)
      && RegisterUrl(t) == AD.InviteLink(t)
  {
    var t := TS.TokenId(d);
    TS.TokenIdShape(d);
    forall i | 0 <= i < |t|
      ensures t[i] != '&' && t[i] != '+' && t[i] != '%'
    {
      if i < 3 {
        assert t[..3] == "J5-";
        assert t[i] == "J5-"[i];
      } else {
        assert t[i] in "0123456789ABCDEF";
      }
    }
    LinkRoundTrip(t);
  }

  /** The server's own message always wins when the answer carries one. */
  lemma ServerMessageShown(f: TS.Failure)
    ensures ErrorMessage(Some(ErrorResponse(f.Status(), Some(f.Message())))) == f.Message()
  {
  }

  /**
   * Without the server's message the status fallback gets NotFound, Expired
   * and EmailMismatch right, but calls a reached limit "Token expired" and a
   * repeated email "Email mismatch".
   */
  lemma StatusFallback(f: TS.Failure)
    ensures ErrorMessage(Some(ErrorResponse(f.Status(), None))) == f.Message()
        <==> f == TS.NotFound || f == TS.Expired || f == TS.EmailMismatch
    ensures f == TS.LimitReached ==> ErrorMessage(Some(ErrorResponse(f.Status(), None))) == "Token expired"
    ensures f == TS.EmailAlreadyUsed ==> ErrorMessage(Some(ErrorResponse(f.Status(), None))) == "Email mismatch"
  {
  }

  /** A failure without an HTTP answer, or with an unlisted status and no message, shows the generic text. */
  lemma GenericMessage(response: Option<ErrorResponse>)
    requires response.None? || (response.value.message.None? && response.value.status !in {404, 410, 403})
    ensures ErrorMessage(response) == DEFAULT_ERROR_MESSAGE
  {
  }
}
