/**
 * OAuth token records: the freshness decision of the sync routes, the result of the
 * refresh-token grant (section 6 of RFC 6749), and the upsert keyed by user_id that the
 * callbacks perform after the authorization-code token request (section 4.1.3 of RFC 6749).
 */
module Tokens {
  import opened Wrappers
  import opened Records

  /** A token this close to its expiry is refreshed before use. */
  const SafetyMarginMs: int := 60000
  /** Lifetime, in seconds, assumed when the provider's reply has no `expires_in`. */
  const DefaultLifetimeS: int := 3600

  /** The routes' staleness test `now > expiry_date - 60000`. */
  predicate Stale(row: TokenRow, now: int): (b: bool)
    ensures !b <==> row.expiryDate - now >= 60000
  {
    now > row.expiryDate - SafetyMarginMs
  }

  /**
   * Whether a sync run asks the provider for a new access token. Gmail refreshes every
   * stale token; Outlook only when the row also holds a (truthy) refresh token.
   */
  predicate NeedsRefresh(p: Provider, row: TokenRow, now: int): (b: bool)
    ensures b ==> Stale(row, now)
    ensures p == Gmail ==> (b <==> Stale(row, now))
    ensures p == Outlook ==> (b <==> Truthy(row.refreshToken) && Stale(row, now))
  {
    match p
    case Gmail => Stale(row, now)
    case Outlook => Truthy(row.refreshToken) && Stale(row, now)
  }

  /** The fields of the token endpoint's JSON reply to a refresh request that the routes read. */
  datatype RefreshReply = RefreshReply(accessToken: Option<string>, expiresIn: Option<int>)

  /** A new access token and its absolute expiry. */
  datatype Grant = Grant(accessToken: string, expiryDate: int)

  /**
   * What a refresh yields: nothing when the reply's access token is missing or empty;
   * otherwise the token with an expiry of one hour (Gmail, which ignores `expires_in`) or of
   * `expires_in ?? 3600` seconds (Outlook) after `now`.
   */
  function Refreshed(p: Provider, reply: RefreshReply, now: int): (g: Option<Grant>)
    ensures g.Some? <==> Truthy(reply.accessToken)
    ensures g.Some? ==> g.value.accessToken == reply.accessToken.value
    ensures g.Some? && p == Gmail ==> g.value.expiryDate - now == 3600000
    ensures g.Some? && p == Outlook && reply.expiresIn.None? ==> g.value.expiryDate - now == 3600000
    ensures g.Some? && p == Outlook && reply.expiresIn.Some? ==>
      g.value.expiryDate - now == 1000 * reply.expiresIn.value
  {
    if !Truthy(reply.accessToken) then None
    else
      var lifetimeS := match p
        case Gmail => DefaultLifetimeS
        case Outlook => reply.expiresIn.GetOr(DefaultLifetimeS);
      Some(Grant(reply.accessToken.value, now + lifetimeS * 1000))
  }

  /** The update the routes issue after a refresh: new token, expiry and updated_at only. */
  function ApplyGrant(row: TokenRow, g: Grant, now: int): (r: TokenRow)
    ensures r.accessToken == g.accessToken && r.expiryDate == g.expiryDate && r.updatedAt == now
    ensures r.userId == row.userId && r.email == row.email && r.refreshToken == row.refreshToken
  {
    row.(accessToken := g.accessToken, expiryDate := g.expiryDate, updatedAt := now)
  }

  /**
   * A just-refreshed Gmail token is not refreshed again until more than 3 540 000 ms
   * (one hour less the safety margin) have passed.
   */
  lemma GmailRefreshLasts(row: TokenRow, reply: RefreshReply, now: int, later: int)
    requires Refreshed(Gmail, reply, now).Some?
    ensures NeedsRefresh(Gmail, ApplyGrant(row, Refreshed(Gmail, reply, now).value, now), later)
      <==> later > now + 3540000
  {
  }

  /** The boundary of the staleness test: one millisecond decides. */
  lemma StaleBoundary(row: TokenRow)
    ensures !Stale(row, row.expiryDate - 60000)
    ensures Stale(row, row.expiryDate - 59999)
    ensures Stale(row, row.expiryDate - 59000) && !Stale(row, row.expiryDate - 61000)
  {
  }

  /**
   * The JSON body of a token upsert. `None` in `email` or `refreshToken` means the body has
   * no such key, so the column is not written (a new row gets SQL null there).
   */
  datatype Payload = Payload(
    userId: string,
    email: Option<string>,
    accessToken: string,
    refreshToken: Option<string>,
    expiryDate: int,
    updatedAt: int)

  /** Every row is stored under its own user_id: at most one row per user. */
  predicate Keyed(table: map<string, TokenRow>) {
    forall u :: u in table ==> table[u].userId == u
  }

  /** `upsert(payload, { onConflict: "user_id" })`: insert, or overwrite the supplied columns. */
  function Upsert(table: map<string, TokenRow>, pl: Payload): (t: map<string, TokenRow>)
    ensures t.Keys == table.Keys + {pl.userId}
    ensures forall u :: u in table && u != pl.userId ==> t[u] == table[u]
    ensures Keyed(table) ==> Keyed(t)
  {
    var old0 := if pl.userId in table then Some(table[pl.userId]) else None;
    var row := TokenRow(
      pl.userId,
      if pl.email.Some? then pl.email else if old0.Some? then old0.value.email else None,
      pl.accessToken,
      if pl.refreshToken.Some? then pl.refreshToken
      else if old0.Some? then old0.value.refreshToken else None,
      pl.expiryDate,
      pl.updatedAt);
    table[pl.userId := row]
  }

  /** The row an upsert leaves: supplied columns win, omitted ones keep the old value or null. */
  lemma UpsertRow(table: map<string, TokenRow>, pl: Payload)
    ensures var r := Upsert(table, pl)[pl.userId];
      && r.userId == pl.userId && r.accessToken == pl.accessToken
      && r.expiryDate == pl.expiryDate && r.updatedAt == pl.updatedAt
      && (pl.refreshToken.Some? ==> r.refreshToken == pl.refreshToken)
      && (pl.refreshToken.None? && pl.userId in table ==> r.refreshToken == table[pl.userId].refreshToken)
      && (pl.refreshToken.None? && pl.userId !in table ==> r.refreshToken.None?)
      && (pl.email.Some? ==> r.email == pl.email)
      && (pl.email.None? && pl.userId in table ==> r.email == table[pl.userId].email)
      && (pl.email.None? && pl.userId !in table ==> r.email.None?)
  {
  }

  /** Repeating the same upsert changes nothing more. */
  lemma UpsertIdempotent(table: map<string, TokenRow>, pl: Payload)
    ensures Upsert(Upsert(table, pl), pl) == Upsert(table, pl)
  {
  }
}
