/**
 * The two OAuth callback routes: after the authorization-code token request (section 4.1.3
 * of RFC 6749), they store the token response (section 5.1) in the provider's token table
 * with an upsert keyed on user_id, and redirect to the settings page.
 */
module OAuthCallback {
  import opened Wrappers
  import opened Records
  import opened Tokens
  import opened Backend

  /** Where the callback redirects: `?<provider>=connected`, or `?<provider>=error&reason=...`. */
  datatype Redirect = Connected | Failed(reason: string, detail: Option<string>)

  /** The fields of the token endpoint's JSON reply the callbacks read. */
  datatype CodeGrant = CodeGrant(accessToken: Option<string>, refreshToken: Option<string>, expiresIn: Option<int>)

  /** The Microsoft Graph `/me` fields used for the account email. */
  datatype OutlookProfile = OutlookProfile(mail: Option<string>, userPrincipalName: Option<string>)

  const UnknownOutlookEmail: string := "unknown@outlook.com"

  /** `profile.mail || profile.userPrincipalName || "unknown@outlook.com"`. */
  function OutlookEmail(pr: OutlookProfile): (e: string)
    ensures e != ""
    ensures Truthy(pr.mail) ==> e == pr.mail.value
    ensures !Truthy(pr.mail) && Truthy(pr.userPrincipalName) ==> e == pr.userPrincipalName.value
    ensures !Truthy(pr.mail) && !Truthy(pr.userPrincipalName) ==> e == UnknownOutlookEmail
  {
    if Truthy(pr.mail) then pr.mail.value
    else if Truthy(pr.userPrincipalName) then pr.userPrincipalName.value
    else UnknownOutlookEmail
  }

  /**
   * The Outlook callback's guard chain and upsert payload: no code, no access token, no
   * signed-in user stop it; otherwise the payload holds `expires_in ?? 3600` seconds of
   * lifetime and a refresh token only when the provider sent a truthy one.
   */
  function OutlookPlan(code: Option<string>, grant: CodeGrant, profile: OutlookProfile,
                       user: Option<string>, now: int): (r: Result<Payload, Redirect>)
    ensures !Truthy(code) ==> r == Failure(Failed("no_code", None))
    ensures Truthy(code) && !Truthy(grant.accessToken) ==> r == Failure(Failed("no_token", None))
    ensures Truthy(code) && Truthy(grant.accessToken) && user.None? ==> r == Failure(Failed("not_logged_in", None))
    ensures r.Success? <==> Truthy(code) && Truthy(grant.accessToken) && user.Some?
    ensures r.Success? ==>
      && r.value.userId == user.value
      && r.value.accessToken == grant.accessToken.value
      && r.value.email == Some(OutlookEmail(profile))
      && r.value.expiryDate == now + 1000 * grant.expiresIn.GetOr(DefaultLifetimeS)
      && (r.value.refreshToken.Some? <==> Truthy(grant.refreshToken))
      && (r.value.refreshToken.Some? ==> r.value.refreshToken == grant.refreshToken)
  {
    if !Truthy(code) then Failure(Failed("no_code", None))
    else if !Truthy(grant.accessToken) then Failure(Failed("no_token", None))
    else if user.None? then Failure(Failed("not_logged_in", None))
    else
      Success(Payload(user.value, Some(OutlookEmail(profile)), grant.accessToken.value,
                      if Truthy(grant.refreshToken) then grant.refreshToken else None,
                      now + grant.expiresIn.GetOr(DefaultLifetimeS) * 1000, now))
  }

  /**
   * The Gmail callback's guard chain and upsert payload. `expires_in` has no default; keys
   * whose value is `undefined` (a missing refresh_token or profile email) are left out of
   * the JSON body, so those columns are not written.
   */
  function GmailPlan(code: Option<string>, grant: CodeGrant, profileEmail: Option<string>,
                     user: Option<string>, now: int): (r: Result<Payload, Redirect>)
    requires Truthy(grant.accessToken) ==> grant.expiresIn.Some?
    ensures !Truthy(code) ==> r == Failure(Failed("no_code", None))
    ensures Truthy(code) && !Truthy(grant.accessToken) ==> r == Failure(Failed("no_token", None))
    ensures Truthy(code) && Truthy(grant.accessToken) && user.None? ==> r == Failure(Failed("not_logged_in", None))
    ensures r.Success? <==> Truthy(code) && Truthy(grant.accessToken) && user.Some?
    ensures r.Success? ==>
      && r.value.userId == user.value
      && r.value.accessToken == grant.accessToken.value
      && r.value.email == profileEmail
      && r.value.refreshToken == grant.refreshToken
      && r.value.expiryDate == now + 1000 * grant.expiresIn.value
  {
    if !Truthy(code) then Failure(Failed("no_code", None))
    else if !Truthy(grant.accessToken) then Failure(Failed("no_token", None))
    else if user.None? then Failure(Failed("not_logged_in", None))
    else
      Success(Payload(user.value, profileEmail, grant.accessToken.value, grant.refreshToken,
                      now + grant.expiresIn.value * 1000, now))
  }

  /** The token table after a callback: upserted on success, untouched on a stop or a DB error. */
  function AfterCallback(table: map<string, TokenRow>, plan: Result<Payload, Redirect>, dbError: Option<string>)
    : (r: map<string, TokenRow>)
    ensures !(plan.Success? && dbError.None?) ==> r == table
    ensures plan.Success? && dbError.None? ==>
      && r.Keys == table.Keys + {plan.value.userId}
      && r[plan.value.userId].accessToken == plan.value.accessToken
      && r[plan.value.userId].expiryDate == plan.value.expiryDate
    ensures forall u :: u in table && !(plan.Success? && plan.value.userId == u) ==> u in r && r[u] == table[u]
    ensures Keyed(table) ==> Keyed(r)
  {
    match plan
    case Success(pl) => if dbError.None? then Upsert(table, pl) else table
    case Failure(_) => table
  }

  /** Outlook's redirect: the guard's, `reason=db` with the error message, or connected. */
  function OutlookRedirect(plan: Result<Payload, Redirect>, dbError: Option<string>): (r: Redirect)
    ensures r == Connected <==> (plan.Success? && dbError.None?) || plan == Failure(Connected)
    ensures plan.Failure? ==> r == plan.error
    ensures plan.Success? && dbError.Some? ==> r == Failed("db", dbError)
  {
    match plan
    case Failure(rd) => rd
    case Success(_) => if dbError.Some? then Failed("db", dbError) else Connected
  }

  /** Gmail's redirect: as Outlook's, but `reason=db` carries no detail. */
  function GmailRedirect(plan: Result<Payload, Redirect>, dbError: Option<string>): (r: Redirect)
    ensures r == Connected <==> (plan.Success? && dbError.None?) || plan == Failure(Connected)
    ensures plan.Failure? ==> r == plan.error
    ensures plan.Success? && dbError.Some? ==> r == Failed("db", None)
  {
    match plan
    case Failure(rd) => rd
    case Success(_) => if dbError.Some? then Failed("db", None) else Connected
  }

  /**
   * GET /api/auth/outlook/callback. `grant`, `profile`, `user` and `dbError` stand for the
   * token request, the Graph profile request, the session lookup and the upsert's error.
   */
  method OutlookCallback(db: Store, code: Option<string>, grant: CodeGrant, profile: OutlookProfile,
                         user: Option<string>, dbError: Option<string>, now: int)
    returns (r: Redirect)
    requires db.Valid()
    modifies db`outlookTokens
    ensures db.Valid()
    ensures r == OutlookRedirect(OutlookPlan(code, grant, profile, user, now), dbError)
    ensures db.outlookTokens == AfterCallback(old(db.outlookTokens), OutlookPlan(code, grant, profile, user, now), dbError)
  {
    if !Truthy(code) {
      return Failed("no_code", None);
    }
    if !Truthy(grant.accessToken) {
      return Failed("no_token", None);
    }
    var email := OutlookEmail(profile);
    if user.None? {
      return Failed("not_logged_in", None);
    }
    var upsertData := Payload(user.value, Some(email), grant.accessToken.value, None,
                              now + grant.expiresIn.GetOr(DefaultLifetimeS) * 1000, now);
    if Truthy(grant.refreshToken) {
      upsertData := upsertData.(refreshToken := grant.refreshToken);
    }
    if dbError.Some? {
      return Failed("db", dbError);
    }
    db.outlookTokens := Upsert(db.outlookTokens, upsertData);
    return Connected;
  }

  /** GET /api/auth/gmail/callback. */
  method GmailCallback(db: Store, code: Option<string>, grant: CodeGrant, profileEmail: Option<string>,
                       user: Option<string>, dbError: Option<string>, now: int)
    returns (r: Redirect)
    requires db.Valid() && (Truthy(grant.accessToken) ==> grant.expiresIn.Some?)
    modifies db`gmailTokens
    ensures db.Valid()
    ensures r == GmailRedirect(GmailPlan(code, grant, profileEmail, user, now), dbError)
    ensures db.gmailTokens == AfterCallback(old(db.gmailTokens), GmailPlan(code, grant, profileEmail, user, now), dbError)
  {
    if !Truthy(code) {
      return Failed("no_code", None);
    }
    if !Truthy(grant.accessToken) {
      return Failed("no_token", None);
    }
    if user.None? {
      return Failed("not_logged_in", None);
    }
    if dbError.Some? {
      return Failed("db", None);
    }
    db.gmailTokens := Upsert(db.gmailTokens, Payload(user.value, profileEmail, grant.accessToken.value,
                                                     grant.refreshToken, now + grant.expiresIn.value * 1000, now));
    return Connected;
  }

  // ----- Properties -----

  /** A callback keeps one row per user, stored under its own user_id, and never removes a row. */
  lemma CallbackKeepsOneRowPerUser(table: map<string, TokenRow>, plan: Result<Payload, Redirect>, dbError: Option<string>)
    requires Keyed(table)
    ensures Keyed(AfterCallback(table, plan, dbError))
    ensures table.Keys <= AfterCallback(table, plan, dbError).Keys
  {
  }

  /**
   * An Outlook reconnect whose token response has no refresh token keeps the refresh token
   * already stored, and replaces the access token and expiry.
   */
  lemma OutlookReconnectKeepsRefreshToken(table: map<string, TokenRow>, code: Option<string>, grant: CodeGrant,
                                          profile: OutlookProfile, user: string, now: int)
    requires Truthy(code) && Truthy(grant.accessToken) && !Truthy(grant.refreshToken) && user in table
    ensures var t := AfterCallback(table, OutlookPlan(code, grant, profile, Some(user), now), None);
      && t[user].refreshToken == table[user].refreshToken
      && t[user].accessToken == grant.accessToken.value
      && t[user].expiryDate == now + 1000 * grant.expiresIn.GetOr(DefaultLifetimeS)
      && t[user].email == Some(OutlookEmail(profile))
  {
    UpsertRow(table, OutlookPlan(code, grant, profile, Some(user), now).value);
  }

  /** A first Gmail connection stores the provider's refresh token, or null without one. */
  lemma GmailFirstConnect(table: map<string, TokenRow>, code: Option<string>, grant: CodeGrant,
                          profileEmail: Option<string>, user: string, now: int)
    requires Truthy(code) && Truthy(grant.accessToken) && grant.expiresIn.Some? && user !in table
    ensures var t := AfterCallback(table, GmailPlan(code, grant, profileEmail, Some(user), now), None);
      t[user] == TokenRow(user, profileEmail, grant.accessToken.value, grant.refreshToken,
                          now + 1000 * grant.expiresIn.value, now)
  {
  }
}
