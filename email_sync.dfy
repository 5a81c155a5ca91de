/**
 * The four sync routes (Gmail and Outlook, each with an internal-secret trigger and a
 * session trigger) as one algorithm parameterised by the provider and the trigger:
 * guard chain, token-freshness decision, optional refresh, then the deal-by-message
 * dedup-insert loop that returns the number of inserted activities.
 */
module EmailSync {
  import opened Wrappers
  import opened Records
  import opened Seqs
  import opened Tokens
  import opened Reconcile
  import opened Backend

  /**
   * Who triggers a run. `Internal`: the background trigger, with the x-internal-secret
   * header, the configured INTERNAL_SYNC_SECRET and the body's user_id. `Session`: a signed-in
   * user, or none.
   */
  datatype Caller =
    | Internal(secretHeader: Option<string>, configuredSecret: Option<string>, bodyUserId: Option<string>)
    | Session(sessionUser: Option<string>)

  /** The JSON response: `{ synced, message? }` with status 200, or `{ error }` with a status. */
  datatype SyncReply = Synced(count: nat, message: Option<string>) | Rejected(status: int, error: string)

  const NoDealsMessage: string := "No deals with contact emails"

  /** `authHeader !== process.env.INTERNAL_SYNC_SECRET` is false only for two equal strings. */
  predicate SecretMatches(header: Option<string>, secret: Option<string>) {
    header.Some? && header == secret
  }

  /** The guard chain before the token lookup: the user on whose behalf the run goes on. */
  function Authorize(c: Caller): (r: Result<string, SyncReply>)
    ensures c.Internal? ==>
      && (!SecretMatches(c.secretHeader, c.configuredSecret) <==> r == Failure(Rejected(403, "Forbidden")))
      && (SecretMatches(c.secretHeader, c.configuredSecret) && !Truthy(c.bodyUserId) <==>
            r == Failure(Rejected(400, "Missing user_id")))
      && (r.Success? <==> SecretMatches(c.secretHeader, c.configuredSecret) && Truthy(c.bodyUserId))
      && (r.Success? ==> r.value == c.bodyUserId.value)
    ensures c.Session? ==>
      && (c.sessionUser.None? <==> r == Failure(Rejected(401, "Unauthorized")))
      && (r.Success? <==> c.sessionUser.Some?)
      && (r.Success? ==> r.value == c.sessionUser.value)
  {
    match c
    case Internal(header, secret, bodyUser) =>
      if !SecretMatches(header, secret) then Failure(Rejected(403, "Forbidden"))
      else if !Truthy(bodyUser) then Failure(Rejected(400, "Missing user_id"))
      else Success(bodyUser.value)
    case Session(user) =>
      if user.None? then Failure(Rejected(401, "Unauthorized")) else Success(user.value)
  }

  /** The response when the user has no token row. */
  function NotConnected(p: Provider, c: Caller): (r: SyncReply)
    ensures r.Rejected?
    ensures r.status == 404 <==> c.Internal?
    ensures r.status == 400 <==> c.Session?
    ensures c.Session? ==> r.error == (if p == Gmail then "Gmail not connected" else "Outlook not connected")
  {
    match (c, p)
    case (Internal(_, _, _), Gmail) => Rejected(404, "No token found")
    case (Internal(_, _, _), Outlook) => Rejected(404, "No Outlook token found")
    case (Session(_), Gmail) => Rejected(400, "Gmail not connected")
    case (Session(_), Outlook) => Rejected(400, "Outlook not connected")
  }

  /** The deals query: the user's deals whose contact_email is not null, in table order. */
  function UserDeals(deals: seq<Deal>, user: string): (r: seq<Deal>)
    ensures forall i :: 0 <= i < |r| ==> r[i] in deals && r[i].userId == user && r[i].contactEmail.Some?
    ensures forall i :: 0 <= i < |deals| && deals[i].userId == user && deals[i].contactEmail.Some? ==> deals[i] in r
  {
    Keep(deals, (d: Deal) => d.userId == user && d.contactEmail.Some?)
  }

  /**
   * The outcome of a run: the response, the provider's token table and the activities table
   * afterwards, and the access token the provider requests carry (none when the run stopped
   * at the guards or the token stage).
   */
  datatype SyncResult = SyncResult(
    reply: SyncReply,
    tokens: map<string, TokenRow>,
    activities: seq<Activity>,
    bearer: Option<string>)

  /** The part of a run after the token stage. */
  function Fetch(p: Provider, c: Caller, user: string, bearer: string, tokens: map<string, TokenRow>,
                 acts: seq<Activity>, deals: seq<Deal>, mailbox: Mailbox, now: int): (r: SyncResult)
    ensures r.reply.Synced? && r.tokens == tokens && r.bearer == Some(bearer)
    ensures |acts| <= |r.activities| && r.activities[..|acts|] == acts
    ensures r.reply.count == |r.activities| - |acts|
    ensures r.activities == ReconcileAll(p, user, bearer, UserDeals(deals, user), mailbox, now, acts)
  {
    var ds := UserDeals(deals, user);
    if |ds| == 0 then
      SyncResult(Synced(0, if c.Session? then Some(NoDealsMessage) else None), tokens, acts, Some(bearer))
    else
      var after := ReconcileAll(p, user, bearer, ds, mailbox, now, acts);
      SyncResult(Synced(|after| - |acts|, None), tokens, after, Some(bearer))
  }

  /** One run of a sync route, on the provider's token table and the activities table. */
  function SyncSpec(p: Provider, c: Caller, tokens: map<string, TokenRow>, acts: seq<Activity>,
                    deals: seq<Deal>, mailbox: Mailbox, reply: RefreshReply, now: int): (r: SyncResult)
    ensures |acts| <= |r.activities| && r.activities[..|acts|] == acts
    ensures r.reply.Synced? ==> r.reply.count == |r.activities| - |acts|
    ensures r.reply.Rejected? ==> r.tokens == tokens && r.activities == acts && r.bearer.None?
    ensures r.tokens.Keys == tokens.Keys
  {
    match Authorize(c)
    case Failure(stop) => SyncResult(stop, tokens, acts, None)
    case Success(user) =>
      if user !in tokens then SyncResult(NotConnected(p, c), tokens, acts, None)
      else
        var row := tokens[user];
        if !NeedsRefresh(p, row, now) then
          Fetch(p, c, user, row.accessToken, tokens, acts, deals, mailbox, now)
        else
          match Refreshed(p, reply, now)
          case None => SyncResult(Rejected(401, "Token refresh failed"), tokens, acts, None)
          case Some(g) =>
            Fetch(p, c, user, g.accessToken, tokens[user := ApplyGrant(row, g, now)], acts, deals, mailbox, now)
  }

  // ----- Properties of a run -----

  /**
   * The internal trigger's guards, in order: 403 exactly on a secret mismatch, 400 exactly on
   * a missing user_id, 404 exactly when the user has no token row; none of them writes.
   */
  lemma InternalGuards(p: Provider, header: Option<string>, secret: Option<string>, bodyUser: Option<string>,
                       tokens: map<string, TokenRow>, acts: seq<Activity>, deals: seq<Deal>,
                       mailbox: Mailbox, reply: RefreshReply, now: int)
    ensures var r := SyncSpec(p, Internal(header, secret, bodyUser), tokens, acts, deals, mailbox, reply, now);
      && (r.reply.Rejected? && r.reply.status == 403 <==> !SecretMatches(header, secret))
      && (r.reply.Rejected? && r.reply.status == 400 <==> SecretMatches(header, secret) && !Truthy(bodyUser))
      && (r.reply.Rejected? && r.reply.status == 404 <==>
            SecretMatches(header, secret) && Truthy(bodyUser) && bodyUser.value !in tokens)
      && (r.reply.Rejected? && r.reply.status != 401 ==> r.tokens == tokens && r.activities == acts)
  {
  }

  /**
   * The session trigger's guards: 401 "Unauthorized" without a session user, 400 "not
   * connected" without a token row; neither writes.
   */
  lemma SessionGuards(p: Provider, user: Option<string>, tokens: map<string, TokenRow>, acts: seq<Activity>,
                      deals: seq<Deal>, mailbox: Mailbox, reply: RefreshReply, now: int)
    ensures var r := SyncSpec(p, Session(user), tokens, acts, deals, mailbox, reply, now);
      && (user.None? ==> r == SyncResult(Rejected(401, "Unauthorized"), tokens, acts, None))
      && (r.reply.Rejected? && r.reply.status == 400 <==> user.Some? && user.value !in tokens)
      && (user.Some? && user.value !in tokens ==>
            r.reply.error == (if p == Gmail then "Gmail not connected" else "Outlook not connected"))
  {
  }

  /**
   * The token stage once the guards pass: a fresh token is used as stored; a stale one is
   * refreshed, and a failed refresh stops with 401 before any write, while a successful one
   * rewrites only that user's access token, expiry and updated_at (the refresh token stays)
   * and is the token the provider requests then carry.
   */
  lemma TokenStage(p: Provider, c: Caller, user: string, tokens: map<string, TokenRow>, acts: seq<Activity>,
                   deals: seq<Deal>, mailbox: Mailbox, reply: RefreshReply, now: int)
    requires Authorize(c) == Success(user) && user in tokens
    ensures var r := SyncSpec(p, c, tokens, acts, deals, mailbox, reply, now);
      var row := tokens[user];
      && (!NeedsRefresh(p, row, now) ==>
            r.reply.Synced? && r.tokens == tokens && r.bearer == Some(row.accessToken))
      && (NeedsRefresh(p, row, now) && !Truthy(reply.accessToken) ==>
            r == SyncResult(Rejected(401, "Token refresh failed"), tokens, acts, None))
      && (NeedsRefresh(p, row, now) && Truthy(reply.accessToken) ==>
            && r.reply.Synced?
            && r.bearer == reply.accessToken
            && r.tokens == tokens[user := r.tokens[user]]
            && r.tokens[user] == row.(accessToken := reply.accessToken.value,
                                      expiryDate := Refreshed(p, reply, now).value.expiryDate,
                                      updatedAt := now))
  {
  }

  /** No deal of the user's with a contact email: 0 synced, and nothing inserted. */
  lemma NoDeals(p: Provider, c: Caller, tokens: map<string, TokenRow>, acts: seq<Activity>,
                deals: seq<Deal>, mailbox: Mailbox, reply: RefreshReply, now: int)
    requires Authorize(c).Success? && UserDeals(deals, Authorize(c).value) == []
    ensures var r := SyncSpec(p, c, tokens, acts, deals, mailbox, reply, now);
      r.activities == acts
      && (r.reply.Synced? ==> r.reply == Synced(0, if c.Session? then Some(NoDealsMessage) else None))
  {
  }

  /** A run never makes a (deal_id, external_id) pair occur twice, and adds only synced emails. */
  lemma SyncKeepsUnique(p: Provider, c: Caller, tokens: map<string, TokenRow>, acts: seq<Activity>,
                        deals: seq<Deal>, mailbox: Mailbox, reply: RefreshReply, now: int)
    requires Unique(acts)
    ensures var r := SyncSpec(p, c, tokens, acts, deals, mailbox, reply, now);
      && Unique(r.activities)
      && (Authorize(c).Success? ==>
            forall k :: |acts| <= k < |r.activities| ==> SyncedEmail(r.activities[k], Authorize(c).value))
  {
    var r := SyncSpec(p, c, tokens, acts, deals, mailbox, reply, now);
    SyncedRun(p, c, tokens, acts, deals, mailbox, reply, now);
    if r.reply.Synced? {
      var user := Authorize(c).value;
      AllUnique(p, user, r.bearer.value, UserDeals(deals, user), mailbox, now, acts);
    }
  }

  /**
   * Every activity a run adds is the email record of a message the provider listed for one
   * of the user's deals with a contact email, for that deal.
   */
  lemma SyncInsertsOnlyListed(p: Provider, c: Caller, tokens: map<string, TokenRow>, acts: seq<Activity>,
                              deals: seq<Deal>, mailbox: Mailbox, reply: RefreshReply, now: int)
    ensures var r := SyncSpec(p, c, tokens, acts, deals, mailbox, reply, now);
      r.reply.Synced? ==> forall k :: |acts| <= k < |r.activities| ==>
        FromInbox(p, Authorize(c).value, r.bearer.value, UserDeals(deals, Authorize(c).value), mailbox, now, r.activities[k])
  {
    var r := SyncSpec(p, c, tokens, acts, deals, mailbox, reply, now);
    SyncedRun(p, c, tokens, acts, deals, mailbox, reply, now);
    if r.reply.Synced? {
      var user := Authorize(c).value;
      AllFromInbox(p, user, r.bearer.value, UserDeals(deals, user), mailbox, now, acts);
    }
  }

  /** A run that gets past the token stage reconciles the user's deals with the token it used. */
  lemma SyncedRun(p: Provider, c: Caller, tokens: map<string, TokenRow>, acts: seq<Activity>,
                  deals: seq<Deal>, mailbox: Mailbox, reply: RefreshReply, now: int)
    ensures var r := SyncSpec(p, c, tokens, acts, deals, mailbox, reply, now);
      r.reply.Synced? ==>
        && Authorize(c).Success? && r.bearer.Some?
        && r.activities == ReconcileAll(p, Authorize(c).value, r.bearer.value, UserDeals(deals, Authorize(c).value), mailbox, now, acts)
  {
    var r := SyncSpec(p, c, tokens, acts, deals, mailbox, reply, now);
    if Authorize(c).Success? && Authorize(c).value in tokens {
      var user := Authorize(c).value;
      var row := tokens[user];
      if !NeedsRefresh(p, row, now) {
        assert r == Fetch(p, c, user, row.accessToken, tokens, acts, deals, mailbox, now);
      } else if Refreshed(p, reply, now).Some? {
        var g := Refreshed(p, reply, now).value;
        assert r == Fetch(p, c, user, g.accessToken, tokens[user := ApplyGrant(row, g, now)], acts, deals, mailbox, now);
      }
    }
  }

  /**
   * A second run that reaches the provider with the same access token as the first inserts
   * nothing and reports 0, whatever the clock reads and whatever a refresh would return.
   */
  lemma RerunInsertsNothing(p: Provider, c: Caller, tokens: map<string, TokenRow>, acts: seq<Activity>,
                            deals: seq<Deal>, mailbox: Mailbox, reply: RefreshReply, now: int,
                            reply2: RefreshReply, now2: int)
    requires Unique(acts)
    ensures var r1 := SyncSpec(p, c, tokens, acts, deals, mailbox, reply, now);
      var r2 := SyncSpec(p, c, r1.tokens, r1.activities, deals, mailbox, reply2, now2);
      r1.reply.Synced? && r2.bearer == r1.bearer ==>
        r2.activities == r1.activities && r2.reply.Synced? && r2.reply.count == 0
  {
    var r1 := SyncSpec(p, c, tokens, acts, deals, mailbox, reply, now);
    var r2 := SyncSpec(p, c, r1.tokens, r1.activities, deals, mailbox, reply2, now2);
    if r1.reply.Synced? && r2.bearer == r1.bearer {
      var user := Authorize(c).value;
      var ds := UserDeals(deals, user);
      SyncedRun(p, c, tokens, acts, deals, mailbox, reply, now);
      SyncedRun(p, c, r1.tokens, r1.activities, deals, mailbox, reply2, now2);
      assert r2.reply.Synced?;
      Idempotent(p, user, r1.bearer.value, ds, mailbox, now, now2, acts);
    }
  }

  /**
   * When the provider's answers do not depend on the access token, any second run that
   * gets past the token stage inserts nothing and reports 0, even one that refreshed again
   * (an Outlook token granted with `expires_in` 0 is stale at once).
   */
  lemma RerunAnyToken(p: Provider, c: Caller, tokens: map<string, TokenRow>, acts: seq<Activity>,
                      deals: seq<Deal>, mailbox: Mailbox, reply: RefreshReply, now: int,
                      reply2: RefreshReply, now2: int)
    requires Unique(acts) && IgnoresBearer(mailbox)
    ensures var r1 := SyncSpec(p, c, tokens, acts, deals, mailbox, reply, now);
      var r2 := SyncSpec(p, c, r1.tokens, r1.activities, deals, mailbox, reply2, now2);
      r1.reply.Synced? && r2.reply.Synced? ==> r2.activities == r1.activities && r2.reply.count == 0
  {
    var r1 := SyncSpec(p, c, tokens, acts, deals, mailbox, reply, now);
    var r2 := SyncSpec(p, c, r1.tokens, r1.activities, deals, mailbox, reply2, now2);
    if r1.reply.Synced? && r2.reply.Synced? {
      var user := Authorize(c).value;
      var ds := UserDeals(deals, user);
      SyncedRun(p, c, tokens, acts, deals, mailbox, reply, now);
      SyncedRun(p, c, r1.tokens, r1.activities, deals, mailbox, reply2, now2);
      AllBearerBlind(p, user, r2.bearer.value, r1.bearer.value, ds, mailbox, now2, r1.activities);
      Idempotent(p, user, r1.bearer.value, ds, mailbox, now, now2, acts);
    }
  }

  /**
   * Gmail: an immediate second run (same clock reading) never refreshes again, so it uses
   * the token the first run used, inserts nothing and returns `synced: 0`.
   */
  lemma GmailRerunIdempotent(c: Caller, tokens: map<string, TokenRow>, acts: seq<Activity>,
                             deals: seq<Deal>, mailbox: Mailbox, reply: RefreshReply, reply2: RefreshReply, now: int)
    requires Unique(acts)
    ensures var r1 := SyncSpec(Gmail, c, tokens, acts, deals, mailbox, reply, now);
      var r2 := SyncSpec(Gmail, c, r1.tokens, r1.activities, deals, mailbox, reply2, now);
      r1.reply.Synced? ==>
        r2 == SyncResult(Synced(0, r1.reply.message), r1.tokens, r1.activities, r1.bearer)
  {
    var r1 := SyncSpec(Gmail, c, tokens, acts, deals, mailbox, reply, now);
    var r2 := SyncSpec(Gmail, c, r1.tokens, r1.activities, deals, mailbox, reply2, now);
    if r1.reply.Synced? {
      var user := Authorize(c).value;
      var row1 := r1.tokens[user];
      assert !NeedsRefresh(Gmail, row1, now);
      assert r2.bearer == r1.bearer;
      RerunInsertsNothing(Gmail, c, tokens, acts, deals, mailbox, reply, now, reply2, now);
    }
  }

  /**
   * The route handler. Network calls are the `mailbox` oracle (list plus, for Gmail, the
   * per-message metadata request) and `reply` (the refresh-token grant's JSON); `now` is
   * the clock the handler reads.
   */
  method Sync(db: Store, p: Provider, caller: Caller, mailbox: Mailbox, reply: RefreshReply, now: int)
    returns (out: SyncReply)
    requires db.Valid()
    modifies db`gmailTokens, db`outlookTokens, db`activities
    ensures db.Valid()
    ensures var r := SyncSpec(p, caller, old(db.Tokens(p)), old(db.activities), db.deals, mailbox, reply, now);
      out == r.reply && db.Tokens(p) == r.tokens && db.activities == r.activities
    ensures db.Tokens(Other(p)) == old(db.Tokens(Other(p)))
  {
    // Guard chain.
    var user: string;
    match caller {
      case Internal(header, secret, bodyUser) =>
        if !SecretMatches(header, secret) {
          return Rejected(403, "Forbidden");
        }
        if !Truthy(bodyUser) {
          return Rejected(400, "Missing user_id");
        }
        user := bodyUser.value;
      case Session(sessionUser) =>
        if sessionUser.None? {
          return Rejected(401, "Unauthorized");
        }
        user := sessionUser.value;
    }
    var table := db.Tokens(p);
    if user !in table {
      return NotConnected(p, caller);
    }

    // Token stage.
    var token := TokenStep(db, p, user, reply, now);
    if token.None? {
      return Rejected(401, "Token refresh failed");
    }
    var accessToken := token.value;

    out := Collect(db, p, caller, user, accessToken, mailbox, now);
  }

  /** The deals query and the loop over them, with the provider requests carrying `accessToken`. */
  method Collect(db: Store, p: Provider, caller: Caller, user: string, accessToken: string,
                 mailbox: Mailbox, now: int)
    returns (out: SyncReply)
    modifies db`activities
    ensures var r := Fetch(p, caller, user, accessToken, map[], old(db.activities), db.deals, mailbox, now);
      out == r.reply && db.activities == r.activities
  {
    ghost var r := Fetch(p, caller, user, accessToken, map[], db.activities, db.deals, mailbox, now);
    var deals := UserDeals(db.deals, user);
    if |deals| == 0 {
      return Synced(0, if caller.Session? then Some(NoDealsMessage) else None);
    }
    var totalSynced := SyncDeals(db, p, user, accessToken, deals, mailbox, now);
    assert db.activities == r.activities;
    return Synced(totalSynced, None);
  }

  /**
   * The token stage: the stored access token while it is fresh enough; otherwise the
   * refreshed one, written back to the user's row, or none when the refresh fails.
   */
  method TokenStep(db: Store, p: Provider, user: string, reply: RefreshReply, now: int)
    returns (token: Option<string>)
    requires db.Valid() && user in db.Tokens(p)
    modifies db`gmailTokens, db`outlookTokens
    ensures db.Valid()
    ensures var row := old(db.Tokens(p))[user];
      if !NeedsRefresh(p, row, now) then
        token == Some(row.accessToken) && db.Tokens(p) == old(db.Tokens(p))
      else match Refreshed(p, reply, now)
        case None => token.None? && db.Tokens(p) == old(db.Tokens(p))
        case Some(g) => token == Some(g.accessToken) && db.Tokens(p) == old(db.Tokens(p))[user := ApplyGrant(row, g, now)]
    ensures db.Tokens(Other(p)) == old(db.Tokens(Other(p)))
  {
    var table := db.Tokens(p);
    var row := table[user];
    if !NeedsRefresh(p, row, now) {
      return Some(row.accessToken);
    }
    var granted := Refreshed(p, reply, now);
    if granted.None? {
      return None;
    }
    var updated := table[user := ApplyGrant(row, granted.value, now)];
    match p {
      case Gmail => db.gmailTokens := updated;
      case Outlook => db.outlookTokens := updated;
    }
    return Some(granted.value.accessToken);
  }

  /** The outer `for (const deal of deals)` loop; returns `totalSynced`. */
  method SyncDeals(db: Store, p: Provider, user: string, accessToken: string, deals: seq<Deal>,
                   mailbox: Mailbox, now: int)
    returns (totalSynced: nat)
    modifies db`activities
    ensures db.activities == ReconcileAll(p, user, accessToken, deals, mailbox, now, old(db.activities))
    ensures totalSynced == |db.activities| - |old(db.activities)|
  {
    totalSynced := 0;
    var i := 0;
    while i < |deals|
      invariant 0 <= i <= |deals|
      invariant db.activities == ReconcileAll(p, user, accessToken, deals[..i], mailbox, now, old(db.activities))
      invariant totalSynced == |db.activities| - |old(db.activities)|
    {
      var deal := deals[i];
      assert deals[..i + 1][..i] == deals[..i];
      if Truthy(deal.contactEmail) {
        var response := mailbox(SearchFor(p, accessToken, deal.contactEmail.value));
        var messages: seq<Message> := [];
        match p {
          case Gmail =>
            // `if (!listData.messages) continue;`
            if response.items.Some? {
              messages := response.items.value;
            }
          case Outlook =>
            // `messagesData.value ?? []`
            messages := response.items.GetOr([]);
        }
        var inserted := SyncMessages(db, p, user, deal.id, messages, now);
        totalSynced := totalSynced + inserted;
      }
      i := i + 1;
    }
    assert deals[..i] == deals;
  }

  /** The inner `for (const msg of messages)` loop for one deal; returns how many it inserted. */
  method SyncMessages(db: Store, p: Provider, user: string, dealId: string, messages: seq<Message>, now: int)
    returns (inserted: nat)
    modifies db`activities
    ensures db.activities == ReconcileDeal(p, user, dealId, messages, now, old(db.activities))
    ensures inserted == |db.activities| - |old(db.activities)|
  {
    inserted := 0;
    var j := 0;
    while j < |messages|
      invariant 0 <= j <= |messages|
      invariant db.activities == ReconcileDeal(p, user, dealId, messages[..j], now, old(db.activities))
      invariant inserted == |db.activities| - |old(db.activities)|
    {
      var msg := messages[j];
      assert messages[..j + 1][..j] == messages[..j];
      // `.maybeSingle()` finds the existing row only when exactly one matches.
      if Matches(db.activities, dealId, msg.id) != 1 {
        var title: string;
        var occurred: Timestamp;
        match p {
          case Gmail =>
            var headers := msg.headers;
            title := FindHeader(headers, "Subject").GetOr(NoSubject);
            var date := FindHeader(headers, "Date");
            occurred := if Truthy(date) then DateText(date.value) else Clock(now);
          case Outlook =>
            title := if Truthy(msg.subject) then msg.subject.value else NoSubject;
            occurred := if Truthy(msg.receivedDateTime) then DateText(msg.receivedDateTime.value) else Clock(now);
        }
        db.activities := db.activities + [Activity(user, dealId, Email, title, None, Some(msg.id), occurred)];
        inserted := inserted + 1;
      }
      j := j + 1;
    }
    assert messages[..j] == messages;
  }
}
