# Signal Strike CRM: email sync, OAuth callbacks and timeline helpers in Dafny

This project models the part of the Signal Strike revenue CRM that keeps a deal's
activity timeline up to date from the salesperson's mailbox. It also proves properties
of that model.

- **Email sync** (`email_sync.dfy`, `reconcile.dfy`, `tokens.dfy`). Four routes exist:
  Gmail and Outlook, each with an internal trigger (shared secret plus `user_id`) and a
  session trigger. They run one algorithm, so the model has one method, `EmailSync.Sync`,
  that takes the provider and the caller as parameters:
  1. The guard chain.
  2. The token-freshness test `now > expiry_date - 60000`. Outlook runs it only when a
     refresh token is stored.
  3. The optional refresh and its write-back.
  4. The deal-by-message loop. It inserts an `email` activity unless `.maybeSingle()`
     finds the `(deal_id, external_id)` pair, and returns `synced`.

  Its contract ties the new token table, the new activity table and the reply to the
  functions `SyncSpec` and `ReconcileAll`. The lemmas about those functions prove these
  properties:
  - the guard codes;
  - the refresh arithmetic;
  - a pair never occurs twice, and rows already in the table are never changed;
  - every listed message ends up recorded exactly once per deal;
  - a rerun inserts nothing.
- **OAuth callbacks** (`oauth_callback.dfy`). Both callbacks have a guard chain
  (`no_code`, `no_token`, `not_logged_in`). Outlook picks the account email as
  `mail || userPrincipalName || "unknown@outlook.com"`. Its upsert payload gets a
  `refresh_token` field only when the provider sent one. The upsert is keyed on `user_id`
  (section 4.1.3 and section 5.1 of RFC 6749 for the token exchange).
- **Activity timeline** (`activity_log.dfy`). This covers:
  - the `timeAgo` buckets;
  - JavaScript `trim` and the add form's validation and normalisation;
  - the delete filter and the delete-button rule;
  - the component's state (list, flags, form fields). `Load`, `Add` and `Delete` update
    that state and the activities table.
- **Sidebar** (`sidebar.dfy`). This covers the active-link rule over the four nav entries
  and the fallbacks for the avatar initial, the name and the role.

The network, the clock and the database client are inputs:
- The provider's list and detail requests are a `Mailbox` function from a `Query` to a
  response. The query holds the search, the cap of 20 and the bearer token.
- The token endpoint's reply is a `RefreshReply` or a `CodeGrant`.
- The session lookup is an optional user id.
- The upsert's error is an optional message.
- `now` is one integer clock reading, in milliseconds.

The tables that change are fields of a `Backend.Store` object. Its `Valid` predicate says that every token row sits under its own user_id, and the sync and callback handlers keep it.

Points of the code's behaviour that the model follows exactly:
- The code refreshes only when `now > expiry - 60000`, so with exactly 60 s left the
  stored token is used (`Tokens.StaleBoundary`).
- A failed request or an unparsable reply aborts the run, since there is no `try`/`catch`.
  An error reply with a JSON body is skipped, because it has no `messages` (Gmail) or no
  `value` (Outlook, where `value ?? []` lists nothing). A Gmail detail request that fails
  that way gives no headers, so the row is still inserted, titled "(no subject)" and
  stamped with the clock reading. A run also skips a deal with a falsy contact email.
- The sync routes keep the stored refresh token after a refresh and store no new one,
  whatever the refresh reply holds; the model does the same.
- The existence check is `.maybeSingle()`. It finds a row only when exactly one row
  matches. A table that already holds two rows for a pair gets a third one. So the
  uniqueness lemmas assume the table starts with unique pairs (`Reconcile.Unique`).

## Model

| member | source | states |
|---|---|---|
| Tokens.Refreshed | src/app/api/outlook/sync-internal/route.ts:23-28 | a refresh yields a token exactly when the reply's access_token is truthy; the new expiry is now + 1000·(expires_in ?? 3600) for Outlook and now + 3 600 000 for Gmail (src/app/api/gmail/sync-internal/route.ts:48) |
| Tokens.Stale | src/app/api/gmail/sync-internal/route.ts:42 | a stored token is fresh exactly while at least 60 000 ms remain before expiry_date |
| Tokens.NeedsRefresh | src/app/api/outlook/sync-internal/route.ts:50 | a refresh happens only for a stale token; Gmail refreshes every stale token; Outlook never refreshes when no truthy refresh token is stored (src/app/api/gmail/sync-internal/route.ts:42) |
| Tokens.ApplyGrant | src/app/api/gmail/sync-internal/route.ts:46-50 | the post-refresh update sets access_token, expiry_date and updated_at, and leaves user_id, email and refresh_token as stored |
| Tokens.GmailRefreshLasts | src/app/api/gmail/sync-internal/route.ts:42-48 | after a Gmail refresh at `now`, a later run refreshes again exactly when its clock exceeds now + 3 540 000 |
| Tokens.StaleBoundary | src/app/api/gmail/sync-internal/route.ts:42 | at now == expiry_date − 60000 the token is not refreshed; one millisecond later it is |
| Tokens.Upsert | src/app/api/auth/outlook/callback/route.ts:58-60 | the upsert on user_id adds the payload's user to the keys, leaves every other user's row unchanged, and keeps one row per user |
| Tokens.UpsertRow | src/app/api/auth/outlook/callback/route.ts:49-60 | the upserted row holds the supplied columns; an omitted refresh_token or email keeps the stored value on conflict and is null on insert |
| Tokens.UpsertIdempotent | src/app/api/auth/gmail/callback/route.ts:40-47 | repeating the same upsert leaves the table as the first one did |
| Seqs.Keep | src/components/ActivityLog.tsx:78 | `filter`'s result has only elements of the input that pass the test, and every element of the input that passes is in it |
| Reconcile.SearchFor | src/app/api/outlook/sync/route.ts:65-70 | every list request carries the run's access token and the cap 20; Outlook searches only the sender address (the From-or-To `filter` is never sent), Gmail searches from-or-to |
| Reconcile.FindHeader | src/app/api/gmail/sync-internal/route.ts:89-91 | `headers.find(name)?.value` is the value of the first header with that name, and is absent exactly when no header has that name |
| Reconcile.Inbox | src/app/api/gmail/sync-internal/route.ts:63-72 | a deal with a falsy contact email lists nothing; otherwise the listed messages are the response's list, and nothing when the list is absent (`messages` for Gmail, `value ?? []` for Outlook at src/app/api/outlook/sync-internal/route.ts:80-81) |
| Reconcile.Title | src/app/api/gmail/sync-internal/route.ts:90 | Gmail's title is the Subject header's value, or "(no subject)" without one; Outlook's is the subject when truthy, else "(no subject)" (src/app/api/outlook/sync-internal/route.ts:97), so never empty |
| Reconcile.OccurredAt | src/app/api/gmail/sync-internal/route.ts:91-92 | the occurred_at is the truthy Date header's DateText (Gmail normalises it with toISOString) or the truthy receivedDateTime (Outlook, src/app/api/outlook/sync-internal/route.ts:100, as sent), else the clock reading |
| Reconcile.EmailActivity | src/app/api/gmail/sync-internal/route.ts:94-102 | the inserted row is the user's, of type email, for that deal, with a null body, the message id as external_id, and that title and occurred_at |
| Reconcile.Visit | src/app/api/gmail/sync-internal/route.ts:75-104 | one existence check plus insert appends at most one row and keeps the table as a prefix; it appends nothing exactly when exactly one row has the pair, and what it appends is the message's email record |
| Reconcile.ReconcileDeal | src/app/api/gmail/sync-internal/route.ts:74-105 | the per-deal loop keeps every existing row in place and order, and each row it appends is the email record of one of the deal's listed messages |
| Reconcile.ReconcileAll | src/app/api/gmail/sync-internal/route.ts:63-106 | the deals loop keeps every existing row, and each appended row is the user's, of type email, with a null body and an external id |
| Reconcile.AllFromInbox | src/app/api/gmail/sync-internal/route.ts:63-106 | every row a run appends is the email record, for one of the run's deals, of a message that deal's list request returned |
| Reconcile.AllBearerBlind | src/app/api/gmail/sync-internal/route.ts:67-70 | the token enters a run only through the requests: against a mailbox that answers the same whatever the token, runs with two different tokens give the same table |
| Reconcile.VisitUnique | src/app/api/gmail/sync-internal/route.ts:75-82 | one existence check plus insert keeps every (deal_id, external_id) pair at most once |
| Reconcile.VisitCovers | src/app/api/gmail/sync-internal/route.ts:75-102 | after one existence check plus insert the message is recorded for the deal |
| Reconcile.DealUnique | src/app/api/outlook/sync-internal/route.ts:83-104 | a deal's pass keeps pairs unique |
| Reconcile.DealCovers | src/app/api/outlook/sync-internal/route.ts:83-104 | after a deal's pass every message listed for it is recorded for that deal |
| Reconcile.DealNoOp | src/app/api/outlook/sync-internal/route.ts:84-91 | a deal whose listed messages are all recorded once gets no insert |
| Reconcile.AllUnique | src/app/api/gmail/sync-internal/route.ts:63-106 | a whole run keeps (deal_id, external_id) pairs unique |
| Reconcile.AllCovered | src/app/api/gmail/sync-internal/route.ts:63-106 | after a run every (deal, listed message) pair is in the table |
| Reconcile.AllNoOp | src/app/api/gmail/sync-internal/route.ts:63-106 | with unique pairs that already cover every listed message, a run inserts nothing |
| Reconcile.PerDealKey | src/app/api/gmail/sync-internal/route.ts:78-79 | the key includes deal_id: after a run each message listed for a deal is recorded exactly once for that deal, even when another deal lists it too |
| Reconcile.Idempotent | src/app/api/outlook/sync-internal/route.ts:71-105 | a second run with the same token and mailbox, at any clock reading, returns the table unchanged |
| EmailSync.Fetch | src/app/api/gmail/sync/route.ts:44-100 | past the token stage a run replies 200, leaves the token table alone, reconciles the user's deals with its token, and reports exactly the number of rows it appended |
| EmailSync.Authorize | src/app/api/gmail/sync-internal/route.ts:25-31 | internal trigger: 403 "Forbidden" exactly on a secret mismatch, then 400 "Missing user_id" exactly on a falsy user_id, else the body's user_id; session trigger: 401 "Unauthorized" exactly without a user (src/app/api/outlook/sync/route.ts:26-27), else the session user |
| EmailSync.NotConnected | src/app/api/gmail/sync-internal/route.ts:39 | no token row: 404 on the internal routes, 400 "Gmail not connected" or "Outlook not connected" on the session routes (src/app/api/outlook/sync/route.ts:35) |
| EmailSync.UserDeals | src/app/api/gmail/sync-internal/route.ts:53-57 | the deals a run visits are the user's deals with a contact email, each of them and no other |
| EmailSync.SyncSpec | src/app/api/gmail/sync-internal/route.ts:24-109 | a run keeps existing activities, reports `synced` equal to the number of rows appended, writes nothing when it is rejected, and adds or removes no token row |
| EmailSync.InternalGuards | src/app/api/gmail/sync-internal/route.ts:25-39 | internal trigger: 403 exactly on a secret mismatch (a missing header never matches), 400 exactly on a falsy user_id, 404 exactly when no token row exists; these stop before any write |
| EmailSync.SessionGuards | src/app/api/outlook/sync/route.ts:26-35 | session trigger: 401 Unauthorized without a user, with nothing written; 400 "Gmail/Outlook not connected" exactly when the user has no token row |
| EmailSync.TokenStage | src/app/api/outlook/sync-internal/route.ts:48-59 | a token that needs no refresh is used as stored; a failed refresh returns 401 with nothing written; a successful one rewrites only that user's access token, expiry and updated_at, and its token is the one the requests carry |
| EmailSync.NoDeals | src/app/api/gmail/sync/route.ts:50-52 | with no deal that has a contact email the run inserts nothing and replies `synced: 0`, with the "No deals with contact emails" message on the session routes only |
| EmailSync.SyncKeepsUnique | src/app/api/gmail/sync-internal/route.ts:75-104 | a run from a table with unique pairs leaves them unique, and every row it adds is a synced email of the user |
| EmailSync.SyncInsertsOnlyListed | src/app/api/gmail/sync-internal/route.ts:63-106 | every activity a run adds is the email record of a message the provider listed for one of the user's deals with a contact email |
| EmailSync.SyncedRun | src/app/api/gmail/sync-internal/route.ts:41-106 | a run that replies 200 was authorized, used a bearer token, and left the table equal to the reconciliation of the user's deals with that token |
| EmailSync.RerunInsertsNothing | src/app/api/outlook/sync-internal/route.ts:83-104 | a second run that reaches the provider with the same token inserts nothing and reports 0, whatever the clock and the refresh reply |
| EmailSync.RerunAnyToken | src/app/api/outlook/sync-internal/route.ts:50-104 | against a mailbox whose answers do not depend on the token, any second run that reaches the provider inserts nothing and reports 0, even when it refreshed again |
| EmailSync.GmailRerunIdempotent | src/app/api/gmail/sync-internal/route.ts:42-104 | an immediate second Gmail run does not refresh again, changes nothing and replies `synced: 0` |
| EmailSync.Sync | src/app/api/gmail/sync-internal/route.ts:24-109 | the route handler leaves the provider's token table, the activities table and its reply as `SyncSpec` gives them, and does not touch the other provider's table |
| EmailSync.TokenStep | src/app/api/outlook/sync-internal/route.ts:48-59 | the token stage returns the stored token when no refresh is due, none after a failed refresh, or the new token after writing it into the user's row |
| EmailSync.Collect | src/app/api/outlook/sync/route.ts:50-100 | the deals query and loop change the activities table and produce the reply that `Fetch` gives |
| EmailSync.SyncDeals | src/app/api/outlook/sync-internal/route.ts:69-105 | the outer loop appends what `ReconcileAll` appends over the deals in order, and `totalSynced` counts the appended rows |
| EmailSync.SyncMessages | src/app/api/gmail/sync-internal/route.ts:74-105 | the inner loop appends what `ReconcileDeal` appends for the deal's messages, and returns their number |
| OAuthCallback.OutlookEmail | src/app/api/auth/outlook/callback/route.ts:34 | the stored email is `mail` when truthy, else `userPrincipalName` when truthy, else "unknown@outlook.com"; never empty |
| OAuthCallback.OutlookPlan | src/app/api/auth/outlook/callback/route.ts:9-56 | guards in order: no_code, no_token, not_logged_in; otherwise the payload has the user, the token, that email, expiry now + 1000·(expires_in ?? 3600), and a refresh_token field exactly when the provider sent a truthy one |
| OAuthCallback.GmailPlan | src/app/api/auth/gmail/callback/route.ts:8-47 | the same guards; the payload has the profile email, the provider's refresh_token as sent, and expiry now + 1000·expires_in |
| OAuthCallback.AfterCallback | src/app/api/auth/outlook/callback/route.ts:58-64 | the token table is upserted only when the guards passed and the upsert reported no error; otherwise it is left as it was; other users' rows never change and one row per user is kept |
| OAuthCallback.OutlookRedirect | src/app/api/auth/outlook/callback/route.ts:62-66 | `connected` exactly when the guards passed and the upsert had no error; a guard's redirect as it is; `reason=db` with the error message as detail |
| OAuthCallback.GmailRedirect | src/app/api/auth/gmail/callback/route.ts:49-53 | as Outlook's, except that `reason=db` carries no detail |
| OAuthCallback.OutlookCallback | src/app/api/auth/outlook/callback/route.ts:5-67 | the handler redirects as the guards, the db error (`reason=db` with its message as detail) or `connected` dictate, and upserts the payload only on success |
| OAuthCallback.GmailCallback | src/app/api/auth/gmail/callback/route.ts:4-54 | the handler redirects as the guards, `reason=db` without detail, or `connected` dictate, and upserts only on success |
| OAuthCallback.CallbackKeepsOneRowPerUser | src/app/api/auth/outlook/callback/route.ts:58-60 | a callback keeps every row under its own user_id and never removes a row |
| OAuthCallback.OutlookReconnectKeepsRefreshToken | src/app/api/auth/outlook/callback/route.ts:56-60 | an Outlook reconnect without a refresh token in the reply keeps the stored refresh token and replaces the access token, expiry and email |
| OAuthCallback.GmailFirstConnect | src/app/api/auth/gmail/callback/route.ts:40-47 | a first Gmail connection stores exactly the payload's columns, with a null refresh_token when none was sent |
| ActivityLog.Bucket | src/components/ActivityLog.tsx:25-35 | "just now" exactly when under 60 000 ms have elapsed (future times included); otherwise m minutes (1–59), h hours (1–23) or d days (1–6), each the floor of the elapsed time, or the calendar date from 7 days on |
| ActivityLog.Label | src/components/ActivityLog.tsx:25-35 | the label is "just now", a numeral without a leading zero reading the bucket's count, followed by "m ago", "h ago" or "d ago", or the calendar date |
| ActivityLog.Decimal | src/components/ActivityLog.tsx:29 | the count printed by the template literal is a non-empty string of decimal digits without a leading zero |
| ActivityLog.DecimalRoundTrip | src/components/ActivityLog.tsx:29-33 | the printed numeral reads back as the count |
| ActivityLog.MinuteBoundary | src/components/ActivityLog.tsx:27-29 | exactly 60 000 ms reads "1m ago"; 59 999 ms reads "just now" |
| ActivityLog.Trim | src/components/ActivityLog.tsx:61 | `trim` drops white space at both ends (the JavaScript white-space and line-terminator set), is empty exactly for an all-white-space string, and keeps a slice of the input |
| ActivityLog.TrimIdempotent | src/components/ActivityLog.tsx:66-67 | trimming a trimmed string changes nothing |
| ActivityLog.NewRow | src/components/ActivityLog.tsx:60-70 | no insert exactly when the title is all white space; otherwise the row has the trimmed, non-empty title, and a trimmed body or null exactly when the body is all white space |
| ActivityLog.WithoutFacts | src/components/ActivityLog.tsx:78 | the delete filter leaves no entry with that id, keeps every other entry, keeps their order across concatenation, and changes nothing when the id is absent |
| ActivityLog.CanDeleteExactly | src/components/ActivityLog.tsx:170 | the delete control is shown exactly for call, email, meeting and note |
| ActivityLog.ActivityLogView.constructor | src/components/ActivityLog.tsx:39-46 | the initial state: no entries, loading, form closed, type note, empty title and body, not saving, and the given date text |
| ActivityLog.ActivityLogView.Load | src/components/ActivityLog.tsx:48-56 | the list becomes the table's rows for this deal, or empty when the read fails (`data ?? []`), and loading ends |
| ActivityLog.ActivityLogView.Add | src/components/ActivityLog.tsx:60-74 | a blank title changes nothing; a form date that does not parse throws after saving is set, so nothing is inserted, the form is kept and saving stays on; otherwise the normalised row is appended to the table unless the insert fails, and in both cases the title, body and form are cleared, the list is reloaded, and saving ends |
| ActivityLog.ActivityLogView.Delete | src/components/ActivityLog.tsx:76-79 | the row with that id goes from the table unless the delete fails, and the filter removes it from the list in both cases |
| Sidebar.IsActive | src/components/layout/sidebar.tsx:37 | an active entry's href is a prefix of the path; "/dashboard" is active only on that exact path, every other href on any path it prefixes |
| Sidebar.ActiveFlags | src/components/layout/sidebar.tsx:36-37 | of the four rendered flags, Overview's is set exactly on "/dashboard", each other's exactly when its href prefixes the path, and no two are set together |
| Sidebar.OverviewExact | src/components/layout/sidebar.tsx:37 | Overview is active exactly on "/dashboard"; "/dashboard/x" does not activate it |
| Sidebar.OthersByPrefix | src/components/layout/sidebar.tsx:37 | the other entries are active exactly when their href is a plain prefix of the path, so "/deals-old" activates Deals |
| Sidebar.AtMostOneActive | src/components/layout/sidebar.tsx:8-13 | no path activates two of the four entries |
| Sidebar.Upper | src/components/layout/sidebar.tsx:50 | `toUpperCase` maps an ASCII lower-case letter to its capital and leaves other characters alone |
| Sidebar.Initial | src/components/layout/sidebar.tsx:50 | the avatar shows the upper-cased first character of full_name, "?" when the profile or the name is missing, and "" for an empty name |
| Sidebar.DisplayName | src/components/layout/sidebar.tsx:53 | the name shown is full_name, or "User" when the profile or the name is missing |
| Sidebar.Role | src/components/layout/sidebar.tsx:54 | the role shown is the profile's role, or "sales_rep" when missing |
| Sidebar.EmptyNameInitial | src/components/layout/sidebar.tsx:50-53 | an empty full_name gives an empty initial and an empty name, not the fallbacks |

## Left out

- Network and database clients: `fetch`, `res.json()` and the Supabase queries are not modelled. Their results are parameters (`Mailbox`, `RefreshReply`, `CodeGrant`, the profile, the session user, the upsert error), and the tables are `Backend.Store` fields.
- Thrown errors: a failed request or unparsable JSON aborts a handler, since there is no `try`/`catch`. These paths are not modelled.
- Insert and update errors in the sync routes: their results are never checked, so the model treats every insert and update as succeeding. This matches the counter, which is incremented regardless.
- Gmail's per-message metadata request: it is folded into `Message.headers`. A response without `payload.headers` appears as no headers.
- Dates: `new Date(...).toISOString()`, `toLocaleDateString`, `encodeURIComponent` and the query-string syntax are library behaviour.
  - A provider's date text is stored opaquely as `DateText`.
  - The calendar-date label is a parameter of `ActivityLog.Label`.
  - The form's date text is kept as typed; whether it parses is the `dateValid` parameter of `ActivityLog.ActivityLogView.Add`.
  - An unparsable Gmail `Date` header makes `toISOString` throw; that path is not modelled.
- One clock reading: the handlers call `Date.now()` several times. The model uses one `now` for all of them.
- Concurrency: two runs that overlap can both pass the existence check and insert twice. The model runs one handler at a time.
- Row ids: the activities table's generated `id` is a parameter of `ActivityLogView.Add`. The sync model does not keep ids.
- ActivityLog.ActivityLogView.Load: the server-side `order("occurred_at", descending)` is not modelled. The list keeps table order.
- Sidebar.Initial: its upper-casing goes through `Sidebar.Upper`, so it shares the gap below: "é" gives "É" in JavaScript but stays "é" here, and "ß" gives the two characters "SS", which the one-character result of the contract does not allow.
- Sidebar.Upper: only ASCII letters are mapped. Full Unicode case mapping (for example "ß" to "SS") is not modelled, and `charAt(0)` is taken as the first character rather than the first UTF-16 unit.
- OAuthCallback.GmailPlan: requires `expires_in` whenever there is an access token. Without it the code computes `NaN` as expiry_date, which the JSON body sends as `null`. The column then holds null, or the upsert fails and the callback redirects with `reason=db`, depending on a gmail_tokens schema that is not part of this model. Expiry dates are integers here, so that path is not modelled.
- OAuthCallback.GmailCallback: has the same requirement on `expires_in`, for the same reason.
- Two views of the activities table: the sync routes' `Records.Activity` rows in `Backend.Store.activities` and the timeline component's `ActivityLog.Row` rows in `ActivityLog.ActivityTable.rows` are kept separate on purpose, so that each part carries only the columns it reads and writes. The model therefore does not show rows inserted by a sync appearing in the component's list.
- EmailSync.UserDeals: the deals query has no `order`, so the database may return the deals in any order. The model visits them in table order. Uniqueness and coverage do not depend on the order; the order of inserted rows across deals does.
- Refresh-token rotation: the sync routes do not store a new refresh token from a refresh reply, and neither does the model.
- UI rendering: styles, icons, sign-out, the form's open/close toggle and the type picker are not modelled, beyond the state fields that `Add` and `Delete` change.
- The connect routes and `src/types/database.ts` are not part of this model.
