/**
 * The reconciliation step of the sync routes, as functions of the activity table: for each
 * deal, for each message the provider lists for the deal's contact, insert an "email"
 * activity unless the table already holds one row with the same (deal_id, external_id).
 */
module Reconcile {
  import opened Wrappers
  import opened Records

  /** How the provider is asked for a contact's messages. */
  datatype Criterion =
    | FromOrTo            // Gmail: q = "from:<address> OR to:<address>"
    | SenderContains      // Outlook: $filter = contains(from/emailAddress/address, '<address>')

  /** A list request: the search, the result cap and the bearer token it is authorized with. */
  datatype Query = Query(criterion: Criterion, address: string, cap: nat, bearer: string)

  /** The provider's list response: Gmail's `messages`, Outlook's `value`; either may be missing. */
  datatype ListResponse = ListResponse(items: Option<seq<Message>>)

  /** The provider's answer to each query: stands for the list (and detail) requests. */
  type Mailbox = Query -> ListResponse

  /** Both routes ask for at most 20 messages per contact. */
  const PageCap: nat := 20
  const NoSubject: string := "(no subject)"

  /**
   * The search each provider's routes send for one contact address. Outlook matches the
   * sender only: the From-or-To `filter` string its session route builds is never sent.
   */
  function SearchFor(p: Provider, bearer: string, address: string): (q: Query)
    ensures q.address == address && q.cap == PageCap && q.bearer == bearer
    ensures q.criterion == SenderContains <==> p == Outlook
  {
    match p
    case Gmail => Query(FromOrTo, address, PageCap, bearer)
    case Outlook => Query(SenderContains, address, PageCap, bearer)
  }

  /**
   * The messages a run reconciles for one deal: none when the contact email is falsy (the
   * route skips the deal), and none when the list response lacks its list (Gmail skips the
   * deal, Outlook substitutes `[]`).
   */
  function Inbox(p: Provider, mailbox: Mailbox, bearer: string, d: Deal): (r: seq<Message>)
    ensures !Truthy(d.contactEmail) ==> r == []
    ensures Truthy(d.contactEmail) ==>
      var resp := mailbox(SearchFor(p, bearer, d.contactEmail.value));
      (resp.items.None? ==> r == []) && (resp.items.Some? ==> r == resp.items.value)
  {
    if Truthy(d.contactEmail) then mailbox(SearchFor(p, bearer, d.contactEmail.value)).items.GetOr([])
    else []
  }

  /** `headers.find(h => h.name === name)?.value`: the value of the first header so named. */
  function FindHeader(hs: seq<Header>, name: string): (r: Option<string>)
    ensures r.None? <==> forall i :: 0 <= i < |hs| ==> hs[i].name != name
    ensures r.Some? ==>
      exists i :: 0 <= i < |hs| && hs[i] == Header(name, r.value) && (forall j :: 0 <= j < i ==> hs[j].name != name)
    decreases |hs|
  {
    if hs == [] then None
    else if hs[0].name == name then Some(hs[0].value)
    else
      var r := FindHeader(hs[1..], name);
      assert forall i :: 1 <= i < |hs| ==> hs[i] == hs[1..][i - 1];
      r
  }

  /** The title of a synced email: Gmail `Subject ?? "(no subject)"`, Outlook `subject || "(no subject)"`. */
  function Title(p: Provider, m: Message): (r: string)
    ensures p == Gmail ==> (FindHeader(m.headers, "Subject").Some? ==> r == FindHeader(m.headers, "Subject").value)
    ensures p == Gmail && FindHeader(m.headers, "Subject").None? ==> r == NoSubject
    ensures p == Outlook ==> r != "" && (Truthy(m.subject) ==> r == m.subject.value)
    ensures p == Outlook && !Truthy(m.subject) ==> r == NoSubject
  {
    match p
    case Gmail => FindHeader(m.headers, "Subject").GetOr(NoSubject)
    case Outlook => if Truthy(m.subject) then m.subject.value else NoSubject
  }

  /** `occurred_at`: the message's Date header (Gmail) or receivedDateTime (Outlook) when truthy, else now. */
  function OccurredAt(p: Provider, m: Message, now: int): (r: Timestamp)
    ensures r.DateText? ==> r.text != ""
    ensures p == Outlook && Truthy(m.receivedDateTime) ==> r == DateText(m.receivedDateTime.value)
    ensures p == Gmail && Truthy(FindHeader(m.headers, "Date")) ==> r == DateText(FindHeader(m.headers, "Date").value)
    ensures p == Outlook && !Truthy(m.receivedDateTime) ==> r == Clock(now)
    ensures p == Gmail && !Truthy(FindHeader(m.headers, "Date")) ==> r == Clock(now)
  {
    var given := match p
      case Gmail => FindHeader(m.headers, "Date")
      case Outlook => m.receivedDateTime;
    if Truthy(given) then DateText(given.value) else Clock(now)
  }

  /** The record inserted for message `m` of deal `dealId`. */
  function EmailActivity(p: Provider, user: string, dealId: string, m: Message, now: int): (a: Activity)
    ensures SyncedEmail(a, user) && HasKey(a, dealId, m.id)
    ensures a.title == Title(p, m) && a.occurredAt == OccurredAt(p, m, now)
  {
    Activity(user, dealId, Email, Title(p, m), None, Some(m.id), OccurredAt(p, m, now))
  }

  predicate HasKey(a: Activity, dealId: string, extId: string) {
    a.dealId == dealId && a.externalId == Some(extId)
  }

  /** The number of rows with deal_id = dealId and external_id = extId. */
  function Matches(acts: seq<Activity>, dealId: string, extId: string): nat
    decreases |acts|
  {
    if acts == [] then 0
    else Matches(acts[..|acts| - 1], dealId, extId) + (if HasKey(acts[|acts| - 1], dealId, extId) then 1 else 0)
  }

  /** No (deal_id, external_id) pair occurs twice. */
  ghost predicate Unique(acts: seq<Activity>) {
    forall d, x :: Matches(acts, d, x) <= 1
  }

  /**
   * One iteration of the inner loop. The existence check is `.maybeSingle()`, which yields a
   * row only when exactly one row matches; with zero (or several) the message is inserted.
   */
  function Visit(p: Provider, user: string, dealId: string, m: Message, now: int, acts: seq<Activity>): (r: seq<Activity>)
    ensures |acts| <= |r| <= |acts| + 1 && r[..|acts|] == acts
    ensures r == acts <==> Matches(acts, dealId, m.id) == 1
    ensures |r| == |acts| + 1 ==> r[|acts|] == EmailActivity(p, user, dealId, m, now)
  {
    if Matches(acts, dealId, m.id) == 1 then acts else acts + [EmailActivity(p, user, dealId, m, now)]
  }

  /** The inner loop over one deal's messages, in the provider's order. */
  function ReconcileDeal(p: Provider, user: string, dealId: string, msgs: seq<Message>, now: int, acts: seq<Activity>): (r: seq<Activity>)
    ensures |acts| <= |r| && r[..|acts|] == acts
    ensures forall k :: |acts| <= k < |r| ==>
      exists j :: 0 <= j < |msgs| && r[k] == EmailActivity(p, user, dealId, msgs[j], now)
    decreases |msgs|
  {
    if msgs == [] then acts
    else
      var before := ReconcileDeal(p, user, dealId, msgs[..|msgs| - 1], now, acts);
      var r := Visit(p, user, dealId, msgs[|msgs| - 1], now, before);
      assert forall j :: 0 <= j < |msgs| - 1 ==> msgs[..|msgs| - 1][j] == msgs[j];
      assert r[..|before|] == before;
      r
  }

  /** A row as the sync inserts it: the user's, of type "email", with no body and an external id. */
  predicate SyncedEmail(a: Activity, user: string) {
    a.userId == user && a.kind == Email && a.body.None? && a.externalId.Some?
  }

  /** `a` is the record of a message the provider listed for one of `deals`. */
  ghost predicate FromInbox(p: Provider, user: string, bearer: string, deals: seq<Deal>, mailbox: Mailbox, now: int, a: Activity) {
    exists i, j :: 0 <= i < |deals| && 0 <= j < |Inbox(p, mailbox, bearer, deals[i])| &&
      a == EmailActivity(p, user, deals[i].id, Inbox(p, mailbox, bearer, deals[i])[j], now)
  }

  /** The outer loop over the deals, in the order the deals query returned them. */
  function ReconcileAll(p: Provider, user: string, bearer: string, deals: seq<Deal>, mailbox: Mailbox, now: int, acts: seq<Activity>): (r: seq<Activity>)
    ensures |acts| <= |r| && r[..|acts|] == acts
    ensures forall k :: |acts| <= k < |r| ==> SyncedEmail(r[k], user)
    decreases |deals|
  {
    if deals == [] then acts
    else
      var d := deals[|deals| - 1];
      var before := ReconcileAll(p, user, bearer, deals[..|deals| - 1], mailbox, now, acts);
      var r := ReconcileDeal(p, user, d.id, Inbox(p, mailbox, bearer, d), now, before);
      assert r[..|acts|] == r[..|before|][..|acts|];
      assert forall k :: |acts| <= k < |before| ==> r[k] == before[k];
      r
  }

  // ----- Facts about Matches -----

  lemma {:induction false} MatchesAppend(acts: seq<Activity>, a: Activity, d: string, x: string)
    ensures Matches(acts + [a], d, x) == Matches(acts, d, x) + (if HasKey(a, d, x) then 1 else 0)
  {
    assert (acts + [a])[..|acts|] == acts;
  }

  /** Appending rows never lowers a pair's count. */
  lemma {:induction false} MatchesGrow(a: seq<Activity>, b: seq<Activity>, d: string, x: string)
    requires |a| <= |b| && b[..|a|] == a
    ensures Matches(a, d, x) <= Matches(b, d, x)
    decreases |b|
  {
    if |b| > |a| {
      var b0 := b[..|b| - 1];
      assert b0[..|a|] == a;
      MatchesGrow(a, b0, d, x);
    } else {
      assert a == b;
    }
  }

  // ----- One message -----

  lemma VisitUnique(p: Provider, user: string, dealId: string, m: Message, now: int, acts: seq<Activity>)
    requires Unique(acts)
    ensures Unique(Visit(p, user, dealId, m, now, acts))
  {
    if Matches(acts, dealId, m.id) != 1 {
      var a := EmailActivity(p, user, dealId, m, now);
      forall d, x ensures Matches(acts + [a], d, x) <= 1 {
        MatchesAppend(acts, a, d, x);
      }
    }
  }

  lemma VisitCovers(p: Provider, user: string, dealId: string, m: Message, now: int, acts: seq<Activity>)
    ensures Matches(Visit(p, user, dealId, m, now, acts), dealId, m.id) >= 1
  {
    if Matches(acts, dealId, m.id) != 1 {
      MatchesAppend(acts, EmailActivity(p, user, dealId, m, now), dealId, m.id);
    }
  }

  // ----- One deal -----

  /** Reconciling a deal keeps pairs unique. */
  lemma {:induction false} DealUnique(p: Provider, user: string, dealId: string, msgs: seq<Message>, now: int, acts: seq<Activity>)
    requires Unique(acts)
    ensures Unique(ReconcileDeal(p, user, dealId, msgs, now, acts))
    decreases |msgs|
  {
    if msgs != [] {
      DealUnique(p, user, dealId, msgs[..|msgs| - 1], now, acts);
      VisitUnique(p, user, dealId, msgs[|msgs| - 1], now, ReconcileDeal(p, user, dealId, msgs[..|msgs| - 1], now, acts));
    }
  }

  /** After reconciling a deal, every listed message of it is recorded for that deal. */
  lemma {:induction false} DealCovers(p: Provider, user: string, dealId: string, msgs: seq<Message>, now: int, acts: seq<Activity>)
    ensures forall j :: 0 <= j < |msgs| ==> Matches(ReconcileDeal(p, user, dealId, msgs, now, acts), dealId, msgs[j].id) >= 1
    decreases |msgs|
  {
    if msgs != [] {
      var init := msgs[..|msgs| - 1];
      var before := ReconcileDeal(p, user, dealId, init, now, acts);
      var r := ReconcileDeal(p, user, dealId, msgs, now, acts);
      DealCovers(p, user, dealId, init, now, acts);
      VisitCovers(p, user, dealId, msgs[|msgs| - 1], now, before);
      forall j | 0 <= j < |msgs| ensures Matches(r, dealId, msgs[j].id) >= 1 {
        if j < |msgs| - 1 {
          assert init[j] == msgs[j];
          MatchesGrow(before, r, dealId, msgs[j].id);
        }
      }
    }
  }

  /** When every listed message is already recorded exactly once, a deal's pass inserts nothing. */
  lemma {:induction false} DealNoOp(p: Provider, user: string, dealId: string, msgs: seq<Message>, now: int, acts: seq<Activity>)
    requires forall j :: 0 <= j < |msgs| ==> Matches(acts, dealId, msgs[j].id) == 1
    ensures ReconcileDeal(p, user, dealId, msgs, now, acts) == acts
    decreases |msgs|
  {
    if msgs != [] {
      var init := msgs[..|msgs| - 1];
      assert forall j :: 0 <= j < |init| ==> init[j] == msgs[j];
      DealNoOp(p, user, dealId, init, now, acts);
    }
  }

  // ----- All deals -----

  /** Every message listed for a deal with a truthy contact email has a row for that deal. */
  ghost predicate Covered(p: Provider, bearer: string, deals: seq<Deal>, mailbox: Mailbox, acts: seq<Activity>) {
    forall i, j :: 0 <= i < |deals| && 0 <= j < |Inbox(p, mailbox, bearer, deals[i])| ==>
      Matches(acts, deals[i].id, Inbox(p, mailbox, bearer, deals[i])[j].id) >= 1
  }

  /** A run keeps pairs unique when they were unique before. */
  lemma {:induction false} AllUnique(p: Provider, user: string, bearer: string, deals: seq<Deal>, mailbox: Mailbox, now: int, acts: seq<Activity>)
    requires Unique(acts)
    ensures Unique(ReconcileAll(p, user, bearer, deals, mailbox, now, acts))
    decreases |deals|
  {
    if deals != [] {
      var d := deals[|deals| - 1];
      AllUnique(p, user, bearer, deals[..|deals| - 1], mailbox, now, acts);
      DealUnique(p, user, d.id, Inbox(p, mailbox, bearer, d), now, ReconcileAll(p, user, bearer, deals[..|deals| - 1], mailbox, now, acts));
    }
  }

  /** After a run, every (deal, listed message) pair it saw is in the table. */
  lemma {:induction false} AllCovered(p: Provider, user: string, bearer: string, deals: seq<Deal>, mailbox: Mailbox, now: int, acts: seq<Activity>)
    ensures Covered(p, bearer, deals, mailbox, ReconcileAll(p, user, bearer, deals, mailbox, now, acts))
    decreases |deals|
  {
    if deals != [] {
      var init := deals[..|deals| - 1];
      var d := deals[|deals| - 1];
      var before := ReconcileAll(p, user, bearer, init, mailbox, now, acts);
      var r := ReconcileAll(p, user, bearer, deals, mailbox, now, acts);
      AllCovered(p, user, bearer, init, mailbox, now, acts);
      DealCovers(p, user, d.id, Inbox(p, mailbox, bearer, d), now, before);
      forall i, j | 0 <= i < |deals| && 0 <= j < |Inbox(p, mailbox, bearer, deals[i])|
        ensures Matches(r, deals[i].id, Inbox(p, mailbox, bearer, deals[i])[j].id) >= 1
      {
        if i < |deals| - 1 {
          assert init[i] == deals[i];
          MatchesGrow(before, r, deals[i].id, Inbox(p, mailbox, bearer, deals[i])[j].id);
        }
      }
    }
  }

  /** With unique pairs all covered, a run inserts nothing. */
  lemma {:induction false} AllNoOp(p: Provider, user: string, bearer: string, deals: seq<Deal>, mailbox: Mailbox, now: int, acts: seq<Activity>)
    requires Unique(acts) && Covered(p, bearer, deals, mailbox, acts)
    ensures ReconcileAll(p, user, bearer, deals, mailbox, now, acts) == acts
    decreases |deals|
  {
    if deals != [] {
      var init := deals[..|deals| - 1];
      var d := deals[|deals| - 1];
      assert forall i :: 0 <= i < |init| ==> init[i] == deals[i];
      AllNoOp(p, user, bearer, init, mailbox, now, acts);
      assert forall j :: 0 <= j < |Inbox(p, mailbox, bearer, d)| ==> Matches(acts, d.id, Inbox(p, mailbox, bearer, d)[j].id) >= 1;
      DealNoOp(p, user, d.id, Inbox(p, mailbox, bearer, d), now, acts);
    }
  }

  /** Every row a run adds is the record of a message the provider listed for one of the deals. */
  lemma {:induction false} AllFromInbox(p: Provider, user: string, bearer: string, deals: seq<Deal>, mailbox: Mailbox, now: int, acts: seq<Activity>)
    ensures forall k :: |acts| <= k < |ReconcileAll(p, user, bearer, deals, mailbox, now, acts)| ==>
      FromInbox(p, user, bearer, deals, mailbox, now, ReconcileAll(p, user, bearer, deals, mailbox, now, acts)[k])
    decreases |deals|
  {
    if deals != [] {
      var init := deals[..|deals| - 1];
      var n := |deals| - 1;
      var d := deals[n];
      var before := ReconcileAll(p, user, bearer, init, mailbox, now, acts);
      var r := ReconcileAll(p, user, bearer, deals, mailbox, now, acts);
      AllFromInbox(p, user, bearer, init, mailbox, now, acts);
      forall k | |acts| <= k < |r|
        ensures FromInbox(p, user, bearer, deals, mailbox, now, r[k])
      {
        if k < |before| {
          assert r[k] == before[k];
          FromInboxWiden(p, user, bearer, deals, mailbox, now, before[k]);
        } else {
          FromInboxLast(p, user, bearer, deals, mailbox, now, r[k]);
        }
      }
    }
  }

  lemma FromInboxWiden(p: Provider, user: string, bearer: string, deals: seq<Deal>, mailbox: Mailbox, now: int, a: Activity)
    requires deals != [] && FromInbox(p, user, bearer, deals[..|deals| - 1], mailbox, now, a)
    ensures FromInbox(p, user, bearer, deals, mailbox, now, a)
  {
    var init := deals[..|deals| - 1];
    var i, j :| 0 <= i < |init| && 0 <= j < |Inbox(p, mailbox, bearer, init[i])| &&
      a == EmailActivity(p, user, init[i].id, Inbox(p, mailbox, bearer, init[i])[j], now);
    assert init[i] == deals[i];
  }

  lemma FromInboxLast(p: Provider, user: string, bearer: string, deals: seq<Deal>, mailbox: Mailbox, now: int, a: Activity)
    requires deals != []
    requires var d := deals[|deals| - 1]; var msgs := Inbox(p, mailbox, bearer, d);
      exists j :: 0 <= j < |msgs| && a == EmailActivity(p, user, d.id, msgs[j], now)
    ensures FromInbox(p, user, bearer, deals, mailbox, now, a)
  {
    var n := |deals| - 1;
    var j :| 0 <= j < |Inbox(p, mailbox, bearer, deals[n])| &&
      a == EmailActivity(p, user, deals[n].id, Inbox(p, mailbox, bearer, deals[n])[j], now);
  }

  /** A mailbox whose answers do not depend on which access token authorizes the request. */
  ghost predicate IgnoresBearer(mailbox: Mailbox) {
    forall q :: mailbox(q) == mailbox(q.(bearer := ""))
  }

  /** Against such a mailbox, a run does the same whichever token it carries. */
  lemma {:induction false} AllBearerBlind(p: Provider, user: string, b1: string, b2: string, deals: seq<Deal>,
                                          mailbox: Mailbox, now: int, acts: seq<Activity>)
    requires IgnoresBearer(mailbox)
    ensures ReconcileAll(p, user, b1, deals, mailbox, now, acts) == ReconcileAll(p, user, b2, deals, mailbox, now, acts)
    decreases |deals|
  {
    if deals != [] {
      var d := deals[|deals| - 1];
      AllBearerBlind(p, user, b1, b2, deals[..|deals| - 1], mailbox, now, acts);
      if Truthy(d.contactEmail) {
        var a := d.contactEmail.value;
        assert SearchFor(p, b1, a).(bearer := "") == SearchFor(p, b2, a).(bearer := "");
        assert mailbox(SearchFor(p, b1, a)) == mailbox(SearchFor(p, b2, a));
      }
      assert Inbox(p, mailbox, b1, d) == Inbox(p, mailbox, b2, d);
    }
  }

  /**
   * The key is per deal: after a run from a table with unique pairs, each message listed
   * for a deal is recorded exactly once for that deal, even when other deals list it too.
   */
  lemma PerDealKey(p: Provider, user: string, bearer: string, deals: seq<Deal>, mailbox: Mailbox, now: int, acts: seq<Activity>, i: nat, j: nat)
    requires Unique(acts)
    requires i < |deals| && j < |Inbox(p, mailbox, bearer, deals[i])|
    ensures Matches(ReconcileAll(p, user, bearer, deals, mailbox, now, acts), deals[i].id, Inbox(p, mailbox, bearer, deals[i])[j].id) == 1
  {
    AllUnique(p, user, bearer, deals, mailbox, now, acts);
    AllCovered(p, user, bearer, deals, mailbox, now, acts);
  }

  /**
   * Idempotence: starting from a table with unique pairs, a second run over the same
   * provider lists (at any clock reading) inserts nothing.
   */
  lemma Idempotent(p: Provider, user: string, bearer: string, deals: seq<Deal>, mailbox: Mailbox, now: int, now2: int, acts: seq<Activity>)
    requires Unique(acts)
    ensures var once := ReconcileAll(p, user, bearer, deals, mailbox, now, acts);
      ReconcileAll(p, user, bearer, deals, mailbox, now2, once) == once
  {
    var once := ReconcileAll(p, user, bearer, deals, mailbox, now, acts);
    AllUnique(p, user, bearer, deals, mailbox, now, acts);
    AllCovered(p, user, bearer, deals, mailbox, now, acts);
    AllNoOp(p, user, bearer, deals, mailbox, now2, once);
  }
}
