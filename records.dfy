/**
 * The rows of the CRM's tables that the sync jobs and OAuth callbacks read and write
 * (gmail_tokens, outlook_tokens, deals, activities), and the provider's message records.
 */
module Records {
  import opened Wrappers

  /** The two mail providers. Each has its own token table, sync routes and callback. */
  datatype Provider = Gmail | Outlook

  /** JavaScript truthiness of an optional string: a missing value and "" are both falsy. */
  predicate Truthy(s: Option<string>) {
    s.Some? && s.value != ""
  }

  /**
   * A row of gmail_tokens or outlook_tokens. `None` in an optional column is SQL null.
   * Times are milliseconds since the epoch.
   */
  datatype TokenRow = TokenRow(
    userId: string,
    email: Option<string>,
    accessToken: string,
    refreshToken: Option<string>,
    expiryDate: int,
    updatedAt: int)

  /** The columns of a deal that the sync reads. */
  datatype Deal = Deal(id: string, userId: string, contactEmail: Option<string>)

  datatype ActivityType = Call | Email | Meeting | Note | StageChange | DealCreated

  /**
   * An `occurred_at` value: a date text taken from the provider (kept opaque), or the
   * clock reading of the run that stored it.
   */
  datatype Timestamp = DateText(text: string) | Clock(ms: int)

  /** A row of the activities table as the sync writes it (the generated id is not modelled). */
  datatype Activity = Activity(
    userId: string,
    dealId: string,
    kind: ActivityType,
    title: string,
    body: Option<string>,
    externalId: Option<string>,
    occurredAt: Timestamp)

  /** A message header as the Gmail metadata endpoint returns it. */
  datatype Header = Header(name: string, value: string)

  /**
   * One message of a provider's list response. Outlook returns `subject` and
   * `receivedDateTime` inline; for Gmail, `headers` stands for `payload.headers` of the
   * metadata request the route makes for this id (an absent payload is the empty list).
   */
  datatype Message = Message(
    id: string,
    subject: Option<string>,
    receivedDateTime: Option<string>,
    headers: seq<Header>)
}
