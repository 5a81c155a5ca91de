/** The CRM's database tables that the sync routes and the OAuth callbacks touch. */
module Backend {
  import opened Records
  import opened Tokens

  class Store {
    /** gmail_tokens and outlook_tokens, keyed by user_id (the upsert conflict key). */
    var gmailTokens: map<string, TokenRow>
    var outlookTokens: map<string, TokenRow>
    /** The activities table, in insertion order. */
    var activities: seq<Activity>
    /** The deals table; the sync and the callbacks only read it. */
    var deals: seq<Deal>

    /** Every stored token row sits under its own user_id. */
    ghost predicate Valid()
      reads this
    {
      Keyed(gmailTokens) && Keyed(outlookTokens)
    }

    /** The token table of a provider. */
    function Tokens(p: Provider): map<string, TokenRow>
      reads this
    {
      match p
      case Gmail => gmailTokens
      case Outlook => outlookTokens
    }
  }

  function Other(p: Provider): Provider {
    match p
    case Gmail => Outlook
    case Outlook => Gmail
  }
}
