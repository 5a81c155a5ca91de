/**
 * The activity timeline component of a deal page: the relative-time label, the add form's
 * validation and normalisation, the delete filter and the delete-button rule, and the
 * component state that loading, adding and deleting update.
 */
module ActivityLog {
  import opened Wrappers
  import opened Records
  import opened Seqs

  // ----- timeAgo -----

  const MinuteMs: int := 60000
  const HourMs: int := 3600000
  const DayMs: int := 86400000

  /** The bucket `timeAgo` falls in; `OnDate` is the calendar-date fallback. */
  datatype Age = JustNow | MinutesAgo(minutes: nat) | HoursAgo(hours: nat) | DaysAgo(days: nat) | OnDate

  /**
   * `timeAgo` on the elapsed time `now - at` (milliseconds), with its floor divisions.
   * Elapsed times under a minute, future ones included, are "just now".
   */
  function Bucket(now: int, at: int): (a: Age)
    ensures a == JustNow <==> now - at < MinuteMs
    ensures a.MinutesAgo? ==> 1 <= a.minutes <= 59 && a.minutes * MinuteMs <= now - at < (a.minutes + 1) * MinuteMs
    ensures a.HoursAgo? ==> 1 <= a.hours <= 23 && a.hours * HourMs <= now - at < (a.hours + 1) * HourMs
    ensures a.DaysAgo? ==> 1 <= a.days <= 6 && a.days * DayMs <= now - at < (a.days + 1) * DayMs
    ensures a == OnDate <==> now - at >= 7 * DayMs
  {
    var diff := now - at;
    var m := diff / 60000;
    if m < 1 then JustNow
    else if m < 60 then MinutesAgo(m)
    else
      var h := m / 60;
      if h < 24 then HoursAgo(h)
      else
        var d := h / 24;
        if d < 7 then DaysAgo(d) else OnDate
  }

  function DigitChar(n: nat): char
    requires n < 10
  {
    (48 + n) as char
  }

  /** The decimal numeral of `n`, as template literals print it. */
  function Decimal(n: nat): (s: string)
    ensures |s| >= 1 && (forall i :: 0 <= i < |s| ==> '0' <= s[i] <= '9')
    ensures |s| > 1 ==> s[0] != '0'
    decreases n
  {
    if n < 10 then [DigitChar(n)] else Decimal(n / 10) + [DigitChar(n % 10)]
  }

  /** The value of a numeral. */
  function DecimalValue(s: string): nat
    requires forall i :: 0 <= i < |s| ==> '0' <= s[i] <= '9'
    decreases |s|
  {
    if s == [] then 0 else DecimalValue(s[..|s| - 1]) * 10 + (s[|s| - 1] as int - 48)
  }

  /** The numeral printed for a count reads back as that count. */
  lemma {:induction false} DecimalRoundTrip(n: nat)
    ensures DecimalValue(Decimal(n)) == n
    decreases n
  {
    if n >= 10 {
      var s := Decimal(n);
      assert s[..|s| - 1] == Decimal(n / 10);
      DecimalRoundTrip(n / 10);
    }
  }

  /** The label shown; `onDate` stands for `toLocaleDateString` of the timestamp. */
  function Label(a: Age, onDate: string): (r: string)
    ensures a == JustNow ==> r == "just now"
    ensures a == OnDate ==> r == onDate
    ensures a.MinutesAgo? ==> CountLabel(r, "m ago", a.minutes)
    ensures a.HoursAgo? ==> CountLabel(r, "h ago", a.hours)
    ensures a.DaysAgo? ==> CountLabel(r, "d ago", a.days)
  {
    match a
    case JustNow => "just now"
    case MinutesAgo(m) => CountLabelOf(m, "m ago"); Decimal(m) + "m ago"
    case HoursAgo(h) => CountLabelOf(h, "h ago"); Decimal(h) + "h ago"
    case DaysAgo(d) => CountLabelOf(d, "d ago"); Decimal(d) + "d ago"
    case OnDate => onDate
  }

  /** `r` is a numeral reading `n`, without a leading zero, followed by `suffix`. */
  ghost predicate CountLabel(r: string, suffix: string, n: nat) {
    var k := |r| - |suffix|;
    && k >= 1 && r[k..] == suffix
    && (forall i :: 0 <= i < k ==> '0' <= r[i] <= '9')
    && (k > 1 ==> r[0] != '0')
    && DecimalValue(r[..k]) == n
  }

  lemma CountLabelOf(n: nat, suffix: string)
    ensures CountLabel(Decimal(n) + suffix, suffix, n)
  {
    var r := Decimal(n) + suffix;
    assert r[..|r| - |suffix|] == Decimal(n);
    DecimalRoundTrip(n);
  }

  /** Exactly one minute elapsed reads "1m ago"; one millisecond less reads "just now". */
  lemma MinuteBoundary(now: int)
    ensures Label(Bucket(now, now - 60000), "") == "1m ago"
    ensures Label(Bucket(now, now - 59999), "") == "just now"
  {
  }

  // ----- the add form -----

  /** The characters JavaScript's `String.prototype.trim` removes: white space and line terminators. */
  const JsSpaces: set<char> := {
    ' ', '\t', '\n', '\r', '\U{000B}', '\U{000C}', '\U{00A0}', '\U{1680}',
    '\U{2000}', '\U{2001}', '\U{2002}', '\U{2003}', '\U{2004}', '\U{2005}',
    '\U{2006}', '\U{2007}', '\U{2008}', '\U{2009}', '\U{200A}',
    '\U{2028}', '\U{2029}', '\U{202F}', '\U{205F}', '\U{3000}', '\U{FEFF}'}

  predicate IsJsSpace(c: char) {
    c in JsSpaces
  }

  /** How many characters of `s` are leading white space. */
  function Lead(s: string): (k: nat)
    ensures k <= |s|
    ensures forall i :: 0 <= i < k ==> IsJsSpace(s[i])
    ensures k < |s| ==> !IsJsSpace(s[k])
    decreases |s|
  {
    if s != [] && IsJsSpace(s[0]) then 1 + Lead(s[1..]) else 0
  }

  /** How many characters of `s` are trailing white space. */
  function Trail(s: string): (k: nat)
    ensures k <= |s|
    ensures forall i :: |s| - k <= i < |s| ==> IsJsSpace(s[i])
    ensures k < |s| ==> !IsJsSpace(s[|s| - k - 1])
    decreases |s|
  {
    if s != [] && IsJsSpace(s[|s| - 1]) then 1 + Trail(s[..|s| - 1]) else 0
  }

  /**
   * `s.trim()`: the slice of `s` from its first character that is not white space to its
   * last one; empty exactly when `s` is all white space.
   */
  function Trim(s: string): (r: string)
    ensures var k := Lead(s);
      && k + |r| <= |s| && r == s[k..k + |r|]
      && (forall i :: k + |r| <= i < |s| ==> IsJsSpace(s[i]))
    ensures r == [] <==> forall i :: 0 <= i < |s| ==> IsJsSpace(s[i])
    ensures r != [] ==> !IsJsSpace(r[0]) && !IsJsSpace(r[|r| - 1])
  {
    TrimFacts(s);
    s[Lead(s)..][..|s| - Lead(s) - Trail(s[Lead(s)..])]
  }

  lemma TrimFacts(s: string)
    ensures var k := Lead(s); var t := s[k..]; var r := t[..|t| - Trail(t)];
      && k + |r| <= |s| && r == s[k..k + |r|]
      && (forall i :: k + |r| <= i < |s| ==> IsJsSpace(s[i]))
      && (r == [] <==> forall i :: 0 <= i < |s| ==> IsJsSpace(s[i]))
      && (r != [] ==> !IsJsSpace(r[0]) && !IsJsSpace(r[|r| - 1]))
  {
    var k := Lead(s);
    var t := s[k..];
    var m := Trail(t);
    var r := t[..|t| - m];
    assert r == s[k..k + |r|];
    forall i | k + |r| <= i < |s|
      ensures IsJsSpace(s[i])
    {
      assert IsJsSpace(t[i - k]);
    }
    if r != [] {
      assert r[0] == s[k];
      assert r[|r| - 1] == t[|t| - m - 1];
    }
  }

  /** Trimming is idempotent: a trimmed title or body is stored as typed the second time. */
  lemma TrimIdempotent(s: string)
    ensures Trim(Trim(s)) == Trim(s)
  {
    var r := Trim(s);
    if r != [] {
      assert Lead(r) == 0;
      assert Trail(r) == 0;
    }
  }

  /** A row of the activities table as the component reads it. */
  datatype Row = Row(id: string, userId: string, dealId: string, kind: ActivityType,
                     title: string, body: Option<string>, occurredAt: string)

  /**
   * `handleAdd`'s insert: nothing when the title is blank; otherwise the trimmed title and
   * the trimmed body, or null when the body is blank. `id` is the one the database assigns;
   * `occurredAt` is the form's date text.
   */
  function NewRow(id: string, userId: string, dealId: string, kind: ActivityType,
                  title: string, body: string, occurredAt: string): (r: Option<Row>)
    ensures r.None? <==> forall i :: 0 <= i < |title| ==> IsJsSpace(title[i])
    ensures r.Some? ==>
      && r.value.title == Trim(title) && r.value.title != ""
      && r.value.id == id && r.value.userId == userId && r.value.dealId == dealId && r.value.kind == kind
      && (r.value.body.None? <==> forall i :: 0 <= i < |body| ==> IsJsSpace(body[i]))
      && (r.value.body.Some? ==> r.value.body.value == Trim(body) && r.value.body.value != "")
  {
    var t := Trim(title);
    if t == "" then None
    else
      var b := Trim(body);
      Some(Row(id, userId, dealId, kind, t, if b == "" then None else Some(b), occurredAt))
  }

  // ----- delete -----

  /** `a.filter(x => x.id !== id)`. */
  function Without(s: seq<Row>, id: string): seq<Row> {
    Keep(s, (x: Row) => x.id != id)
  }

  /**
   * Deleting removes exactly the entries with that id: none is left, every other entry
   * stays, the order is kept, and a list without the id is unchanged.
   */
  lemma WithoutFacts(a: seq<Row>, b: seq<Row>, id: string)
    ensures forall i :: 0 <= i < |Without(a, id)| ==> Without(a, id)[i].id != id
    ensures forall i :: 0 <= i < |a| && a[i].id != id ==> a[i] in Without(a, id)
    ensures Without(a + b, id) == Without(a, id) + Without(b, id)
    ensures (forall i :: 0 <= i < |a| ==> a[i].id != id) ==> Without(a, id) == a
  {
    KeepConcat(a, b, (x: Row) => x.id != id);
    if forall i :: 0 <= i < |a| ==> a[i].id != id {
      KeepAll(a, (x: Row) => x.id != id);
    }
  }

  /** The delete control is shown for every type except stage changes and deal creation. */
  predicate CanDelete(kind: ActivityType) {
    kind != StageChange && kind != DealCreated
  }

  lemma CanDeleteExactly(kind: ActivityType)
    ensures CanDelete(kind) <==> kind in {Call, Email, Meeting, Note}
  {
  }

  /** `load`'s query: the rows of this deal (the server's occurred_at ordering is not modelled). */
  function ForDeal(rows: seq<Row>, dealId: string): seq<Row> {
    Keep(rows, (x: Row) => x.dealId == dealId)
  }

  // ----- component state -----

  /** The activities table as the component sees it. */
  class ActivityTable {
    var rows: seq<Row>
  }

  /** The component's state variables (`useState`) for one deal. */
  class ActivityLogView {
    const dealId: string
    const userId: string
    const table: ActivityTable
    var entries: seq<Row>
    var loading: bool
    var showForm: bool
    var kind: ActivityType
    var title: string
    var body: string
    var saving: bool
    var occurredAt: string

    /** The initial state; `nowText` is the form's initial date text. */
    constructor (dealId: string, userId: string, table: ActivityTable, nowText: string)
      ensures this.dealId == dealId && this.userId == userId && this.table == table
      ensures entries == [] && loading && !showForm && kind == Note && title == "" && body == ""
      ensures !saving && occurredAt == nowText
    {
      this.dealId, this.userId, this.table := dealId, userId, table;
      entries, loading, showForm, kind := [], true, false, Note;
      title, body, saving, occurredAt := "", "", false, nowText;
    }

    /**
     * `load`: read this deal's rows into the list and clear the loading flag. A failed read
     * (`readFailed`) gives no data, and `data ?? []` empties the list.
     */
    method Load(readFailed: bool)
      modifies this`entries, this`loading
      ensures entries == (if readFailed then [] else ForDeal(table.rows, dealId)) && !loading
    {
      entries := if readFailed then [] else ForDeal(table.rows, dealId);
      loading := false;
    }

    /**
     * `handleAdd`; `newId` is the id the database gives the inserted row, `insertError` the
     * insert's error and `readFailed` the reload's. The handler ignores the insert's result:
     * after a rejected insert the table is unchanged, yet the form is cleared and the list
     * reloaded just the same. `dateValid` says whether the form's date text parses: when it
     * does not, `toISOString` throws while the insert's payload is built, after `saving` was
     * set, so nothing is inserted, the form stays as it was and `saving` stays on.
     */
    method Add(newId: string, insertError: Option<string>, readFailed: bool, dateValid: bool)
      modifies this`entries, this`loading, this`showForm, this`title, this`body, this`saving, table`rows
      ensures NewRow(newId, userId, dealId, kind, old(title), old(body), occurredAt).None? ==>
        unchanged(this) && unchanged(table)
      ensures NewRow(newId, userId, dealId, kind, old(title), old(body), occurredAt).Some? && !dateValid ==>
        && table.rows == old(table.rows) && entries == old(entries) && loading == old(loading)
        && title == old(title) && body == old(body) && showForm == old(showForm) && saving
      ensures var row := NewRow(newId, userId, dealId, kind, old(title), old(body), occurredAt);
        row.Some? && dateValid ==>
          && table.rows == (if insertError.None? then old(table.rows) + [row.value] else old(table.rows))
          && entries == (if readFailed then [] else ForDeal(table.rows, dealId))
          && title == "" && body == "" && !showForm && !saving && !loading
    {
      var t := Trim(title);
      if t == [] {
        return;
      }
      saving := true;
      var b := Trim(body);
      if !dateValid {
        return;
      }
      if insertError.None? {
        table.rows := table.rows + [Row(newId, userId, dealId, kind, t, if b == [] then None else Some(b), occurredAt)];
      }
      title, body, showForm := "", "", false;
      Load(readFailed);
      saving := false;
    }

    /**
     * `handleDelete`: delete the row by id, then drop it from the local list. The handler
     * does not look at `deleteError`: the row leaves the list even when it stays in the table.
     */
    method Delete(id: string, deleteError: Option<string>)
      modifies this`entries, table
      ensures table.rows == if deleteError.None? then Without(old(table.rows), id) else old(table.rows)
      ensures entries == Without(old(entries), id)
    {
      if deleteError.None? {
        table.rows := Without(table.rows, id);
      }
      entries := Without(entries, id);
    }
  }
}
