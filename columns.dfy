/**
 * The columns of `atlas.conversations` and the rows stored in it.
 */
module Columns {
  import opened Wrappers
  import opened Values

  /** The 47 columns of the CREATE TABLE statement, in declaration order, and the
      two columns the backfill passes add later. */
  datatype Column =
    | ConversationId
    | CustomerId | CustomerFirstName | CustomerLastName | CustomerEmail | CustomerPhone
    | CustomerExternalUserId | CustomerCreatedAt
    | CompanyId | CompanyName | CompanyEmail | CompanyWebsite | CompanyExternalId
    | StartedAt | ClosedAt | CreatedAt | AssignedAt | AssignedBy | ClosedBy
    | AssignedAgentId | AssignedAgentName | AssignedAgentEmail | AssignedAgentCreatedAt
    | Browser | OperatingSystem
    | LastMessageId | LastMessageText | LastMessageChannel
    | CsatScore | CsatComment
    | StatsFirstResponseTime | StatsAvgResponseTime | StatsTotalResolutionTime
    | ConversationStatus | ConversationPriority | ConversationSubject
    | AssignedTeamId | UpdatedBy | Tags
    | SnoozedUntil | StartedChannel | StartedSubChannel | Number
    | CustomerCustomFields | AccountCustomFields | ConversationCustomFields
    | EscalatedAt
    | TicketNumber
    | FirstMessage

  /** A non-NULL value bound into a cell: a Python value passed through as it
      is, a normalised timestamp, the `json.dumps` text of a document, the
      `str()` text of a value spelled out, or the `str()` text of a value whose
      spelling (a float, a list, a dict) is not modelled. */
  datatype Datum =
    | Raw(v: Value)
    | Stamp(t: Instant)
    | JsonText(doc: Value)
    | Text(s: string)
    | Shown(shown: Value)

  /** A cell; `None` is SQL NULL. */
  type Cell = Option<Datum>

  /** A stored row maps every column of the table to its cell. */
  type Row = map<Column, Cell>

  /** Conversation ids are the non-NULL values bound to `conversation_id`. */
  type Id = Datum

  /** The table: conversation id to row. */
  type Table = map<Id, Row>

  /** Python `None` binds as NULL; any other value binds as itself. */
  function Bind(v: Value): (c: Cell)
    ensures c.None? <==> v.Null?
  {
    if v.Null? then None else Some(Raw(v))
  }

  /** psycopg2 can quote the string: a string literal cannot contain a NUL
      character, so one that does makes `cur.execute` raise ValueError
      before the query reaches the server. */
  predicate NoNul(s: string)
  {
    s == [] || (s[0] != '\0' && NoNul(s[1..]))
  }

  /** A string holds no NUL exactly when none of its characters is NUL. */
  lemma {:induction false} NoNulIff(s: string)
    ensures NoNul(s) <==> forall k :: 0 <= k < |s| ==> s[k] != '\0'
    decreases |s|
  {
    if s != [] {
      NoNulIff(s[1..]);
      assert forall k :: 0 <= k < |s| - 1 ==> s[1..][k] == s[k + 1];
    }
  }

  /** psycopg2 can bind the value as a query parameter: `None`, booleans,
      numbers, datetimes and strings without NUL adapt, and a list adapts (as
      an ARRAY) when its items do. No adapter for `dict` is registered, so an
      object, or a list holding one, makes `cur.execute` raise "can't adapt
      type 'dict'" before the query reaches the server. */
  predicate Adaptable(v: Value)
  {
    match v
    case Dict(_) => false
    case List(items) => forall x | x in items :: Adaptable(x)
    case Str(s) => NoNul(s)
    case _ => true
  }

  /** A cell can be bound: NULL, a converted time, a serialised document
      (`json.dumps` escapes NUL) and the `str` of a float, list or object
      (whose repr escapes NUL) always can; a value bound as itself and a
      text when they adapt. */
  predicate CellAdapts(c: Cell)
  {
    match c
    case None => true
    case Some(Raw(v)) => Adaptable(v)
    case Some(Text(s)) => NoNul(s)
    case Some(_) => true
  }

  /** Every cell of a row can be bound. */
  predicate RowAdapts(row: Row)
  {
    forall c: Column :: c in row ==> CellAdapts(row[c])
  }

  /** A value other than `None` is bound as itself. */
  lemma BindsItself(v: Value)
    ensures !v.Null? ==> Bind(v) == Some(Raw(v))
    ensures v.Null? ==> Bind(v) == None
  {
  }

  /** The allow-list: the columns the coalescing upsert's SET list updates
      with COALESCE, in the order of that list. */
  const AllowListOrder: seq<Column> := [
    CustomerFirstName, CustomerLastName, CustomerEmail, CustomerPhone,
    CustomerExternalUserId, CustomerCreatedAt,
    CompanyName, CompanyEmail, CompanyWebsite, CompanyExternalId,
    LastMessageText, LastMessageChannel, CsatScore, CsatComment,
    StatsFirstResponseTime, StatsAvgResponseTime, StatsTotalResolutionTime,
    ConversationStatus, ConversationPriority, Tags,
    CustomerCustomFields, AccountCustomFields, ConversationCustomFields ]

  const AllowList: set<Column> := set c | c in AllowListOrder

  /** The columns the backfill passes add with ALTER TABLE. */
  const BackfillColumns: set<Column> := {TicketNumber, FirstMessage}

  /** The columns CREATE TABLE declares. */
  const BaseColumns: set<Column> := set c: Column | c !in BackfillColumns

  /** The columns of CREATE TABLE that no SET clause names. */
  const KeptOnConflict: set<Column> := set c: Column | c in BaseColumns && c !in AllowList && c != EscalatedAt

  /** A row has a cell for every column. */
  predicate WellFormed(r: Row)
  {
    forall c: Column :: c in r
  }

  predicate TableWellFormed(t: Table)
  {
    forall k :: k in t ==> WellFormed(t[k])
  }

  /** The row stored under `k`, if any. */
  function Lookup(t: Table, k: Id): (r: Option<Row>)
    ensures r.Some? <==> k in t
    ensures r.Some? ==> r.value == t[k]
  {
    if k in t then Some(t[k]) else None
  }
}
