/**
 * Row construction in `insert_into_db` (Oldtickets.py and Final-Atlas.py build
 * the same row): one raw conversation object becomes one flat row.
 */
module Flatten {
  import opened Wrappers
  import opened Values
  import opened Timestamps
  import opened Columns

  /** The objects the row is read from: the conversation itself and its
      sub-objects. */
  datatype Part = Conversation | Customer | Account | AssignedAgent | LastMessage | Csat | Statistics

  /** The object a part is read from, `None` when reading it raises: the
      sub-object (or, for the account, the customer it sits in) is a truthy
      value that is not an object, so `.get` on it raises AttributeError. */
  function PartOf(rec: Object, part: Part): (r: Option<Object>)
    ensures part == Conversation ==> r == Some(rec)
  {
    match part
    case Conversation => Some(rec)
    case Customer => SubObject(rec, "customer")
    case Account =>
      (match SubObject(rec, "customer")
       case None => None
       case Some(customer) => SubObject(customer, "account"))
    case AssignedAgent => SubObject(rec, "assignedAgent")
    case LastMessage => SubObject(rec, "lastMessage")
    case Csat => SubObject(rec, "csat")
    case Statistics => SubObject(rec, "statistics")
  }

  /** `convert_to_timestamp(part.get(key))` does not raise. */
  predicate Converts(rec: Object, part: Part, key: string, iso: IsoParser)
  {
    PartOf(rec, part).Some? && ConvertToTimestamp(Get(PartOf(rec, part).value, key, Null), iso).Ok?
  }

  /** Building the row does not raise: every sub-object can be read and every
      time field converts. */
  predicate Flattens(rec: Object, iso: IsoParser)
  {
    && PartOf(rec, Customer).Some? && PartOf(rec, Account).Some?
    && PartOf(rec, AssignedAgent).Some? && PartOf(rec, LastMessage).Some?
    && PartOf(rec, Csat).Some? && PartOf(rec, Statistics).Some?
    && Converts(rec, Customer, "createdAt", iso)
    && Converts(rec, Conversation, "startedAt", iso)
    && Converts(rec, Conversation, "closedAt", iso)
    && Converts(rec, Conversation, "createdAt", iso)
    && Converts(rec, Conversation, "assignedAt", iso)
    && Converts(rec, AssignedAgent, "createdAt", iso)
    && Converts(rec, Conversation, "snoozedUntil", iso)
    && Converts(rec, Conversation, "escalatedAt", iso)
  }

  /** Where `insert_into_db` takes a column's value from: `part.get(key)`,
      `convert_to_timestamp(part.get(key))`, the tags (defaulting to the empty
      list), a part's serialised custom fields, or nowhere (the two backfill
      columns are not in the INSERT and take their default, NULL). */
  datatype Source =
    | Field(part: Part, key: string)
    | Time(part: Part, key: string)
    | TagList
    | CustomFields(part: Part)
    | Unset

  /** The source of each column, in the order of the INSERT: the
      conversation's own fields, then those of the customer, its account, the
      assigned agent, the last message, the satisfaction rating and the
      statistics. The agent's name column holds its first name. */
  function SourceOf(c: Column): Source
  {
    match c
    case ConversationId => Field(Conversation, "id")
    case CustomerId => Field(Customer, "id")
    case CustomerFirstName => Field(Customer, "firstName")
    case CustomerLastName => Field(Customer, "lastName")
    case CustomerEmail => Field(Customer, "email")
    case CustomerPhone => Field(Customer, "phoneNumber")
    case CustomerExternalUserId => Field(Customer, "externalUserId")
    case CustomerCreatedAt => Time(Customer, "createdAt")
    case CompanyId => Field(Customer, "companyId")
    case CompanyName => Field(Account, "name")
    case CompanyEmail => Field(Account, "email")
    case CompanyWebsite => Field(Account, "website")
    case CompanyExternalId => Field(Account, "externalId")
    case StartedAt => Time(Conversation, "startedAt")
    case ClosedAt => Time(Conversation, "closedAt")
    case CreatedAt => Time(Conversation, "createdAt")
    case AssignedAt => Time(Conversation, "assignedAt")
    case AssignedBy => Field(Conversation, "assignedBy")
    case ClosedBy => Field(Conversation, "closedBy")
    case AssignedAgentId => Field(AssignedAgent, "id")
    case AssignedAgentName => Field(AssignedAgent, "firstName")
    case AssignedAgentEmail => Field(AssignedAgent, "email")
    case AssignedAgentCreatedAt => Time(AssignedAgent, "createdAt")
    case Browser => Field(Conversation, "browser")
    case OperatingSystem => Field(Conversation, "operatingSystem")
    case LastMessageId => Field(LastMessage, "id")
    case LastMessageText => Field(LastMessage, "text")
    case LastMessageChannel => Field(LastMessage, "channel")
    case CsatScore => Field(Csat, "score")
    case CsatComment => Field(Csat, "comment")
    case StatsFirstResponseTime => Field(Statistics, "firstResponseTime")
    case StatsAvgResponseTime => Field(Statistics, "avgResponseTime")
    case StatsTotalResolutionTime => Field(Statistics, "totalResolutionTime")
    case ConversationStatus => Field(Conversation, "status")
    case ConversationPriority => Field(Conversation, "priority")
    case ConversationSubject => Field(Conversation, "subject")
    case AssignedTeamId => Field(Conversation, "assignedTeamId")
    case UpdatedBy => Field(Conversation, "updatedBy")
    case Tags => TagList
    case SnoozedUntil => Time(Conversation, "snoozedUntil")
    case StartedChannel => Field(Conversation, "startedChannel")
    case StartedSubChannel => Field(Conversation, "startedSubChannel")
    case Number => Field(Conversation, "number")
    case CustomerCustomFields => CustomFields(Customer)
    case AccountCustomFields => CustomFields(Account)
    case ConversationCustomFields => CustomFields(Conversation)
    case EscalatedAt => Time(Conversation, "escalatedAt")
    case TicketNumber => Unset
    case FirstMessage => Unset
  }

  /** The sources of the columns the lemmas below single out. */
  lemma SourcesOfDocuments()
    ensures SourceOf(CustomerCustomFields) == CustomFields(Customer)
    ensures SourceOf(AccountCustomFields) == CustomFields(Account)
    ensures SourceOf(ConversationCustomFields) == CustomFields(Conversation)
  {
  }

  /** The sources of the id and tag columns. */
  lemma SourcesOfScalars()
    ensures SourceOf(ConversationId) == Field(Conversation, "id")
    ensures SourceOf(Tags) == TagList
  {
  }

  /** The sources of the escalation and backfill columns. */
  lemma SourcesOfStamps()
    ensures SourceOf(EscalatedAt) == Time(Conversation, "escalatedAt")
    ensures SourceOf(TicketNumber) == Unset
    ensures SourceOf(FirstMessage) == Unset
  {
  }

  /** The objects of one record that flattens, read once. */
  datatype Parts = Parts(
    conversation: Object, customer: Object, account: Object, agent: Object,
    lastMessage: Object, csat: Object, statistics: Object)

  /** The object of one part. */
  function Select(ps: Parts, part: Part): Object
  {
    match part
    case Conversation => ps.conversation
    case Customer => ps.customer
    case Account => ps.account
    case AssignedAgent => ps.agent
    case LastMessage => ps.lastMessage
    case Csat => ps.csat
    case Statistics => ps.statistics
  }

  /** The kinds of source, column by column: exactly the two backfill columns
      are not bound by the INSERT, exactly eight columns go through
      `convert_to_timestamp`, one column holds the tags and three the
      serialised custom fields; every other column is a plain `part.get(key)`. */
  lemma SourceKinds(c: Column)
    ensures SourceOf(c).Unset? <==> c in BackfillColumns
    ensures SourceOf(c).Time? <==> c in {CustomerCreatedAt, StartedAt, ClosedAt, CreatedAt,
                                         AssignedAt, AssignedAgentCreatedAt, SnoozedUntil, EscalatedAt}
    ensures SourceOf(c).TagList? <==> c == Tags
    ensures SourceOf(c).CustomFields? <==> c in {CustomerCustomFields, AccountCustomFields, ConversationCustomFields}
  {
    match c
    case ConversationId => case CustomerId => case CustomerFirstName => case CustomerLastName =>
    case CustomerEmail => case CustomerPhone => case CustomerExternalUserId => case CustomerCreatedAt =>
    case CompanyId => case CompanyName => case CompanyEmail => case CompanyWebsite =>
    case CompanyExternalId => case StartedAt => case ClosedAt => case CreatedAt =>
    case AssignedAt => case AssignedBy => case ClosedBy => case AssignedAgentId =>
    case AssignedAgentName => case AssignedAgentEmail => case AssignedAgentCreatedAt => case Browser =>
    case OperatingSystem => case LastMessageId => case LastMessageText => case LastMessageChannel =>
    case CsatScore => case CsatComment => case StatsFirstResponseTime => case StatsAvgResponseTime =>
    case StatsTotalResolutionTime => case ConversationStatus => case ConversationPriority => case ConversationSubject =>
    case AssignedTeamId => case UpdatedBy => case Tags => case SnoozedUntil =>
    case StartedChannel => case StartedSubChannel => case Number => case CustomerCustomFields =>
    case AccountCustomFields => case ConversationCustomFields => case EscalatedAt => case TicketNumber =>
    case FirstMessage =>
  }

  /** No plain field of the conversation is read from its "customer" or
      "escalatedAt" key: the first is a sub-object, the second a time. */
  lemma ConversationFieldsPlain(c: Column)
    requires SourceOf(c).Field? && SourceOf(c).part == Conversation
    ensures SourceOf(c).key != "customer" && SourceOf(c).key != "escalatedAt"
  {
  }

  /** The parts of a record, each read as `insert_into_db` reads it. */
  function PartsOf(rec: Object, iso: IsoParser): Parts
    requires Flattens(rec, iso)
  {
    Parts(rec, PartOf(rec, Customer).value, PartOf(rec, Account).value,
          PartOf(rec, AssignedAgent).value, PartOf(rec, LastMessage).value,
          PartOf(rec, Csat).value, PartOf(rec, Statistics).value)
  }

  /** The cell read from a source: NULL for a missing or null field, the
      converted instant of a time field, the tags or `[]` when they are falsy,
      the custom fields serialised with "{}" for a missing document. */
  function Read(ps: Parts, iso: IsoParser, src: Source): Cell
  {
    match src
    case Field(part, key) => Bind(Get(Select(ps, part), key, Null))
    case Time(part, key) =>
      (match ConvertToTimestamp(Get(Select(ps, part), key, Null), iso)
       case Ok(Some(t)) => Some(Stamp(t))
       case _ => None)
    case TagList =>
      var tags := Get(ps.conversation, "tags", List([]));
      Some(Raw(if Truthy(tags) then tags else List([])))
    case CustomFields(part) => Some(JsonText(Get(Select(ps, part), "customFields", Dict(map[]))))
    case Unset => None
  }

  /** When a source gives NULL: a field exactly when it is missing or null, a
      time exactly when the normaliser gives no instant, the two backfill
      columns always; the tags and custom fields never. */
  lemma ReadNullIff(ps: Parts, iso: IsoParser, src: Source)
    ensures src.Field? ==> (Read(ps, iso, src).None? <==> Get(Select(ps, src.part), src.key, Null).Null?)
    ensures src.Time? ==> var conv := ConvertToTimestamp(Get(Select(ps, src.part), src.key, Null), iso);
      && (Read(ps, iso, src).None? <==> !(conv.Ok? && conv.value.Some?))
      && (Read(ps, iso, src).Some? ==> Read(ps, iso, src) == Some(Stamp(conv.value.value)))
    ensures src.TagList? || src.CustomFields? ==> Read(ps, iso, src).Some?
    ensures src.Unset? ==> Read(ps, iso, src).None?
  {
  }

  /** Each part is read as `PartOf` reads it. */
  lemma SelectPart(rec: Object, iso: IsoParser, part: Part)
    requires Flattens(rec, iso)
    ensures Select(PartsOf(rec, iso), part) == PartOf(rec, part).value
  {
  }

  /** The row built from the parts of a record: one cell per column. */
  function RowOf(ps: Parts, iso: IsoParser): (row: Row)
    ensures WellFormed(row)
  {
    map c: Column :: Read(ps, iso, SourceOf(c))
  }

  /** The row `insert_into_db` binds for one record, or `None` when building
      it raises (TypeError or AttributeError). */
  function FlattenRecord(rec: Object, iso: IsoParser): (r: Option<Row>)
    ensures r.Some? <==> Flattens(rec, iso)
    ensures r.Some? ==> WellFormed(r.value)
  {
    if Flattens(rec, iso) then Some(RowOf(PartsOf(rec, iso), iso)) else None
  }

  /** psycopg2 can bind column `c` when it is a plain field. */
  predicate FieldAdapts(ps: Parts, c: Column)
  {
    SourceOf(c).Field? ==> Adaptable(Get(Select(ps, SourceOf(c).part), SourceOf(c).key, Null))
  }

  /** psycopg2 can bind every plain field the row reads, and the tags when
      they are truthy (falsy tags are replaced by `[]`). */
  predicate FieldsAdapt(ps: Parts)
  {
    && (forall c: Column :: FieldAdapts(ps, c))
    && (Truthy(Get(ps.conversation, "tags", List([]))) ==> Adaptable(Get(ps.conversation, "tags", List([]))))
  }

  /** The row can be bound exactly when its plain fields and its truthy tags
      adapt: the converted times, the serialised documents and the unbound
      backfill columns always can. */
  lemma RowAdaptsIff(ps: Parts, iso: IsoParser)
    ensures RowAdapts(RowOf(ps, iso)) <==> FieldsAdapt(ps)
  {
    var row := RowOf(ps, iso);
    var tags := Get(ps.conversation, "tags", List([]));
    SourcesOfScalars();
    assert row[Tags] == Some(Raw(if Truthy(tags) then tags else List([])));
    if RowAdapts(row) {
      forall c: Column
        ensures FieldAdapts(ps, c)
      {
        assert SourceOf(c).Field? ==> row[c] == Bind(Get(Select(ps, SourceOf(c).part), SourceOf(c).key, Null));
      }
    }
    if FieldsAdapt(ps) {
      forall c: Column | row[c].Some? && row[c].value.Raw?
        ensures Adaptable(row[c].value.v)
      {
        assert row[c] == Read(ps, iso, SourceOf(c));
        assert FieldAdapts(ps, c);
        SourceKinds(c);
      }
    }
  }

  /** The columns read with `part.get(key)`, directly or through
      `convert_to_timestamp`, from one part. */
  function ColumnsOf(part: Part): set<Column>
  {
    set c: Column | (SourceOf(c).Field? || SourceOf(c).Time?) && SourceOf(c).part == part
  }

  /** Tags are never NULL: a falsy or missing tags value becomes the empty
      list, a truthy one is kept. */
  lemma TagsNeverNull(ps: Parts, iso: IsoParser)
    ensures var tags := RowOf(ps, iso)[Tags];
      && tags.Some? && tags.value.Raw?
      && (Truthy(tags.value.v) || tags.value.v == List([]))
      && (Truthy(Get(ps.conversation, "tags", Null)) ==> tags.value.v == ps.conversation["tags"])
  {
    SourcesOfScalars();
  }

  /** The three custom-field columns are never NULL: they always hold the
      serialised document, "{}" when it is missing. */
  lemma CustomFieldsNeverNull(ps: Parts, iso: IsoParser)
    ensures var row := RowOf(ps, iso);
      && row[CustomerCustomFields] == Some(JsonText(Get(ps.customer, "customFields", Dict(map[]))))
      && row[AccountCustomFields] == Some(JsonText(Get(ps.account, "customFields", Dict(map[]))))
      && row[ConversationCustomFields] == Some(JsonText(Get(ps.conversation, "customFields", Dict(map[]))))
  {
    SourcesOfDocuments();
  }

  /** The backfill columns start NULL, and the id column holds the record's
      "id". */
  lemma IdAndBackfill(ps: Parts, iso: IsoParser)
    ensures var row := RowOf(ps, iso);
      && row[TicketNumber].None? && row[FirstMessage].None?
      && row[ConversationId] == Bind(Get(ps.conversation, "id", Null))
  {
    SourcesOfScalars();
    SourcesOfStamps();
  }

  /** A sub-object that is missing, null or empty behaves as `{}`: every column
      read from it is NULL. */
  lemma EmptyPartNullsItsColumns(ps: Parts, iso: IsoParser, part: Part, c: Column)
    requires Select(ps, part) == map[]
    requires c in ColumnsOf(part)
    ensures RowOf(ps, iso)[c].None?
  {
    var src := SourceOf(c);
    assert (src.Field? || src.Time?) && src.part == part;
    ReadFromEmpty(ps, iso, src);
    assert RowOf(ps, iso)[c] == Read(ps, iso, src);
  }

  /** A field or time read from an empty part is NULL. */
  lemma ReadFromEmpty(ps: Parts, iso: IsoParser, src: Source)
    requires (src.Field? || src.Time?) && Select(ps, src.part) == map[]
    ensures Read(ps, iso, src).None?
  {
    assert Get(Select(ps, src.part), src.key, Null) == Null;
  }

  /** The row of a record that flattens, with the invariants above. */
  lemma Flattened(rec: Object, iso: IsoParser)
    requires Flattens(rec, iso)
    ensures var row := FlattenRecord(rec, iso).value;
      && row[Tags].Some? && row[Tags].value.Raw?
      && (Truthy(row[Tags].value.v) || row[Tags].value.v == List([]))
      && row[ConversationCustomFields] == Some(JsonText(Get(rec, "customFields", Dict(map[]))))
      && row[CustomerCustomFields].Some? && row[AccountCustomFields].Some?
      && row[TicketNumber].None? && row[FirstMessage].None?
      && row[ConversationId] == Bind(Get(rec, "id", Null))
  {
    var ps := PartsOf(rec, iso);
    TagsNeverNull(ps, iso);
    CustomFieldsNeverNull(ps, iso);
    IdAndBackfill(ps, iso);
  }

  /** A null or missing customer empties both the customer and the account,
      whose custom fields then serialise `{}`. */
  lemma NullCustomer(rec: Object, iso: IsoParser)
    requires !Truthy(Get(rec, "customer", Null))
    ensures PartOf(rec, Customer) == Some(map[])
    ensures PartOf(rec, Account) == Some(map[])
    ensures Flattens(rec, iso) ==>
              FlattenRecord(rec, iso).value[CustomerCustomFields] == Some(JsonText(Dict(map[])))
              && FlattenRecord(rec, iso).value[AccountCustomFields] == Some(JsonText(Dict(map[])))
  {
    assert SubObject(map[], "account") == Some(map[]);
    if Flattens(rec, iso) {
      CustomFieldsNeverNull(PartsOf(rec, iso), iso);
    }
  }

  /** A sub-object that is a truthy value other than an object makes building
      the row raise. */
  lemma BadPartRaises(rec: Object, iso: IsoParser, key: string)
    requires key in {"customer", "assignedAgent", "lastMessage", "csat", "statistics"}
    requires Truthy(Get(rec, key, Null)) && !Get(rec, key, Null).Dict?
    ensures FlattenRecord(rec, iso).None?
  {
  }

  /** A time field holding a truthy float, list or object makes building the
      row raise (TypeError from `strptime`), although the docstring promises a
      safe conversion. */
  lemma BadTimeRaises(rec: Object, iso: IsoParser)
    requires var v := Get(rec, "escalatedAt", Null); Truthy(v) && (v.Float? || v.List? || v.Dict?)
    ensures FlattenRecord(rec, iso).None?
  {
  }

  /** Sub-objects that are objects or falsy, and time fields that are strings,
      integers, booleans or null: then building the row never raises. */
  lemma WellTypedRecordFlattens(rec: Object, iso: IsoParser)
    requires forall part: Part :: PartOf(rec, part).Some?
    requires forall part: Part, key: string :: key in {"createdAt", "startedAt", "closedAt", "assignedAt", "snoozedUntil", "escalatedAt"} ==>
               var v := Get(PartOf(rec, part).value, key, Null);
               v.Null? || v.Bool? || v.Int? || v.Str?
    ensures Flattens(rec, iso)
  {
    forall part: Part, key: string | key in {"createdAt", "startedAt", "closedAt", "assignedAt", "snoozedUntil", "escalatedAt"}
      ensures Converts(rec, part, key, iso)
    {
      JsonScalarsNeverRaise(Get(PartOf(rec, part).value, key, Null), iso);
    }
  }
}
