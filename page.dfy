/**
 * One page of `insert_into_db` as a value: which records are skipped, which
 * become upserts, and whether building a row raises, in which case the
 * page's transaction rolls back and nothing of the page is kept.
 */
module Pages {
  import opened Wrappers
  import opened Values
  import opened Timestamps
  import opened Columns
  import opened Flatten
  import opened Merge

  /** An upsert carries a full row keyed by its own id, with both backfill
      columns null. */
  predicate LoadableWrite(w: Write)
  {
    && WellFormed(w.row)
    && w.row[ConversationId] == Some(w.id)
    && w.row[TicketNumber].None? && w.row[FirstMessage].None?
  }

  predicate Loadable(ws: seq<Write>)
  {
    forall i :: 0 <= i < |ws| ==> LoadableWrite(ws[i])
  }

  lemma LoadableAppend(ws: seq<Write>, w: Write)
    requires Loadable(ws) && LoadableWrite(w)
    ensures Loadable(ws + [w])
  {
    forall i | 0 <= i < |ws| + 1 ensures (ws + [w])[i] == if i < |ws| then ws[i] else w {
    }
  }

  lemma LoadableConcat(a: seq<Write>, b: seq<Write>)
    requires Loadable(a) && Loadable(b)
    ensures Loadable(a + b) && WritesWellFormed(a + b)
  {
    assert forall i :: 0 <= i < |a + b| ==> (a + b)[i] == if i < |a| then a[i] else b[i - |a|];
  }

  /** No record of the page raises. */
  predicate Loads(page: seq<Object>, iso: IsoParser)
  {
    forall i :: 0 <= i < |page| ==> !Prepare(page[i], iso).Raises?
  }

  /** What happens to one record: no "id" key, so it is skipped; a row to
      upsert under its id; or an exception, from building the row, from
      binding a value the driver cannot adapt, or from the NOT NULL primary
      key when "id" is present but null. */
  datatype Prepared = Skipped | Ready(w: Write) | Raises

  function Prepare(rec: Object, iso: IsoParser): (r: Prepared)
    ensures r.Skipped? <==> "id" !in rec
  {
    if "id" !in rec then Skipped
    else if !Flattens(rec, iso) || rec["id"].Null? || !FieldsAdapt(PartsOf(rec, iso)) then Raises
    else Ready(Write(Raw(rec["id"]), FlattenRecord(rec, iso).value))
  }

  /** A record with an id raises exactly when its row cannot be built, the
      id is null, or one of the fields it binds does not adapt. */
  lemma PrepareRaises(rec: Object, iso: IsoParser)
    requires "id" in rec
    ensures Prepare(rec, iso).Raises? <==> !Flattens(rec, iso) || rec["id"].Null? || !FieldsAdapt(PartsOf(rec, iso))
  {
  }

  /** Tags that are a non-empty object make `cur.execute` raise, and with it
      the page, although the row is built. */
  lemma ObjectTagsRaise(rec: Object, iso: IsoParser)
    requires "id" in rec && Flattens(rec, iso)
    requires Get(rec, "tags", Null).Dict? && Truthy(Get(rec, "tags", Null))
    ensures Prepare(rec, iso).Raises?
  {
  }

  /** So does a plain field whose value is an object, even `{}`. */
  lemma ObjectFieldRaises(rec: Object, iso: IsoParser, c: Column)
    requires "id" in rec && Flattens(rec, iso) && SourceOf(c).Field?
    requires Get(Select(PartsOf(rec, iso), SourceOf(c).part), SourceOf(c).key, Null).Dict?
    ensures Prepare(rec, iso).Raises?
  {
    var ps := PartsOf(rec, iso);
    assert !FieldAdapts(ps, c);
    assert !FieldsAdapt(ps);
    PrepareRaises(rec, iso);
  }

  /** Otherwise its upsert carries the flattened row under the record's own
      id, a full row whose id column holds that id and whose backfill columns
      are null. */
  lemma PrepareReady(rec: Object, iso: IsoParser)
    requires Prepare(rec, iso).Ready?
    ensures FlattenRecord(rec, iso) == Some(Prepare(rec, iso).w.row)
    ensures Prepare(rec, iso).w.id == Raw(rec["id"])
    ensures LoadableWrite(Prepare(rec, iso).w)
    ensures RowAdapts(Prepare(rec, iso).w.row)
  {
    Flattened(rec, iso);
    RowAdaptsIff(PartsOf(rec, iso), iso);
  }

  /** The upserts of a page in page order, or `None` when one of its records
      raises. */
  function PageWrites(page: seq<Object>, iso: IsoParser): (r: Option<seq<Write>>)
  {
    if page == [] then Some([])
    else
      match PageWrites(page[..|page| - 1], iso)
      case None => None
      case Some(ws) =>
        match Prepare(page[|page| - 1], iso)
        case Skipped => Some(ws)
        case Ready(w) => Some(ws + [w])
        case Raises => None
  }

  lemma {:induction false} PageWritesLoadable(page: seq<Object>, iso: IsoParser)
    requires PageWrites(page, iso).Some?
    ensures Loadable(PageWrites(page, iso).value)
    decreases |page|
  {
    if page != [] {
      PageWritesLoadable(page[..|page| - 1], iso);
      var rec := page[|page| - 1];
      if Prepare(rec, iso).Ready? {
        PrepareReady(rec, iso);
        LoadableAppend(PageWrites(page[..|page| - 1], iso).value, Prepare(rec, iso).w);
      }
    }
  }

  /** One more record of the page. */
  lemma PageWritesNext(page: seq<Object>, i: nat, iso: IsoParser)
    requires i < |page| && PageWrites(page[..i], iso).Some?
    ensures PageWrites(page[..i + 1], iso)
         == match Prepare(page[i], iso)
            case Skipped => PageWrites(page[..i], iso)
            case Ready(w) => Some(PageWrites(page[..i], iso).value + [w])
            case Raises => None
  {
    assert page[..i + 1][..i] == page[..i];
    assert page[..i + 1][i] == page[i];
  }

  /** The page's writes split at any point. */
  lemma {:induction false} PageWritesAppend(a: seq<Object>, b: seq<Object>, iso: IsoParser)
    ensures PageWrites(a + b, iso)
         == if PageWrites(a, iso).Some? && PageWrites(b, iso).Some?
            then Some(PageWrites(a, iso).value + PageWrites(b, iso).value)
            else None
    decreases |b|
  {
    if b == [] {
      assert a + b == a;
      assert PageWrites(b, iso) == Some([]);
      if PageWrites(a, iso).Some? {
        assert PageWrites(a, iso).value + [] == PageWrites(a, iso).value;
      }
    } else {
      var b', x := b[..|b| - 1], b[|b| - 1];
      assert (a + b)[..|a + b| - 1] == a + b';
      assert (a + b)[|a + b| - 1] == x;
      PageWritesAppend(a, b', iso);
      var pa, pb := PageWrites(a, iso), PageWrites(b', iso);
      if pa.Some? && pb.Some? {
        match Prepare(x, iso)
        case Ready(w) =>
          assert pa.value + pb.value + [w] == pa.value + (pb.value + [w]);
        case _ =>
      }
    }
  }

  /** A page raises exactly when one of its records raises. */
  lemma {:induction false} PageRaisesIff(page: seq<Object>, iso: IsoParser)
    ensures PageWrites(page, iso).None? <==> exists i :: 0 <= i < |page| && Prepare(page[i], iso).Raises?
  {
    if PageWrites(page, iso).None? {
      var i := RaisingRecordOf(page, iso);
    } else if i :| 0 <= i < |page| && Prepare(page[i], iso).Raises? {
      RaisingRecordRaises(page, iso, i);
    }
  }

  /** A record that raises makes its whole page raise. */
  lemma {:induction false} RaisingRecordRaises(page: seq<Object>, iso: IsoParser, i: nat)
    requires i < |page| && Prepare(page[i], iso).Raises?
    ensures PageWrites(page, iso).None?
    decreases |page|
  {
    var front := page[..|page| - 1];
    if i < |page| - 1 {
      assert front[i] == page[i];
      RaisingRecordRaises(front, iso, i);
    }
  }

  /** A page that raises has a record that raises. */
  lemma {:induction false} RaisingRecordOf(page: seq<Object>, iso: IsoParser) returns (i: nat)
    requires PageWrites(page, iso).None?
    ensures i < |page| && Prepare(page[i], iso).Raises?
    decreases |page|
  {
    var front := page[..|page| - 1];
    if PageWrites(front, iso).None? {
      i := RaisingRecordOf(front, iso);
      assert page[i] == front[i];
    } else {
      i := |page| - 1;
    }
  }

  /** A record without "id" is skipped wherever it sits: the other records of
      the page are processed as if it were not there. */
  lemma SkippedRecordIgnored(a: seq<Object>, rec: Object, b: seq<Object>, iso: IsoParser)
    requires "id" !in rec
    ensures PageWrites(a + [rec] + b, iso) == PageWrites(a + b, iso)
  {
    PageWritesAppend(a, [rec], iso);
    PageWritesAppend(a + [rec], b, iso);
    PageWritesAppend(a, b, iso);
    assert [rec][..0] == [];
  }

  /** `insert_into_db(page)` on a table: every upsert in order, or, when a
      record raises, `None` (the transaction rolls back and the table is
      left as it was). */
  function ApplyPage(t: Table, page: seq<Object>, p: Policy, iso: IsoParser): (r: Option<Table>)
    requires TableWellFormed(t)
    ensures r.Some? ==> TableWellFormed(r.value)
  {
    match PageWrites(page, iso)
    case None => None
    case Some(ws) =>
      PageWritesLoadable(page, iso);
      Some(ApplyRows(t, ws, p))
  }

  /** Loading a page fails, and its transaction rolls back, exactly when one
      of its records raises. */
  lemma ApplyPageFailsIff(t: Table, page: seq<Object>, p: Policy, iso: IsoParser)
    requires TableWellFormed(t)
    ensures ApplyPage(t, page, p, iso).None? <==> exists i :: 0 <= i < |page| && Prepare(page[i], iso).Raises?
  {
    PageRaisesIff(page, iso);
  }

  /** Part way through a page: none of its first `i` records raised, and
      `rows` is `before` with their upserts applied in order. */
  ghost predicate LoadedUpTo(rows: Table, before: Table, page: seq<Object>, i: nat, p: Policy, iso: IsoParser)
  {
    && i <= |page| && TableWellFormed(before)
    && PageWrites(page[..i], iso).Some?
    && Loadable(PageWrites(page[..i], iso).value)
    && WritesWellFormed(PageWrites(page[..i], iso).value)
    && rows == ApplyRows(before, PageWrites(page[..i], iso).value, p)
  }

  lemma LoadedStart(before: Table, page: seq<Object>, p: Policy, iso: IsoParser)
    requires TableWellFormed(before)
    ensures LoadedUpTo(before, before, page, 0, p, iso)
  {
    assert page[..0] == [];
  }

  /** A record without "id" leaves the table as it is. */
  lemma LoadedSkip(rows: Table, before: Table, page: seq<Object>, i: nat, p: Policy, iso: IsoParser)
    requires LoadedUpTo(rows, before, page, i, p, iso) && i < |page| && Prepare(page[i], iso).Skipped?
    ensures LoadedUpTo(rows, before, page, i + 1, p, iso)
  {
    PageWritesNext(page, i, iso);
  }

  /** A record that flattens is upserted. */
  lemma LoadedReady(rows: Table, before: Table, page: seq<Object>, i: nat, p: Policy, iso: IsoParser)
    requires LoadedUpTo(rows, before, page, i, p, iso) && i < |page| && Prepare(page[i], iso).Ready?
    ensures var w := Prepare(page[i], iso).w;
      && TableWellFormed(rows) && LoadableWrite(w)
      && LoadedUpTo(Upsert(rows, w.id, w.row, p), before, page, i + 1, p, iso)
  {
    var ws := PageWrites(page[..i], iso).value;
    var w := Prepare(page[i], iso).w;
    PageWritesNext(page, i, iso);
    PrepareReady(page[i], iso);
    LoadableAppend(ws, w);
    ApplyRowsSnoc(before, ws, w, p);
  }

  /** A record that raises makes the page raise. */
  lemma LoadedRaises(rows: Table, before: Table, page: seq<Object>, i: nat, p: Policy, iso: IsoParser)
    requires LoadedUpTo(rows, before, page, i, p, iso) && i < |page| && Prepare(page[i], iso).Raises?
    ensures ApplyPage(before, page, p, iso).None?
  {
    RaisingRecordRaises(page, iso, i);
  }

  /** After the last record the table is the page's result. */
  lemma LoadedAll(rows: Table, before: Table, page: seq<Object>, p: Policy, iso: IsoParser)
    requires LoadedUpTo(rows, before, page, |page|, p, iso)
    ensures ApplyPage(before, page, p, iso) == Some(rows)
  {
    assert page[..|page|] == page;
  }

  /** Loading the same page twice leaves the table as loading it once. */
  lemma PageIdempotent(t: Table, page: seq<Object>, p: Policy, iso: IsoParser)
    requires TableWellFormed(t)
    requires ApplyPage(t, page, p, iso).Some?
    ensures ApplyPage(ApplyPage(t, page, p, iso).value, page, p, iso) == ApplyPage(t, page, p, iso)
  {
    PageWritesLoadable(page, iso);
    ApplyRowsIdempotent(t, PageWrites(page, iso).value, p);
  }

  /** A record whose id is not yet stored inserts exactly its flattened row,
      and no other id changes. */
  lemma NewRecordInserted(t: Table, rec: Object, p: Policy, iso: IsoParser)
    requires TableWellFormed(t)
    requires Prepare(rec, iso).Ready? && Prepare(rec, iso).w.id !in t
    ensures ApplyPage(t, [rec], p, iso) == Some(t[Prepare(rec, iso).w.id := FlattenRecord(rec, iso).value])
  {
    var w := Prepare(rec, iso).w;
    SingleRecordPage(t, rec, p, iso);
    PrepareReady(rec, iso);
    UpsertInsertsAbsent(t, w.id, w.row, p);
  }

  /** A page of one record that does not raise is one upsert. */
  lemma SingleRecordPage(t: Table, rec: Object, p: Policy, iso: IsoParser)
    requires TableWellFormed(t)
    requires Prepare(rec, iso).Ready?
    ensures WellFormed(Prepare(rec, iso).w.row)
    ensures ApplyPage(t, [rec], p, iso)
         == Some(Upsert(t, Prepare(rec, iso).w.id, Prepare(rec, iso).w.row, p))
  {
    var w := Prepare(rec, iso).w;
    PrepareReady(rec, iso);
    assert [rec][..0] == [];
    assert PageWrites([], iso) == Some([]);
    assert [] + [w] == [w];
    assert PageWrites([rec], iso) == Some([w]);
    assert [w][..0] == [];
    assert ApplyRows(t, [], p) == t;
  }

  /** On conflict, the coalescing policy replaces the stored tags and custom
      fields with the incoming ones (they are never NULL in an incoming row),
      while the narrow policy keeps the stored ones. */
  lemma ConflictDocuments(stored: Row, rec: Object, iso: IsoParser, c: Column)
    requires WellFormed(stored)
    requires Prepare(rec, iso).Ready?
    requires c in {Tags, CustomerCustomFields, AccountCustomFields, ConversationCustomFields}
    ensures var row := Prepare(rec, iso).w.row;
      && MergeRow(stored, row, Coalescing)[c] == row[c]
      && MergeRow(stored, row, Narrow)[c] == stored[c]
  {
    var row := Prepare(rec, iso).w.row;
    PrepareReady(rec, iso);
    Flattened(rec, iso);
    assert c in AllowListOrder;
    CoalescingAllowList(stored, row, c);
    NarrowKeepsOthers(stored, row, c);
  }

  /** A record whose customer is null and whose escalation time parses. */
  function EscalatedWithoutCustomer(id: string, s: string): Object
  {
    map["id" := Str(id), "customer" := Null, "escalatedAt" := Str(s)]
  }

  /** Such a record builds a row: the missing sub-objects read as empty... */
  lemma EscalatedWithoutCustomerParts(id: string, s: string)
    ensures forall part: Part :: part != Conversation ==> PartOf(EscalatedWithoutCustomer(id, s), part) == Some(map[])
  {
    NullCustomer(EscalatedWithoutCustomer(id, s), (x: string) => None);
  }

  /** ... and the missing time fields as null. */
  lemma EscalatedWithoutCustomerFlattens(id: string, s: string, iso: IsoParser)
    requires s != ""
    ensures Flattens(EscalatedWithoutCustomer(id, s), iso)
    ensures PartOf(EscalatedWithoutCustomer(id, s), Customer) == Some(map[])
  {
    var rec := EscalatedWithoutCustomer(id, s);
    EscalatedWithoutCustomerParts(id, s);
    forall key | key in {"startedAt", "closedAt", "createdAt", "assignedAt", "snoozedUntil", "escalatedAt"}
      ensures ConvertToTimestamp(Get(rec, key, Null), iso).Ok?
    {
      JsonScalarsNeverRaise(Get(rec, key, Null), iso);
    }
    JsonScalarsNeverRaise(Null, iso);
  }

  /** Every plain field it binds is its id or null; the escalation string is
      parsed, not bound. */
  lemma EscalatedWithoutCustomerField(id: string, s: string, c: Column)
    requires SourceOf(c).Field?
    ensures var src, rec := SourceOf(c), EscalatedWithoutCustomer(id, s);
      && PartOf(rec, src.part).Some?
      && Get(PartOf(rec, src.part).value, src.key, Null) == if src == Field(Conversation, "id") then Str(id) else Null
  {
    EscalatedWithoutCustomerParts(id, s);
    if SourceOf(c).part == Conversation {
      ConversationFieldsPlain(c);
    }
  }

  /** So the driver can adapt its fields exactly when the id holds no NUL. */
  lemma EscalatedWithoutCustomerBinds(id: string, s: string, iso: IsoParser)
    requires s != ""
    ensures Flattens(EscalatedWithoutCustomer(id, s), iso)
    ensures FieldsAdapt(PartsOf(EscalatedWithoutCustomer(id, s), iso)) <==> NoNul(id)
  {
    EscalatedWithoutCustomerFlattens(id, s, iso);
    var ps := PartsOf(EscalatedWithoutCustomer(id, s), iso);
    SourcesOfScalars();
    EscalatedWithoutCustomerField(id, s, ConversationId);
    SelectPart(EscalatedWithoutCustomer(id, s), iso, Conversation);
    assert FieldAdapts(ps, ConversationId) <==> NoNul(id);
    forall c: Column
      ensures NoNul(id) ==> FieldAdapts(ps, c)
    {
      if SourceOf(c).Field? {
        EscalatedWithoutCustomerField(id, s, c);
        SelectPart(EscalatedWithoutCustomer(id, s), iso, SourceOf(c).part);
      }
    }
  }

  /** Its customer columns are NULL and its escalation column holds the
      parsed instant. */
  lemma EscalatedWithoutCustomerRow(id: string, s: string, t0: Instant, iso: IsoParser)
    requires s != "" && iso(s) == Some(t0) && NoNul(id)
    ensures Prepare(EscalatedWithoutCustomer(id, s), iso).Ready?
    ensures var w := Prepare(EscalatedWithoutCustomer(id, s), iso).w;
      && w.id == Raw(Str(id))
      && w.row[CustomerEmail].None?
      && w.row[EscalatedAt] == Some(Stamp(t0))
  {
    var rec := EscalatedWithoutCustomer(id, s);
    EscalatedWithoutCustomerBinds(id, s, iso);
    var ps := PartsOf(rec, iso);
    SelectPart(rec, iso, Customer);
    assert CustomerEmail in ColumnsOf(Customer);
    EmptyPartNullsItsColumns(ps, iso, Customer, CustomerEmail);
    SourcesOfStamps();
    assert Read(ps, iso, SourceOf(EscalatedAt)) == Some(Stamp(t0));
    PrepareReady(rec, iso);
  }

  /** A stored conversation with an email and no escalation time meets a record
      for the same id with a null customer and an escalation time: under the
      coalescing policy the email survives and the escalation time is set. */
  lemma EscalatedWithoutCustomerMerge(t: Table, id: string, s: string, t0: Instant, iso: IsoParser)
    requires TableWellFormed(t)
    requires s != "" && iso(s) == Some(t0) && NoNul(id)
    requires Raw(Str(id)) in t && t[Raw(Str(id))][EscalatedAt].None?
    ensures ApplyPage(t, [EscalatedWithoutCustomer(id, s)], Coalescing, iso).Some?
    ensures var after := ApplyPage(t, [EscalatedWithoutCustomer(id, s)], Coalescing, iso).value;
      && Raw(Str(id)) in after
      && after[Raw(Str(id))][CustomerEmail] == t[Raw(Str(id))][CustomerEmail]
      && after[Raw(Str(id))][EscalatedAt] == Some(Stamp(t0))
  {
    var rec := EscalatedWithoutCustomer(id, s);
    EscalatedWithoutCustomerRow(id, s, t0, iso);
    SingleRecordPage(t, rec, Coalescing, iso);
    var w := Prepare(rec, iso).w;
    assert CustomerEmail in AllowListOrder;
    CoalescingAllowList(t[w.id], w.row, CustomerEmail);
    EscalationLatestNonNullWins(t[w.id], w.row, Coalescing);
  }
}
