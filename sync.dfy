/**
 * `main` of the full-sync scripts (Oldtickets.py with the coalescing policy,
 * Final-Atlas.py with the narrow one): create the table, read the total from
 * a first request, then fetch and load pages of `PageSize` records at cursors
 * 0, 3000, 6000, ... until the cursor reaches the total or a page is empty.
 */
module Sync {
  import opened Wrappers
  import opened Values
  import opened Timestamps
  import opened Columns
  import opened Merge
  import opened Pages
  import opened Store

  /** The page size asked for, and the step of the cursor. */
  const PageSize: nat := 3000

  /** A decoded 200 response of the conversations endpoint: its "total" (an
      integer, `None` when the key is missing) and its "data" (`None` when
      missing or null). */
  datatype Body = Body(total: Option<int>, data: Option<seq<Object>>)

  /** `fetch_conversations(cursor)` as the `n`-th request of a run: the body,
      or `None` for a status other than 200. */
  type Fetch = (nat, int) -> Option<Body>

  /** How `main` ends: no total in the first response (it returns), the loop
      ends, or loading a page raises (the script exits with status 1). */
  datatype Outcome = NoTotal | Finished | Crashed

  /** A run: the table it leaves, how it ends, and the cursor of every request,
      in order. */
  datatype Run = Run(table: Table, outcome: Outcome, cursors: seq<int>)

  /** The records the loop loads from a response, `None` when it stops there:
      a failed request, no "data", or an empty one. */
  function PageOf(response: Option<Body>): (r: Option<seq<Object>>)
    ensures r.Some? ==> r.value != []
    ensures r.None? <==> response.None? || response.value.data.None? || response.value.data.value == []
  {
    match response
    case None => None
    case Some(body) =>
      match body.data
      case None => None
      case Some(records) => if records == [] then None else Some(records)
  }

  /** The loop from `cursor`, whose next request is the `n`-th. */
  function Loop(t: Table, fetch: Fetch, total: int, cursor: int, n: nat, p: Policy, iso: IsoParser): (r: Run)
    requires TableWellFormed(t)
    ensures TableWellFormed(r.table)
    decreases total - cursor
  {
    if cursor >= total then Run(t, Finished, [])
    else
      match PageOf(fetch(n, cursor))
      case None => Run(t, Finished, [cursor])
      case Some(page) =>
        match ApplyPage(t, page, p, iso)
        case None => Run(t, Crashed, [cursor])
        case Some(next) =>
          var rest := Loop(next, fetch, total, cursor + PageSize, n + 1, p, iso);
          Run(rest.table, rest.outcome, [cursor] + rest.cursors)
  }

  /** A whole run of `main` on the rows stored before it. */
  function SyncRun(t: Table, fetch: Fetch, p: Policy, iso: IsoParser): (r: Run)
    requires TableWellFormed(t)
    ensures TableWellFormed(r.table)
  {
    match fetch(0, 0)
    case Some(Body(Some(total), _)) =>
      var rest := Loop(t, fetch, total, 0, 1, p, iso);
      Run(rest.table, rest.outcome, [0] + rest.cursors)
    case _ => Run(t, NoTotal, [0])
  }

  /** The loop resumed at `cursor`, after requests at `done`, ends as
      `whole` does. */
  predicate Resumes(t: Table, fetch: Fetch, total: int, cursor: int, done: seq<int>, p: Policy, iso: IsoParser, whole: Run)
    requires TableWellFormed(t)
  {
    var rest := Loop(t, fetch, total, cursor, |done|, p, iso);
    rest.table == whole.table && rest.outcome == whole.outcome && done + rest.cursors == whole.cursors
  }

  /** The first request either ends the run or starts the loop at cursor 0. */
  lemma ResumesStart(t: Table, fetch: Fetch, p: Policy, iso: IsoParser)
    requires TableWellFormed(t)
    ensures fetch(0, 0).None? || fetch(0, 0).value.total.None? ==> SyncRun(t, fetch, p, iso) == Run(t, NoTotal, [0])
    ensures fetch(0, 0).Some? && fetch(0, 0).value.total.Some? ==>
              Resumes(t, fetch, fetch(0, 0).value.total.value, 0, [0], p, iso, SyncRun(t, fetch, p, iso))
  {
  }

  /** The loop ends when the cursor reaches the total. */
  lemma ResumesDone(t: Table, fetch: Fetch, total: int, cursor: int, done: seq<int>, p: Policy, iso: IsoParser, whole: Run)
    requires TableWellFormed(t) && cursor >= total
    requires Resumes(t, fetch, total, cursor, done, p, iso, whole)
    ensures whole == Run(t, Finished, done)
  {
    assert done + [] == done;
  }

  /** One turn of the loop: the page at `cursor` is fetched and either stops
      the run, crashes it, or is loaded and the loop moves on. */
  lemma ResumesStep(t: Table, fetch: Fetch, total: int, cursor: int, done: seq<int>, p: Policy, iso: IsoParser, whole: Run)
    requires TableWellFormed(t) && cursor < total
    requires Resumes(t, fetch, total, cursor, done, p, iso, whole)
    ensures PageOf(fetch(|done|, cursor)).None? ==> whole == Run(t, Finished, done + [cursor])
    ensures PageOf(fetch(|done|, cursor)).Some? ==>
              var page := PageOf(fetch(|done|, cursor)).value;
              && (ApplyPage(t, page, p, iso).None? ==> whole == Run(t, Crashed, done + [cursor]))
              && (ApplyPage(t, page, p, iso).Some? ==>
                    Resumes(ApplyPage(t, page, p, iso).value, fetch, total, cursor + PageSize, done + [cursor], p, iso, whole))
  {
    var page := PageOf(fetch(|done|, cursor));
    if page.Some? {
      var applied := ApplyPage(t, page.value, p, iso);
      if applied.Some? {
        var rest := Loop(applied.value, fetch, total, cursor + PageSize, |done| + 1, p, iso);
        assert Loop(t, fetch, total, cursor, |done|, p, iso) == Run(rest.table, rest.outcome, [cursor] + rest.cursors);
        assert done + ([cursor] + rest.cursors) == done + [cursor] + rest.cursors;
      }
    }
  }

  /** One pass of the loop of `main`: fetch the page at `cursor`, stop when
      the request fails or the page is missing or empty, otherwise load it.
      `stop` is how the run ends there, `None` when the loop goes on to the
      next cursor. The pause between pages is not modelled. */
  method Batch(db: ConversationStore, fetch: Fetch, total: int, cursor: int, cursors: seq<int>, p: Policy, iso: IsoParser,
               ghost whole: Run)
    returns (stop: Option<Outcome>)
    requires db.Valid() && db.created && cursor < total
    requires Resumes(db.rows, fetch, total, cursor, cursors, p, iso, whole)
    modifies db
    ensures db.Valid() && db.created && db.columns == old(db.columns)
    ensures stop.Some? ==> whole == Run(db.rows, stop.value, cursors + [cursor])
    ensures stop.None? ==> Resumes(db.rows, fetch, total, cursor + PageSize, cursors + [cursor], p, iso, whole)
  {
    ResumesStep(db.rows, fetch, total, cursor, cursors, p, iso, whole);
    var page := PageOf(fetch(|cursors|, cursor));
    if page.None? {
      return Some(Finished);
    }
    var committed := db.InsertPage(page.value, p, iso);
    if !committed {
      return Some(Crashed);
    }
    return None;
  }

  /** `main`. */
  method Synchronise(db: ConversationStore, fetch: Fetch, p: Policy, iso: IsoParser)
    returns (outcome: Outcome, cursors: seq<int>)
    requires db.Valid()
    modifies db
    ensures db.Valid() && db.created
    ensures db.columns == if old(db.created) then old(db.columns) else BaseColumns
    ensures Run(db.rows, outcome, cursors) == SyncRun(old(db.rows), fetch, p, iso)
  {
    db.CreateTable();
    ResumesStart(db.rows, fetch, p, iso);
    var cursor := 0;
    var first := fetch(0, cursor);
    cursors := [cursor];
    if first.None? || first.value.total.None? {
      return NoTotal, cursors;
    }
    var total := first.value.total.value;
    ghost var whole := SyncRun(old(db.rows), fetch, p, iso);
    while cursor < total
      invariant db.Valid() && db.created
      invariant db.columns == if old(db.created) then old(db.columns) else BaseColumns
      invariant Resumes(db.rows, fetch, total, cursor, cursors, p, iso, whole)
      decreases total - cursor
    {
      var stop := Batch(db, fetch, total, cursor, cursors, p, iso, whole);
      cursors := cursors + [cursor];
      if stop.Some? {
        return stop.value, cursors;
      }
      cursor := cursor + PageSize;
    }
    ResumesDone(db.rows, fetch, total, cursor, cursors, p, iso, whole);
    return Finished, cursors;
  }

  /** The number of pages of `PageSize` records that cover `remaining`
      records. */
  function PagesFor(remaining: int): (r: nat)
    ensures remaining <= 0 ==> r == 0
    ensures remaining > 0 ==> (r - 1) * PageSize < remaining <= r * PageSize
  {
    if remaining <= 0 then 0 else (remaining + PageSize - 1) / PageSize
  }

  /** The loop requests the cursors `cursor`, `cursor + PageSize`, ..., each
      below the total, and no more than the pages that cover what remains. */
  lemma {:induction false} LoopCursors(t: Table, fetch: Fetch, total: int, cursor: int, n: nat, p: Policy, iso: IsoParser)
    requires TableWellFormed(t)
    ensures var cs := Loop(t, fetch, total, cursor, n, p, iso).cursors;
      && |cs| <= PagesFor(total - cursor)
      && forall i :: 0 <= i < |cs| ==> cs[i] == cursor + i * PageSize && cs[i] < total
    decreases total - cursor
  {
    if cursor < total {
      var page := PageOf(fetch(n, cursor));
      if page.Some? && ApplyPage(t, page.value, p, iso).Some? {
        var next := ApplyPage(t, page.value, p, iso).value;
        LoopCursors(next, fetch, total, cursor + PageSize, n + 1, p, iso);
        var rest := Loop(next, fetch, total, cursor + PageSize, n + 1, p, iso).cursors;
        assert forall i :: 1 <= i <= |rest| ==> ([cursor] + rest)[i] == rest[i - 1];
      }
    }
  }

  /** A whole run requests cursor 0 for the total, then cursors 0, 3000,
      6000, ... below the total: at most one request more than the pages
      that cover the total. */
  lemma SyncCursors(t: Table, fetch: Fetch, p: Policy, iso: IsoParser)
    requires TableWellFormed(t)
    ensures var cs := SyncRun(t, fetch, p, iso).cursors;
      && cs[0] == 0
      && (fetch(0, 0).None? || fetch(0, 0).value.total.None? ==> cs == [0])
      && (fetch(0, 0).Some? && fetch(0, 0).value.total.Some? ==>
            var total := fetch(0, 0).value.total.value;
            && |cs| <= 1 + PagesFor(total)
            && forall i :: 1 <= i < |cs| ==> cs[i] == (i - 1) * PageSize && cs[i] < total)
  {
    if fetch(0, 0).Some? && fetch(0, 0).value.total.Some? {
      LoopCursors(t, fetch, fetch(0, 0).value.total.value, 0, 1, p, iso);
    }
  }

  /** Every response from the `from`-th request on carries records, none of
      which raises. */
  ghost predicate AllPagesLoad(fetch: Fetch, from: nat, iso: IsoParser)
  {
    forall n: nat, c: int :: from <= n ==> PageOf(fetch(n, c)).Some? && Loads(PageOf(fetch(n, c)).value, iso)
  }

  /** When every page has records and loads, the loop finishes after
      requesting exactly the pages that cover what remains. */
  lemma {:induction false} LoopFull(t: Table, fetch: Fetch, total: int, cursor: int, n: nat, p: Policy, iso: IsoParser)
    requires TableWellFormed(t)
    requires AllPagesLoad(fetch, n, iso)
    ensures Loop(t, fetch, total, cursor, n, p, iso).outcome == Finished
    ensures |Loop(t, fetch, total, cursor, n, p, iso).cursors| == PagesFor(total - cursor)
    decreases total - cursor
  {
    if cursor < total {
      var page := PageOf(fetch(n, cursor)).value;
      ApplyPageFailsIff(t, page, p, iso);
      assert ApplyPage(t, page, p, iso).Some?;
      var next := ApplyPage(t, page, p, iso).value;
      assert AllPagesLoad(fetch, n + 1, iso);
      LoopFull(next, fetch, total, cursor + PageSize, n + 1, p, iso);
    }
  }

  /** A total of 7000 with every page full: requests at cursors 0 (for the
      total), then 0, 3000 and 6000; at 9000 the loop stops. */
  lemma SevenThousand(t: Table, fetch: Fetch, p: Policy, iso: IsoParser)
    requires TableWellFormed(t)
    requires fetch(0, 0).Some? && fetch(0, 0).value.total == Some(7000)
    requires AllPagesLoad(fetch, 1, iso)
    ensures SyncRun(t, fetch, p, iso).outcome == Finished
    ensures SyncRun(t, fetch, p, iso).cursors == [0, 0, 3000, 6000]
  {
    LoopFull(t, fetch, 7000, 0, 1, p, iso);
    LoopCursors(t, fetch, 7000, 0, 1, p, iso);
    var cs := SyncRun(t, fetch, p, iso).cursors;
    assert PagesFor(7000) == 3;
    assert |cs| == 4;
  }

  /** The upserts of the pages the loop loads, in order. They do not depend on
      the table. */
  function LoopWrites(fetch: Fetch, total: int, cursor: int, n: nat, iso: IsoParser): (ws: seq<Write>)
    ensures Loadable(ws) && WritesWellFormed(ws)
    decreases total - cursor
  {
    if cursor >= total then []
    else
      match PageOf(fetch(n, cursor))
      case None => []
      case Some(page) =>
        match PageWrites(page, iso)
        case None => []
        case Some(first) =>
          var rest := LoopWrites(fetch, total, cursor + PageSize, n + 1, iso);
          PageWritesLoadable(page, iso);
          LoadableConcat(first, rest);
          first + rest
  }

  /** The loop leaves the table those upserts make. */
  lemma {:induction false} LoopTable(t: Table, fetch: Fetch, total: int, cursor: int, n: nat, p: Policy, iso: IsoParser)
    requires TableWellFormed(t)
    ensures Loop(t, fetch, total, cursor, n, p, iso).table == ApplyRows(t, LoopWrites(fetch, total, cursor, n, iso), p)
    decreases total - cursor
  {
    if cursor < total {
      var page := PageOf(fetch(n, cursor));
      if page.Some? && PageWrites(page.value, iso).Some? {
        var first := PageWrites(page.value, iso).value;
        var rest := LoopWrites(fetch, total, cursor + PageSize, n + 1, iso);
        PageWritesLoadable(page.value, iso);
        var next := ApplyPage(t, page.value, p, iso).value;
        assert next == ApplyRows(t, first, p);
        LoopTable(next, fetch, total, cursor + PageSize, n + 1, p, iso);
        ApplyRowsAppend(t, first, rest, p);
      } else {
        assert ApplyRows(t, [], p) == t;
      }
    } else {
      assert ApplyRows(t, [], p) == t;
    }
  }

  /** Running the sync again against the same upstream answers leaves the
      table as one run left it, whether or not the run finished. */
  lemma RerunChangesNothing(t: Table, fetch: Fetch, p: Policy, iso: IsoParser)
    requires TableWellFormed(t)
    ensures var once := SyncRun(t, fetch, p, iso).table;
      SyncRun(once, fetch, p, iso).table == once
  {
    if fetch(0, 0).Some? && fetch(0, 0).value.total.Some? {
      var total := fetch(0, 0).value.total.value;
      var ws := LoopWrites(fetch, total, 0, 1, iso);
      LoopTable(t, fetch, total, 0, 1, p, iso);
      var once := SyncRun(t, fetch, p, iso).table;
      LoopTable(once, fetch, total, 0, 1, p, iso);
      ApplyRowsIdempotent(t, ws, p);
    }
  }
}
