# Atlas daily sync, modelled in Dafny

The system mirrors support conversations from the Atlas API into one
PostgreSQL table, `atlas.conversations`. Four scripts and a runner make up
the pipeline:

- two full syncs, `Oldtickets.py` and `Final-Atlas.py`. Each creates the
  table if it is missing, asks the API for the total, then fetches pages of
  3000 records at cursors 0, 3000, 6000, ... For every record it builds a
  flat 47-column row and upserts it on `conversation_id`. `Oldtickets.py`
  merges with a coalescing SET list: 23 allow-listed columns take the
  incoming value unless it is NULL, and `escalated_at` takes any non-NULL
  incoming value. `Final-Atlas.py` merges narrowly: only `escalated_at` can
  change on conflict.
- two backfills, `ticketnumber.py` and `1stmessagefetch.py`. Each adds its
  column (`ticket_number` or `first_message`) if missing, selects the ids
  where that column is NULL, calls the API once per id, and writes that
  id's cell.
- `runner.py`, which runs the first sync, then both backfills side by side,
  then the second sync. It stops at the first non-zero exit code.

## The model

- **Values and timestamps.** A decoded JSON value is `Values.Value`, with
  Python's truthiness and `dict.get`. `convert_to_timestamp` is
  `Timestamps.ConvertToTimestamp`; the function is identical in both sync
  scripts.
- **Rows and merging.** A row maps each of the 49 columns to a cell, and
  `None` is NULL. `Flatten.FlattenRecord` builds the row of one record, or
  gives `None` where building it raises. `Merge.MergeRow` runs the
  `ON CONFLICT DO UPDATE SET` list of either policy, and `Merge.Upsert` is
  one `INSERT ... ON CONFLICT`.
- **The table.** `Store.ConversationStore` is a class holding whether the
  table exists, which columns it has, and its rows. Its methods are the
  scripts' statements and transactions. `insert_into_db` is the loop of
  `InsertPage`, proved equal to the specification function
  `Pages.ApplyPage`.
- **The full sync.** `main` is the loop of `Sync.Synchronise`, proved equal
  to `Sync.SyncRun`. The API is a parameter `fetch(n, cursor)` that answers
  the `n`-th request of a run.
- **The backfills.** Each backfill is a loop over the selected ids
  (`TicketNumbers.BackfillTickets`, `FirstMessages.BackfillFirstMessages`).
  Both are proved equal to `Backfill.Fill` over the ids whose column was
  NULL. The per-id API answer is a parameter.
- **The runner.** Exit codes are a parameter `code(script)`, and the run is
  a trace of `Runner.Event`s.

Where the code departs from the project's documented intent, the model
follows the code:

- **Merging across pages is not order-independent.** Two records for one id
  with different non-NULL escalation times leave different tables
  depending on their order (`Merge.ArrivalOrderMatters`).
- **The runner does not wait for the second backfill.** When
  `ticketnumber.py` fails, `1stmessagefetch.py` has been started but is
  never waited on; the runner stops at once (`Runner.SecondBackfillNotAwaited`).
- **Cursor 0 is fetched twice.** A full sync makes one request for the
  total, then one per page, so cursor 0 is requested twice. For a total of
  7000 the cursors are 0, 0, 3000, 6000 (`Sync.SevenThousand`, `Sync.SyncCursors`).
- **A first message without "text" stores the empty string.** It does not
  store NULL, so that id is never selected again
  (`FirstMessages.EmptyListStaysSelectable`).
- **Some records crash the whole script.** Any of these makes
  `insert_into_db` raise, rolls back the page's transaction, and ends the
  sync:
  - a sub-object that is truthy but not an object;
  - a time field holding a truthy float, list or object (`strptime` raises
    `TypeError`);
  - an `"id"` that is present but null;
  - a bound field that the driver cannot adapt: an object, even `{}`, or a
    string holding a NUL character (`Pages.PrepareRaises`).

## Model

| member | source | states |
|---|---|---|
| Values.Get | Oldtickets.py:203-249 | `d.get(k, default)`: the stored value when the key is present, the default otherwise |
| Values.SubObject | Oldtickets.py:186-192 | `x.get(k, {}) or {}`: an object value is returned as itself; a falsy or missing value is `{}`; a truthy non-object makes the next `.get` raise (`None`), exactly when the value is truthy and not an object |
| Timestamps.ConvertToTimestamp | Oldtickets.py:117-128 | a datetime passes through; every int `i` is the UTC instant `i` seconds after the epoch (a bool as 0 or 1); any other falsy value is None; a non-empty string is what the parser gives, None when it rejects it; it raises exactly for a truthy float, list or object |
| Timestamps.ZeroIsTheEpoch | Oldtickets.py:119-124 | because the int test precedes the falsiness test, `0` and `False` give the epoch and `True` gives epoch+1, not None |
| Timestamps.JsonScalarsNeverRaise | Final-Atlas.py:116-127 | null, booleans, integers and strings never raise; a string the parser rejects gives None |
| Columns.Bind | Oldtickets.py:202-250 | Python `None` binds as NULL and nothing else does |
| Columns.BindsItself | Oldtickets.py:202-250 | any value other than `None` is bound as itself |
| Columns.NoNulIff | Oldtickets.py:202-250 | the driver's NUL test on a string fails exactly when one of its characters is NUL |
| Columns.Lookup | Oldtickets.py:147 | the row stored under an id exists exactly when the id is in the table, and it is that id's row |
| Merge.CoalesceEach | Oldtickets.py:149-171 | one `c = COALESCE(EXCLUDED.c, conversations.c)` clause per allow-listed column, in order |
| Merge.SetList | Oldtickets.py:148-175 | the coalescing list is a COALESCE clause for each of the 23 allow-listed columns in order, then the CASE on escalated_at; the narrow list is that CASE alone |
| Merge.Eval | Oldtickets.py:149-175 | both right-hand sides (COALESCE and the CASE on escalated_at) take the incoming cell unless it is NULL |
| Merge.ApplySet | Oldtickets.py:148-175 | running a SET list keeps every column of the row; what each cell becomes is `Merge.ApplySetCell` |
| Merge.ApplySetCell | Oldtickets.py:148-175 | running a SET list changes exactly the assigned columns, each to COALESCE(incoming, stored), reading the stored row and not the partly updated one |
| Merge.MergeRow | Oldtickets.py:147-175 | the merged row has every column of the stored one; what each cell becomes is `Merge.MergeRowCell` |
| Merge.MergeRowCell | Oldtickets.py:147-175 | on conflict, a column the policy updates takes the non-NULL incoming value; every other cell keeps the stored value |
| Merge.CoalescingUpdated | Oldtickets.py:148-175 | the coalescing SET list names exactly the 23 allow-listed columns and escalated_at |
| Merge.NarrowUpdated | Final-Atlas.py:162-167 | the narrow SET list names escalated_at alone |
| Merge.BackfillOutsideAllowList | Oldtickets.py:148-175 | ticket_number and first_message are not in the allow-list |
| Merge.Upsert | Oldtickets.py:132-175 | the upsert adds the id, keeps its row well formed, and leaves every other id's row unchanged |
| Merge.UpsertInsertsAbsent | Oldtickets.py:132-147 | an id not yet stored is inserted with exactly the incoming row |
| Merge.CoalescingAllowList | Oldtickets.py:149-171 | coalescing: an allow-listed column takes the incoming value unless it is NULL, so a known value is never lost |
| Merge.EscalationLatestNonNullWins | Oldtickets.py:172-175 | under both policies escalated_at takes any non-NULL incoming value and otherwise keeps the stored one |
| Merge.CoalescingKeepsOthers | Oldtickets.py:148-175 | coalescing: columns outside the SET list and the backfill columns keep their stored values |
| Merge.NarrowKeepsOthers | Final-Atlas.py:162-167 | narrow: every column except escalated_at keeps its stored value |
| Merge.MergeKeepsIdentity | Oldtickets.py:147-175 | no conflict changes the id column or a backfill column |
| Merge.MergeSelf | Oldtickets.py:147-175 | merging a row into itself changes nothing |
| Merge.MergeIdempotent | Oldtickets.py:147-175 | merging the same incoming row twice equals merging it once |
| Merge.UpsertIdempotent | Oldtickets.py:132-175 | upserting the same row twice equals upserting it once |
| Merge.ApplyRows | Oldtickets.py:180-250 | upserting a page's rows in page order keeps every row complete; what each id ends with is `Merge.ApplyRowsAt` |
| Merge.ApplyRowsSnoc | Oldtickets.py:180-250 | a run of upserts followed by one more is that upsert applied to the run's result |
| Merge.ApplyRowsAppend | Oldtickets.py:180-250 | two runs of upserts in sequence are one run over their concatenation |
| Merge.FoldRows | Oldtickets.py:132-175 | the row an id ends with after a run of upserts exists exactly when it was stored or one of the upserts targets it |
| Merge.LastNonNullFront | Oldtickets.py:172-175 | the last non-NULL value of a column, read from the front |
| Merge.FoldRowsCellStored | Oldtickets.py:148-175 | after upserts onto a stored row, an updated column holds the last non-NULL incoming value (else the stored one) and other columns keep the stored value |
| Merge.FoldRowsCellAbsent | Oldtickets.py:132-175 | after upserts of an absent id, the first row is inserted and then updated columns hold the last later non-NULL value |
| Merge.FoldRowsIdempotent | Oldtickets.py:132-175 | replaying the same run of upserts for one id changes nothing |
| Merge.ApplyRowsAt | Oldtickets.py:180-250 | seen from one id, a run of upserts is the fold of that id's rows over its stored row |
| Merge.ApplyRowsIdempotent | Oldtickets.py:180-250 | applying the same upserts twice leaves the table as applying them once |
| Merge.SecondEscalationWins | Oldtickets.py:172-175 | of two upserts of one id, the second's non-NULL escalation time is the one stored |
| Merge.ArrivalOrderMatters | Oldtickets.py:172-175 | two upserts of one id with different non-NULL escalation times give different tables in the two orders |
| Flatten.PartOf | Oldtickets.py:186-192 | the conversation part is the record itself; each other part is read as `x.get(k, {}) or {}` |
| Flatten.SourceKinds | Oldtickets.py:202-250 | exactly the two backfill columns are not bound, exactly eight columns go through `convert_to_timestamp`, one holds the tags and three the serialised custom fields |
| Flatten.ReadNullIff | Oldtickets.py:202-250 | a bound value is NULL exactly when its field is missing or null, or, for a time, when the normaliser gives no instant; tags and custom fields are never NULL |
| Flatten.SourcesOfDocuments | Oldtickets.py:246-248 | the three custom-field columns are read from the customer, account and conversation objects |
| Flatten.SourcesOfScalars | Oldtickets.py:203-241 | conversation_id is read from the record's "id" and tags from its "tags" |
| Flatten.SourcesOfStamps | Oldtickets.py:249 | escalated_at is the converted "escalatedAt", and no backfill column is bound by the INSERT |
| Flatten.ConversationFieldsPlain | Oldtickets.py:203-240 | no plain field is read from the conversation's "customer" or "escalatedAt" key |
| Flatten.SelectPart | Oldtickets.py:186-192 | each sub-object is read once, as `PartOf` reads it |
| Flatten.RowOf | Oldtickets.py:202-250 | the bound parameters give a cell for every column |
| Flatten.RowAdaptsIff | Oldtickets.py:202-250 | the driver can bind the row exactly when its plain fields, and its tags when truthy, adapt (no object, no string holding NUL, at any depth of a list); times, serialised documents and unbound columns always do |
| Flatten.FlattenRecord | Oldtickets.py:186-250 | a row is built exactly when every sub-object can be read and every time field converts |
| Flatten.TagsNeverNull | Oldtickets.py:241 | tags is never NULL: a truthy tags value is kept and anything else becomes `[]` |
| Flatten.CustomFieldsNeverNull | Oldtickets.py:246-248 | the three custom-field columns always hold the JSON text of the field, `{}` when it is missing |
| Flatten.IdAndBackfill | Oldtickets.py:203 | the id column holds the record's "id", and both backfill columns start NULL |
| Flatten.EmptyPartNullsItsColumns | Oldtickets.py:186-235 | every column read from a missing, null or empty sub-object is NULL |
| Flatten.ReadFromEmpty | Oldtickets.py:204-235 | a field or time read from an empty object is NULL |
| Flatten.Flattened | Oldtickets.py:186-250 | the row of a record that flattens has non-NULL tags and custom fields, NULL backfill columns, and the record's id |
| Flatten.NullCustomer | Oldtickets.py:186-187 | a null or missing customer empties the account too, and the account's custom fields become `{}` |
| Flatten.BadPartRaises | Oldtickets.py:186-192 | a sub-object that is truthy but not an object makes building the row raise |
| Flatten.BadTimeRaises | Oldtickets.py:249 | an escalation time that is a truthy float, list or object makes building the row raise |
| Flatten.WellTypedRecordFlattens | Oldtickets.py:186-250 | sub-objects that are objects or falsy, and time fields that are JSON scalars, always flatten |
| Pages.LoadableAppend | Oldtickets.py:180-250 | appending a loadable upsert keeps a run of upserts loadable |
| Pages.LoadableConcat | Oldtickets.py:180-250 | concatenating loadable runs of upserts keeps them loadable |
| Pages.Prepare | Oldtickets.py:181-183 | a record is skipped exactly when it has no "id" key |
| Pages.PrepareRaises | Oldtickets.py:181-250 | a record with an "id" raises exactly when its row cannot be built, its id is null, or a plain field or truthy tags it binds cannot be adapted by the driver (an object, a string holding NUL, or a list holding either) |
| Pages.ObjectTagsRaise | Oldtickets.py:202-241 | tags that are a non-empty object make the execute raise although the row is built |
| Pages.ObjectFieldRaises | Oldtickets.py:202-250 | a plain field whose value is an object, even `{}`, makes the execute raise |
| Pages.PrepareReady | Oldtickets.py:186-250 | otherwise its upsert carries the flattened row under the record's own id, with NULL backfill columns, and every value it binds can be adapted |
| Pages.PageWritesLoadable | Oldtickets.py:180-250 | the upserts of a page that does not raise are all loadable |
| Pages.PageWritesNext | Oldtickets.py:180-250 | one more record extends the page's upserts by its own, or by nothing when skipped |
| Pages.PageWritesAppend | Oldtickets.py:180-250 | the upserts of two pages joined are those of each, in order |
| Pages.PageRaisesIff | Oldtickets.py:178-251 | a page raises exactly when one of its records raises |
| Pages.RaisingRecordRaises | Oldtickets.py:178-251 | one raising record makes the whole page raise |
| Pages.RaisingRecordOf | Oldtickets.py:178-251 | a page that raises has a record that raises |
| Pages.SkippedRecordIgnored | Oldtickets.py:181-183 | a record without "id" changes nothing wherever it sits in the page |
| Pages.ApplyPage | Oldtickets.py:178-251 | a page that loads leaves the table well formed (every row keyed by its own id, with all columns) |
| Pages.ApplyPageFailsIff | Oldtickets.py:178-251 | loading a page fails (the transaction rolls back) exactly when one of its records raises |
| Pages.LoadedStart | Oldtickets.py:178-180 | before the first record, nothing of the page is loaded |
| Pages.LoadedSkip | Oldtickets.py:181-183 | a record without "id" leaves the table as it is |
| Pages.LoadedReady | Oldtickets.py:202-250 | a record that flattens is upserted as the next step of the page |
| Pages.LoadedRaises | Oldtickets.py:178-251 | a raising record makes the whole page fail |
| Pages.LoadedAll | Oldtickets.py:251 | after the last record, the table is the page's result |
| Pages.PageIdempotent | Oldtickets.py:178-251 | loading the same page twice equals loading it once |
| Pages.NewRecordInserted | Oldtickets.py:132-147 | a record with a new id inserts exactly its flattened row |
| Pages.SingleRecordPage | Oldtickets.py:180-250 | a page of one record that does not raise is one upsert |
| Pages.ConflictDocuments | Final-Atlas.py:162-167 | on conflict, coalescing replaces tags and custom fields with the incoming (never NULL) values, and narrow keeps the stored ones |
| Pages.EscalatedWithoutCustomerParts | Oldtickets.py:186-192 | a record with a null customer reads every sub-object as `{}` |
| Pages.EscalatedWithoutCustomerFlattens | Oldtickets.py:186-250 | a record with a null customer and an escalation string flattens |
| Pages.EscalatedWithoutCustomerField | Oldtickets.py:203-240 | every plain field such a record binds is its id or null |
| Pages.EscalatedWithoutCustomerBinds | Oldtickets.py:202-250 | such a record flattens, and the driver can adapt the fields it binds exactly when its id holds no NUL |
| Pages.EscalatedWithoutCustomerRow | Oldtickets.py:207-249 | when its id holds no NUL, its customer columns are NULL and its escalation column holds the parsed time |
| Pages.EscalatedWithoutCustomerMerge | Oldtickets.py:148-175 | merged by coalescing into a stored row with an email, the email survives and the escalation time is set |
| Store.MergeConsistent | Oldtickets.py:147-175 | a conflict keeps a row consistent with the table's columns |
| Store.UpsertConsistent | Oldtickets.py:132-175 | an upsert keeps the table consistent with its columns |
| Store.NullIds | ticketnumber.py:41-42 | the ids selected are exactly the table's ids whose cell in the column is NULL |
| Store.ConversationStore.CreateTable | Oldtickets.py:31-80 | CREATE TABLE IF NOT EXISTS creates the base columns and leaves an existing table and its rows as they are |
| Store.ConversationStore.AddColumnIfMissing | ticketnumber.py:27-38 | the column is added when missing, is NULL in every row, and nothing changes when the table is missing |
| Store.ConversationStore.InsertPage | Oldtickets.py:130-251 | the page commits exactly when `ApplyPage` succeeds, and leaves its result; otherwise the rows are unchanged |
| Store.ConversationStore.SetBackfill | ticketnumber.py:69-72 | the UPDATE sets one column of one row and does nothing when the id is absent |
| Store.ConversationStore.SelectNull | ticketnumber.py:41-42 | the ids returned are distinct and are exactly the ids whose column is NULL |
| Sync.PageOf | Oldtickets.py:271-274 | the loop stops exactly when the request failed or "data" is missing or empty |
| Sync.Loop | Oldtickets.py:269-281 | the loop keeps the table well formed |
| Sync.SyncRun | Oldtickets.py:253-283 | a run keeps the table well formed |
| Sync.PagesFor | Oldtickets.py:269-280 | the number of pages of 3000 records that cover a count |
| Sync.ResumesStart | Oldtickets.py:260-263 | without a total the run ends after one request, otherwise the loop starts at cursor 0 |
| Sync.ResumesDone | Oldtickets.py:269 | the loop ends when the cursor reaches the total |
| Sync.ResumesStep | Oldtickets.py:270-280 | one turn of the loop stops on no data, crashes when the page raises, or loads it and moves the cursor by 3000 |
| Sync.Batch | Oldtickets.py:268-280 | one pass of the loop ends the run as `SyncRun` does on no data or a raising page, and otherwise leaves the run to resume at the next cursor |
| Sync.Synchronise | Oldtickets.py:253-283 | `main` creates the table if needed and leaves exactly the table, outcome and request cursors of `SyncRun` |
| Sync.LoopCursors | Oldtickets.py:269-280 | the loop requests cursor, cursor+3000, ..., each below the total, at most the pages that cover what remains |
| Sync.SyncCursors | Oldtickets.py:260-280 | a run requests cursor 0 for the total, then 0, 3000, ... below the total, at most one request more than the pages of the total |
| Sync.LoopFull | Oldtickets.py:269-280 | when every page has records and loads, the loop finishes after exactly the pages that cover what remains |
| Sync.SevenThousand | Oldtickets.py:260-280 | a total of 7000 gives requests at 0, 0, 3000 and 6000, and the run finishes |
| Sync.LoopWrites | Oldtickets.py:269-280 | the upserts of the loaded pages are loadable |
| Sync.LoopTable | Oldtickets.py:269-280 | the loop leaves the table that those upserts make |
| Sync.RerunChangesNothing | Oldtickets.py:253-283 | running the sync again against the same answers leaves the table one run left |
| Backfill.Fill | ticketnumber.py:84-89 | a backfill keeps exactly the table's ids |
| Backfill.FillCell | ticketnumber.py:69-72 | only the backfill column of a selected id with a decision changes |
| Backfill.FilledCellsStay | ticketnumber.py:41-42 | a cell filled by an earlier run is never selected or written again |
| Backfill.FillOneMore | 1stmessagefetch.py:58-61 | handling one more id is that id's one-row UPDATE |
| Backfill.NextSelected | 1stmessagefetch.py:48 | the next selected id is new and extends the ids handled |
| Backfill.AllSelected | 1stmessagefetch.py:40-48 | after the loop, the ids handled are exactly those whose column was NULL |
| TicketNumbers.Digits | ticketnumber.py:71 | the decimal digits of a natural number, with no leading zero (`"0"` for zero) |
| TicketNumbers.DecimalText | ticketnumber.py:71 | `str(i)`: a minus sign exactly for a negative number, then digits with no leading zero; `"0"` for zero |
| TicketNumbers.DigitsRoundTrip | ticketnumber.py:71 | the digits of `n` read back as `n` |
| TicketNumbers.MinusRoundTrip | ticketnumber.py:71 | a minus sign before digits negates their value |
| TicketNumbers.NegativeRoundTrip | ticketnumber.py:71 | `str(n)` of a negative number reads back as `n` |
| TicketNumbers.NonNegativeRoundTrip | ticketnumber.py:71 | `str(n)` of a non-negative number reads back as `n` |
| TicketNumbers.DecimalRoundTrip | ticketnumber.py:71 | the stored ticket text reads back as the integer it came from |
| TicketNumbers.PyStr | ticketnumber.py:71 | `str` keeps a string and writes an integer as its decimal text, which reads back as that integer |
| TicketNumbers.TicketCell | ticketnumber.py:71 | the cell is NULL exactly when the number is None; an integer is stored as decimal text of itself |
| TicketNumbers.TicketCells | ticketnumber.py:71 | 4821 is stored as "4821", and a null number as NULL |
| TicketNumbers.Process | ticketnumber.py:49-81 | an UPDATE runs exactly when the status is 200, the body is a JSON object and the driver can bind `str` of its "number", writing `str` of the body's "number" (NULL when missing or null); a non-200 status fails and reports that status; every other case is reported as an error; the result names its id |
| TicketNumbers.NumberWritten | ticketnumber.py:53-72 | the cell written for an id is `str` of the body's "number" (NULL when missing or null), and is written exactly for a 200 response whose body is an object and whose "number" is not a string holding NUL |
| TicketNumbers.TicketCellAdapts | ticketnumber.py:69-72 | the driver can bind `str(number)` unless the number is a string holding NUL; the text of an integer or a boolean never holds one |
| TicketNumbers.ReportsOneMore | ticketnumber.py:87-89 | handling the next id adds its result |
| TicketNumbers.ResultsNameSelected | ticketnumber.py:84-89 | the results name each selected id once, each with its own outcome |
| TicketNumbers.BackfillTickets | ticketnumber.py:26-89 | the column is added, each id whose ticket number was NULL gets the cell its response decides, nothing else changes, and the results name each of those ids once |
| FirstMessages.FirstMessageCell | 1stmessagefetch.py:48-66 | a cell is written only for a 200 response whose body is a JSON object |
| FirstMessages.FirstMessageCases | 1stmessagefetch.py:54-64 | falsy "data" writes NULL; a first message object writes its "text" or "", unless that text is an object, a string holding NUL, or a list holding either, which the driver cannot adapt; anything else raises and writes nothing |
| FirstMessages.EmptyListStaysSelectable | 1stmessagefetch.py:40-56 | without messages the id stays NULL and is selected again; a first message without "text" stores "" and is never selected again |
| FirstMessages.BackfillFirstMessages | 1stmessagefetch.py:24-69 | the column is added, each id whose first message was NULL gets the cell its response decides, and nothing else changes |
| Runner.FirstFailure | runner.py:25-29 | the first script, in list order, with a non-zero code; None exactly when every code is zero |
| Runner.RunAndLog | runner.py:8-15 | the script runs to completion, and the run halts, naming the log and code, exactly when its code is non-zero |
| Runner.Scripts | runner.py:19 | the scripts of the pairs, in order |
| Runner.WaitCount | runner.py:25-29 | at most every started script is waited on |
| Runner.ParallelHalt | runner.py:25-29 | the parallel stage halts exactly when some script fails |
| Runner.WaitsAndHalt | runner.py:25-29 | every script is waited on when all succeed, otherwise those up to and including the first failure, and the abort names that first failing script and its non-zero code |
| Runner.RunParallel | runner.py:17-29 | every script is started first; they are waited on in list order up to and including the first failure, which halts naming that script |
| Runner.FirstFailureAt | runner.py:25-29 | a non-zero code after zeros is the first failure |
| Runner.RunPipeline | runner.py:31-45 | a missing directory stops the run; otherwise it halts at the first failing stage, naming it, and completes exactly when every code is zero |
| Runner.PairRun | runner.py:39-42 | both backfills start, the first is waited on, and the second only when the first succeeded |
| Runner.TraceShape | runner.py:31-47 | nothing runs without the directory; otherwise the first sync comes first, at most six events happen, and the last sync is the last event when it runs |
| Runner.FailureEndsRun | runner.py:31-45 | nothing happens after a failure |
| Runner.StartsBeforeWaits | runner.py:17-29 | both backfills start before either is waited on |
| Runner.LastStageRunsIff | runner.py:36-45 | `Oldtickets.py` runs exactly when the three stages before it succeed |
| Runner.SecondBackfillNotAwaited | runner.py:25-29 | when `ticketnumber.py` fails, `1stmessagefetch.py` has started but is never waited on |
| Runner.StagesFailure | runner.py:36-45 | the first failing stage, case by case |
| Runner.PairFailure | runner.py:39-42 | the first failing backfill, case by case |

## Left out

- HTTP requests, the bearer header, the date window and the request timeout are not modelled. Each response is a parameter: `fetch(n, cursor)` for the syncs, and one answer per id for the backfills.
- Database connections, cursors and commits are not modelled. Each transaction is one method of `Store.ConversationStore`.
- The database's own type errors are not modelled: a non-UUID id, or a string too long for its column. The driver's refusal to adapt an object or a string holding NUL, which raises before the query is sent, is modelled (`Columns.Adaptable`).
- Merge.Upsert: ids are compared as the record spells them, not as UUIDs. The key column is `UUID PRIMARY KEY` (Oldtickets.py:33, Final-Atlas.py:34). Two spellings of one UUID (upper case, no hyphens, braces) are one row in the database but two rows in the model. The database also returns its own lower-case spelling, where `Store.ConversationStore.SelectNull` returns the stored one.
- Server errors are not modelled. This includes the aborted transaction that a failed UPDATE leaves in `1stmessagefetch.py`.
- `json.dumps` is not spelled out. A custom-field cell is `JsonText(v)` of the value it serialises.
- `str()` of a float, list or object is not spelled out; it is `Shown(v)`.
- `datetime.strptime` is an oracle parameter. `datetime.fromtimestamp(n, timezone.utc)` is the instant `UtcEpoch(n)`, without the range limits that make the library raise on huge values.
- The `ThreadPoolExecutor` of `ticketnumber.py` becomes a sequential loop over the selected ids. Each id writes only its own row, so the table does not depend on the order. TicketNumbers.BackfillTickets: its results come in selection order, not completion order.
- The one-second pause between pages is not modelled.
- `print` output, the runner's log files and the SystemExit message text are not modelled. A halt is `Halt(name, code)`.
- A "total" that is not an integer, and page elements that are not objects, are not modelled.
- `get_existing_record_ids` in `Final-Atlas.py` is not modelled; it is never called.
- The runner's `mkdir` of the log directory is not modelled, and subprocesses are their exit codes. Whether the base directory exists is an input. In `runner.py` that directory is the runner's own, and the `mkdir` of its log sub-directory creates it, so the directory check can never fail there and `MissingDirectory` cannot happen in practice. The model keeps the check as written.
- The runner starts `Final-atlasforlast500.py`. That script is not part of this model; only its exit code is.
- `Final-Atlas.py` is modelled by the same loop as `Oldtickets.py` with the narrow policy. Its INSERT names its columns, so both scripts bind the same row.
