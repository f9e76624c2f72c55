/**
 * 1stmessagefetch.py: fill `first_message` with the text of the first
 * message of each conversation's message list.
 */
module FirstMessages {
  import opened Wrappers
  import opened Values
  import opened Columns
  import opened Store
  import opened Backfill

  /** The cell the UPDATE writes for one response of the messages endpoint, or
      `None` when no UPDATE runs (status other than 200, or the handling
      raised and was printed): a falsy or missing "data" writes NULL; a
      non-empty list whose first element is an object writes that element's
      "text", the empty string when it has none. Anything else raises: a body
      that is not an object has no `.get`, "data" that is a truthy string,
      object or number cannot be indexed by 0 into an object, and a "text"
      that is an object, a list holding one, or a string holding NUL cannot
      be adapted by the driver, so the UPDATE raises before it reaches the
      server. */
  function FirstMessageCell(response: Response): (r: Option<Cell>)
    ensures r.Some? ==> response.Response? && response.status == 200 && response.json.Some? && response.json.value.Dict?
  {
    match response
    case NoResponse => None
    case Response(status, json) =>
      if status != 200 then None
      else
        match json
        case Some(Dict(body)) =>
          var data := Get(body, "data", Null);
          if !Truthy(data) then Some(None)
          else if data.List? && data.items[0].Dict? then
            var text := Get(data.items[0].entries, "text", Str(""));
            if Adaptable(text) then Some(Bind(text)) else None
          else None
        case _ => None
  }

  /** The outcomes of a 200 response that is an object: NULL, the first
      message's text, or nothing written when the handling raises. */
  lemma FirstMessageCases(body: map<string, Value>)
    ensures var r := FirstMessageCell(Response(200, Some(Dict(body))));
      var data := Get(body, "data", Null);
      && (!Truthy(data) ==> r == Some(None))
      && (data.List? && data.items != [] && data.items[0].Dict? ==>
            var first := data.items[0].entries;
            && ("text" !in first ==> r == Some(Some(Raw(Str("")))))
            && ("text" in first && Adaptable(first["text"]) ==> r == Some(Bind(first["text"])))
            && ("text" in first && !Adaptable(first["text"]) ==> r.None?))
      && (Truthy(data) && !(data.List? && data.items[0].Dict?) ==> r.None?)
  {
  }

  /** Without messages the cell stays NULL and the id is selected again by
      the next run; a first message without "text" stores the empty string,
      which is not NULL, so the id is never selected again. */
  lemma EmptyListStaysSelectable(t: Table, k: Id, body: map<string, Value>)
    requires TableWellFormed(t) && k in t && t[k][FirstMessage].None?
    ensures var decide := (j: Id) => if j == k then FirstMessageCell(Response(200, Some(Dict(body)))) else None;
      && (!Truthy(Get(body, "data", Null)) ==> k in NullIds(Fill(t, FirstMessage, {k}, decide), FirstMessage))
      && (Get(body, "data", Null) == List([Dict(map[])]) ==> k !in NullIds(Fill(t, FirstMessage, {k}, decide), FirstMessage))
  {
    FirstMessageCases(body);
  }

  function Decisions(api: Id -> Response): Id -> Option<Cell>
  {
    k => FirstMessageCell(api(k))
  }

  /** The script: add the column (committed on its own), then one
      transaction with an UPDATE per selected id whose response decides a
      cell; failures are printed and the loop goes on. */
  method BackfillFirstMessages(db: ConversationStore, api: Id -> Response) returns (ok: bool)
    requires db.Valid()
    modifies db
    ensures db.Valid() && db.created == old(db.created)
    ensures ok == old(db.created)
    ensures !ok ==> db.columns == old(db.columns) && db.rows == old(db.rows)
    ensures ok ==> db.columns == old(db.columns) + {FirstMessage}
    ensures ok ==> db.rows == Fill(old(db.rows), FirstMessage, NullIds(old(db.rows), FirstMessage), Decisions(api))
  {
    ok := db.AddColumnIfMissing(FirstMessage);
    if !ok {
      return;
    }
    ghost var start := db.rows;
    var ids := db.SelectNull(FirstMessage);
    ghost var done: set<Id> := {};
    var i := 0;
    while i < |ids|
      invariant 0 <= i <= |ids|
      invariant db.Valid() && db.created && db.columns == old(db.columns) + {FirstMessage}
      invariant Seen(done, ids, i)
      invariant db.rows == Fill(start, FirstMessage, done, Decisions(api))
    {
      var id := ids[i];
      var cell := FirstMessageCell(api(id));
      NextSelected(ids, i, done);
      FillOneMore(start, FirstMessage, done, Decisions(api), id);
      if cell.Some? {
        db.SetBackfill(id, FirstMessage, cell.value);
      }
      done := done + {id};
      i := i + 1;
    }
    AllSelected(ids, done, start, FirstMessage);
  }
}
