/**
 * ticketnumber.py: fill `ticket_number` with `str(number)` from each
 * conversation's detail record.
 */
module TicketNumbers {
  import opened Wrappers
  import opened Values
  import opened Columns
  import opened Store
  import opened Backfill

  /** The decimal digits of `n`, without leading zeros. */
  function Digits(n: nat): (s: string)
    ensures |s| >= 1 && forall i :: 0 <= i < |s| ==> '0' <= s[i] <= '9'
    ensures n > 0 ==> s[0] != '0'
    ensures n == 0 ==> s == "0"
    decreases n
  {
    if n < 10 then [DigitChar(n)] else Digits(n / 10) + [DigitChar(n % 10)]
  }

  function DigitChar(d: nat): (ch: char)
    requires d < 10
    ensures '0' <= ch <= '9'
    ensures ch == '0' <==> d == 0
  {
    ['0', '1', '2', '3', '4', '5', '6', '7', '8', '9'][d]
  }

  /** `str(i)` of a Python int: a minus sign exactly for a negative number,
      then the digits of its magnitude, with no leading zero. */
  function DecimalText(i: int): (s: string)
    ensures |s| >= 1
    ensures s[0] == '-' <==> i < 0
    ensures i < 0 ==> |s| >= 2 && s[1] != '0'
    ensures i > 0 ==> s[0] != '0'
    ensures i == 0 ==> s == "0"
    ensures forall k :: 0 <= k < |s| ==> s[k] == '-' || '0' <= s[k] <= '9'
  {
    if i < 0 then "-" + Digits(-i) else Digits(i)
  }

  /** The value of a digit. */
  function DigitValue(ch: char): (d: nat)
    requires '0' <= ch <= '9'
    ensures d < 10
  {
    (ch - '0') as nat
  }

  /** The value of a non-empty string of decimal digits, `None` otherwise. */
  function ParseDigits(s: string): (r: Option<nat>)
  {
    if s == [] || !('0' <= s[|s| - 1] <= '9') then None
    else if |s| == 1 then Some(DigitValue(s[0]))
    else
      match ParseDigits(s[..|s| - 1])
      case None => None
      case Some(v) => Some(v * 10 + DigitValue(s[|s| - 1]))
  }

  /** `int(s)` for an optionally negative decimal string without spaces or
      a plus sign, `None` when it is not one. */
  function ParseDecimal(s: string): (r: Option<int>)
  {
    if |s| > 0 && s[0] == '-' then
      match ParseDigits(s[1..])
      case None => None
      case Some(v) => Some(-(v as int))
    else
      match ParseDigits(s)
      case None => None
      case Some(v) => Some(v)
  }

  lemma DigitValueOfDigitChar(d: nat)
    requires d < 10
    ensures DigitValue(DigitChar(d)) == d
  {
  }

  lemma {:induction false} DigitsRoundTrip(n: nat)
    ensures ParseDigits(Digits(n)) == Some(n)
    decreases n
  {
    DigitValueOfDigitChar(n % 10);
    if n >= 10 {
      DigitsRoundTrip(n / 10);
      var s := Digits(n);
      assert s[..|s| - 1] == Digits(n / 10);
    }
  }

  /** A minus sign before a string of digits negates its value. */
  lemma MinusRoundTrip(d: string, n: nat)
    requires ParseDigits(d) == Some(n)
    ensures ParseDecimal("-" + d) == Some(-(n as int))
  {
    var s := "-" + d;
    assert s[0] == '-';
    assert s[1..] == d;
  }

  /** A negative number reads back through its minus sign. */
  lemma NegativeRoundTrip(n: nat)
    requires n > 0
    ensures ParseDecimal(DecimalText(-(n as int))) == Some(-(n as int))
  {
    DigitsRoundTrip(n);
    MinusRoundTrip(Digits(n), n);
  }

  /** A non-negative number has no minus sign and reads back as its digits. */
  lemma NonNegativeRoundTrip(n: nat)
    ensures ParseDecimal(DecimalText(n)) == Some(n)
  {
    var s := DecimalText(n);
    assert s == Digits(n);
    assert '0' <= s[0] <= '9';
    DigitsRoundTrip(n);
  }

  /** The stored ticket number reads back as the number it came from. */
  lemma DecimalRoundTrip(i: int)
    ensures ParseDecimal(DecimalText(i)) == Some(i)
  {
    if i < 0 {
      NegativeRoundTrip(-i);
    } else {
      NonNegativeRoundTrip(i);
    }
  }

  /** `str(v)`: strings as they are, integers in decimal, booleans as
      "True"/"False"; the spelling of floats, lists and objects is not
      modelled. */
  function PyStr(v: Value): (r: Datum)
    ensures v.Str? ==> r == Text(v.s)
    ensures v.Int? ==> r == Text(DecimalText(v.i)) && ParseDecimal(r.s) == Some(v.i)
  {
    match v
    case Str(s) => Text(s)
    case Int(i) => DecimalRoundTrip(i); Text(DecimalText(i))
    case Bool(b) => Text(if b then "True" else "False")
    case _ => Shown(v)
  }

  /** `str(number) if number is not None else None`. */
  function TicketCell(number: Value): (r: Cell)
    ensures r.None? <==> number.Null?
    ensures number.Int? ==> r.Some? && r.value.Text? && ParseDecimal(r.value.s) == Some(number.i)
  {
    if number.Null? then None else Some(PyStr(number))
  }

  /** `4821` is stored as "4821"; a null number overwrites with NULL. */
  lemma TicketCells()
    ensures TicketCell(Int(4821)) == Some(Text("4821"))
    ensures TicketCell(Null) == None
  {
    assert Digits(4) == "4";
    assert Digits(48) == "48";
    assert Digits(482) == "482";
    assert Digits(4821) == "4821";
  }

  /** What `process_conversation` returns. */
  datatype TicketResult =
    | Updated(id: Id, number: Value)
    | FailedStatus(id: Id, status: int)
    | Errored(id: Id)

  /** The outcome for one id, and the cell its UPDATE writes (`None` when no
      UPDATE runs): a status other than 200 fails; a body that is not JSON,
      or is JSON but not an object (so `.get` raises), is an error, and so is
      a number whose `str` the driver cannot bind (a string holding NUL);
      otherwise "number" is written, NULL when it is missing or null. */
  function Process(id: Id, response: Response): (r: (TicketResult, Option<Cell>))
    ensures r.1.Some? <==> r.0.Updated?
    ensures r.0.id == id
    ensures r.0.Updated? <==> response.Response? && response.status == 200 && response.json.Some? && response.json.value.Dict?
                              && CellAdapts(TicketCell(Get(response.json.value.entries, "number", Null)))
    ensures r.0.Updated? ==> r.1 == Some(TicketCell(r.0.number))
    ensures r.0.FailedStatus? <==> response.Response? && response.status != 200
    ensures r.0.Updated? ==> r.0.number == Get(response.json.value.entries, "number", Null)
    ensures r.0.FailedStatus? ==> r.0.status == response.status
  {
    match response
    case NoResponse => (Errored(id), None)
    case Response(status, json) =>
      if status != 200 then (FailedStatus(id, status), None)
      else
        match json
        case Some(Dict(body)) =>
          var number := Get(body, "number", Null);
          if CellAdapts(TicketCell(number)) then (Updated(id, number), Some(TicketCell(number)))
          else (Errored(id), None)
        case _ => (Errored(id), None)
  }

  /** The text `str(number)` can be bound unless the number is a string
      holding NUL: the decimal text of an int, "True" and "False" never
      hold one. */
  lemma TicketCellAdapts(number: Value)
    ensures CellAdapts(TicketCell(number)) <==> !(number.Str? && !NoNul(number.s))
  {
    if number.Int? {
      NoNulIff(DecimalText(number.i));
    } else if number.Bool? {
      NoNulIff(if number.b then "True" else "False");
    }
  }

  /** The table after a run: each selected id gets the cell its response
      decides. */
  function Decisions(api: Id -> Response): Id -> Option<Cell>
  {
    k => Process(k, api(k)).1
  }

  /** The cell the backfill writes for an id: for a 200 response whose body
      is an object, `str` of its "number" (NULL when it is missing or null),
      unless that number is a string holding NUL; for anything else, no
      UPDATE. */
  lemma NumberWritten(api: Id -> Response, k: Id)
    ensures var resp := api(k);
      && (Decisions(api)(k).Some? <==>
            && resp.Response? && resp.status == 200 && resp.json.Some? && resp.json.value.Dict?
            && var number := Get(resp.json.value.entries, "number", Null); !(number.Str? && !NoNul(number.s)))
      && (Decisions(api)(k).Some? ==> Decisions(api)(k).value == TicketCell(Get(resp.json.value.entries, "number", Null)))
  {
    var resp := api(k);
    if resp.Response? && resp.json.Some? && resp.json.value.Dict? {
      TicketCellAdapts(Get(resp.json.value.entries, "number", Null));
    }
  }

  /** The first `|results|` selected ids have been processed, in order. */
  ghost predicate Reports(results: seq<TicketResult>, ids: seq<Id>, api: Id -> Response)
  {
    |results| <= |ids| && forall j :: 0 <= j < |results| ==> results[j] == Process(ids[j], api(ids[j])).0
  }

  /** Processing the next selected id extends the results by its outcome. */
  lemma ReportsOneMore(results: seq<TicketResult>, ids: seq<Id>, api: Id -> Response)
    requires Reports(results, ids, api) && |results| < |ids|
    ensures Reports(results + [Process(ids[|results|], api(ids[|results|])).0], ids, api)
  {
  }

  /** The results name the selected ids, each once, in selection order. */
  lemma ResultsNameSelected(ids: seq<Id>, results: seq<TicketResult>, api: Id -> Response, t: Table)
    requires TableWellFormed(t)
    requires Reports(results, ids, api) && |results| == |ids|
    requires forall a, b :: 0 <= a < b < |ids| ==> ids[a] != ids[b]
    requires forall k :: k in ids <==> k in t && t[k][TicketNumber].None?
    ensures forall k :: k in NullIds(t, TicketNumber) <==> exists i :: 0 <= i < |results| && results[i].id == k
    ensures forall i, j :: 0 <= i < j < |results| ==> results[i].id != results[j].id
    ensures forall i :: 0 <= i < |results| ==> results[i] == Process(results[i].id, api(results[i].id)).0
  {
    assert forall j :: 0 <= j < |ids| ==> results[j].id == ids[j];
    forall k | k in NullIds(t, TicketNumber)
      ensures exists i :: 0 <= i < |results| && results[i].id == k
    {
      var i :| 0 <= i < |ids| && ids[i] == k;
      assert results[i].id == k;
    }
  }

  /** The script. The ten worker threads are modelled as one loop over the
      selected ids: each id is fetched once and only its own row is written,
      so the table does not depend on the order (`Fill` takes a set). Results
      are in selection order rather than completion order. */
  method BackfillTickets(db: ConversationStore, api: Id -> Response) returns (ok: bool, results: seq<TicketResult>)
    requires db.Valid()
    modifies db
    ensures db.Valid() && db.created == old(db.created)
    ensures ok == old(db.created)
    ensures !ok ==> db.columns == old(db.columns) && db.rows == old(db.rows) && results == []
    ensures ok ==> db.columns == old(db.columns) + {TicketNumber}
    ensures ok ==> db.rows == Fill(old(db.rows), TicketNumber, NullIds(old(db.rows), TicketNumber), Decisions(api))
    ensures ok ==> (forall k :: k in NullIds(old(db.rows), TicketNumber) <==> exists i :: 0 <= i < |results| && results[i].id == k)
    ensures forall i, j :: 0 <= i < j < |results| ==> results[i].id != results[j].id
    ensures forall i :: 0 <= i < |results| ==> results[i] == Process(results[i].id, api(results[i].id)).0
  {
    ok := db.AddColumnIfMissing(TicketNumber);
    if !ok {
      return false, [];
    }
    ghost var start := db.rows;
    var ids := db.SelectNull(TicketNumber);
    results := [];
    ghost var done: set<Id> := {};
    var i := 0;
    while i < |ids|
      invariant 0 <= i <= |ids| && |results| == i
      invariant db.Valid() && db.created && db.columns == old(db.columns) + {TicketNumber}
      invariant Seen(done, ids, i)
      invariant db.rows == Fill(start, TicketNumber, done, Decisions(api))
      invariant Reports(results, ids, api)
    {
      var id := ids[i];
      var step := Process(id, api(id));
      NextSelected(ids, i, done);
      ReportsOneMore(results, ids, api);
      FillOneMore(start, TicketNumber, done, Decisions(api), id);
      if step.1.Some? {
        db.SetBackfill(id, TicketNumber, step.1.value);
      }
      results := results + [step.0];
      done := done + {id};
      i := i + 1;
    }
    AllSelected(ids, done, start, TicketNumber);
    ResultsNameSelected(ids, results, api, start);
  }
}
