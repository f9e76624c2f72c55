/**
 * What the two backfill scripts have in common: add a column if it is
 * missing, select the ids where it is NULL, ask the API once per id, and
 * write that id's cell. Only the call and the cell differ between them.
 */
module Backfill {
  import opened Wrappers
  import opened Values
  import opened Columns
  import opened Store

  /** A per-conversation request: its status and its body decoded as JSON
      (`None` when the body is not JSON, so `response.json()` raises), or no
      response at all (`requests.get` raised). */
  datatype Response = Response(status: int, json: Option<Value>) | NoResponse

  /** The table after each id of `ids` whose decision is a cell gets that cell
      in column `c`; every other id and every other column is left alone. */
  function Fill(t: Table, c: Column, ids: set<Id>, decide: Id -> Option<Cell>): (r: Table)
    requires TableWellFormed(t)
    ensures r.Keys == t.Keys && TableWellFormed(r)
  {
    map k | k in t :: if k in ids && decide(k).Some? then t[k][c := decide(k).value] else t[k]
  }

  /** Cell by cell: only column `c` of a selected id with a decision changes. */
  lemma FillCell(t: Table, c: Column, ids: set<Id>, decide: Id -> Option<Cell>, k: Id, d: Column)
    requires TableWellFormed(t) && k in t
    ensures Fill(t, c, ids, decide)[k][d]
         == if d == c && k in ids && decide(k).Some? then decide(k).value else t[k][d]
  {
  }

  /** A backfill selects the ids whose column is NULL, so a cell filled by an
      earlier run is never selected, fetched or written again. */
  lemma FilledCellsStay(t: Table, c: Column, decide: Id -> Option<Cell>, k: Id)
    requires TableWellFormed(t) && k in t && t[k][c].Some?
    ensures k !in NullIds(t, c)
    ensures Fill(t, c, NullIds(t, c), decide)[k] == t[k]
  {
  }

  /** One more id: filling it after the others is the one-row UPDATE. */
  lemma FillOneMore(t: Table, c: Column, ids: set<Id>, decide: Id -> Option<Cell>, k: Id)
    requires TableWellFormed(t) && k !in ids
    ensures var before := Fill(t, c, ids, decide);
      Fill(t, c, ids + {k}, decide)
      == if k in before && decide(k).Some? then before[k := before[k][c := decide(k).value]] else before
  {
    var before := Fill(t, c, ids, decide);
    var after := Fill(t, c, ids + {k}, decide);
    var expected := if k in before && decide(k).Some? then before[k := before[k][c := decide(k).value]] else before;
    assert after.Keys == expected.Keys;
    forall j | j in after ensures after[j] == expected[j] {
    }
  }

  /** The ids handled so far are those of the first `i` selected ones. */
  ghost predicate Seen(done: set<Id>, ids: seq<Id>, i: nat)
    requires i <= |ids|
  {
    forall k :: k in done <==> k in ids[..i]
  }

  /** Bookkeeping of the loop over the selected ids: the `i`-th id is new,
      and after it the ids seen are those of the longer prefix. */
  lemma NextSelected(ids: seq<Id>, i: nat, done: set<Id>)
    requires i < |ids|
    requires forall a, b :: 0 <= a < b < |ids| ==> ids[a] != ids[b]
    requires Seen(done, ids, i)
    ensures ids[i] !in done
    ensures Seen(done + {ids[i]}, ids, i + 1)
  {
    assert ids[..i + 1] == ids[..i] + [ids[i]];
  }

  /** When the loop is over, the ids seen are the selected ones. */
  lemma AllSelected(ids: seq<Id>, done: set<Id>, t: Table, c: Column)
    requires TableWellFormed(t)
    requires Seen(done, ids, |ids|)
    requires forall k :: k in ids <==> k in t && t[k][c].None?
    ensures done == NullIds(t, c)
  {
    assert ids[..|ids|] == ids;
  }
}
