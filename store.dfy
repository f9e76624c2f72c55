/**
 * The `atlas.conversations` table as the scripts see it: whether CREATE TABLE
 * has run, which columns the table has, and its rows. Each method is one
 * statement, or one transaction, of the scripts.
 */
module Store {
  import opened Wrappers
  import opened Values
  import opened Timestamps
  import opened Columns
  import opened Merge
  import opened Pages

  /** A row is complete, holds its own id, and is NULL in every column the
      table does not have yet. */
  predicate RowConsistent(row: Row, k: Id, columns: set<Column>)
  {
    && WellFormed(row)
    && row[ConversationId] == Some(k)
    && (forall c | c !in columns :: c in row && row[c].None?)
  }

  predicate Consistent(t: Table, columns: set<Column>)
  {
    forall k | k in t :: RowConsistent(t[k], k, columns)
  }

  /** The ids whose column `c` is NULL. */
  function NullIds(t: Table, c: Column): (ids: set<Id>)
    requires TableWellFormed(t)
    ensures ids <= t.Keys
    ensures forall k :: k in ids <==> k in t && t[k][c].None?
  {
    set k | k in t && t[k][c].None?
  }

  /** A conflict keeps a consistent row consistent. */
  lemma MergeConsistent(stored: Row, excluded: Row, p: Policy, k: Id, columns: set<Column>)
    requires RowConsistent(stored, k, columns) && BaseColumns <= columns
    requires WellFormed(excluded)
    ensures RowConsistent(MergeRow(stored, excluded, p), k, columns)
  {
    forall c | c == ConversationId || c !in columns
      ensures MergeRow(stored, excluded, p)[c] == stored[c]
    {
      MergeKeepsIdentity(stored, excluded, p, c);
    }
  }

  lemma UpsertConsistent(t: Table, w: Write, p: Policy, columns: set<Column>)
    requires Consistent(t, columns) && BaseColumns <= columns
    requires LoadableWrite(w)
    ensures Consistent(Upsert(t, w.id, w.row, p), columns)
  {
    assert TableWellFormed(t);
    if w.id in t {
      MergeConsistent(t[w.id], w.row, p, w.id, columns);
    } else {
      assert RowConsistent(w.row, w.id, columns);
    }
  }

  class ConversationStore {
    /** Whether `atlas.conversations` exists. */
    var created: bool
    /** The columns it has: those of CREATE TABLE plus any backfill column
        added since. */
    var columns: set<Column>
    var rows: Table

    ghost predicate Valid()
      reads this
    {
      && TableWellFormed(rows)
      && Consistent(rows, columns)
      && (created ==> BaseColumns <= columns)
      && (!created ==> columns == {} && rows == map[])
    }

    /** A database without the table. */
    constructor ()
      ensures Valid() && !created && columns == {} && rows == map[]
    {
      created, columns, rows := false, {}, map[];
    }

    /** `create_table`: CREATE TABLE IF NOT EXISTS, which leaves an existing
        table as it is. */
    method CreateTable()
      requires Valid()
      modifies this
      ensures Valid() && created
      ensures columns == if old(created) then old(columns) else BaseColumns
      ensures rows == old(rows)
    {
      if !created {
        created, columns := true, BaseColumns;
      }
    }

    /** The DO block of the backfill scripts: add column `c` unless it is
        there. Without the table, ALTER TABLE raises (`false`) and nothing
        changes. The new column is NULL in every row. */
    method AddColumnIfMissing(c: Column) returns (ok: bool)
      requires Valid()
      modifies this
      ensures Valid()
      ensures ok == created && created == old(created)
      ensures columns == if ok then old(columns) + {c} else old(columns)
      ensures rows == old(rows)
    {
      ok := created;
      if ok && c !in columns {
        columns := columns + {c};
      }
    }

    /** `insert_into_db(page)`: one transaction that upserts the page's records
        in order. A record without "id" is skipped; a record whose row raises
        rolls the whole page back (`false`). */
    method InsertPage(page: seq<Object>, p: Policy, iso: IsoParser) returns (committed: bool)
      requires Valid() && created
      modifies this
      ensures Valid() && created && columns == old(columns)
      ensures committed == ApplyPage(old(rows), page, p, iso).Some?
      ensures rows == if committed then ApplyPage(old(rows), page, p, iso).value else old(rows)
    {
      var before := rows;
      LoadedStart(before, page, p, iso);
      var i := 0;
      while i < |page|
        invariant LoadedUpTo(rows, before, page, i, p, iso)
        invariant Valid() && created && columns == old(columns) && before == old(rows)
      {
        var step := Prepare(page[i], iso);
        if step.Raises? {
          LoadedRaises(rows, before, page, i, p, iso);
          rows := before;
          return false;
        }
        if step.Ready? {
          LoadedReady(rows, before, page, i, p, iso);
          UpsertConsistent(rows, step.w, p, columns);
          rows := Upsert(rows, step.w.id, step.w.row, p);
        } else {
          LoadedSkip(rows, before, page, i, p, iso);
        }
        i := i + 1;
      }
      LoadedAll(rows, before, page, p, iso);
      return true;
    }

    /** `UPDATE conversations SET c = cell WHERE conversation_id = id`: sets
        one backfill column of one row, and does nothing when no row has
        that id. */
    method SetBackfill(id: Id, c: Column, cell: Cell)
      requires Valid() && created
      requires c in BackfillColumns && c in columns
      modifies this
      ensures Valid() && created && columns == old(columns)
      ensures rows == if id in old(rows) then old(rows)[id := old(rows)[id][c := cell]] else old(rows)
    {
      if id in rows {
        rows := rows[id := rows[id][c := cell]];
      }
    }

    /** `SELECT conversation_id FROM conversations WHERE c IS NULL`: each id
        whose column `c` is NULL, once, in no particular order. */
    method SelectNull(c: Column) returns (ids: seq<Id>)
      requires Valid() && created && c in columns
      ensures forall i, j :: 0 <= i < j < |ids| ==> ids[i] != ids[j]
      ensures forall k :: k in ids <==> k in rows && rows[k][c].None?
    {
      ids := [];
      var left := NullIds(rows, c);
      while left != {}
        invariant left <= NullIds(rows, c)
        invariant forall k :: k in ids <==> k in NullIds(rows, c) && k !in left
        invariant forall i, j :: 0 <= i < j < |ids| ==> ids[i] != ids[j]
        decreases left
      {
        var k :| k in left;
        ids := ids + [k];
        left := left - {k};
      }
    }
  }
}
