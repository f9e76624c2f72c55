/**
 * The two ON CONFLICT policies of the upsert: the coalescing one of
 * Oldtickets.py and the narrow, escalated_at-only one of Final-Atlas.py.
 * A policy is its SET list, written clause by clause in source order; what
 * the list does to a stored row is proved, not assumed.
 */
module Merge {
  import opened Wrappers
  import opened Columns

  datatype Policy = Coalescing | Narrow

  /** The right-hand sides that occur in the SET lists:
      `COALESCE(EXCLUDED.c, stored.c)` and
      `CASE WHEN EXCLUDED.c IS NOT NULL THEN EXCLUDED.c ELSE stored.c END`. */
  datatype Rhs = CoalesceExcluded | CaseExcludedNotNull

  /** One clause `c = rhs` of a SET list. */
  datatype Assignment = Assign(column: Column, rhs: Rhs)

  /** `c = COALESCE(EXCLUDED.c, conversations.c)` for each column, in order. */
  function CoalesceEach(cols: seq<Column>): (list: seq<Assignment>)
    ensures |list| == |cols|
    ensures forall i :: 0 <= i < |cols| ==> list[i] == Assign(cols[i], CoalesceExcluded)
  {
    seq(|cols|, i requires 0 <= i < |cols| => Assign(cols[i], CoalesceExcluded))
  }

  /** The SET list of each policy, in source order: the coalescing one names
      the allow-list and then escalated_at, the narrow one escalated_at alone. */
  function SetList(p: Policy): (list: seq<Assignment>)
    ensures |list| == if p == Coalescing then |AllowListOrder| + 1 else 1
    ensures list[|list| - 1] == Assign(EscalatedAt, CaseExcludedNotNull)
    ensures forall i :: 0 <= i < |list| - 1 ==> list[i] == Assign(AllowListOrder[i], CoalesceExcluded)
  {
    match p
    case Coalescing => CoalesceEach(AllowListOrder) + [Assign(EscalatedAt, CaseExcludedNotNull)]
    case Narrow => [Assign(EscalatedAt, CaseExcludedNotNull)]
  }

  /** The columns a SET list assigns. */
  function Targets(list: seq<Assignment>): set<Column>
  {
    set a | a in list :: a.column
  }

  /** The columns a policy can change on conflict. */
  function Updated(p: Policy): set<Column>
  {
    Targets(SetList(p))
  }

  function Eval(rhs: Rhs, stored: Cell, excluded: Cell): (r: Cell)
    ensures r == Coalesce(excluded, stored)
  {
    match rhs
    case CoalesceExcluded => Coalesce(excluded, stored)
    case CaseExcludedNotNull => if excluded.Some? then excluded else stored
  }

  /** Runs a SET list: every right-hand side reads the stored row and the
      EXCLUDED (incoming) row, and the assignments build the new row. */
  function ApplySet(stored: Row, excluded: Row, acc: Row, list: seq<Assignment>): (r: Row)
    requires WellFormed(stored) && WellFormed(excluded) && WellFormed(acc)
    ensures r.Keys == acc.Keys
  {
    if list == [] then acc
    else
      var a := list[0];
      ApplySet(stored, excluded, acc[a.column := Eval(a.rhs, stored[a.column], excluded[a.column])], list[1..])
  }

  /** `ON CONFLICT DO UPDATE SET <list>` applied to the stored row. */
  function MergeRow(stored: Row, excluded: Row, p: Policy): (r: Row)
    requires WellFormed(stored) && WellFormed(excluded)
    ensures r.Keys == stored.Keys
  {
    ApplySet(stored, excluded, stored, SetList(p))
  }

  lemma {:induction false} ApplySetCell(stored: Row, excluded: Row, acc: Row, list: seq<Assignment>, c: Column)
    requires WellFormed(stored) && WellFormed(excluded) && WellFormed(acc)
    ensures ApplySet(stored, excluded, acc, list)[c]
         == if c in Targets(list) then Coalesce(excluded[c], stored[c]) else acc[c]
    decreases |list|
  {
    if list != [] {
      var a := list[0];
      var acc' := acc[a.column := Eval(a.rhs, stored[a.column], excluded[a.column])];
      ApplySetCell(stored, excluded, acc', list[1..], c);
    }
  }


  /** What the merge does to one cell: a column the SET list names takes the
      incoming value unless that is NULL; every other column keeps its
      stored value. */
  lemma MergeRowCell(stored: Row, excluded: Row, p: Policy, c: Column)
    requires WellFormed(stored) && WellFormed(excluded)
    ensures MergeRow(stored, excluded, p)[c]
         == if c in Updated(p) && excluded[c].Some? then excluded[c] else stored[c]
  {
    ApplySetCell(stored, excluded, stored, SetList(p), c);
  }

  /** The coalescing SET list names exactly the allow-list and escalated_at. */
  lemma CoalescingUpdated()
    ensures Updated(Coalescing) == AllowList + {EscalatedAt}
  {
    var list := SetList(Coalescing);
    forall c | c in AllowList ensures c in Updated(Coalescing) {
      var i :| 0 <= i < |AllowListOrder| && AllowListOrder[i] == c;
      assert list[i].column == c;
    }
    assert list[|list| - 1].column == EscalatedAt;
  }

  /** The upsert knows nothing of the backfill columns. */
  lemma BackfillOutsideAllowList()
    ensures TicketNumber !in AllowList && FirstMessage !in AllowList
  {
    assert TicketNumber !in AllowListOrder && FirstMessage !in AllowListOrder;
  }

  /** The narrow SET list names escalated_at alone. */
  lemma NarrowUpdated()
    ensures Updated(Narrow) == {EscalatedAt}
  {
  }

  /** INSERT of `row` under `id`, or on a conflicting id, the merge. */
  function Upsert(t: Table, id: Id, row: Row, p: Policy): (r: Table)
    requires TableWellFormed(t) && WellFormed(row)
    ensures TableWellFormed(r)
    ensures r.Keys == t.Keys + {id}
    ensures forall k :: k in t && k != id ==> r[k] == t[k]
  {
    if id in t then t[id := MergeRow(t[id], row, p)] else t[id := row]
  }

  /** An id that is not stored yet gets exactly the incoming row. */
  lemma UpsertInsertsAbsent(t: Table, id: Id, row: Row, p: Policy)
    requires TableWellFormed(t) && WellFormed(row)
    requires id !in t
    ensures Upsert(t, id, row, p) == t[id := row]
  {
  }

  /** Coalescing: an allow-listed column takes the incoming value when it is
      non-NULL and keeps the stored one otherwise, so a non-NULL stored value
      never becomes NULL. */
  lemma CoalescingAllowList(stored: Row, excluded: Row, c: Column)
    requires WellFormed(stored) && WellFormed(excluded)
    requires c in AllowList
    ensures MergeRow(stored, excluded, Coalescing)[c]
         == if excluded[c].Some? then excluded[c] else stored[c]
    ensures stored[c].Some? ==> MergeRow(stored, excluded, Coalescing)[c].Some?
  {
    CoalescingUpdated();
    MergeRowCell(stored, excluded, Coalescing, c);
  }

  /** Both policies: escalated_at takes any non-NULL incoming value, earlier
      or later than the stored one, and keeps the stored value otherwise. */
  lemma EscalationLatestNonNullWins(stored: Row, excluded: Row, p: Policy)
    requires WellFormed(stored) && WellFormed(excluded)
    ensures MergeRow(stored, excluded, p)[EscalatedAt]
         == if excluded[EscalatedAt].Some? then excluded[EscalatedAt] else stored[EscalatedAt]
  {
    if p == Coalescing {
      CoalescingUpdated();
    } else {
      NarrowUpdated();
    }
    MergeRowCell(stored, excluded, p, EscalatedAt);
  }

  /** Coalescing: the columns outside the SET list, and the backfill columns,
      keep their stored values. */
  lemma CoalescingKeepsOthers(stored: Row, excluded: Row, c: Column)
    requires WellFormed(stored) && WellFormed(excluded)
    requires c in KeptOnConflict || c in BackfillColumns
    ensures MergeRow(stored, excluded, Coalescing)[c] == stored[c]
  {
    CoalescingUpdated();
    if c !in KeptOnConflict {
      BackfillOutsideAllowList();
    }
    MergeRowCell(stored, excluded, Coalescing, c);
  }

  /** Narrow: every column but escalated_at keeps its stored value. */
  lemma NarrowKeepsOthers(stored: Row, excluded: Row, c: Column)
    requires WellFormed(stored) && WellFormed(excluded)
    requires c != EscalatedAt
    ensures MergeRow(stored, excluded, Narrow)[c] == stored[c]
  {
    NarrowUpdated();
    MergeRowCell(stored, excluded, Narrow, c);
  }

  /** Either policy: a conflict never changes the id column or a backfill
      column. */
  lemma MergeKeepsIdentity(stored: Row, excluded: Row, p: Policy, c: Column)
    requires WellFormed(stored) && WellFormed(excluded)
    requires c == ConversationId || c in BackfillColumns
    ensures MergeRow(stored, excluded, p)[c] == stored[c]
  {
    if p == Narrow {
      NarrowKeepsOthers(stored, excluded, c);
    } else {
      assert ConversationId !in AllowListOrder;
      CoalescingKeepsOthers(stored, excluded, c);
    }
  }

  /** Merging a row into itself changes nothing. */
  lemma MergeSelf(r: Row, p: Policy)
    requires WellFormed(r)
    ensures MergeRow(r, r, p) == r
  {
    forall c: Column ensures MergeRow(r, r, p)[c] == r[c] {
      MergeRowCell(r, r, p, c);
    }
  }

  /** Merging the same incoming row a second time changes nothing. */
  lemma MergeIdempotent(stored: Row, excluded: Row, p: Policy)
    requires WellFormed(stored) && WellFormed(excluded)
    ensures MergeRow(MergeRow(stored, excluded, p), excluded, p) == MergeRow(stored, excluded, p)
  {
    var once := MergeRow(stored, excluded, p);
    forall c: Column ensures MergeRow(once, excluded, p)[c] == once[c] {
      MergeRowCell(stored, excluded, p, c);
      MergeRowCell(once, excluded, p, c);
    }
  }

  /** Upserting the same row twice leaves the table as upserting it once. */
  lemma UpsertIdempotent(t: Table, id: Id, row: Row, p: Policy)
    requires TableWellFormed(t) && WellFormed(row)
    ensures Upsert(Upsert(t, id, row, p), id, row, p) == Upsert(t, id, row, p)
  {
    if id in t {
      MergeIdempotent(t[id], row, p);
    } else {
      MergeSelf(row, p);
    }
  }

  /** One row to upsert: the id it goes under and the flattened row. */
  datatype Write = Write(id: Id, row: Row)

  predicate WritesWellFormed(ws: seq<Write>)
  {
    forall i :: 0 <= i < |ws| ==> WellFormed(ws[i].row)
  }

  /** The upserts of a page, one after the other in page order. */
  function ApplyRows(t: Table, ws: seq<Write>, p: Policy): (r: Table)
    requires TableWellFormed(t) && WritesWellFormed(ws)
    ensures TableWellFormed(r)
  {
    if ws == [] then t
    else
      var last := ws[|ws| - 1];
      Upsert(ApplyRows(t, ws[..|ws| - 1], p), last.id, last.row, p)
  }

  /** One more upsert. */
  lemma ApplyRowsSnoc(t: Table, ws: seq<Write>, w: Write, p: Policy)
    requires TableWellFormed(t) && WritesWellFormed(ws) && WellFormed(w.row)
    ensures WritesWellFormed(ws + [w])
    ensures ApplyRows(t, ws + [w], p) == Upsert(ApplyRows(t, ws, p), w.id, w.row, p)
  {
    assert (ws + [w])[..|ws|] == ws;
    assert forall i :: 0 <= i < |ws| + 1 ==> (ws + [w])[i] == if i < |ws| then ws[i] else w;
  }

  /** Two runs of upserts one after the other are one run. */
  lemma {:induction false} ApplyRowsAppend(t: Table, a: seq<Write>, b: seq<Write>, p: Policy)
    requires TableWellFormed(t) && WritesWellFormed(a) && WritesWellFormed(b)
    ensures WritesWellFormed(a + b)
    ensures ApplyRows(t, a + b, p) == ApplyRows(ApplyRows(t, a, p), b, p)
    decreases |b|
  {
    if b == [] {
      assert a + b == a;
    } else {
      var front, last := b[..|b| - 1], b[|b| - 1];
      assert WritesWellFormed(front) by {
        assert forall i :: 0 <= i < |front| ==> front[i] == b[i];
      }
      ApplyRowsAppend(t, a, front, p);
      assert a + b == (a + front) + [last];
      ApplyRowsSnoc(t, a + front, last, p);
    }
  }

  /** The rows of `ws` that go under `k`, in order. */
  function RowsFor(k: Id, ws: seq<Write>): (rs: seq<Row>)
    requires WritesWellFormed(ws)
    ensures forall i :: 0 <= i < |rs| ==> WellFormed(rs[i])
  {
    if ws == [] then []
    else
      var last := ws[|ws| - 1];
      RowsFor(k, ws[..|ws| - 1]) + if last.id == k then [last.row] else []
  }

  /** What a run of upserts does to one id: the first row is inserted when
      the id is absent, every later row is merged. */
  function FoldRows(o: Option<Row>, rs: seq<Row>, p: Policy): (r: Option<Row>)
    requires o.Some? ==> WellFormed(o.value)
    requires forall i :: 0 <= i < |rs| ==> WellFormed(rs[i])
    ensures r.Some? ==> WellFormed(r.value)
    ensures r.None? <==> o.None? && rs == []
  {
    if rs == [] then o
    else
      var prev := FoldRows(o, rs[..|rs| - 1], p);
      var last := rs[|rs| - 1];
      Some(if prev.Some? then MergeRow(prev.value, last, p) else last)
  }

  /** The last non-NULL value of column `c` among `rs`, NULL if there is none. */
  function LastNonNull(rs: seq<Row>, c: Column): Cell
    requires forall i :: 0 <= i < |rs| ==> WellFormed(rs[i])
  {
    if rs == [] then None
    else
      var last := rs[|rs| - 1];
      assert WellFormed(last);
      if last[c].Some? then last[c] else LastNonNull(rs[..|rs| - 1], c)
  }

  /** `LastNonNull` read from the front. */
  lemma {:induction false} LastNonNullFront(rs: seq<Row>, c: Column)
    requires forall i :: 0 <= i < |rs| ==> WellFormed(rs[i])
    requires rs != []
    ensures LastNonNull(rs, c)
         == if LastNonNull(rs[1..], c).Some? then LastNonNull(rs[1..], c) else rs[0][c]
    decreases |rs|
  {
    if |rs| > 1 {
      assert rs[1..][..|rs[1..]| - 1] == rs[..|rs| - 1][1..];
      LastNonNullFront(rs[..|rs| - 1], c);
    }
  }

  /** Column by column, upserts onto a stored row keep the last non-NULL
      incoming value of an updated column, and the stored value otherwise. */
  lemma {:induction false} FoldRowsCellStored(s: Row, rs: seq<Row>, p: Policy, c: Column)
    requires WellFormed(s)
    requires forall i :: 0 <= i < |rs| ==> WellFormed(rs[i])
    ensures FoldRows(Some(s), rs, p).value[c]
         == if c in Updated(p) && LastNonNull(rs, c).Some? then LastNonNull(rs, c) else s[c]
    decreases |rs|
  {
    if rs != [] {
      var prefix := rs[..|rs| - 1];
      FoldRowsCellStored(s, prefix, p, c);
      MergeRowCell(FoldRows(Some(s), prefix, p).value, rs[|rs| - 1], p, c);
    }
  }

  /** Column by column, upserts onto an absent id start from the first row
      and then keep the last non-NULL value among the later rows of an updated
      column. */
  lemma {:induction false} FoldRowsCellAbsent(rs: seq<Row>, p: Policy, c: Column)
    requires forall i :: 0 <= i < |rs| ==> WellFormed(rs[i])
    requires rs != []
    ensures FoldRows(None, rs, p).value[c]
         == if c in Updated(p) && LastNonNull(rs[1..], c).Some? then LastNonNull(rs[1..], c) else rs[0][c]
    decreases |rs|
  {
    if |rs| > 1 {
      var prefix := rs[..|rs| - 1];
      FoldRowsCellAbsent(prefix, p, c);
      MergeRowCell(FoldRows(None, prefix, p).value, rs[|rs| - 1], p, c);
      var later := rs[1..];
      assert later[..|later| - 1] == prefix[1..];
      assert later[|later| - 1] == rs[|rs| - 1];
    }
  }

  /** Replaying a run of upserts on its own result changes nothing. */
  lemma FoldRowsIdempotent(o: Option<Row>, rs: seq<Row>, p: Policy)
    requires o.Some? ==> WellFormed(o.value)
    requires forall i :: 0 <= i < |rs| ==> WellFormed(rs[i])
    ensures FoldRows(FoldRows(o, rs, p), rs, p) == FoldRows(o, rs, p)
  {
    if rs != [] {
      var once := FoldRows(o, rs, p);
      forall c: Column ensures FoldRows(once, rs, p).value[c] == once.value[c] {
        FoldRowsCellStored(once.value, rs, p, c);
        if o.Some? {
          FoldRowsCellStored(o.value, rs, p, c);
        } else {
          FoldRowsCellAbsent(rs, p, c);
          LastNonNullFront(rs, c);
        }
      }
      var twice := FoldRows(once, rs, p).value;
      assert WellFormed(twice) && WellFormed(once.value);
      assert twice.Keys == once.value.Keys;
      assert twice == once.value;
    }
  }

  /** A page's upserts, seen from one id. */
  lemma {:induction false} ApplyRowsAt(t: Table, ws: seq<Write>, p: Policy, k: Id)
    requires TableWellFormed(t) && WritesWellFormed(ws)
    ensures Lookup(ApplyRows(t, ws, p), k) == FoldRows(Lookup(t, k), RowsFor(k, ws), p)
    decreases |ws|
  {
    if ws != [] {
      var prefix := ws[..|ws| - 1];
      ApplyRowsAt(t, prefix, p, k);
      var rs := RowsFor(k, ws);
      if ws[|ws| - 1].id == k {
        assert rs[..|rs| - 1] == RowsFor(k, prefix);
      } else {
        assert rs == RowsFor(k, prefix);
      }
    }
  }

  lemma LookupExtensional(a: Table, b: Table)
    requires forall k :: Lookup(a, k) == Lookup(b, k)
    ensures a == b
  {
    assert a.Keys == b.Keys by {
      forall k ensures k in a <==> k in b {
        assert Lookup(a, k).Some? == Lookup(b, k).Some?;
      }
    }
    forall k | k in a ensures a[k] == b[k] {
      assert Lookup(a, k) == Lookup(b, k);
    }
  }

  /** Applying the same page twice leaves the table as applying it once. */
  lemma ApplyRowsIdempotent(t: Table, ws: seq<Write>, p: Policy)
    requires TableWellFormed(t) && WritesWellFormed(ws)
    ensures ApplyRows(ApplyRows(t, ws, p), ws, p) == ApplyRows(t, ws, p)
  {
    var once := ApplyRows(t, ws, p);
    forall k ensures Lookup(ApplyRows(once, ws, p), k) == Lookup(once, k) {
      ApplyRowsAt(once, ws, p, k);
      ApplyRowsAt(t, ws, p, k);
      FoldRowsIdempotent(Lookup(t, k), RowsFor(k, ws), p);
    }
    LookupExtensional(ApplyRows(once, ws, p), once);
  }

  /** Two upserts of one id in a row: the escalation time of the second wins
      when it is not NULL. */
  lemma SecondEscalationWins(t: Table, k: Id, a: Row, b: Row, p: Policy)
    requires TableWellFormed(t) && WellFormed(a) && WellFormed(b)
    requires b[EscalatedAt].Some?
    ensures k in ApplyRows(t, [Write(k, a), Write(k, b)], p)
    ensures ApplyRows(t, [Write(k, a), Write(k, b)], p)[k][EscalatedAt] == b[EscalatedAt]
  {
    var ws := [Write(k, a), Write(k, b)];
    assert ws[..1] == [Write(k, a)];
    assert [Write(k, a)][..0] == [];
    assert ApplyRows(t, [], p) == t;
    var once := ApplyRows(t, [Write(k, a)], p);
    assert once == Upsert(t, k, a, p);
    EscalationLatestNonNullWins(once[k], b, p);
  }

  /** Merging is not commutative across pages: the same two records for one
      id, with different non-NULL escalation times, leave different tables
      depending on which arrives last. */
  lemma ArrivalOrderMatters(t: Table, k: Id, a: Row, b: Row, p: Policy)
    requires TableWellFormed(t) && WellFormed(a) && WellFormed(b)
    requires a[EscalatedAt].Some? && b[EscalatedAt].Some? && a[EscalatedAt] != b[EscalatedAt]
    ensures ApplyRows(t, [Write(k, a), Write(k, b)], p) != ApplyRows(t, [Write(k, b), Write(k, a)], p)
  {
    SecondEscalationWins(t, k, a, b, p);
    SecondEscalationWins(t, k, b, a, p);
  }
}
