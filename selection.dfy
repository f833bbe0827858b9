/**
 * Selected grid rows as the grid reports them (`{ rowIdx, row }`) and the list
 * operations the server containers apply to `shared.fields` and `shared.data`.
 * A row object is compared with `===`, by identity; a `RowRef` carries the
 * identity of the row object next to its cells.
 */
module Selection {
  import opened Js
  import opened Columns

  /** A row object: its identity and its cells. */
  datatype RowRef = RowRef(id: nat, cells: Row)

  /** One entry of the grid's selection callback. */
  datatype Selected = Selected(rowIdx: int, row: RowRef)

  /** `rows.map(r => r.row)`, as identities. */
  function RowIds(rows: seq<Selected>): (ids: seq<nat>)
    ensures |ids| == |rows|
    ensures forall i :: 0 <= i < |rows| ==> ids[i] == rows[i].row.id
  {
    if |rows| == 0 then [] else [rows[0].row.id] + RowIds(rows[1..])
  }

  /** `xs.filter(i => rows.map(r => r.row).indexOf(i.row) === -1)`. */
  function WithoutRows(xs: seq<Selected>, rows: seq<Selected>): (r: seq<Selected>)
    ensures forall x :: x in r <==> x in xs && x.row.id !in RowIds(rows)
    ensures Subsequence(r, xs)
  {
    if |xs| == 0 then []
    else
      var rest := WithoutRows(xs[1..], rows);
      assert xs == [xs[0]] + xs[1..];
      assert forall x :: x in xs <==> x == xs[0] || x in xs[1..];
      if xs[0].row.id in RowIds(rows) then
        SubsequenceDropHead(rest, xs);
        rest
      else
        assert ([xs[0]] + rest)[1..] == rest;
        [xs[0]] + rest
  }

  /** A deselected row keeps none of its copies; any other entry keeps all of its copies. */
  lemma {:induction false} WithoutRowsCounts(xs: seq<Selected>, rows: seq<Selected>)
    ensures forall x :: multiset(WithoutRows(xs, rows))[x] == if x.row.id in RowIds(rows) then 0 else multiset(xs)[x]
    decreases |xs|
  {
    if |xs| > 0 {
      var t := xs[1..];
      WithoutRowsCounts(t, rows);
      assert xs == [xs[0]] + t;
      assert multiset(xs) == multiset{xs[0]} + multiset(t);
      if xs[0].row.id !in RowIds(rows) {
        assert WithoutRows(xs, rows) == [xs[0]] + WithoutRows(t, rows);
        assert multiset(WithoutRows(xs, rows)) == multiset{xs[0]} + multiset(WithoutRows(t, rows));
      }
    }
  }

  /** Deselecting what was just selected gives back the list from before, when none of it was there. */
  lemma {:induction false} DeselectUndoesSelect(xs: seq<Selected>, rows: seq<Selected>)
    requires forall x :: x in xs ==> x.row.id !in RowIds(rows)
    ensures WithoutRows(xs + rows, rows) == xs
    decreases |xs|
  {
    if |xs| == 0 {
      assert xs + rows == rows;
      DeselectAll(rows, rows);
    } else {
      assert (xs + rows)[1..] == xs[1..] + rows;
      assert (xs + rows)[0] == xs[0];
      DeselectUndoesSelect(xs[1..], rows);
      assert xs == [xs[0]] + xs[1..];
    }
  }

  /** Every row of a list is removed by deselecting a superset of it. */
  lemma {:induction false} DeselectAll(xs: seq<Selected>, rows: seq<Selected>)
    requires forall x :: x in xs ==> x in rows
    ensures WithoutRows(xs, rows) == []
    decreases |xs|
  {
    if |xs| > 0 {
      assert xs[0] in xs;
      var k :| 0 <= k < |rows| && rows[k] == xs[0];
      assert RowIds(rows)[k] == xs[0].row.id;
      DeselectAll(xs[1..], rows);
    }
  }

  /** `rows.map(r => r.rowIdx)`. */
  function RowIndexes(rows: seq<Selected>): (ix: seq<int>)
    ensures |ix| == |rows|
    ensures forall i :: 0 <= i < |rows| ==> ix[i] == rows[i].rowIdx
  {
    if |rows| == 0 then [] else [rows[0].rowIdx] + RowIndexes(rows[1..])
  }

  /** `fields.filter(i => rowIndexes.indexOf(i) === -1)`. */
  function WithoutIndexes(fields: seq<int>, rowIndexes: seq<int>): (r: seq<int>)
    ensures forall i :: i in r <==> i in fields && i !in rowIndexes
    ensures Subsequence(r, fields)
  {
    if |fields| == 0 then []
    else
      var rest := WithoutIndexes(fields[1..], rowIndexes);
      assert fields == [fields[0]] + fields[1..];
      assert forall x :: x in fields <==> x == fields[0] || x in fields[1..];
      if fields[0] in rowIndexes then
        SubsequenceDropHead(rest, fields);
        rest
      else
        assert ([fields[0]] + rest)[1..] == rest;
        [fields[0]] + rest
  }

  /** A deselected index keeps none of its copies; any other index keeps all of its copies. */
  lemma {:induction false} WithoutIndexesCounts(fields: seq<int>, rowIndexes: seq<int>)
    ensures forall i :: multiset(WithoutIndexes(fields, rowIndexes))[i] == if i in rowIndexes then 0 else multiset(fields)[i]
    decreases |fields|
  {
    if |fields| > 0 {
      var t := fields[1..];
      WithoutIndexesCounts(t, rowIndexes);
      assert fields == [fields[0]] + t;
      assert multiset(fields) == multiset{fields[0]} + multiset(t);
      if fields[0] !in rowIndexes {
        assert WithoutIndexes(fields, rowIndexes) == [fields[0]] + WithoutIndexes(t, rowIndexes);
        assert multiset(WithoutIndexes(fields, rowIndexes)) == multiset{fields[0]} + multiset(WithoutIndexes(t, rowIndexes));
      }
    }
  }

  /** Deselecting the indexes just selected restores `fields`, when none of them was there before. */
  lemma {:induction false} DeselectIndexesUndoesSelect(fields: seq<int>, rowIndexes: seq<int>)
    requires forall i :: i in fields ==> i !in rowIndexes
    ensures WithoutIndexes(fields + rowIndexes, rowIndexes) == fields
    decreases |fields|
  {
    if |fields| == 0 {
      assert fields + rowIndexes == rowIndexes;
      assert forall k :: 0 <= k < |rowIndexes| ==> rowIndexes[k] in rowIndexes;
      DeselectAllIndexes(rowIndexes, rowIndexes);
    } else {
      assert (fields + rowIndexes)[1..] == fields[1..] + rowIndexes;
      assert (fields + rowIndexes)[0] == fields[0];
      DeselectIndexesUndoesSelect(fields[1..], rowIndexes);
      assert fields == [fields[0]] + fields[1..];
    }
  }

  lemma {:induction false} DeselectAllIndexes(fields: seq<int>, rowIndexes: seq<int>)
    requires forall k :: 0 <= k < |fields| ==> fields[k] in rowIndexes
    ensures WithoutIndexes(fields, rowIndexes) == []
    decreases |fields|
  {
    if |fields| > 0 {
      assert fields[0] in rowIndexes;
      DeselectAllIndexes(fields[1..], rowIndexes);
      assert WithoutIndexes(fields, rowIndexes) == WithoutIndexes(fields[1..], rowIndexes);
    }
  }
}
