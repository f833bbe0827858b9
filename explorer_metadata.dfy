/**
 * The `Metadata` container of the `explorer` client: the same Field grid as
 * the `reactjs` one (class click, filter, in-place sort) with every derived
 * field as a column, and a cell click that appends the clicked `SystemName`
 * to `select` without removing repetitions. Its state never holds a
 * `searchForm`, so that handler throws on every click.
 */
module ExplorerMetadata {
  import opened Js
  import opened MetadataTree
  import opened Columns
  import opened RowFilter
  import opened RowSort
  import opened FormSelect

  /** The grid columns: one per derived field, in order, when rows are displayed; none otherwise. */
  function GridColumns(rowCount: int, fieldSet: seq<string>): (cols: seq<GridColumn>)
    ensures rowCount <= 0 ==> cols == []
    ensures rowCount > 0 ==> |cols| == |fieldSet|
    ensures rowCount > 0 ==> forall i :: 0 <= i < |fieldSet| ==> cols[i].key == fieldSet[i] && cols[i].sortable && cols[i].filterable
  {
    if rowCount > 0 then FieldColumns(fieldSet) else []
  }

  /** `${currentSearchVal}${selectedVal}` after the comma: the old `select`, a comma, and the clicked name. */
  function AppendSelect(current: string, selectedVal: Value): (r: string)
    ensures current <= r
    ensures current == "" ==> r == ToStr(selectedVal)
    ensures Split(r, ',') == SelectTokens(current) + Split(ToStr(selectedVal), ',')
  {
    var prefix := if current != "" then current + "," else "";
    var r := prefix + ToStr(selectedVal);
    if current != "" then
      assert r == current + [','] + ToStr(selectedVal);
      SplitConcat(current, ToStr(selectedVal), ',');
      r
    else
      r
  }

  /** Nothing is de-duplicated: clicking the same field twice lists it twice. */
  lemma ClickingTwiceRepeats(name: string)
    requires name != "" && ',' !in name
    ensures AppendSelect(AppendSelect("", Str(name)), Str(name)) == name + "," + name
    ensures Split(AppendSelect(AppendSelect("", Str(name)), Str(name)), ',') == [name, name]
  {
    SplitOfPlain(name, ',');
  }

  class MetadataView {
    var selectedClass: MetadataClass?
    var defaultRows: array<Row>
    var selectedClassRows: array<Row>
    var selectedFieldSet: seq<string>
    var filters: Filters
    /** `this.state.searchForm.value`; `None` while the state has no `searchForm`, which it never gets. */
    var searchForm: Option<Obj>

    constructor ()
      ensures selectedClass == null && defaultRows[..] == [] && selectedClassRows[..] == []
      ensures selectedFieldSet == [] && filters == [] && searchForm == None
    {
      selectedClass := null;
      defaultRows := new Row[0];
      selectedClassRows := new Row[0];
      selectedFieldSet := [];
      filters := [];
      searchForm := None;
    }

    /** A class click: the class's Field array becomes `defaultRows` and `selectedClassRows`; the field set is derived from it. */
    method MetadataClassClick(c: MetadataClass)
      modifies this
      ensures selectedClass == c && defaultRows == c.fields && selectedClassRows == c.fields
      ensures selectedFieldSet == Dedup(AllKeys(c.fields[..]))
      ensures filters == old(filters) && searchForm == old(searchForm)
    {
      var fieldSet := CollectFieldSet(c.fields[..]);
      selectedClass := c;
      defaultRows := c.fields;
      selectedClassRows := c.fields;
      selectedFieldSet := fieldSet;
    }

    /** ASC and DESC sort the displayed array in place into a key-ordered permutation; NONE changes nothing. */
    method HandleGridSort(column: string, dir: Direction)
      modifies selectedClassRows
      ensures dir == NoSort ==> selectedClassRows[..] == old(selectedClassRows[..])
      ensures dir != NoSort ==> multiset(selectedClassRows[..]) == multiset(old(selectedClassRows[..]))
      ensures dir != NoSort ==> SortedBy(selectedClassRows[..], column, dir)
      ensures dir != NoSort && defaultRows == selectedClassRows ==> SortedBy(defaultRows[..], column, dir)
    {
      if dir != NoSort {
        SortRows(selectedClassRows, column, dir);
      }
    }

    /** A filter change: filters updated, rows recomputed from `defaultRows` and shown unless there are none. */
    method HandleFilterChange(key: string, term: string)
      modifies this
      ensures filters == UpdateFilters(old(filters), key, term)
      ensures var newRows := ApplyFilters(defaultRows[..], filters);
        && (|newRows| > 0 ==> fresh(selectedClassRows) && selectedClassRows[..] == newRows)
        && (|newRows| == 0 ==> selectedClassRows == old(selectedClassRows))
      ensures defaultRows == old(defaultRows) && selectedClass == old(selectedClass)
      ensures selectedFieldSet == old(selectedFieldSet) && searchForm == old(searchForm)
    {
      filters := UpdateFilters(filters, key, term);
      var newRows := RecomputeRows(defaultRows[..], filters);
      if |newRows| > 0 {
        selectedClassRows := new Row[|newRows|](i requires 0 <= i < |newRows| => newRows[i]);
      }
    }

    /**
     * A cell click: reading the clicked row off the grid, or the absent
     * `searchForm`, throws; otherwise the clicked `SystemName` is appended to
     * `select`.
     */
    method OnCellSelected(rowIdx: int) returns (r: Result<()>)
      modifies this
      ensures !(0 <= rowIdx < selectedClassRows.Length) || searchForm.None? ==> r.Throws? && searchForm == old(searchForm)
      ensures 0 <= rowIdx < selectedClassRows.Length && old(searchForm).Some? ==>
        var form := old(searchForm).value;
        r.Ok? && searchForm == Some(form["select" := Str(AppendSelect(CurrentSelect(form), Get(selectedClassRows[rowIdx], "SystemName")))])
      ensures selectedClass == old(selectedClass) && filters == old(filters) && selectedFieldSet == old(selectedFieldSet)
      ensures defaultRows == old(defaultRows) && selectedClassRows == old(selectedClassRows)
    {
      if !(0 <= rowIdx < selectedClassRows.Length) {
        return Throws("row is undefined");
      }
      var row := selectedClassRows[rowIdx];
      var selectedVal := Get(row, "SystemName");
      if searchForm.None? {
        return Throws("searchForm is undefined");
      }
      var form := searchForm.value;
      searchForm := Some(form["select" := Str(AppendSelect(CurrentSelect(form), selectedVal))]);
      return Ok(());
    }
  }

  /** A fresh container's cell click always throws, whatever the row. */
  method CellClickOnFreshViewThrows(rowIdx: int) returns (r: Result<()>)
    ensures r.Throws?
  {
    var view := new MetadataView();
    r := view.OnCellSelected(rowIdx);
  }
}
