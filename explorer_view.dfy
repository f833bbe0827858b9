/**
 * The `Explorer` container of the `explorer` client: it fetches the metadata
 * itself (no cache), shows the Field grid of the clicked class with filter and
 * in-place sort, and derives the columns from the rows currently displayed.
 */
module Explorer {
  import opened Js
  import opened MetadataTree
  import opened Columns
  import opened RowFilter
  import opened RowSort

  class ExplorerView {
    var metadata: System
    var selectedClass: MetadataClass?
    var defaultRows: array<Row>
    var selectedClassRows: array<Row>
    var filters: Filters

    constructor ()
      ensures metadata == BareEmptyMetadata && selectedClass == null
      ensures defaultRows[..] == [] && selectedClassRows[..] == [] && filters == []
    {
      metadata := BareEmptyMetadata;
      selectedClass := null;
      defaultRows := new Row[0];
      selectedClassRows := new Row[0];
      filters := [];
    }

    /**
     * New props: when the params object changed and names a connection, that
     * connection is handed to the parent's `setSelectedConnection` (returned
     * in `selected`) and its metadata requested (the connection id is returned
     * in `request`); in every other case the parent is not called and the
     * metadata is reset.
     */
    method ComponentWillReceiveProps(paramsChanged: bool, connection: Value) returns (selected: Option<Value>, request: Option<Value>)
      modifies this
      ensures paramsChanged && Truthy(connection) ==> (selected == Some(connection) && request == Some(connection)
        && selectedClass == null && defaultRows[..] == [] && selectedClassRows[..] == []
        && metadata == old(metadata))
      ensures !(paramsChanged && Truthy(connection)) ==> (selected == None && request == None
        && metadata == BareEmptyMetadata && selectedClass == old(selectedClass)
        && defaultRows == old(defaultRows) && selectedClassRows == old(selectedClassRows))
      ensures filters == old(filters)
    {
      if paramsChanged && Truthy(connection) {
        selected := Some(connection);
        request := GetMetadata(connection);
      } else {
        metadata := BareEmptyMetadata;
        selected := None;
        request := None;
      }
    }

    /** `getMetadata`: clears the class and both row lists, keeps the metadata, and requests the connection's document. */
    method GetMetadata(connectionId: Value) returns (request: Option<Value>)
      modifies this
      ensures request == Some(connectionId)
      ensures selectedClass == null && defaultRows[..] == [] && selectedClassRows[..] == []
      ensures fresh(defaultRows) && fresh(selectedClassRows)
      ensures metadata == old(metadata) && filters == old(filters)
    {
      selectedClass := null;
      defaultRows := new Row[0];
      selectedClassRows := new Row[0];
      return Some(connectionId);
    }

    /** The metadata reply: an error (also an absent one) resets the metadata, otherwise the document is shown. */
    method OnMetadataReply(reply: MetadataReply)
      modifies this
      ensures IsError(reply) ==> metadata == BareEmptyMetadata
      ensures !IsError(reply) ==> metadata == reply.metadata
      ensures selectedClass == old(selectedClass) && filters == old(filters)
      ensures defaultRows == old(defaultRows) && selectedClassRows == old(selectedClassRows)
    {
      if IsError(reply) {
        metadata := BareEmptyMetadata;
        return;
      }
      metadata := reply.metadata;
    }

    /** A class click sets the class and both row lists to its Field array, and nothing else. */
    method MetadataClassClick(c: MetadataClass)
      modifies this
      ensures selectedClass == c && defaultRows == c.fields && selectedClassRows == c.fields
      ensures metadata == old(metadata) && filters == old(filters)
    {
      selectedClass := c;
      defaultRows := c.fields;
      selectedClassRows := c.fields;
    }

    /** ASC and DESC sort the displayed array in place into a key-ordered permutation; NONE changes nothing. */
    method HandleGridSort(column: string, dir: Direction)
      modifies selectedClassRows
      ensures dir == NoSort ==> selectedClassRows[..] == old(selectedClassRows[..])
      ensures dir != NoSort ==> multiset(selectedClassRows[..]) == multiset(old(selectedClassRows[..]))
      ensures dir != NoSort ==> SortedBy(selectedClassRows[..], column, dir)
      ensures dir != NoSort && defaultRows == selectedClassRows ==> SortedBy(defaultRows[..], column, dir)
    {
      if dir != NoSort {
        SortRows(selectedClassRows, column, dir);
      }
    }

    /** A filter change: filters updated, rows recomputed from `defaultRows` and shown unless there are none. */
    method HandleFilterChange(key: string, term: string)
      modifies this
      ensures filters == UpdateFilters(old(filters), key, term)
      ensures var newRows := ApplyFilters(defaultRows[..], filters);
        && (|newRows| > 0 ==> fresh(selectedClassRows) && selectedClassRows[..] == newRows)
        && (|newRows| == 0 ==> selectedClassRows == old(selectedClassRows))
      ensures defaultRows == old(defaultRows) && selectedClass == old(selectedClass) && metadata == old(metadata)
    {
      filters := UpdateFilters(filters, key, term);
      var newRows := RecomputeRows(defaultRows[..], filters);
      if |newRows| > 0 {
        selectedClassRows := new Row[|newRows|](i requires 0 <= i < |newRows| => newRows[i]);
      }
    }

    /**
     * The grid columns `render` derives from the rows on display (not from
     * `defaultRows`): every key of every displayed row once, in first-seen
     * order, or none when no row is displayed.
     */
    method RenderColumns() returns (cols: seq<GridColumn>)
      ensures selectedClassRows.Length == 0 ==> cols == []
      ensures selectedClassRows.Length > 0 ==> cols == FieldColumns(Dedup(AllKeys(selectedClassRows[..])))
    {
      var availableFields := CollectFieldSet(selectedClassRows[..]);
      if selectedClassRows.Length > 0 {
        cols := FieldColumns(availableFields);
      } else {
        cols := [];
      }
    }
  }
}
