/**
 * The `Metadata` container of the `reactjs` client: the resource/class tree,
 * the Field grid of the clicked class with its filter, sort and column list,
 * and the search form whose `select` list a cell click extends (keeping each
 * field once) while the clicked field's lookup values are resolved.
 *
 * `defaultRows`, `selectedClassRows` and the class's Field list are arrays:
 * after a class click all three are the same array, so sorting the grid
 * reorders the class's Field list and `defaultRows` as well.
 */
module ReactMetadata {
  import opened Js
  import opened MetadataTree
  import opened Columns
  import opened RowFilter
  import opened RowSort
  import opened FormSelect

  /** The Field attributes the grid never shows. */
  const ColumnsToFilter: seq<string> := ["MetadataEntryID", "Searchable", "DBName", "ShortName", "Alignment",
    "UseSeparator", "EditMaskID", "Default", "Unique", "ModTimeStamp", "InKeyIndex", "Precision", "MaxSelect",
    "MaximumLength"]

  /** The query the search form starts with. */
  const DefaultFormQuery := "(TIMESTAMP=2016-11-01T00:00:00+)"

  /**
   * The grid columns: one per field of the field set when rows are displayed,
   * none otherwise, leaving out `ColumnsToFilter`.
   */
  function GridColumns(rowCount: int, fieldSet: seq<string>): (cols: seq<GridColumn>)
    ensures rowCount <= 0 ==> cols == []
    ensures rowCount > 0 ==> forall c :: c in cols <==> c.key in fieldSet && c.key !in ColumnsToFilter && c == FieldColumn(c.key)
    ensures Subsequence(cols, FieldColumns(fieldSet))
  {
    var all := if rowCount > 0 then FieldColumns(fieldSet) else [];
    var cols := WithoutKeys(all, ColumnsToFilter);
    assert forall c :: c in FieldColumns(fieldSet) <==> c.key in fieldSet && c == FieldColumn(c.key) by {
      forall c ensures c in FieldColumns(fieldSet) <==> c.key in fieldSet && c == FieldColumn(c.key) {
        if c.key in fieldSet && c == FieldColumn(c.key) {
          var i :| 0 <= i < |fieldSet| && fieldSet[i] == c.key;
          assert FieldColumns(fieldSet)[i] == c;
        }
      }
    }
    cols
  }

  /** `Interpretation` is a string that starts with `Lookup`. */
  predicate IsLookupField(row: Row)
  {
    var interp := Get(row, "Interpretation");
    Truthy(interp) && interp.Str? && IndexOf(interp.s, "Lookup") == 0
  }

  /**
   * The lookup values a cell click shows: none unless the field is a lookup
   * field; else the `LookupType` rows of the lookup named by the field's
   * `LookupName` in the resource of the selected class. A truthy
   * `Interpretation` that is not a string has no `indexOf`, and a missing
   * class, resource or lookup is dereferenced as `undefined`: all of these throw.
   */
  function LookupValuesFor(row: Row, selectedClass: MetadataClass?, md: System): (r: Result<seq<Row>>)
    ensures var interp := Get(row, "Interpretation");
      Truthy(interp) && !interp.Str? ==> r.Throws?
    ensures r.Ok? && r.value != [] ==> Get(row, "Interpretation").Str? && "Lookup" <= Get(row, "Interpretation").s
    ensures !Truthy(Get(row, "Interpretation")) ==> r == Ok([])
    ensures var interp := Get(row, "Interpretation");
      interp.Str? && !("Lookup" <= interp.s) ==> r == Ok([])
    ensures IsLookupField(row) ==> (r.Ok? <==> (selectedClass != null
      && FindResource(md.resources, Str(selectedClass.resource)).Some?
      && FindLookup(FindResource(md.resources, Str(selectedClass.resource)).value.lookups, Get(row, "LookupName")).Some?))
    ensures IsLookupField(row) && r.Ok? ==>
      r.value == FindLookup(FindResource(md.resources, Str(selectedClass.resource)).value.lookups, Get(row, "LookupName")).value.lookupTypes
  {
    var interp := Get(row, "Interpretation");
    if !Truthy(interp) then Ok([])
    else if !interp.Str? then Throws("Interpretation.indexOf is not a function")
    else if IndexOf(interp.s, "Lookup") != 0 then
      IndexOfZeroIsPrefix(interp.s, "Lookup");
      Ok([])
    else if selectedClass == null then Throws("selectedClass is null")
    else
      IndexOfZeroIsPrefix(interp.s, "Lookup");
      match FindResource(md.resources, Str(selectedClass.resource))
      case None => Throws("resource is undefined")
      case Some(resource) =>
        match FindLookup(resource.lookups, Get(row, "LookupName"))
        case None => Throws("lookups is undefined")
        case Some(lookup) => Ok(lookup.lookupTypes)
  }

  /**
   * The new `select` after clicking a field whose `SystemName` is `selectedVal`:
   * the old tokens followed by the clicked name's tokens, each kept at its
   * first occurrence.
   */
  function SelectAfterClick(current: string, selectedVal: Value): (select: string)
  {
    var prefix := if current != "" then current + "," else "";
    Join(Dedup(Split(prefix + ToStr(selectedVal), ',')), ',')
  }

  /**
   * The new `select` holds the old tokens followed by the clicked name's
   * tokens, each kept at its first occurrence.
   */
  lemma SelectAfterClickTokens(current: string, selectedVal: Value)
    ensures Split(SelectAfterClick(current, selectedVal), ',') == Dedup(SelectTokens(current) + Split(ToStr(selectedVal), ','))
  {
    var prefix := if current != "" then current + "," else "";
    var parts := Split(prefix + ToStr(selectedVal), ',');
    ClickedTokens(current, ToStr(selectedVal));
    DedupCommaFree(parts);
    SplitJoin(Dedup(parts), ',');
  }

  /** Writing the clicked name after the old `select` and a comma appends its tokens. */
  lemma ClickedTokens(current: string, name: string)
    ensures Split((if current != "" then current + "," else "") + name, ',') == SelectTokens(current) + Split(name, ',')
  {
    if current != "" {
      assert current + "," + name == current + [','] + name;
      SplitConcat(current, name, ',');
    } else {
      assert "" + name == name;
    }
  }

  /** Keeping first occurrences of comma-free tokens leaves them comma-free. */
  lemma DedupCommaFree(parts: seq<string>)
    requires forall i :: 0 <= i < |parts| ==> ',' !in parts[i]
    ensures forall i :: 0 <= i < |Dedup(parts)| ==> ',' !in Dedup(parts)[i]
  {
    var d := Dedup(parts);
    forall i | 0 <= i < |d| ensures ',' !in d[i] {
      assert d[i] in parts;
    }
  }

  /** The form after a click on the field `selectedVal`: only its `select` changes. */
  function ClickedForm(form: Obj, selectedVal: Value): (f: Obj)
    ensures f.Keys == form.Keys + {"select"}
    ensures f["select"] == Str(SelectAfterClick(CurrentSelect(form), selectedVal))
    ensures forall k :: k in form && k != "select" ==> f[k] == form[k]
  {
    form["select" := Str(SelectAfterClick(CurrentSelect(form), selectedVal))]
  }

  /** After a click, the form's `select` holds the old tokens then the clicked name's, each once. */
  lemma ClickedFormTokens(form: Obj, selectedVal: Value)
    ensures Split(CurrentSelect(ClickedForm(form, selectedVal)), ',')
      == Dedup(SelectTokens(CurrentSelect(form)) + Split(ToStr(selectedVal), ','))
  {
    var f := ClickedForm(form, selectedVal);
    assert Field(f, "select") == f["select"];
    SelectAfterClickTokens(CurrentSelect(form), selectedVal);
  }

  /** Clicking a field already in a duplicate-free `select` leaves it unchanged. */
  lemma ClickingPresentFieldKeepsSelect(current: string, selectedVal: Value)
    requires current != "" && NoDup(Split(current, ','))
    requires ToStr(selectedVal) in Split(current, ',')
    ensures SelectAfterClick(current, selectedVal) == current
  {
    var r := SelectAfterClick(current, selectedVal);
    SelectAfterClickTokens(current, selectedVal);
    var old_ := Split(current, ',');
    var name := ToStr(selectedVal);
    var k :| 0 <= k < |old_| && old_[k] == name;
    SplitOfPlain(name, ',');
    DedupAppendPresent(old_, name);
    DedupOfNoDup(old_);
    JoinSplit(r, ',');
    JoinSplit(current, ',');
  }

  /** The first click on an empty `select` writes just the clicked name. */
  lemma FirstClickWritesName(selectedVal: Value)
    requires ',' !in ToStr(selectedVal)
    ensures SelectAfterClick("", selectedVal) == ToStr(selectedVal)
  {
    var name := ToStr(selectedVal);
    var r := SelectAfterClick("", selectedVal);
    SelectAfterClickTokens("", selectedVal);
    SplitOfPlain(name, ',');
    assert Dedup([name]) == [name] by {
      assert [name][..0] == [];
    }
    JoinSplit(r, ',');
  }

  /**
   * Clicking field `b` after field `a` gives `a,b`, and clicking `a` again
   * then changes nothing (as with `LIST_1` and `LIST_2`).
   */
  lemma TwoClicksThenRepeat(a: string, b: string)
    requires a != "" && a != b && ',' !in a && ',' !in b
    ensures SelectAfterClick(a, Str(b)) == a + "," + b
    ensures SelectAfterClick(a + "," + b, Str(a)) == a + "," + b
  {
    var ab := a + "," + b;
    SplitPair(a, b);
    SplitOfPlain(a, ',');
    SplitOfPlain(b, ',');
    assert NoDup([a, b]);
    DedupOfNoDup([a, b]);
    var r := SelectAfterClick(a, Str(b));
    SelectAfterClickTokens(a, Str(b));
    assert Split(r, ',') == [a, b];
    JoinSplit(r, ',');
    JoinSplit(ab, ',');
    ClickingPresentFieldKeepsSelect(ab, Str(a));
  }

  /** Two comma-free names joined by a comma split back into the two. */
  lemma SplitPair(a: string, b: string)
    requires ',' !in a && ',' !in b
    ensures Split(a + "," + b, ',') == [a, b]
  {
    assert a + "," + b == a + [','] + b;
    SplitConcat(a, b, ',');
    SplitOfPlain(a, ',');
    SplitOfPlain(b, ',');
  }

  /**
   * The query `submitSearchForm` routes to `/search` with: the form's fields,
   * then `id`, `resource` and `class` from the connection and the selected
   * class. With no class selected it throws.
   */
  function SearchQuery(form: Option<Obj>, connectionId: Value, selectedClass: MetadataClass?): (r: Result<Obj>)
    ensures selectedClass == null <==> r.Throws?
    ensures r.Ok? ==> r.value.Keys == (if form.Some? then form.value.Keys else {}) + {"id", "resource", "class"}
    ensures r.Ok? ==> (r.value["id"] == connectionId && r.value["resource"] == Str(selectedClass.resource)
      && r.value["class"] == Str(selectedClass.className))
    ensures r.Ok? && form.Some? ==> forall k :: k in form.value && k !in {"id", "resource", "class"} ==> r.value[k] == form.value[k]
  {
    if selectedClass == null then Throws("selectedClass is null")
    else
      var base := if form.Some? then form.value else map[];
      Ok(base["id" := connectionId]["resource" := Str(selectedClass.resource)]["class" := Str(selectedClass.className)])
  }

  /** Where `submitSearchForm` sends the router. */
  datatype Navigation = Navigation(pathname: string, query: Obj)

  class MetadataView {
    const connectionId: Value
    var metadata: System
    var selectedClass: MetadataClass?
    var defaultRows: array<Row>
    var selectedClassRows: array<Row>
    var lookupValues: seq<Row>
    var selectedFieldSet: seq<string>
    var filters: Filters
    /** `searchForm.value`; `None` is `null`. */
    var searchForm: Option<Obj>

    constructor (connectionId: Value)
      ensures this.connectionId == connectionId && metadata == NoMetadataLoaded && selectedClass == null
      ensures defaultRows[..] == [] && selectedClassRows[..] == []
      ensures lookupValues == [] && selectedFieldSet == [] && filters == []
      ensures searchForm == Some(map["query" := Str(DefaultFormQuery)])
    {
      this.connectionId := connectionId;
      metadata := NoMetadataLoaded;
      selectedClass := null;
      defaultRows := new Row[0];
      selectedClassRows := new Row[0];
      lookupValues := [];
      selectedFieldSet := [];
      filters := [];
      searchForm := Some(map["query" := Str(DefaultFormQuery)]);
    }

    /**
     * A class click: the class's Field array becomes both `defaultRows` and
     * `selectedClassRows`, and the field set is derived from it. The filters
     * are kept.
     */
    method MetadataClassClick(c: MetadataClass)
      modifies this
      ensures selectedClass == c && defaultRows == c.fields && selectedClassRows == c.fields
      ensures selectedFieldSet == Dedup(AllKeys(c.fields[..]))
      ensures metadata == old(metadata) && filters == old(filters)
      ensures lookupValues == old(lookupValues) && searchForm == old(searchForm)
    {
      var fieldSet := CollectFieldSet(c.fields[..]);
      selectedClass := c;
      defaultRows := c.fields;
      selectedClassRows := c.fields;
      selectedFieldSet := fieldSet;
    }

    /**
     * ASC and DESC sort the displayed array in place into a key-ordered
     * permutation; when it is still the `defaultRows` array, that array is the
     * one reordered. NONE changes nothing.
     */
    method HandleGridSort(column: string, dir: Direction)
      modifies selectedClassRows
      ensures dir == NoSort ==> selectedClassRows[..] == old(selectedClassRows[..])
      ensures dir != NoSort ==> multiset(selectedClassRows[..]) == multiset(old(selectedClassRows[..]))
      ensures dir != NoSort ==> SortedBy(selectedClassRows[..], column, dir)
      ensures dir != NoSort && defaultRows == selectedClassRows ==> SortedBy(defaultRows[..], column, dir)
    {
      if dir != NoSort {
        SortRows(selectedClassRows, column, dir);
      }
    }

    /**
     * A filter change: the filters are updated, the rows recomputed from
     * `defaultRows`, and shown unless there are none.
     */
    method HandleFilterChange(key: string, term: string)
      modifies this
      ensures filters == UpdateFilters(old(filters), key, term)
      ensures var newRows := ApplyFilters(defaultRows[..], filters);
        && (|newRows| > 0 ==> fresh(selectedClassRows) && selectedClassRows[..] == newRows)
        && (|newRows| == 0 ==> selectedClassRows == old(selectedClassRows))
      ensures defaultRows == old(defaultRows) && selectedClass == old(selectedClass)
      ensures metadata == old(metadata) && selectedFieldSet == old(selectedFieldSet)
      ensures lookupValues == old(lookupValues) && searchForm == old(searchForm)
    {
      filters := UpdateFilters(filters, key, term);
      var newRows := RecomputeRows(defaultRows[..], filters);
      if |newRows| > 0 {
        selectedClassRows := new Row[|newRows|](i requires 0 <= i < |newRows| => newRows[i]);
      }
    }

    /**
     * A cell click on row `rowIdx`: a `null` form value becomes `{}`; then the
     * lookup values are resolved and the clicked `SystemName` added to
     * `select`. A row index off the grid, or a lookup that throws, stops the
     * handler with the form value possibly reset and nothing else changed.
     */
    method OnCellSelected(rowIdx: int) returns (r: Result<()>)
      modifies this
      ensures !(0 <= rowIdx < selectedClassRows.Length) ==> r.Throws? && searchForm == old(searchForm)
      ensures 0 <= rowIdx < selectedClassRows.Length ==>
        var row := selectedClassRows[rowIdx];
        var form := if old(searchForm).Some? then old(searchForm).value else map[];
        var values := LookupValuesFor(row, selectedClass, metadata);
        (values.Throws? ==> r.Throws? && searchForm == Some(form) && lookupValues == old(lookupValues))
        && (values.Ok? ==>
          r.Ok? && lookupValues == values.value && searchForm == Some(ClickedForm(form, Get(row, "SystemName"))))
      ensures !(0 <= rowIdx < selectedClassRows.Length) ==> lookupValues == old(lookupValues)
      ensures metadata == old(metadata) && selectedClass == old(selectedClass) && filters == old(filters)
      ensures defaultRows == old(defaultRows) && selectedClassRows == old(selectedClassRows)
      ensures selectedFieldSet == old(selectedFieldSet)
    {
      if !(0 <= rowIdx < selectedClassRows.Length) {
        return Throws("row is undefined");
      }
      var row := selectedClassRows[rowIdx];
      var selectedVal := Get(row, "SystemName");
      if searchForm.None? {
        searchForm := Some(map[]);
      }
      var newLookupValues := LookupValuesFor(row, selectedClass, metadata);
      if newLookupValues.Throws? {
        return Throws(newLookupValues.reason);
      }
      searchForm := Some(ClickedForm(searchForm.value, selectedVal));
      lookupValues := newLookupValues.value;
      return Ok(());
    }

    /** The navigation `submitSearchForm` pushes, or the error it throws; nothing changes. */
    method SubmitSearchForm() returns (nav: Result<Navigation>)
      ensures selectedClass == null <==> nav.Throws?
      ensures nav.Ok? ==> nav.value.pathname == "/search"
      ensures nav.Ok? ==> SearchQuery(searchForm, connectionId, selectedClass) == Ok(nav.value.query)
    {
      var query := SearchQuery(searchForm, connectionId, selectedClass);
      if query.Throws? {
        return Throws(query.reason);
      }
      return Ok(Navigation("/search", query.value));
    }
  }
}
