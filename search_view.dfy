/**
 * The `Search` container of the `explorer` client: the search form it starts
 * from (default `select` and timestamp query), the history of searches kept
 * per connection in the storage cache (newest first, a search recorded only
 * when no earlier entry partially matches it), and the result grid it derives
 * from a reply.
 */
module Search {
  import opened Js
  import opened Columns
  import opened Selection
  import opened StorageCacheModel
  import opened SearchService

  /** What the container reads from `props.shared`. */
  datatype SharedView = SharedView(
    connectionId: Value,
    /** `shared.resource.ResourceID` */
    resourceId: Value,
    /** `shared.class.ClassName` */
    className: Value,
    /** the Field rows of `shared.class['METADATA-TABLE']`, `None` when that table is absent */
    classFields: Option<seq<Row>>,
    fields: seq<Selected>)

  /** The query used when no timestamp field is known. */
  const FallbackQuery := "(TIMESTAMP=2016-11-01T00:00:00+)"

  /** `fields.map(i => i.row.SystemName)`, as `join` writes each entry. */
  function SelectNames(fields: seq<Selected>): (names: seq<string>)
    ensures |names| == |fields|
    ensures forall i :: 0 <= i < |fields| ==> names[i] == JoinText(Get(fields[i].row.cells, "SystemName"))
  {
    if |fields| == 0 then [] else [JoinText(Get(fields[0].row.cells, "SystemName"))] + SelectNames(fields[1..])
  }

  /** The default `select`: the shared fields' names, comma-joined, in order. */
  function DefaultSelect(fields: seq<Selected>): string
  {
    Join(SelectNames(fields), ',')
  }

  /** The default `select` lists every shared field once per selection, in order, repetitions included. */
  lemma DefaultSelectLists(fields: seq<Selected>)
    requires |fields| >= 1
    requires forall i :: 0 <= i < |fields| ==> ',' !in JoinText(Get(fields[i].row.cells, "SystemName"))
    ensures Split(DefaultSelect(fields), ',') == SelectNames(fields)
    ensures |Split(DefaultSelect(fields), ',')| == |fields|
  {
    SplitJoin(SelectNames(fields), ',');
  }

  lemma DefaultSelectOfNoFields()
    ensures DefaultSelect([]) == ""
  {
  }

  predicate IsTimestampField(row: Row)
  {
    Get(row, "StandardName") == Str("ModificationTimestamp")
  }

  /** `Field.filter(f => f.StandardName === 'ModificationTimestamp')[0]`. */
  function FirstTimestampField(rows: seq<Row>): (r: Option<Row>)
    ensures r.None? <==> forall i :: 0 <= i < |rows| ==> !IsTimestampField(rows[i])
    ensures r.Some? ==> exists i :: (0 <= i < |rows| && rows[i] == r.value && IsTimestampField(rows[i])
      && forall j :: 0 <= j < i ==> !IsTimestampField(rows[j]))
  {
    if |rows| == 0 then None
    else if IsTimestampField(rows[0]) then Some(rows[0])
    else
      var r := FirstTimestampField(rows[1..]);
      assert forall i :: 1 <= i < |rows| ==> rows[i] == rows[1..][i - 1];
      if r.Some? then
        var k :| 0 <= k < |rows[1..]| && rows[1..][k] == r.value && IsTimestampField(rows[1..][k])
          && forall j :: 0 <= j < k ==> !IsTimestampField(rows[1..][j]);
        assert rows[k + 1] == r.value;
        r
      else
        r
  }

  /** `(${field}=${day}00:00:00+)` with `day` the characters 1 to 11 of the JSON-stringified date. */
  function TimestampQuery(field: string, dateJson: string): (q: string)
    ensures "(" + field + "=" <= q
    ensures |q| >= 10 && q[|q| - 10..] == "00:00:00+)"
  {
    var q := "(" + field + "=" + Substring(dateJson, 1, 12) + "00:00:00+)";
    assert q == ("(" + field + "=") + (Substring(dateJson, 1, 12) + "00:00:00+)");
    q
  }

  /**
   * The default query for a timestamp field found (or not) among the class's
   * fields: the query on the field's trimmed `SystemName`. A `SystemName` that
   * is not a string has no `trim` and throws.
   */
  function DefaultQuery(ts: Option<Row>, dateJson: string): (r: Result<string>)
    ensures ts.None? ==> r == Ok(FallbackQuery)
    ensures ts.Some? ==> (r.Throws? <==> !Get(ts.value, "SystemName").Str?)
    ensures r.Ok? && ts.Some? ==> "(" + Trim(Get(ts.value, "SystemName").s) + "=" <= r.value
    ensures r.Ok? ==> |r.value| >= 10 && r.value[|r.value| - 10..] == "00:00:00+)"
  {
    match ts
    case None => Ok(FallbackQuery)
    case Some(row) =>
      match Get(row, "SystemName")
      case Str(name) => Ok(TimestampQuery(Trim(name), dateJson))
      case _ => Throws("SystemName.trim is not a function")
  }

  /** A JSON-stringified date: a quote, `YYYY-MM-DD`, `T`, and the time. */
  predicate IsJsonDate(d: string)
  {
    |d| >= 12 && d[0] == '"' && d[11] == 'T'
  }

  /** For a JSON date the query compares the field with midnight of that day. */
  lemma TimestampQueryIsMidnight(field: string, dateJson: string)
    requires IsJsonDate(dateJson)
    ensures TimestampQuery(field, dateJson) == "(" + field + "=" + dateJson[1..11] + "T00:00:00+)"
  {
    var day := dateJson[1..11];
    assert dateJson[1..12] == day + [dateJson[11]];
    assert Substring(dateJson, 1, 12) + "00:00:00+)" == day + "T00:00:00+)";
  }

  /**
   * The initial form value: the shared resource and class with the fallback
   * query; when the class has its metadata table, also the default `select`
   * and the query on its first timestamp field.
   */
  function InitialForm(shared: SharedView, dateJson: string): (r: Result<Obj>)
    ensures shared.classFields.None? ==> r == Ok(map["resource" := shared.resourceId, "class" := shared.className, "query" := Str(FallbackQuery)])
    ensures shared.classFields.Some? ==> (r.Ok? <==> DefaultQuery(FirstTimestampField(shared.classFields.value), dateJson).Ok?)
    ensures r.Ok? ==> "resource" in r.value && "class" in r.value
    ensures r.Ok? ==> r.value["resource"] == shared.resourceId && r.value["class"] == shared.className
    ensures r.Ok? && shared.classFields.Some? ==> (r.value.Keys == {"resource", "class", "query", "select"}
      && r.value["select"] == Str(DefaultSelect(shared.fields))
      && r.value["query"] == Str(DefaultQuery(FirstTimestampField(shared.classFields.value), dateJson).value))
  {
    var base := map["resource" := shared.resourceId, "class" := shared.className, "query" := Str(FallbackQuery)];
    match shared.classFields
    case None => Ok(base)
    case Some(rows) =>
      match DefaultQuery(FirstTimestampField(rows), dateJson)
      case Throws(e) => Throws(e)
      case Ok(q) => Ok(base["select" := Str(DefaultSelect(shared.fields))]["query" := Str(q)])
  }

  /** lodash `some(history, params)` on one entry: every key of `params` is in the entry with the same value. */
  predicate PartialMatch(entry: Obj, params: Obj)
  {
    forall k :: k in params ==> k in entry && entry[k] == params[k]
  }

  predicate SomeMatch(history: seq<Obj>, params: Obj)
  {
    exists i :: 0 <= i < |history| && PartialMatch(history[i], params)
  }

  /** The history after a reply: `params` put in front unless an entry already partially matches it. */
  function RecordSearch(history: seq<Obj>, params: Obj): (r: seq<Obj>)
    ensures SomeMatch(r, params)
    ensures SomeMatch(history, params) <==> r == history
    ensures !SomeMatch(history, params) ==> r[0] == params && r[1..] == history
  {
    if SomeMatch(history, params) then history
    else
      assert PartialMatch(([params] + history)[0], params);
      [params] + history
  }

  /** One search adds at most one entry, and the earlier entries stay, in order, behind it. */
  lemma RecordSearchGrowsByAtMostOne(history: seq<Obj>, params: Obj)
    ensures var r := RecordSearch(history, params);
      |history| <= |r| <= |history| + 1 && r[|r| - |history|..] == history
  {
  }

  /** Repeating a search never records it twice. */
  lemma RecordSearchIdempotent(history: seq<Obj>, params: Obj)
    ensures RecordSearch(RecordSearch(history, params), params) == RecordSearch(history, params)
  {
    var r := RecordSearch(history, params);
    assert SomeMatch(r, params);
  }

  /** A search whose keys an older, larger entry agrees on is not recorded, even though the two differ. */
  lemma MoreSpecificEntryHidesSearch(params: Obj, key: string, v: Value)
    requires key !in params
    ensures RecordSearch([params[key := v]], params) == [params[key := v]]
  {
    assert PartialMatch([params[key := v]][0], params);
  }

  /** Parameters with no keys match any entry, so they are never recorded once the history is non-empty. */
  lemma EmptyParamsNeverRecorded(history: seq<Obj>)
    requires |history| > 0
    ensures RecordSearch(history, map[]) == history
  {
    assert PartialMatch(history[0], map[]);
  }

  /** `{ id: connection id, ...form }`: the form's own `id`, when it has one, wins. */
  function SubmitParams(form: Obj, connectionId: Value): (r: Obj)
    ensures r.Keys == form.Keys + {"id"}
    ensures forall k :: k in form ==> r[k] == form[k]
    ensures "id" !in form ==> r["id"] == connectionId
  {
    if "id" in form then form else form["id" := connectionId]
  }

  /** A result column: `{ key: index, name, resizable: true, width: 150 }`. */
  datatype ResultColumn = ResultColumn(key: int, name: string, resizable: bool, width: int)

  /** The columns for `names`, numbered from `start`. */
  function ResultColumnsFrom(names: seq<string>, start: int): (cols: seq<ResultColumn>)
    ensures |cols| == |names|
    ensures forall i :: 0 <= i < |names| ==> cols[i].key == start + i && cols[i].name == names[i]
    ensures forall i :: 0 <= i < |names| ==> cols[i].resizable && cols[i].width == 150
  {
    if |names| == 0 then []
    else [ResultColumn(start, names[0], true, 150)] + ResultColumnsFrom(names[1..], start + 1)
  }

  /** `columns.map((column, index) => ...)`: one column per name, keyed by its position. */
  function ResultColumns(names: seq<string>): (cols: seq<ResultColumn>)
    ensures |cols| == |names|
    ensures forall i :: 0 <= i < |names| ==> cols[i] == ResultColumn(i, names[i], true, 150)
  {
    ResultColumnsFrom(names, 0)
  }

  /** `json.result`: its `columns` (absent or present) and `rows`. */
  datatype ResultSet = ResultSet(columns: Option<seq<string>>, rows: seq<Row>)

  /** The reply body; `result` is absent in `{}` and in error replies. */
  datatype SearchReply = SearchReply(result: Option<ResultSet>)

  /** The result grid as rendered: its columns, its rows and the indexes shown as selected. */
  datatype ResultsTable = ResultsTable(columns: seq<ResultColumn>, rows: seq<Row>, selectedIndexes: seq<int>)

  /** The four query fields of the form overwritten from the search parameters; every other field kept. */
  function WithQueryFields(form: Obj, params: Obj): (f: Obj)
    ensures forall k :: k in {"resource", "class", "query", "select"} ==> k in f && f[k] == Field(params, k)
    ensures forall k :: k in form && k !in {"resource", "class", "query", "select"} ==> k in f && f[k] == form[k]
    ensures f.Keys == form.Keys + {"resource", "class", "query", "select"}
  {
    form["resource" := Field(params, "resource")]["class" := Field(params, "class")]
      ["query" := Field(params, "query")]["select" := Field(params, "select")]
  }

  class SearchView {
    const connectionId: Value
    /** `None` is the `undefined` that `Search.emptySearch` reads as. */
    var searchParams: Option<Obj>
    var searchForm: Obj
    var searchHistory: seq<Obj>
    var searchResults: SearchReply
    var searchResultColumns: seq<ResultColumn>
    var searchResultRows: seq<Row>

    /** The initial state around a form value (see `InitialForm`): the parameter template, no history, no results. */
    constructor (connectionId: Value, form: Obj)
      ensures this.connectionId == connectionId && searchForm == form
      ensures searchParams == Some(Params) && searchHistory == []
      ensures searchResults == SearchReply(None) && searchResultColumns == [] && searchResultRows == []
    {
      this.connectionId := connectionId;
      searchForm := form;
      searchParams := Some(Params);
      searchHistory := [];
      searchResults := SearchReply(None);
      searchResultColumns := [];
      searchResultRows := [];
    }

    /** Mounting: the connection's history is read from the cache; the newest entry becomes the current parameters. */
    method ComponentWillMount(cache: StorageCache)
      modifies this
      ensures searchHistory == cache.CachedHistory(HistoryKey(connectionId))
      ensures |searchHistory| > 0 ==> searchParams == Some(searchHistory[0])
      ensures |searchHistory| == 0 ==> searchParams == None
      ensures searchForm == old(searchForm) && searchResults == old(searchResults)
      ensures searchResultColumns == old(searchResultColumns) && searchResultRows == old(searchResultRows)
    {
      var history := cache.CachedHistory(HistoryKey(connectionId));
      var params := None;
      if |history| > 0 {
        params := Some(history[0]);
      }
      searchParams := params;
      searchHistory := history;
    }

    /**
     * `search(params)` up to the request: the four query fields of the form
     * are overwritten from `params`, the history is re-read from the cache,
     * and the request for `params` is returned.
     */
    method DoSearch(params: Obj, cache: StorageCache) returns (request: Envelope)
      modifies this
      ensures searchForm == WithQueryFields(old(searchForm), params)
      ensures searchParams == Some(params)
      ensures searchHistory == cache.CachedHistory(HistoryKey(connectionId))
      ensures request == SearchRequest(params)
      ensures searchResults == old(searchResults)
      ensures searchResultColumns == old(searchResultColumns) && searchResultRows == old(searchResultRows)
    {
      var form := WithQueryFields(searchForm, params);
      var history := cache.CachedHistory(HistoryKey(connectionId));
      searchParams := Some(params);
      searchHistory := history;
      searchForm := form;
      request := SearchRequest(params);
    }

    /** `submitSearchForm`: the form value with the connection id is searched. */
    method SubmitSearchForm(cache: StorageCache) returns (request: Envelope)
      modifies this
      ensures searchParams == Some(SubmitParams(old(searchForm), connectionId))
      ensures request == SearchRequest(SubmitParams(old(searchForm), connectionId))
      ensures searchHistory == cache.CachedHistory(HistoryKey(connectionId))
      ensures searchForm == WithQueryFields(old(searchForm), SubmitParams(old(searchForm), connectionId))
      ensures searchResults == old(searchResults)
      ensures searchResultColumns == old(searchResultColumns) && searchResultRows == old(searchResultRows)
    {
      request := DoSearch(SubmitParams(searchForm, connectionId), cache);
    }

    /**
     * The reply to `search(params)`: the parameters are recorded in the
     * history, which is cached for 720 minutes when it grew; the reply is
     * stored and the result grid derived from it.
     */
    method OnSearchResponse(params: Obj, reply: SearchReply, cache: StorageCache)
      modifies this, cache
      ensures searchHistory == RecordSearch(old(searchHistory), params)
      ensures SomeMatch(old(searchHistory), params) ==> cache.entries == old(cache.entries)
      ensures !SomeMatch(old(searchHistory), params) ==>
        cache.entries == old(cache.entries)[HistoryKey(connectionId) := Entry(SearchHistory(searchHistory), 720)]
      ensures !SomeMatch(old(searchHistory), params) ==> cache.CachedHistory(HistoryKey(connectionId)) == searchHistory
      ensures searchResults == reply
      ensures var res := reply.result;
        if res.Some? && res.value.columns.Some?
        then searchResultColumns == ResultColumns(res.value.columns.value) && searchResultRows == res.value.rows
        else searchResultColumns == old(searchResultColumns) && searchResultRows == old(searchResultRows)
      ensures searchParams == old(searchParams) && searchForm == old(searchForm)
    {
      var history := searchHistory;
      if !SomeMatch(history, params) {
        history := [params] + history;
        cache.PutInCache(HistoryKey(connectionId), SearchHistory(history), 720);
      }
      searchResults := reply;
      searchHistory := history;
      ApplySearchState();
    }

    /** The result grid follows the stored reply when it has a result with columns; otherwise nothing changes. */
    method ApplySearchState()
      modifies this
      ensures var res := searchResults.result;
        if res.Some? && res.value.columns.Some?
        then searchResultColumns == ResultColumns(res.value.columns.value) && searchResultRows == res.value.rows
        else searchResultColumns == old(searchResultColumns) && searchResultRows == old(searchResultRows)
      ensures searchResults == old(searchResults) && searchHistory == old(searchHistory)
      ensures searchParams == old(searchParams) && searchForm == old(searchForm)
    {
      var res := searchResults.result;
      if res.None? || res.value.columns.None? {
        return;
      }
      searchResultColumns := ResultColumns(res.value.columns.value);
      searchResultRows := res.value.rows;
    }

    /**
     * The results table exists only when there are both rows and columns; the
     * shared data's row indexes are shown selected. `data` is `None` when the
     * shared record has no `data` list (the explorer `Server`'s has none), and
     * reading its `map` then throws.
     */
    method RenderSearchResultsTable(data: Option<seq<Selected>>) returns (table: Result<Option<ResultsTable>>)
      ensures !(|searchResultRows| > 0 && |searchResultColumns| > 0) ==> table == Ok(None)
      ensures |searchResultRows| > 0 && |searchResultColumns| > 0 ==> (table.Throws? <==> data.None?)
      ensures table.Ok? && table.value.Some? ==>
        table.value.value.columns == searchResultColumns && table.value.value.rows == searchResultRows
      ensures table.Ok? && table.value.Some? ==> table.value.value.selectedIndexes == RowIndexes(data.value)
    {
      if |searchResultRows| == 0 || |searchResultColumns| == 0 {
        return Ok(None);
      }
      if data.None? {
        return Throws("shared.data is undefined");
      }
      return Ok(Some(ResultsTable(searchResultColumns, searchResultRows, RowIndexes(data.value))));
    }
  }

  /** A search answered and then mounted again shows the search as the current parameters when it was new. */
  lemma NewSearchIsNewestEntry(history: seq<Obj>, params: Obj)
    requires !SomeMatch(history, params)
    ensures RecordSearch(history, params)[0] == params
    ensures |RecordSearch(history, params)| == |history| + 1
  {
  }
}
