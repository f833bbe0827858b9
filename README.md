# gorets-explorer client grid and search state, in Dafny

The repository has two React clients, `reactjs` and `explorer`, for browsing a RETS server. This project models the browser-side logic they share in near-duplicate copies:

- **Metadata grid.**
  - The metadata tree of resources and classes.
  - The Field grid of a clicked class, whose columns are derived from the Field rows.
  - A filter engine that recomputes the displayed rows from `defaultRows` with a backwards `splice` loop.
  - A case-folded in-place sort with ASC/DESC/NONE.
  - A cell click that adds a field's `SystemName` to the search form's `select` list and resolves its lookup values.
- **Search container.**
  - The default `select` and timestamp query.
  - The per-connection search history kept in the storage cache, de-duplicated by a partial match.
  - The result grid.
  - The JSON-RPC payload sent to `SearchService.Run`.
- **Server containers.** The mutable `shared` record and their selection handlers. Metadata is loaded from the cache, or fetched and then cached.
- **Objects container.** The media request and the info and picture rendering.
- **App shell.** The selected connection, the connection lists and the autocomplete's match and order.

## How the JavaScript is represented

- **Values.** A JavaScript value is `Js.Value`: `undefined`, `null`, a boolean, an integer or a string.
- **Row objects.** A grid row or metadata object whose key order matters is a `Row`, an association list in `Object.keys` order.
- **Other objects.** Form values and request parameters are `map<string, Value>`.
- **Exceptions.** An expression that throws a `TypeError` in the source gives `Throws(...)` of `Js.Result`. Examples are reading a property of `undefined` and calling `split` on `null`.
- **Arrays mutated in place.** The grid's row lists are Dafny arrays. A class click makes the class's Field list, `defaultRows` and `selectedClassRows` the same array. Sorting the grid therefore reorders all three, as `Array.prototype.sort` does in the source.
- **Component state.** Each container is a class whose fields are the component's state.
  - `setState` is an immediate assignment.
  - Each promise continuation is a separate method that takes the reply.
  - The storage cache is the `StorageCache` class, an abstract key/value map that records each entry's time-to-live.
- **Source behaviour preserved.** The model keeps the source's behaviour where it differs from what a reader might expect:
  - **Filters are not AND-combined.** With two active filters, the second pass splices the first pass's result using indices into the original rows. The result is therefore not the AND of the filters, and it depends on the filters' key order (`RowFilter.TwoFiltersAreNotAnAnd`, `RowFilter.NotAnAndWitness`).
  - **An empty filter result is discarded.**
  - **NONE leaves the current order as it is.** It does not restore the original order.
  - **The comparators never answer 0.** Ties answer -1 both ways.
  - **A failed lookup throws.** A missing resource or lookup throws rather than yielding no values.
  - **`onDataSelected` builds on the fields.** It rebuilds `data` from `fields`.
  - **History de-duplication is a partial match.** An older entry that agrees on every key of a new search hides it, even when the entry has more keys.
  - **No cache in the `explorer` Explorer.** `Explorer` fetches metadata without the cache.
  - **Filters survive a class click.** No container clears the filters on a class click.

## Model

| member | source | states |
|---|---|---|
| Js.IndexOfSpec | reactjs/client/src/components/containers/Metadata.jsx:207 | `indexOf` gives the first index where the term occurs, and -1 exactly when it occurs nowhere |
| Js.IndexOfZeroIsPrefix | reactjs/client/src/components/containers/Metadata.jsx:94 | `indexOf('Lookup') === 0` holds exactly when the string starts with `Lookup` |
| Js.SplitJoin | reactjs/client/src/components/containers/Metadata.jsx:111 | joining comma-free parts with commas and splitting again gives the parts back |
| Js.Substring | explorer/client/src/components/containers/Search.jsx:52 | `substring` is the slice between the two bounds, each clamped into the string, taken in increasing order |
| Js.SubstringSwapAndClamp | explorer/client/src/components/containers/Search.jsx:52 | swapping the bounds or clamping them first changes nothing, and in-range ordered bounds give the plain slice |
| MetadataTree.FindResource | reactjs/client/src/components/containers/Metadata.jsx:97-99 | `find` gives the first resource whose `ResourceID` equals the id, and nothing exactly when none does |
| MetadataTree.FindLookup | reactjs/client/src/components/containers/Metadata.jsx:100-102 | `find` gives the first lookup whose `LookupName` equals the name, and nothing exactly when none does |
| MetadataTree.MetadataClass.constructor | reactjs/client/src/components/containers/Metadata.jsx:152-153 | a class holds its Field rows in a fresh array |
| Columns.Dedup | reactjs/client/src/components/containers/Metadata.jsx:155-162 | the result has no repeated key and the same keys as the input |
| Columns.DedupFirstSeenOrder | reactjs/client/src/components/containers/Metadata.jsx:155-162 | the kept keys are in the order of their first occurrence |
| Columns.AllKeysMembers | reactjs/client/src/components/containers/Metadata.jsx:155-156 | a key is collected exactly when it is a key of some row |
| Columns.CollectFieldSet | reactjs/client/src/components/containers/Metadata.jsx:154-162 | the nested `forEach`/`includes`/`push` loop builds every key of every row once, in first-seen order (rows in order, keys in each row's order) |
| Columns.FieldSetProperties | reactjs/client/src/components/containers/Metadata.jsx:151-162 | the field set is duplicate-free, holds exactly the rows' keys, and keeps first-seen order |
| Columns.FieldSetExample | explorer/client/src/components/containers/Metadata.jsx:70-77 | rows `{a,b}` then `{b,c}` give the field set `a, b, c` |
| Columns.FieldColumns | reactjs/client/src/components/containers/Metadata.jsx:284-293 | one sortable, filterable, resizable column of width 200 per field, in order |
| Columns.WithoutKeys | reactjs/client/src/components/containers/Metadata.jsx:294-296 | the columns whose key is not excluded, in their order |
| ReactMetadata.GridColumns | reactjs/client/src/components/containers/Metadata.jsx:279-296 | no columns without displayed rows; otherwise exactly the field-set columns whose key is not one of the 14 excluded names, in field-set order |
| RowFilter.TermOf | reactjs/client/src/components/containers/Metadata.jsx:199 | the term of a column's filter, and nothing exactly when the column has no filter |
| RowFilter.SetFilter | reactjs/client/src/components/containers/Metadata.jsx:191 | setting a filter never drops an entry |
| RowFilter.SetFilterTerms | reactjs/client/src/components/containers/Metadata.jsx:191 | the column's filter becomes the new one, every other column's filter stays, and keys stay distinct |
| RowFilter.SetFilterAppends | reactjs/client/src/components/containers/Metadata.jsx:191 | a new column's filter is appended last in `Object.keys` order |
| RowFilter.SetFilterReplacesInPlace | reactjs/client/src/components/containers/Metadata.jsx:191 | an existing column's filter is replaced at its position; every other entry keeps its place |
| RowFilter.DeleteFilter | reactjs/client/src/components/containers/Metadata.jsx:193 | deleting never adds an entry |
| RowFilter.DeleteFilterTerms | reactjs/client/src/components/containers/Metadata.jsx:193 | the column loses its filter, every other column's filter stays, and keys stay distinct |
| RowFilter.DeleteAbsentFilter | reactjs/client/src/components/containers/Metadata.jsx:193 | deleting a column that has no filter changes nothing |
| RowFilter.DeleteFilterKeepsOrder | reactjs/client/src/components/containers/Metadata.jsx:193 | deleting removes exactly that column's entry and keeps the others in their order |
| RowFilter.UpdateFilters | reactjs/client/src/components/containers/Metadata.jsx:189-194 | a non-empty term sets or replaces the column's filter, an empty one deletes it, and other columns are unchanged |
| RowFilter.UpdateFiltersOrder | reactjs/client/src/components/containers/Metadata.jsx:189-194 | the `Object.keys` order after a change, which fixes the order of the splice passes: a new filter goes last, a changed one stays in place, a deleted one leaves the rest in order |
| RowFilter.UpdateKeepsActive | reactjs/client/src/components/containers/Metadata.jsx:189-194 | every stored filter has a non-empty term, before and after an update |
| RowFilter.RecomputeRows | reactjs/client/src/components/containers/Metadata.jsx:196-212 | the backwards splice loops compute the filter engine's result |
| RowFilter.SpliceFailing | reactjs/client/src/components/containers/Metadata.jsx:203-210 | one filter's backwards loop splices, by original index and from the last index down, every row that fails the filter |
| RowFilter.KeepMatchingMembers | reactjs/client/src/components/containers/Metadata.jsx:203-210 | the matching rows in their order: a row is kept exactly when it matches |
| RowFilter.KeepMatching | reactjs/client/src/components/containers/Metadata.jsx:203-210 | the kept rows are a sub-multiset of the rows, so no row is added |
| RowFilter.KeepByMask | reactjs/client/src/components/containers/Metadata.jsx:203-210 | keeping the rows whose pass/fail bit is set gives exactly the matching rows |
| RowFilter.MaskMatches | reactjs/client/src/components/containers/Metadata.jsx:205-207 | bit `i` of the pass/fail list is set exactly when row `i` matches the filter |
| RowFilter.SpliceIfFailing | reactjs/client/src/components/containers/Metadata.jsx:205-209 | one loop iteration splices index `i` out of the new rows exactly when original row `i` fails the filter |
| RowFilter.SingleFilterKeepsMatching | reactjs/client/src/components/containers/Metadata.jsx:196-212 | with exactly one active filter, the new rows are the default rows whose case-folded text contains the case-folded term, in order |
| RowFilter.NoActiveFilterKeepsAll | reactjs/client/src/components/containers/Metadata.jsx:197-212 | with no active filter, the new rows are a copy of the default rows |
| RowFilter.FilteredRowsComeFromDefaults | reactjs/client/src/components/containers/Metadata.jsx:196-212 | whatever the filters, the new rows are a sub-multiset of the default rows |
| RowFilter.SplicePassShrinks | reactjs/client/src/components/containers/Metadata.jsx:203-210 | one splice pass removes rows and adds none |
| RowFilter.TwoFiltersAreNotAnAnd | reactjs/client/src/components/containers/Metadata.jsx:198-212 | with two active filters, the result depends on the filters' order and can keep a row the second filter rejects |
| RowFilter.NotAnAndWitness | reactjs/client/src/components/containers/Metadata.jsx:198-212 | concrete rows and filters where the two key orders give `[b]` and `[]` |
| RowSort.CompareNeverZero | reactjs/client/src/components/containers/Metadata.jsx:172-179 | for ASC and DESC the comparator answers 1 or -1, never 0 |
| RowSort.CompareNegativeIffBefore | reactjs/client/src/components/containers/Metadata.jsx:172-179 | the comparator is negative exactly when the first row's lower-cased key comes first in the direction |
| RowSort.TiesAnswerMinusOneBothWays | reactjs/client/src/components/containers/Metadata.jsx:176-178 | rows with equal keys compare as -1 in both orders |
| RowSort.BeforeTotal | reactjs/client/src/components/containers/Metadata.jsx:172-179 | any two rows are ordered one way or the other |
| RowSort.BeforeTransitive | reactjs/client/src/components/containers/Metadata.jsx:172-179 | the key order is transitive |
| RowSort.SortRows | reactjs/client/src/components/containers/Metadata.jsx:184 | sorting in place yields a permutation ordered by the lower-cased key (falsy as `''`), ascending or descending |
| RowSort.SinkLast | reactjs/client/src/components/containers/Metadata.jsx:184 | one insertion step extends the sorted prefix by one row and keeps the multiset |
| RowSort.Swap | reactjs/client/src/components/containers/Metadata.jsx:184 | exchanging two rows changes only those two slots |
| FormSelect.CurrentSelect | reactjs/client/src/components/containers/Metadata.jsx:105 | `select || ''`: empty when `select` is falsy, the string itself otherwise |
| ReactMetadata.LookupValuesFor | reactjs/client/src/components/containers/Metadata.jsx:92-104 | no values (`Ok([])`) when `Interpretation` is falsy or a string not starting with `Lookup`; then the `LookupType` rows of the lookup named by `LookupName` in the class's resource, and a throw when the class, resource or lookup is missing or `Interpretation` is not a string |
| ReactMetadata.SelectAfterClickTokens | reactjs/client/src/components/containers/Metadata.jsx:105-111 | the new `select` tokens are the old tokens then the clicked name's, each kept at its first occurrence |
| ReactMetadata.ClickingPresentFieldKeepsSelect | reactjs/client/src/components/containers/Metadata.jsx:105-111 | clicking a field already listed leaves a duplicate-free `select` unchanged |
| ReactMetadata.FirstClickWritesName | reactjs/client/src/components/containers/Metadata.jsx:105-111 | the first click on an empty `select` writes just the clicked name |
| ReactMetadata.TwoClicksThenRepeat | reactjs/client/src/components/containers/Metadata.jsx:105-111 | clicking `b` after `a` gives `a,b`, and clicking `a` again keeps `a,b` |
| ReactMetadata.SearchQuery | reactjs/client/src/components/containers/Metadata.jsx:218-229 | the routed query is the form's fields overridden by the connection id and the class's resource and name, and throws without a selected class |
| ReactMetadata.MetadataView.constructor | reactjs/client/src/components/containers/Metadata.jsx:36-57 | the initial state: the "No Metadata Loaded" placeholder, no class, no rows, no filters, and the form with the default query |
| ReactMetadata.MetadataView.MetadataClassClick | reactjs/client/src/components/containers/Metadata.jsx:151-169 | `defaultRows` and `selectedClassRows` become the class's Field array and the field set is derived from it in first-seen order; filters are kept |
| ReactMetadata.MetadataView.HandleGridSort | reactjs/client/src/components/containers/Metadata.jsx:171-186 | ASC/DESC sort the displayed array in place into an ordered permutation, which reorders `defaultRows` too while they are the same array; NONE changes nothing |
| ReactMetadata.MetadataView.HandleFilterChange | reactjs/client/src/components/containers/Metadata.jsx:188-216 | the filters are updated and the displayed rows become the recomputed rows, unless there are none, in which case they stay |
| ReactMetadata.ClickedForm | reactjs/client/src/components/containers/Metadata.jsx:105-111 | a click sets the form's `select` to the de-duplicated extension of the old value by the clicked name; every other field is kept |
| ReactMetadata.ClickedFormTokens | reactjs/client/src/components/containers/Metadata.jsx:105-111 | after a click, the form's `select` splits into the old tokens then the clicked name's, each kept at its first occurrence |
| ReactMetadata.MetadataView.OnCellSelected | reactjs/client/src/components/containers/Metadata.jsx:83-116 | a `null` form becomes `{}`; the lookup values and the de-duplicated `select` are set, or the handler throws with nothing else changed |
| ReactMetadata.MetadataView.SubmitSearchForm | reactjs/client/src/components/containers/Metadata.jsx:218-229 | navigates to `/search` with the merged query, or throws without a selected class; nothing changes |
| ExplorerMetadata.GridColumns | explorer/client/src/components/containers/Metadata.jsx:145-156 | one sortable, filterable column per derived field, with no exclusions, when rows are displayed; none otherwise |
| ExplorerMetadata.AppendSelect | explorer/client/src/components/containers/Metadata.jsx:59-63 | the old `select` is a prefix of the new one, an empty one gives just the name, and the tokens are the old tokens followed by the name's, with no de-duplication |
| ExplorerMetadata.ClickingTwiceRepeats | explorer/client/src/components/containers/Metadata.jsx:59-63 | clicking the same field twice lists it twice |
| ExplorerMetadata.MetadataView.constructor | explorer/client/src/components/containers/Metadata.jsx:34-45 | the initial state has no class, no rows, no filters and no `searchForm` |
| ExplorerMetadata.MetadataView.MetadataClassClick | explorer/client/src/components/containers/Metadata.jsx:67-85 | `defaultRows` and `selectedClassRows` become the class's Field array and the field set is derived from it in first-seen order |
| ExplorerMetadata.MetadataView.HandleGridSort | explorer/client/src/components/containers/Metadata.jsx:87-102 | ASC/DESC give an ordered permutation of the displayed rows, sorted in place; NONE is a no-op |
| ExplorerMetadata.MetadataView.HandleFilterChange | explorer/client/src/components/containers/Metadata.jsx:104-132 | the filters are updated and the displayed rows recomputed, and an empty result leaves them unchanged |
| ExplorerMetadata.MetadataView.OnCellSelected | explorer/client/src/components/containers/Metadata.jsx:51-65 | throws while the state has no `searchForm`; otherwise appends the clicked name to `select` |
| ExplorerMetadata.CellClickOnFreshViewThrows | explorer/client/src/components/containers/Metadata.jsx:55-59 | on a freshly built container every cell click throws |
| Explorer.ExplorerView.constructor | explorer/client/src/components/containers/Explorer.jsx:29-39 | the initial state: empty metadata, no class, no rows, no filters |
| Explorer.ExplorerView.ComponentWillReceiveProps | explorer/client/src/components/containers/Explorer.jsx:47-56 | metadata is reset unless the params changed and carry a connection, in which case the connection is handed to the parent's `setSelectedConnection`, the state is cleared and that connection's metadata requested |
| Explorer.ExplorerView.GetMetadata | explorer/client/src/components/containers/Explorer.jsx:63-72 | the class and both row lists are cleared and the metadata request is made |
| Explorer.ExplorerView.OnMetadataReply | explorer/client/src/components/containers/Explorer.jsx:72-80 | a non-null error resets the metadata to the empty document; otherwise the reply's document is shown |
| Explorer.ExplorerView.MetadataClassClick | explorer/client/src/components/containers/Explorer.jsx:83-89 | sets the class and both row lists to its Field array, and nothing else |
| Explorer.ExplorerView.HandleGridSort | explorer/client/src/components/containers/Explorer.jsx:91-106 | ASC/DESC give an ordered permutation in place; NONE returns the rows unchanged |
| Explorer.ExplorerView.HandleFilterChange | explorer/client/src/components/containers/Explorer.jsx:108-134 | the filters are updated; the matching default rows are displayed unless there are none |
| Explorer.ExplorerView.RenderColumns | explorer/client/src/components/containers/Explorer.jsx:145-168 | columns come from the displayed rows (not `defaultRows`), every key once in first-seen order, and are empty when no row is displayed |
| Selection.WithoutRows | reactjs/client/src/components/containers/Server.jsx:65-71 | an entry survives exactly when its row object is not among the given rows, in its original order |
| Selection.WithoutRowsCounts | reactjs/client/src/components/containers/Server.jsx:65-71 | a deselected row keeps none of its copies and every other entry keeps all of its copies |
| Selection.DeselectUndoesSelect | reactjs/client/src/components/containers/Server.jsx:57-71 | deselecting rows just selected restores the earlier list when none of them was in it |
| Selection.DeselectAll | reactjs/client/src/components/containers/Server.jsx:65-71 | deselecting a superset of a list's rows empties it |
| Selection.RowIndexes | explorer/client/src/components/containers/Server.jsx:55-59 | the selected rows' `rowIdx`, one per row, in order |
| Selection.WithoutIndexes | explorer/client/src/components/containers/Server.jsx:61-66 | an index survives exactly when it is not deselected, in its original order |
| Selection.WithoutIndexesCounts | explorer/client/src/components/containers/Server.jsx:61-66 | every occurrence of a deselected index is removed and every other index keeps all of its copies |
| Selection.DeselectIndexesUndoesSelect | explorer/client/src/components/containers/Server.jsx:55-66 | selecting then deselecting indices not present before restores `fields` |
| Selection.DeselectAllIndexes | explorer/client/src/components/containers/Server.jsx:61-66 | deselecting every listed index empties the list |
| ReactServer.Shared.constructor | reactjs/client/src/components/containers/Server.jsx:28-39 | the initial `shared`: the connection, the loading placeholder, empty resource and class, no fields and no data |
| ReactServer.Shared.OnMetadataSelected | reactjs/client/src/components/containers/Server.jsx:57-63 | `fields` becomes the old fields followed by the selected rows, repetitions allowed; nothing else changes |
| ReactServer.Shared.OnMetadataDeselected | reactjs/client/src/components/containers/Server.jsx:65-71 | removes every field whose row is among the deselected rows, order kept |
| ReactServer.Shared.OnDataSelected | reactjs/client/src/components/containers/Server.jsx:73-79 | `data` becomes the current fields followed by the rows, dropping the previous data |
| ReactServer.Shared.OnDataDeselected | reactjs/client/src/components/containers/Server.jsx:81-87 | removes every data entry whose row is among the deselected rows, order kept |
| ReactServer.Shared.OnClassSelected | reactjs/client/src/components/containers/Server.jsx:89-96 | sets only `resource` and `class` |
| ReactServer.Shared.LoadMetadata | reactjs/client/src/components/containers/Server.jsx:98-108 | a cached document under `<id>-metadata` is used without a request; otherwise the request is made |
| ReactServer.Shared.OnMetadataReply | reactjs/client/src/components/containers/Server.jsx:108-117 | an error reply changes nothing; success stores the document and caches it for 60 minutes, so a later cache read returns it |
| ExplorerServer.Shared.constructor | explorer/client/src/components/containers/Server.jsx:28-39 | the initial `shared`: the connection, the loading placeholder, empty resource and class, no fields and no rows |
| ExplorerServer.Shared.OnMetadataSelected | explorer/client/src/components/containers/Server.jsx:55-59 | appends each selected row's `rowIdx`, in order |
| ExplorerServer.Shared.OnMetadataDeselected | explorer/client/src/components/containers/Server.jsx:61-66 | removes every occurrence of each deselected `rowIdx`, order kept |
| ExplorerServer.Shared.OnClassSelected | explorer/client/src/components/containers/Server.jsx:68-75 | changes only `resource` and `class` |
| ExplorerServer.Shared.LoadMetadata | explorer/client/src/components/containers/Server.jsx:77-87 | a cache hit under `<id>-metadata` is used without a request; otherwise the request is made |
| ExplorerServer.Shared.OnMetadataReply | explorer/client/src/components/containers/Server.jsx:87-96 | an error reply changes nothing; success stores the document and caches it for 60 minutes, so a later cache read returns it |
| StorageCacheModel.MetadataIn | reactjs/client/src/components/containers/Server.jsx:100-101 | a metadata read finds a document exactly when one is stored under the key, and it is that document |
| StorageCacheModel.HistoryIn | explorer/client/src/components/containers/Search.jsx:74 | `getFromCache(key) \|\| []`: the stored history, or the empty list when none is stored |
| StorageCacheModel.ReadAfterWrite | explorer/client/src/components/containers/Search.jsx:132-149 | after a write, reading the written key returns the written document or history, whatever its time-to-live, and every other key reads as before |
| StorageCacheModel.StorageCache.PutInCache | explorer/client/src/components/containers/Search.jsx:149 | the key now holds the value with its time-to-live, a later read of it returns the value, and other keys read as before |
| SearchService.ParamsAllNull | explorer/client/src/services/SearchService.js:4-16 | the `params` template has exactly its ten keys, all `null` |
| SearchService.RunParams | explorer/client/src/services/SearchService.js:29-34 | every caller key is kept, but `format`, `query-type` and `count-type` are always `COMPACT-DECODED`, `DMQL2` and 1 |
| SearchService.SearchRequest | explorer/client/src/services/SearchService.js:26-35 | the envelope always has id 1, method `SearchService.Run` and one parameter object |
| SearchService.CallerKeysPassThrough | explorer/client/src/services/SearchService.js:30-33 | caller keys `querytype` and `counttype` pass through next to the fixed hyphenated keys |
| SearchService.FixedKeysOverride | explorer/client/src/services/SearchService.js:30-33 | whatever the caller gives for the fixed keys, the payload is the same |
| Search.SelectNames | explorer/client/src/components/containers/Search.jsx:46 | one name per shared field, in order, with `null`/`undefined` written as empty |
| Search.DefaultSelectLists | explorer/client/src/components/containers/Search.jsx:46 | the default `select` splits back into the shared fields' names, one per field, in order, repetitions kept |
| Search.FirstTimestampField | explorer/client/src/components/containers/Search.jsx:47-50 | the first Field row whose `StandardName` is `ModificationTimestamp`, and nothing exactly when there is none |
| Search.TimestampQuery | explorer/client/src/components/containers/Search.jsx:51-53 | the query starts with `(<field>=` and ends with `00:00:00+)` |
| Search.TimestampQueryIsMidnight | explorer/client/src/components/containers/Search.jsx:51-53 | for a JSON date the query is `(<field>=<YYYY-MM-DD>T00:00:00+)` |
| Search.DefaultQuery | explorer/client/src/components/containers/Search.jsx:40-54 | the fallback `(TIMESTAMP=2016-11-01T00:00:00+)` without a timestamp field; otherwise the query on its trimmed `SystemName`, which throws when that is not a string |
| Search.InitialForm | explorer/client/src/components/containers/Search.jsx:36-55 | resource, class and the fallback query; with a metadata table also the default `select` and the timestamp query |
| Search.RecordSearch | explorer/client/src/components/containers/Search.jsx:147-150 | the history is unchanged exactly when some entry partially matches the params; otherwise the params are put in front |
| Search.RecordSearchGrowsByAtMostOne | explorer/client/src/components/containers/Search.jsx:147-149 | each search adds at most one entry, and the earlier entries keep their order behind it |
| Search.RecordSearchIdempotent | explorer/client/src/components/containers/Search.jsx:147-149 | recording the same search twice records it once |
| Search.MoreSpecificEntryHidesSearch | explorer/client/src/components/containers/Search.jsx:147 | an entry with the search's keys and more hides the search from the history |
| Search.EmptyParamsNeverRecorded | explorer/client/src/components/containers/Search.jsx:147 | empty params are never recorded once the history is non-empty |
| Search.NewSearchIsNewestEntry | explorer/client/src/components/containers/Search.jsx:148 | a new search becomes the first history entry, growing it by one |
| Search.SubmitParams | explorer/client/src/components/containers/Search.jsx:118-121 | the form's fields plus the connection id, the form's own `id` winning |
| Search.ResultColumnsFrom | explorer/client/src/components/containers/Search.jsx:104-109 | the columns are numbered consecutively from the start index |
| Search.ResultColumns | explorer/client/src/components/containers/Search.jsx:104-109 | one column per result column name, with key = index, name = the column, resizable, width 150 |
| Search.SearchView.constructor | explorer/client/src/components/containers/Search.jsx:56-64 | the initial state: the form, the `params` template, no history and no results |
| Search.SearchView.ComponentWillMount | explorer/client/src/components/containers/Search.jsx:71-83 | the history is the cached one, and the current params are its newest entry, or undefined when it is empty |
| Search.WithQueryFields | explorer/client/src/components/containers/Search.jsx:125-129 | only `resource`, `class`, `query` and `select` of the form are overwritten from the params; every other field is kept |
| Search.SearchView.DoSearch | explorer/client/src/components/containers/Search.jsx:124-145 | only `resource`, `class`, `query` and `select` of the form are overwritten from the params, the history is re-read, and the request is for the params |
| Search.SearchView.SubmitSearchForm | explorer/client/src/components/containers/Search.jsx:117-122 | searches the form value with the connection id: the form's four query fields are overwritten from those params, the history re-read, and the results left as they were |
| Search.SearchView.OnSearchResponse | explorer/client/src/components/containers/Search.jsx:146-157 | the params are recorded, and stored for 720 minutes under `<id>-search-history` only when no entry partially matched, so a later read returns the new history; the result grid follows the reply |
| Search.SearchView.ApplySearchState | explorer/client/src/components/containers/Search.jsx:97-115 | the result columns and rows follow the reply when it has a result with columns; otherwise nothing changes |
| Search.SearchView.RenderSearchResultsTable | explorer/client/src/components/containers/Search.jsx:160-181 | no table unless both rows and columns are non-empty; then a throw exactly when the shared record has no `data`, otherwise the table with the shared data's row indexes selected |
| Objects.SuffixAll | reactjs/client/src/components/containers/Objects.jsx:33-35 | each id becomes `<id>:*`, one per id, in order |
| Objects.ContentId | reactjs/client/src/components/containers/Objects.jsx:33-36 | the `objectid` exists exactly when `ids` is a string |
| Objects.ContentIdTokens | reactjs/client/src/components/containers/Objects.jsx:33-36 | the `objectid` has one `<id>:*` token per comma-separated id, with the same count and order |
| Objects.ContentIdRoundTrip | reactjs/client/src/components/containers/Objects.jsx:33-36 | stripping the `:*` suffixes from the tokens gives back the id list |
| Objects.ObjectRequest | reactjs/client/src/components/containers/Objects.jsx:39-44 | the request carries the route's `id` and `resource`, the chosen type and the built `objectid`, and throws without `ids` |
| Objects.InfoRows | reactjs/client/src/components/containers/Objects.jsx:55-58 | the object's entries in key order, without `Blob`, `Location`, `null` values and values equal to 0 |
| Objects.InfoRowsIdempotent | reactjs/client/src/components/containers/Objects.jsx:55-58 | filtering the info rows again removes nothing more |
| Objects.LowerCaseLocationIsShown | reactjs/client/src/components/containers/Objects.jsx:58 | the lower-case `location` entry is not filtered out |
| Objects.RenderPicture | reactjs/client/src/components/containers/Objects.jsx:69-93 | a truthy `RetsError` gives the error note (a boolean shows as nothing after the literal `$`); otherwise a throw without a string `ContentType`, nothing for a non-`image/` type, an image from lower-case `location` in preference to `Blob`, else nothing |
| Objects.Pictures | reactjs/client/src/components/containers/Objects.jsx:124-126 | one picture per object, in order, unless one of them throws |
| Objects.RenderedObjects | reactjs/client/src/components/containers/Objects.jsx:97-129 | pictures only when `hasResult`: each returned object's picture in order, throwing when one throws; none otherwise |
| Objects.TypeButtons | reactjs/client/src/components/containers/Objects.jsx:114-118 | at least one comma-free button per `types` string, and a throw without `types` |
| Objects.TypeButtonsRejoin | reactjs/client/src/components/containers/Objects.jsx:114-118 | the buttons, joined back with commas, spell the `types` string |
| App.NormalizeConnection | reactjs/client/src/components/App.jsx:45-51 | a string `s` becomes `{id: s}`, any object is kept as given |
| App.ConnectionsOrEmpty | reactjs/client/src/components/App.jsx:41 | a missing list becomes `[]`, a present one is kept |
| App.App.constructor | reactjs/client/src/components/App.jsx:13-23 | the initial state: no connections, nothing selected, an empty autocomplete field |
| App.App.SetSelectedConnection | reactjs/client/src/components/App.jsx:45-51 | the selected connection becomes the normalised argument; nothing else changes |
| App.App.ComponentDidMount | reactjs/client/src/components/App.jsx:25-30 | with a route connection the selection becomes `{id: param}`, otherwise it stays |
| App.App.OnConnectionList | reactjs/client/src/components/App.jsx:34-36 | the connection list is replaced by the reply's |
| App.App.OnActiveConnections | reactjs/client/src/components/App.jsx:40-42 | the active list is the reply's, or `[]` when it is missing |
| App.App.OnSelect | reactjs/client/src/components/App.jsx:134-139 | the autocomplete shows the value, the connection is selected and handed to the login |
| App.ShouldItemRender | reactjs/client/src/components/App.jsx:130-132 | an item is shown exactly when the lower-cased input occurs in its lower-cased id |
| App.EmptyInputShowsAll | reactjs/client/src/components/App.jsx:130-132 | an empty input shows every item |
| App.ShouldItemRenderIgnoresCase | reactjs/client/src/components/App.jsx:130-132 | lower-casing either side first does not change the answer |
| App.SortItems | reactjs/client/src/components/App.jsx:140 | -1 exactly when lower-case `a.id` <= lower-case `b.id`, else 1, never 0 |
| App.SortItemsTies | reactjs/client/src/components/App.jsx:140 | ids equal up to case compare as -1 both ways |
| App.SortItemsAntisymmetric | reactjs/client/src/components/App.jsx:140 | ids that differ after lower-casing compare oppositely in the two orders |
| App.SortItemsTransitive | reactjs/client/src/components/App.jsx:140 | the item order is transitive |

## Left out

- **Network and promise plumbing.** The `fetch` calls, the JSON decoding of replies, `console.log` and the order in which promises settle are left out.
  - Each reply is a parameter of its continuation method.
  - The stale-response race between connections is not modelled.
  - Neither is React's asynchronous `setState`, for example `applySearchState` reading state straight after `setState`.
- **JSX rendering.** Layout, `react-data-grid`, `react-forms`, the tabs and the Autocomplete widget are left out. Only the values these widgets are handed (columns, rows, selected indexes, buttons, pictures) are modelled.
- **Storage cache internals.** Expiry and serialisation are left out. The time-to-live is recorded with each entry and never acted on.
- **JavaScript numbers.** Numbers are integers. Floating point, `NaN` and `-0` are not part of `Js.Value`.
- **Nested objects and arrays in `Value`.** `String(v)` of such values and deep `isMatch` comparison are not modelled, because history entries and grid cells hold primitive values.
- **Key order of integer-like keys.** `Object.keys` lists integer-like keys first. Rows keep insertion order for every key.
- **Case folding and string order.** `toLowerCase` folds only ASCII letters in this model. String comparison is code-point order, not UTF-16 code-unit order.
- **Sort algorithm.** `RowSort.SortRows`: the JavaScript sort's algorithm and its order of equal keys are implementation-defined. The model sorts by insertion and promises only an ordered permutation.
- **reactjs `Metadata` lifecycle.** `componentDidMount`, `componentWillReceiveProps`, `getMetadata`, `onClearFilters` and `renderLookupValues` are outside this model.
- **`onClearFilters` elsewhere.** It is not modelled in the `explorer` Metadata and Explorer containers either.
- **`explorer` Explorer `componentDidMount`.** It is not modelled. It only calls `getMetadata`, which is modelled.
- **`search` with an undefined argument.** `Search.SearchView.DoSearch` is called with parameter objects only.
  - Passing `Search.emptySearch` (undefined) would throw at the first field read.
  - So the `=== Search.emptySearch` guard is never true for an object.
  - The undefined value is otherwise represented by `None` in `searchParams`.
- **A result without `rows`.** `Search.SearchView.ApplySearchState` assumes a result with columns also has a `rows` list. A result without one would leave `searchResultRows` undefined and make rendering throw.
- **Objects reply without `Objects`.** `Objects.RenderedObjects` assumes a reply's `result` carries an `Objects` list. A result without one throws in the source.
- **`Search.SharedView` shape.** The explorer `Search` reads `shared.fields` as `{rowIdx, row}` entries, but the explorer `Server` stores bare indexes there. The Search model follows what its own code reads. The explorer `Server` also has `rows` and no `data` (explorer `Server.jsx` lines 31-38), so `Search.SearchView.RenderSearchResultsTable` is given `data` as an option, and its absence makes the table throw once the rows-and-columns guard passes.
- **Missing `Field` list.** A `METADATA-TABLE` without a `Field` list is not represented.
- **`App.App.SetSelectedConnection` argument kinds.** Only strings and objects are represented. Other values (`null`, numbers) are stored as given in the source and are not modelled.
- **Router location spread.** The spread of the router location in `submitSearchForm` is left out. Only the pathname and query are modelled.
- **The Go server and the test files.** They are outside this model.
