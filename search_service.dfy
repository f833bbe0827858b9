/**
 * `SearchService` of the `explorer` client: the search-parameter template and
 * the JSON-RPC envelope its `search` posts (the `fetch` itself is not modelled).
 */
module SearchService {
  import opened Js

  /** The keys of the `params` template. */
  const ParamKeys: set<string> := {"id", "resource", "class", "select", "query", "format", "counttype",
    "querytype", "offset", "limit"}

  /** `SearchService.params`: every key present and `null`. */
  const Params: Obj := map k | k in ParamKeys :: Null

  lemma ParamsAllNull()
    ensures Params.Keys == ParamKeys
    ensures forall k :: k in Params ==> Params[k] == Null
  {
  }

  /** The request body: `{ id, method, params: [ ... ] }`. */
  datatype Envelope = Envelope(id: int, rpcMethod: string, params: seq<Obj>)

  /** `{ ...params, format: 'COMPACT-DECODED', 'query-type': 'DMQL2', 'count-type': 1 }`. */
  function RunParams(params: Obj): (r: Obj)
    ensures r.Keys == params.Keys + {"format", "query-type", "count-type"}
    ensures r["format"] == Str("COMPACT-DECODED") && r["query-type"] == Str("DMQL2") && r["count-type"] == Num(1)
    ensures forall k :: k in params && k !in {"format", "query-type", "count-type"} ==> r[k] == params[k]
  {
    params["format" := Str("COMPACT-DECODED")]["query-type" := Str("DMQL2")]["count-type" := Num(1)]
  }

  /** The body `search(params)` posts: request id 1, method `SearchService.Run`, one parameter object. */
  function SearchRequest(params: Obj): (e: Envelope)
    ensures e.id == 1 && e.rpcMethod == "SearchService.Run"
    ensures e.params == [RunParams(params)]
  {
    Envelope(1, "SearchService.Run", [RunParams(params)])
  }

  /** The caller's `querytype` and `counttype` pass through untouched next to the fixed hyphenated keys. */
  lemma CallerKeysPassThrough(params: Obj)
    ensures "querytype" in params ==> SearchRequest(params).params[0]["querytype"] == params["querytype"]
    ensures "counttype" in params ==> SearchRequest(params).params[0]["counttype"] == params["counttype"]
    ensures "format" in params ==> SearchRequest(params).params[0]["format"] == Str("COMPACT-DECODED")
  {
  }

  /** Whatever the caller passes for the fixed keys, two requests differing only there are the same. */
  lemma FixedKeysOverride(params: Obj, format: Value, queryType: Value, countType: Value)
    ensures SearchRequest(params["format" := format]["query-type" := queryType]["count-type" := countType])
      == SearchRequest(params)
  {
    var a := RunParams(params["format" := format]["query-type" := queryType]["count-type" := countType]);
    var b := RunParams(params);
    assert a.Keys == b.Keys;
    assert forall k :: k in a ==> a[k] == b[k];
    assert a == b;
  }
}
