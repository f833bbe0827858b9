/**
 * The `Objects` container of the `reactjs` client: the media request built
 * from the search parameters in the route, the info table and picture shown
 * for each returned object, and the type buttons.
 */
module Objects {
  import opened Js
  import opened Columns

  /** `[i, '*'].join(':')` for every comma-separated id. */
  function SuffixAll(ids: seq<string>): (r: seq<string>)
    ensures |r| == |ids|
    ensures forall i :: 0 <= i < |ids| ==> r[i] == ids[i] + ":*"
  {
    if |ids| == 0 then [] else [ids[0] + ":*"] + SuffixAll(ids[1..])
  }

  /** The `objectid` of the request; `ids` that is not a string (the initial `null`, an absent query key) has no `split` and throws. */
  function ContentId(ids: Value): (r: Result<string>)
    ensures r.Ok? <==> ids.Str?
  {
    match ids
    case Str(s) => Ok(Join(SuffixAll(Split(s, ',')), ','))
    case _ => Throws("ids.split is not a function")
  }

  /** The `objectid` holds, in order, one `<id>:*` token per comma-separated id. */
  lemma ContentIdTokens(s: string)
    ensures Split(ContentId(Str(s)).value, ',') == SuffixAll(Split(s, ','))
    ensures |Split(ContentId(Str(s)).value, ',')| == |Split(s, ',')|
  {
    var parts := Split(s, ',');
    var tokens := SuffixAll(parts);
    forall i | 0 <= i < |tokens|
      ensures ',' !in tokens[i]
    {
      assert tokens[i] == parts[i] + ":*";
      assert ',' !in parts[i];
    }
    SplitJoin(tokens, ',');
  }

  /** Removing the suffixes gives back the id string. */
  lemma ContentIdRoundTrip(s: string)
    ensures Join(UnsuffixAll(Split(ContentId(Str(s)).value, ',')), ',') == s
  {
    ContentIdTokens(s);
    UnsuffixSuffix(Split(s, ','));
    JoinSplit(s, ',');
  }

  /** Each token without its last two characters. */
  function UnsuffixAll(tokens: seq<string>): (r: seq<string>)
    ensures |r| == |tokens|
  {
    if |tokens| == 0 then []
    else [if |tokens[0]| >= 2 then tokens[0][..|tokens[0]| - 2] else tokens[0]] + UnsuffixAll(tokens[1..])
  }

  lemma {:induction false} UnsuffixSuffix(ids: seq<string>)
    ensures UnsuffixAll(SuffixAll(ids)) == ids
    decreases |ids|
  {
    if |ids| > 0 {
      var t := ids[0] + ":*";
      assert t[..|t| - 2] == ids[0];
      assert SuffixAll(ids)[1..] == SuffixAll(ids[1..]);
      UnsuffixSuffix(ids[1..]);
    }
  }

  /** `getObjects(type)`: the request for the route's connection and resource, the chosen type and the built `objectid`. */
  function ObjectRequest(searchParams: Obj, objectType: string): (r: Result<Obj>)
    ensures r.Ok? <==> Field(searchParams, "ids").Str?
    ensures r.Ok? ==> r.value.Keys == {"id", "resource", "type", "objectid"}
    ensures r.Ok? ==> r.value["id"] == Field(searchParams, "id") && r.value["resource"] == Field(searchParams, "resource")
    ensures r.Ok? ==> r.value["type"] == Str(objectType)
    ensures r.Ok? ==> r.value["objectid"] == Str(ContentId(Field(searchParams, "ids")).value)
  {
    match ContentId(Field(searchParams, "ids"))
    case Throws(e) => Throws(e)
    case Ok(cid) =>
      Ok(map["id" := Field(searchParams, "id"), "resource" := Field(searchParams, "resource"),
        "type" := Str(objectType), "objectid" := Str(cid)])
  }

  /** An entry the info table shows: not `Blob`, not `Location`, and a value other than `null` and 0. */
  predicate Shown(e: (string, Value))
  {
    e.0 != "Blob" && e.1 != Null && e.0 != "Location" && e.1 != Num(0)
  }

  /**
   * The key/value rows of `renderObjectInfo`, in key order. An object's
   * entries have distinct keys, so `obj[k]` is the value of the entry for `k`.
   */
  function InfoRows(obj: Row): (r: Row)
    ensures forall e :: e in r <==> e in obj && Shown(e)
    ensures Subsequence(r, obj)
  {
    if |obj| == 0 then []
    else
      var rest := InfoRows(obj[1..]);
      assert forall e :: e in obj <==> e == obj[0] || e in obj[1..] by {
        assert obj == [obj[0]] + obj[1..];
      }
      if Shown(obj[0]) then
        assert ([obj[0]] + rest)[1..] == rest;
        [obj[0]] + rest
      else
        SubsequenceDropHead(rest, obj);
        rest
  }

  /** Filtering the info rows again removes nothing more. */
  lemma {:induction false} InfoRowsIdempotent(obj: Row)
    ensures InfoRows(InfoRows(obj)) == InfoRows(obj)
    decreases |obj|
  {
    if |obj| > 0 {
      InfoRowsIdempotent(obj[1..]);
      if Shown(obj[0]) {
        var r := InfoRows(obj);
        assert r[0] == obj[0] && r[1..] == InfoRows(obj[1..]);
      }
    }
  }

  /** The lower-case `location` key the picture reads is not hidden from the info table. */
  lemma LowerCaseLocationIsShown(obj: Row, src: string)
    requires ("location", Str(src)) in obj
    ensures ("location", Str(src)) in InfoRows(obj)
  {
  }

  /** What `renderPicture` produces for one object. */
  datatype Picture = ErrorNote(text: string) | NoPicture | Image(info: Row, src: string)

  const ImagePrefix := "data:image/png;base64,"

  predicate IsImageType(obj: Row)
  {
    Get(obj, "ContentType").Str? && "image/" <= Get(obj, "ContentType").s
  }

  /** What JSX shows for `{v}`: `true`, `false`, `null` and `undefined` show nothing. */
  function JsxText(v: Value): (t: string)
    ensures v.Bool? || v.Null? || v.Undefined? ==> t == ""
    ensures v.Str? ==> t == v.s
  {
    if v.Bool? || v.Null? || v.Undefined? then "" else ToStr(v)
  }

  /**
   * `renderPicture(obj)`: an error note when `RetsError` is set; nothing for a
   * non-image content type (a missing one throws); otherwise an image from
   * the lower-case `location` or, failing that, from `Blob`; else nothing.
   * The note's `$` is literal JSX text, followed by the rendered `RetsError`.
   */
  function RenderPicture(obj: Row): (r: Result<Picture>)
    ensures Truthy(Get(obj, "RetsError")) ==> r == Ok(ErrorNote("An error occured, $" + JsxText(Get(obj, "RetsError"))))
    ensures !Truthy(Get(obj, "RetsError")) ==> (r.Throws? <==> !Get(obj, "ContentType").Str?)
    ensures !Truthy(Get(obj, "RetsError")) && r.Ok? && !r.value.Image? ==> r.value == NoPicture
    ensures (r.Ok? && r.value.Image?) <==> (!Truthy(Get(obj, "RetsError")) && IsImageType(obj)
      && (Truthy(Get(obj, "location")) || Truthy(Get(obj, "Blob"))))
    ensures r.Ok? && r.value.Image? ==> r.value.info == InfoRows(obj)
    ensures r.Ok? && r.value.Image? && Truthy(Get(obj, "location")) ==> r.value.src == ImagePrefix + ToStr(Get(obj, "location"))
    ensures r.Ok? && r.value.Image? && !Truthy(Get(obj, "location")) ==> r.value.src == ImagePrefix + ToStr(Get(obj, "Blob"))
  {
    var err := Get(obj, "RetsError");
    if Truthy(err) then Ok(ErrorNote("An error occured, $" + JsxText(err)))
    else
      match Get(obj, "ContentType")
      case Str(contentType) =>
        if !("image/" <= contentType) then Ok(NoPicture)
        else if Truthy(Get(obj, "location")) then Ok(Image(InfoRows(obj), ImagePrefix + ToStr(Get(obj, "location"))))
        else if Truthy(Get(obj, "Blob")) then Ok(Image(InfoRows(obj), ImagePrefix + ToStr(Get(obj, "Blob"))))
        else Ok(NoPicture)
      case _ => Throws("ContentType.startsWith is not a function")
  }

  /** The `Objects` list of a reply's `result`, absent when the reply has none. */
  datatype ObjectsReply = ObjectsReply(result: Option<seq<Row>>)

  predicate HasResult(reply: ObjectsReply)
  {
    reply.result.Some? && |reply.result.value| > 0
  }

  /** `objs.map(renderPicture)`; the first object that throws makes the whole list throw. */
  function Pictures(objs: seq<Row>): (r: Result<seq<Picture>>)
    ensures r.Ok? <==> forall i :: 0 <= i < |objs| ==> RenderPicture(objs[i]).Ok?
    ensures r.Ok? ==> |r.value| == |objs| && forall i :: 0 <= i < |objs| ==> r.value[i] == RenderPicture(objs[i]).value
  {
    if |objs| == 0 then Ok([])
    else
      match RenderPicture(objs[0])
      case Throws(e) => Throws(e)
      case Ok(p) =>
        var rest := Pictures(objs[1..]);
        assert forall i :: 1 <= i < |objs| ==> objs[i] == objs[1..][i - 1];
        if rest.Throws? then Throws(rest.reason)
        else Ok([p] + rest.value)
  }

  /** The list under the buttons: one entry per returned object when there is a result, none otherwise. */
  function RenderedObjects(reply: ObjectsReply): (r: Result<seq<Picture>>)
    ensures !HasResult(reply) ==> r == Ok([])
    ensures HasResult(reply) ==> (r.Ok? <==> forall i :: 0 <= i < |reply.result.value| ==> RenderPicture(reply.result.value[i]).Ok?)
    ensures HasResult(reply) && r.Ok? ==> |r.value| == |reply.result.value|
    ensures HasResult(reply) && r.Ok? ==> forall i :: 0 <= i < |r.value| ==> r.value[i] == RenderPicture(reply.result.value[i]).value
  {
    if HasResult(reply) then Pictures(reply.result.value) else Ok([])
  }

  /** `searchParams.types.split(',')`: one button per type, in order; a missing `types` throws. */
  function TypeButtons(types: Value): (r: Result<seq<string>>)
    ensures r.Ok? <==> types.Str?
    ensures r.Ok? ==> |r.value| >= 1 && forall i :: 0 <= i < |r.value| ==> ',' !in r.value[i]
  {
    match types
    case Str(s) => Ok(Split(s, ','))
    case _ => Throws("types.split is not a function")
  }

  /** The buttons, joined back with commas, spell the `types` string. */
  lemma TypeButtonsRejoin(s: string)
    ensures Join(TypeButtons(Str(s)).value, ',') == s
  {
    JoinSplit(s, ',');
  }
}
