/**
 * The fetched metadata document: System -> resources -> classes -> fields,
 * with each resource's lookups. A class's `METADATA-TABLE.Field` list is an
 * array object: the grids display it by reference and sort it in place, so
 * it is modelled as an `array<Row>` owned by a class object.
 */
module MetadataTree {
  import opened Js

  /** A class of a resource (`ClassName`, `Description`, `METADATA-TABLE.Resource`, `METADATA-TABLE.Field`). */
  class MetadataClass {
    const className: string
    const description: string
    const resource: string
    const fields: array<Row>

    constructor (className: string, description: string, resource: string, fields: seq<Row>)
      ensures this.className == className && this.description == description
      ensures this.resource == resource
      ensures fresh(this.fields) && this.fields[..] == fields
    {
      this.className := className;
      this.description := description;
      this.resource := resource;
      this.fields := new Row[|fields|](i requires 0 <= i < |fields| => fields[i]);
    }
  }

  /** A lookup: `LookupName` and its `METADATA-LOOKUP_TYPE.LookupType` rows (`Value`, `ShortValue`, `LongValue`). */
  datatype Lookup = Lookup(lookupName: string, lookupTypes: seq<Row>)

  /** A resource: `ResourceID`, `Description`, `METADATA-CLASS.Class` and `METADATA-LOOKUP.Lookup`. */
  datatype Resource = Resource(resourceId: string, description: string, classes: seq<MetadataClass>, lookups: seq<Lookup>)

  /** The document's `System`: `SystemID`, `SystemDescription`, `METADATA-RESOURCE.Resource`. */
  datatype System = System(systemId: Value, systemDescription: Value, resources: seq<Resource>)

  /** The `emptyMetadata` placeholders; they differ between the containers. */
  const NoMetadataLoaded := System(Str("N/A"), Str("No Metadata Loaded"), [])
  const LoadingMetadata := System(Str("Loading..."), Str("Loading metadata..."), [])
  const BareEmptyMetadata := System(Undefined, Undefined, [])

  /** `resources.find(res => res.ResourceID === id)`: the first resource with that id. */
  function FindResource(resources: seq<Resource>, id: Value): (r: Option<Resource>)
    ensures r.None? <==> forall i :: 0 <= i < |resources| ==> Str(resources[i].resourceId) != id
    ensures r.Some? ==> Str(r.value.resourceId) == id
    ensures r.Some? ==> exists i :: (0 <= i < |resources| && resources[i] == r.value
      && forall k :: 0 <= k < i ==> Str(resources[k].resourceId) != id)
  {
    if |resources| == 0 then None
    else if Str(resources[0].resourceId) == id then Some(resources[0])
    else
      var r := FindResource(resources[1..], id);
      assert forall i :: 0 < i < |resources| ==> resources[i] == resources[1..][i - 1];
      r
  }

  /** `lookups.find(lookup => lookup.LookupName === name)`: the first lookup with that name. */
  function FindLookup(lookups: seq<Lookup>, name: Value): (r: Option<Lookup>)
    ensures r.None? <==> forall i :: 0 <= i < |lookups| ==> Str(lookups[i].lookupName) != name
    ensures r.Some? ==> Str(r.value.lookupName) == name
    ensures r.Some? ==> exists i :: (0 <= i < |lookups| && lookups[i] == r.value
      && forall k :: 0 <= k < i ==> Str(lookups[k].lookupName) != name)
  {
    if |lookups| == 0 then None
    else if Str(lookups[0].lookupName) == name then Some(lookups[0])
    else
      var r := FindLookup(lookups[1..], name);
      assert forall i :: 0 < i < |lookups| ==> lookups[i] == lookups[1..][i - 1];
      r
  }

  /** The JSON body of a metadata request: `error` and `result.Metadata`. */
  datatype MetadataReply = MetadataReply(error: Value, metadata: System)

  /** `json.error !== null`: a missing (`undefined`) error counts as an error too. */
  predicate IsError(reply: MetadataReply)
  {
    reply.error != Null
  }
}
