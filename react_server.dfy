/**
 * The `Server` container of the `reactjs` client: one mutable `shared` record
 * handed to the Metadata, Search and Objects tabs, whose handlers reassign its
 * fields. The metadata is loaded from the cache, or fetched and then cached.
 */
module ReactServer {
  import opened Js
  import opened MetadataTree
  import opened StorageCacheModel
  import opened Selection

  /** The `shared` record and the handlers that update it. */
  class Shared {
    const connectionId: Value
    var metadata: System
    var resource: Obj
    var cls: Obj
    var fields: seq<Selected>
    var data: seq<Selected>

    /** The initial `shared`: the given connection, the loading placeholder, `{}` and `[]`. */
    constructor (connectionId: Value)
      ensures this.connectionId == connectionId && metadata == LoadingMetadata
      ensures resource == map[] && cls == map[]
      ensures fields == [] && data == []
    {
      this.connectionId := connectionId;
      metadata := LoadingMetadata;
      resource := map[];
      cls := map[];
      fields := [];
      data := [];
    }

    /** `fields.concat(rows)`: duplicates are kept. */
    method OnMetadataSelected(rows: seq<Selected>)
      modifies this
      ensures fields == old(fields) + rows
      ensures data == old(data) && metadata == old(metadata)
      ensures resource == old(resource) && cls == old(cls)
    {
      fields := fields + rows;
    }

    /** Drops every field whose row object is one of the deselected rows'. */
    method OnMetadataDeselected(rows: seq<Selected>)
      modifies this
      ensures fields == WithoutRows(old(fields), rows)
      ensures data == old(data) && metadata == old(metadata)
      ensures resource == old(resource) && cls == old(cls)
    {
      fields := WithoutRows(fields, rows);
    }

    /** `data` becomes the current FIELDS followed by the rows: the previous data is dropped. */
    method OnDataSelected(rows: seq<Selected>)
      modifies this
      ensures data == fields + rows
      ensures fields == old(fields) && metadata == old(metadata)
      ensures resource == old(resource) && cls == old(cls)
    {
      data := fields + rows;
    }

    /** Drops every data entry whose row object is one of the deselected rows'. */
    method OnDataDeselected(rows: seq<Selected>)
      modifies this
      ensures data == WithoutRows(old(data), rows)
      ensures fields == old(fields) && metadata == old(metadata)
      ensures resource == old(resource) && cls == old(cls)
    {
      data := WithoutRows(data, rows);
    }

    method OnClassSelected(res: Obj, c: Obj)
      modifies this
      ensures resource == res && cls == c
      ensures fields == old(fields) && data == old(data) && metadata == old(metadata)
    {
      resource := res;
      cls := c;
    }

    /**
     * `componentWillMount` running `getMetadata` with the callback that stores
     * the document in `shared.metadata`: a cached document is used at once;
     * otherwise the cache key is returned for the request to be made.
     */
    method LoadMetadata(cache: StorageCache) returns (fetch: Option<string>)
      modifies this
      ensures var key := MetadataKey(connectionId);
        match cache.CachedMetadata(key)
        case Some(doc) => metadata == doc && fetch == None
        case None => metadata == old(metadata) && fetch == Some(key)
      ensures fields == old(fields) && data == old(data)
      ensures resource == old(resource) && cls == old(cls)
    {
      var key := MetadataKey(connectionId);
      var md := cache.CachedMetadata(key);
      if md.Some? {
        metadata := md.value;
        return None;
      }
      return Some(key);
    }

    /** The request's continuation: an error changes nothing; success stores the document, then caches it for 60 minutes. */
    method OnMetadataReply(key: string, reply: MetadataReply, cache: StorageCache)
      modifies this, cache
      ensures IsError(reply) ==> metadata == old(metadata) && cache.entries == old(cache.entries)
      ensures !IsError(reply) ==> metadata == reply.metadata
      ensures !IsError(reply) ==> cache.entries == old(cache.entries)[key := Entry(MetadataDoc(reply.metadata), 60)]
      ensures !IsError(reply) ==> cache.CachedMetadata(key) == Some(reply.metadata)
      ensures fields == old(fields) && data == old(data)
      ensures resource == old(resource) && cls == old(cls)
    {
      if IsError(reply) {
        return;
      }
      metadata := reply.metadata;
      cache.PutInCache(key, MetadataDoc(reply.metadata), 60);
    }
  }
}
