/**
 * The `Server` container of the `explorer` client: the `shared` record keeps
 * the selected metadata rows as their grid indexes.
 */
module ExplorerServer {
  import opened Js
  import opened MetadataTree
  import opened StorageCacheModel
  import opened Selection

  class Shared {
    const connectionId: Value
    var metadata: System
    var resource: Obj
    var cls: Obj
    var fields: seq<int>
    var rows: seq<Selected>

    constructor (connectionId: Value)
      ensures this.connectionId == connectionId && metadata == LoadingMetadata
      ensures resource == map[] && cls == map[]
      ensures fields == [] && rows == []
    {
      this.connectionId := connectionId;
      metadata := LoadingMetadata;
      resource := map[];
      cls := map[];
      fields := [];
      rows := [];
    }

    /** Appends each selected row's `rowIdx`, in order. */
    method OnMetadataSelected(selected: seq<Selected>)
      modifies this
      ensures fields == old(fields) + RowIndexes(selected)
      ensures rows == old(rows) && metadata == old(metadata)
      ensures resource == old(resource) && cls == old(cls)
    {
      fields := fields + RowIndexes(selected);
    }

    /** Drops every occurrence of each deselected `rowIdx`. */
    method OnMetadataDeselected(selected: seq<Selected>)
      modifies this
      ensures fields == WithoutIndexes(old(fields), RowIndexes(selected))
      ensures rows == old(rows) && metadata == old(metadata)
      ensures resource == old(resource) && cls == old(cls)
    {
      var rowIndexes := RowIndexes(selected);
      fields := WithoutIndexes(fields, rowIndexes);
    }

    method OnClassSelected(res: Obj, c: Obj)
      modifies this
      ensures resource == res && cls == c
      ensures fields == old(fields) && rows == old(rows) && metadata == old(metadata)
    {
      resource := res;
      cls := c;
    }

    /** `componentWillMount` with `getMetadata`: a cached document is used at once, else the key to fetch is returned. */
    method LoadMetadata(cache: StorageCache) returns (fetch: Option<string>)
      modifies this
      ensures var key := MetadataKey(connectionId);
        match cache.CachedMetadata(key)
        case Some(doc) => metadata == doc && fetch == None
        case None => metadata == old(metadata) && fetch == Some(key)
      ensures fields == old(fields) && rows == old(rows)
      ensures resource == old(resource) && cls == old(cls)
    {
      var key := MetadataKey(connectionId);
      var md := cache.CachedMetadata(key);
      if md.Some? {
        metadata := md.value;
        return None;
      }
      return Some(key);
    }

    method OnMetadataReply(key: string, reply: MetadataReply, cache: StorageCache)
      modifies this, cache
      ensures IsError(reply) ==> metadata == old(metadata) && cache.entries == old(cache.entries)
      ensures !IsError(reply) ==> metadata == reply.metadata
      ensures !IsError(reply) ==> cache.entries == old(cache.entries)[key := Entry(MetadataDoc(reply.metadata), 60)]
      ensures !IsError(reply) ==> cache.CachedMetadata(key) == Some(reply.metadata)
      ensures fields == old(fields) && rows == old(rows)
      ensures resource == old(resource) && cls == old(cls)
    {
      if IsError(reply) {
        return;
      }
      metadata := reply.metadata;
      cache.PutInCache(key, MetadataDoc(reply.metadata), 60);
    }
  }
}
