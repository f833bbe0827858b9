/**
 * `StorageCache` as the containers use it: an abstract key -> value store
 * whose `putInCache` receives a time-to-live in minutes. Expiry is not part of
 * this model; an entry stays until it is overwritten.
 */
module StorageCacheModel {
  import opened Js
  import opened MetadataTree

  /** What the containers store: a metadata document or a search history. */
  datatype Stored = MetadataDoc(doc: System) | SearchHistory(entries: seq<Obj>)

  datatype Entry = Entry(value: Stored, ttlMinutes: int)

  /** `<connection id>-metadata`; the id goes through `String(...)` in the template. */
  function MetadataKey(connectionId: Value): (key: string)
  {
    ToStr(connectionId) + "-metadata"
  }

  /** `<connection id>-search-history`. */
  function HistoryKey(connectionId: Value): (key: string)
  {
    ToStr(connectionId) + "-search-history"
  }

  /** What `getFromCache(key)` returns as a metadata document: the document stored under `key`, if any. */
  function MetadataIn(entries: map<string, Entry>, key: string): (r: Option<System>)
    ensures r.Some? <==> key in entries && entries[key].value.MetadataDoc?
    ensures r.Some? ==> entries[key].value == MetadataDoc(r.value)
  {
    if key in entries && entries[key].value.MetadataDoc? then Some(entries[key].value.doc) else None
  }

  /** `getFromCache(key) || []` for a history key: the history stored under `key`, or the empty list. */
  function HistoryIn(entries: map<string, Entry>, key: string): (r: seq<Obj>)
    ensures key in entries && entries[key].value.SearchHistory? ==> r == entries[key].value.entries
    ensures !(key in entries && entries[key].value.SearchHistory?) ==> r == []
  {
    if key in entries && entries[key].value.SearchHistory? then entries[key].value.entries else []
  }

  /**
   * A read after `putInCache(key, value, ttl)` gets back what was written
   * under `key`, whatever the time-to-live, and every other key reads as before.
   */
  lemma ReadAfterWrite(entries: map<string, Entry>, key: string, value: Stored, ttlMinutes: int, other: string)
    ensures MetadataIn(entries[key := Entry(value, ttlMinutes)], key) == if value.MetadataDoc? then Some(value.doc) else None
    ensures HistoryIn(entries[key := Entry(value, ttlMinutes)], key) == if value.SearchHistory? then value.entries else []
    ensures other != key ==> MetadataIn(entries[key := Entry(value, ttlMinutes)], other) == MetadataIn(entries, other)
    ensures other != key ==> HistoryIn(entries[key := Entry(value, ttlMinutes)], other) == HistoryIn(entries, other)
  {
  }

  class StorageCache {
    var entries: map<string, Entry>

    constructor ()
      ensures entries == map[]
    {
      entries := map[];
    }

    function CachedMetadata(key: string): Option<System>
      reads this
    {
      MetadataIn(entries, key)
    }

    function CachedHistory(key: string): seq<Obj>
      reads this
    {
      HistoryIn(entries, key)
    }

    /** `putInCache(key, value, ttl)`: a later read of `key` gets `value` back, and other keys read as before. */
    method PutInCache(key: string, value: Stored, ttlMinutes: int)
      modifies this
      ensures entries == old(entries)[key := Entry(value, ttlMinutes)]
      ensures CachedMetadata(key) == if value.MetadataDoc? then Some(value.doc) else None
      ensures CachedHistory(key) == if value.SearchHistory? then value.entries else []
      ensures forall k :: k != key ==> CachedMetadata(k) == old(CachedMetadata(k)) && CachedHistory(k) == old(CachedHistory(k))
    {
      ghost var before := entries;
      entries := entries[key := Entry(value, ttlMinutes)];
      ReadAfterWrite(before, key, value, ttlMinutes, key);
      forall k | k != key
        ensures CachedMetadata(k) == MetadataIn(before, k) && CachedHistory(k) == HistoryIn(before, k)
      {
        ReadAfterWrite(before, key, value, ttlMinutes, k);
      }
    }
  }
}
