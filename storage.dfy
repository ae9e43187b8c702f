/** The key-value store behind every action (clients/mmkv.ts). Values are kept
    as JSON text; since JSON.stringify followed by JSON.parse gives back an equal
    value for every `Json`, the store keeps the parsed values directly, and every
    `Get` hands out a value that the caller can change without touching the store
    until it calls `Set`. */
module Storage {
  import opened Js

  type Contents = map<string, Json>

  /** `get`: the stored value, or null (`None`) for a key never set or deleted.
      Serialized JSON text is never empty, so the `!value` test of the source
      fails only for an absent key. */
  function Get(entries: Contents, key: string): (r: Option<Json>)
    ensures r.Some? <==> key in entries
    ensures r.Some? ==> r.value == entries[key]
  {
    if key in entries then Some(entries[key]) else None
  }

  class Store {
    var entries: Contents

    constructor ()
      ensures entries == map[]
    {
      entries := map[];
    }

    /** `set`: overwrites the key and nothing else. */
    method Set(key: string, value: Json)
      modifies this
      ensures entries == old(entries)[key := value]
      ensures Get(entries, key) == Some(value)
      ensures forall k :: k != key ==> Get(entries, k) == Get(old(entries), k)
    {
      entries := entries[key := value];
    }

    /** `delete`: the key reads as absent afterwards; other keys are untouched. */
    method Delete(key: string)
      modifies this
      ensures entries == old(entries) - {key}
      ensures Get(entries, key) == None
      ensures forall k :: k != key ==> Get(entries, k) == Get(old(entries), k)
    {
      entries := entries - {key};
    }
  }
}
