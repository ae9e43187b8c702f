/** The list actions (actions/list.ts): every call reads the array stored under
    `lists`, changes its own copy with `push`, assignment at an index or
    `splice`, and writes the whole array back. A call that finds nothing to do
    writes nothing. */
module ListActions {
  import opened Js
  import opened Types
  import opened Storage
  import opened Collection

  const ListsKey := "lists"

  /** `getLists`: the stored value as it is, or an empty array when nothing (or
      JSON null) is stored. The stored elements are not checked or repaired. */
  function GetLists(entries: Contents): (r: Json)
    ensures Get(entries, ListsKey).None? ==> r == JArray([])
    ensures Get(entries, ListsKey) == Some(JNull) ==> r == JArray([])
    ensures Get(entries, ListsKey).Some? && entries[ListsKey] != JNull ==> r == entries[ListsKey]
  {
    match Get(entries, ListsKey)
    case None => JArray([])
    case Some(v) => if v == JNull then JArray([]) else v
  }

  /** `createList`: validates the argument (an object with a string `name`), makes
      the record with the fresh id, appends it to the stored array and returns
      it. Invalid input throws before anything is read or written; a stored
      value that is not an array makes `push` throw. */
  method CreateList(store: Store, args: Json, freshId: string) returns (r: Completion<List>)
    modifies store
    ensures ParseListInput(args).None? ==> r == Throw(InvalidInput) && store.entries == old(store.entries)
    ensures ParseListInput(args).Some? && !GetLists(old(store.entries)).JArray? ==>
      r == Throw(TypeError) && store.entries == old(store.entries)
    ensures ParseListInput(args).Some? && GetLists(old(store.entries)).JArray? ==>
      && r == Normal(List(freshId, args.fields["name"].s))
      && store.entries == old(store.entries)[ListsKey := JArray(GetLists(old(store.entries)).items + [EncodeList(r.value)])]
  {
    var validated := ParseListInput(args);
    if validated.None? {
      return Throw(InvalidInput);
    }
    var list := List(freshId, validated.value.name);
    var lists := GetLists(store.entries);
    if !lists.JArray? {
      return Throw(TypeError);
    }
    var items := lists.items + [EncodeList(list)];
    store.Set(ListsKey, JArray(items));
    return Normal(list);
  }

  /** `updateList`: replaces the first stored element with the argument's id by
      the argument, at the same index, and returns the argument; without a match
      it returns null and writes nothing. No validation. */
  method UpdateList(store: Store, list: List) returns (r: Completion<Option<List>>)
    modifies store
    ensures !GetLists(old(store.entries)).JArray? ==> r == Throw(TypeError) && store.entries == old(store.entries)
    ensures GetLists(old(store.entries)).JArray? ==>
      var items := GetLists(old(store.entries)).items;
      match FindIndexById(items, list.id)
      case Found(i) =>
        && r == Normal(Some(list))
        && store.entries == old(store.entries)[ListsKey := JArray(items[i := EncodeList(list)])]
      case NotFound => r == Normal(None) && store.entries == old(store.entries)
      case NullElement(_) => r == Throw(TypeError) && store.entries == old(store.entries)
  {
    var lists := GetLists(store.entries);
    if !lists.JArray? {
      return Throw(TypeError);
    }
    var search := FindIndexById(lists.items, list.id);
    match search {
      case Found(i) =>
        var items := lists.items[i := EncodeList(list)];
        store.Set(ListsKey, JArray(items));
        return Normal(Some(list));
      case NotFound =>
        return Normal(None);
      case NullElement(_) =>
        return Throw(TypeError);
    }
  }

  /** `removelist`: splices out the first stored element with the argument's id
      and returns the argument; without a match it returns null and writes
      nothing. Only the `lists` key is touched. */
  method RemoveList(store: Store, list: List) returns (r: Completion<Option<List>>)
    modifies store
    ensures !GetLists(old(store.entries)).JArray? ==> r == Throw(TypeError) && store.entries == old(store.entries)
    ensures GetLists(old(store.entries)).JArray? ==>
      var items := GetLists(old(store.entries)).items;
      match FindIndexById(items, list.id)
      case Found(i) =>
        && r == Normal(Some(list))
        && store.entries == old(store.entries)[ListsKey := JArray(RemoveAt(items, i))]
      case NotFound => r == Normal(None) && store.entries == old(store.entries)
      case NullElement(_) => r == Throw(TypeError) && store.entries == old(store.entries)
  {
    var lists := GetLists(store.entries);
    if !lists.JArray? {
      return Throw(TypeError);
    }
    var search := FindIndexById(lists.items, list.id);
    match search {
      case Found(i) =>
        store.Set(ListsKey, JArray(RemoveAt(lists.items, i)));
        return Normal(Some(list));
      case NotFound =>
        return Normal(None);
      case NullElement(_) =>
        return Throw(TypeError);
    }
  }

  /** A created list is read back by `getLists` as the last element, and it
      parses to the record `createList` returned. */
  lemma {:induction false} CreatedListReadBack(entries: Contents, items: seq<Json>, l: List)
    ensures GetLists(entries[ListsKey := JArray(items + [EncodeList(l)])]) == JArray(items + [EncodeList(l)])
    ensures ParseList((items + [EncodeList(l)])[|items|]) == Some(l)
  {
    ListRoundTrip(l);
  }

  /** After an update that found its target, a second identical update finds the
      same index and writes the same collection again. */
  lemma UpdateListIdempotent(items: seq<Json>, l: List, i: nat)
    requires FindIndexById(items, l.id) == Found(i)
    ensures FindIndexById(items[i := EncodeList(l)], l.id) == Found(i)
    ensures items[i := EncodeList(l)][i := EncodeList(l)] == items[i := EncodeList(l)]
  {
    ReplaceKeepsIndex(items, l.id, i, EncodeList(l));
  }
}
