/** The array built-ins that the list and subscription actions apply to a
    collection read from storage: `findIndex` comparing `id`, assignment at an
    index, and `splice(index, 1)`. The elements are the raw stored values: the
    actions never check them against a schema. */
module Collection {
  import opened Js

  /** `x.id === id` for an element read from storage: only an object whose `id`
      field is that very string matches. */
  predicate HasId(x: Json, id: string) {
    x.JObject? && "id" in x.fields && x.fields["id"] == JString(id)
  }

  /** An element that `findIndex` passes over: no match, and not null (reading
      `.id` of null throws). */
  predicate Skipped(x: Json, id: string) {
    !HasId(x, id) && x != JNull
  }

  /** How `findIndex` ends: at the first match, with -1, or with a TypeError at
      a null element met before any match. */
  datatype Search = Found(index: nat) | NotFound | NullElement(index: nat)

  /** `items.findIndex((x) => x.id === id)`. */
  function FindIndexById(items: seq<Json>, id: string): (r: Search)
    ensures r.Found? ==> r.index < |items| && HasId(items[r.index], id)
    ensures r.NullElement? ==> r.index < |items| && items[r.index] == JNull
    ensures r.Found? ==> forall k :: 0 <= k < r.index ==> Skipped(items[k], id)
    ensures r.NullElement? ==> forall k :: 0 <= k < r.index ==> Skipped(items[k], id)
    ensures r.NotFound? ==> forall k :: 0 <= k < |items| ==> Skipped(items[k], id)
  {
    if items == [] then NotFound
    else if items[0] == JNull then NullElement(0)
    else if HasId(items[0], id) then Found(0)
    else
      match FindIndexById(items[1..], id)
      case Found(i) => Found(i + 1)
      case NullElement(i) => NullElement(i + 1)
      case NotFound => NotFound
  }

  /** The search stops at index `i` as soon as every earlier element is passed
      over and `items[i]` matches: the result is fixed by the prefix alone. */
  lemma {:induction false} FoundAtFirstMatch(items: seq<Json>, id: string, i: nat)
    requires i < |items| && HasId(items[i], id)
    requires forall k :: 0 <= k < i ==> Skipped(items[k], id)
    ensures FindIndexById(items, id) == Found(i)
  {
    if i > 0 {
      assert Skipped(items[0], id);
      FoundAtFirstMatch(items[1..], id, i - 1);
    }
  }

  /** `splice(index, 1)`: the element at `index` goes; the ones after it move
      down by one; nothing else changes. */
  function RemoveAt(items: seq<Json>, index: nat): (r: seq<Json>)
    requires index < |items|
    ensures |r| == |items| - 1
    ensures forall k :: 0 <= k < index ==> r[k] == items[k]
    ensures forall k :: index <= k < |r| ==> r[k] == items[k + 1]
    ensures items == r[..index] + [items[index]] + r[index..]
  {
    items[..index] + items[index + 1..]
  }

  /** Assigning a matching element at the found index leaves the search where it
      was, so repeating the same replacement changes nothing more. */
  lemma ReplaceKeepsIndex(items: seq<Json>, id: string, i: nat, x: Json)
    requires FindIndexById(items, id) == Found(i)
    requires HasId(x, id)
    ensures FindIndexById(items[i := x], id) == Found(i)
    ensures items[i := x][i := x] == items[i := x]
  {
    FoundAtFirstMatch(items[i := x], id, i);
  }
}
