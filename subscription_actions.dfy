/** The subscription actions (actions/subscription.ts): the same read, change,
    write-back cycle as the list actions, on the array stored under
    `subscriptions`. */
module SubscriptionActions {
  import opened Js
  import opened Types
  import opened Storage
  import opened Collection

  const SubscriptionsKey := "subscriptions"

  /** `getSubscriptions`: the stored value as it is, or an empty array when
      nothing (or JSON null) is stored. */
  function GetSubscriptions(entries: Contents): (r: Json)
    ensures Get(entries, SubscriptionsKey).None? ==> r == JArray([])
    ensures Get(entries, SubscriptionsKey) == Some(JNull) ==> r == JArray([])
    ensures Get(entries, SubscriptionsKey).Some? && entries[SubscriptionsKey] != JNull ==> r == entries[SubscriptionsKey]
  {
    match Get(entries, SubscriptionsKey)
    case None => JArray([])
    case Some(v) => if v == JNull then JArray([]) else v
  }

  /** `createSubscription`: validates the argument against the subscription
      schema without `id`, gives the record the fresh id (the validated data has
      no `id` to override it), appends it and returns it. Invalid input throws
      before anything is read or written. */
  method CreateSubscription(store: Store, codes: seq<string>, args: Json, freshId: string)
    returns (r: Completion<Subscription>)
    modifies store
    ensures ParseSubscriptionInput(codes, args).None? ==> r == Throw(InvalidInput) && store.entries == old(store.entries)
    ensures ParseSubscriptionInput(codes, args).Some? && !GetSubscriptions(old(store.entries)).JArray? ==>
      r == Throw(TypeError) && store.entries == old(store.entries)
    ensures ParseSubscriptionInput(codes, args).Some? && GetSubscriptions(old(store.entries)).JArray? ==>
      && r == Normal(WithId(freshId, ParseSubscriptionInput(codes, args).value))
      && r.value.id == freshId
      && ValidSubscription(codes, r.value)
      && store.entries == old(store.entries)[SubscriptionsKey :=
           JArray(GetSubscriptions(old(store.entries)).items + [EncodeSubscription(r.value)])]
  {
    var validated := ParseSubscriptionInput(codes, args);
    if validated.None? {
      return Throw(InvalidInput);
    }
    var subscription := WithId(freshId, validated.value);
    var subscriptions := GetSubscriptions(store.entries);
    if !subscriptions.JArray? {
      return Throw(TypeError);
    }
    store.Set(SubscriptionsKey, JArray(subscriptions.items + [EncodeSubscription(subscription)]));
    return Normal(subscription);
  }

  /** `updateSubscription`: replaces the first stored element with the
      argument's id by the argument, in place, and returns the argument; without
      a match it returns null and writes nothing. The argument is not validated. */
  method UpdateSubscription(store: Store, subscription: Subscription) returns (r: Completion<Option<Subscription>>)
    modifies store
    ensures !GetSubscriptions(old(store.entries)).JArray? ==> r == Throw(TypeError) && store.entries == old(store.entries)
    ensures GetSubscriptions(old(store.entries)).JArray? ==>
      var items := GetSubscriptions(old(store.entries)).items;
      match FindIndexById(items, subscription.id)
      case Found(i) =>
        && r == Normal(Some(subscription))
        && store.entries == old(store.entries)[SubscriptionsKey := JArray(items[i := EncodeSubscription(subscription)])]
      case NotFound => r == Normal(None) && store.entries == old(store.entries)
      case NullElement(_) => r == Throw(TypeError) && store.entries == old(store.entries)
  {
    var subscriptions := GetSubscriptions(store.entries);
    if !subscriptions.JArray? {
      return Throw(TypeError);
    }
    var search := FindIndexById(subscriptions.items, subscription.id);
    match search {
      case Found(i) =>
        store.Set(SubscriptionsKey, JArray(subscriptions.items[i := EncodeSubscription(subscription)]));
        return Normal(Some(subscription));
      case NotFound =>
        return Normal(None);
      case NullElement(_) =>
        return Throw(TypeError);
    }
  }

  /** `removeSubscription`: splices out the first stored element with the
      argument's id, writing only when one was found, and returns null either
      way. */
  method RemoveSubscription(store: Store, subscription: Subscription) returns (r: Completion<Option<Subscription>>)
    modifies store
    ensures r.Normal? ==> r.value == None
    ensures !GetSubscriptions(old(store.entries)).JArray? ==> r == Throw(TypeError) && store.entries == old(store.entries)
    ensures GetSubscriptions(old(store.entries)).JArray? ==>
      var items := GetSubscriptions(old(store.entries)).items;
      match FindIndexById(items, subscription.id)
      case Found(i) =>
        && r == Normal(None)
        && store.entries == old(store.entries)[SubscriptionsKey := JArray(RemoveAt(items, i))]
      case NotFound => r == Normal(None) && store.entries == old(store.entries)
      case NullElement(_) => r == Throw(TypeError) && store.entries == old(store.entries)
  {
    var subscriptions := GetSubscriptions(store.entries);
    if !subscriptions.JArray? {
      return Throw(TypeError);
    }
    var search := FindIndexById(subscriptions.items, subscription.id);
    match search {
      case Found(i) =>
        store.Set(SubscriptionsKey, JArray(RemoveAt(subscriptions.items, i)));
      case NotFound =>
      case NullElement(_) =>
        return Throw(TypeError);
    }
    return Normal(None);
  }

  /** A created subscription is read back by `getSubscriptions` as the last
      element and parses to the returned record; the input it came from, with
      the id added, is exactly that record. */
  lemma {:induction false} CreatedSubscriptionReadBack(codes: seq<string>, entries: Contents, items: seq<Json>, input: SubscriptionInput, id: string)
    requires input.currency in codes
    ensures GetSubscriptions(entries[SubscriptionsKey := JArray(items + [EncodeSubscription(WithId(id, input))])])
      == JArray(items + [EncodeSubscription(WithId(id, input))])
    ensures ParseSubscription(codes, (items + [EncodeSubscription(WithId(id, input))])[|items|]) == Some(WithId(id, input))
  {
    SubscriptionRoundTrip(codes, WithId(id, input));
  }
}
