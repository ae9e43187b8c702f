/** The user profile and onboarding state (actions/user.ts): the display name,
    validated on write and on read; the onboarding flag; and the module's set of
    onboarding listeners, all notified when onboarding completes. */
module UserActions {
  import opened Js
  import opened Storage

  const UserNameKey := "user_name"
  const OnboardingCompleteKey := "onboarding_complete"

  /** The name schema: a string of 1 to 100 characters; nothing is trimmed. */
  predicate ValidUserName(name: string) {
    1 <= |name| <= 100
  }

  /** `setUserName`: a name outside the bounds throws "Invalid name" and writes
      nothing; otherwise the name is stored unchanged and returned. */
  method SetUserName(store: Store, name: string) returns (r: Completion<string>)
    modifies store
    ensures !ValidUserName(name) ==> r == Throw(InvalidName) && store.entries == old(store.entries)
    ensures ValidUserName(name) ==>
      r == Normal(name) && store.entries == old(store.entries)[UserNameKey := JString(name)]
  {
    if !ValidUserName(name) {
      return Throw(InvalidName);
    }
    store.Set(UserNameKey, JString(name));
    return Normal(name);
  }

  /** `getUserName`: null when nothing is stored, when the stored value is falsy,
      or when it is not a string of 1 to 100 characters. */
  function GetUserName(entries: Contents): (r: Option<string>)
    ensures r.Some? <==> UserNameKey in entries && entries[UserNameKey].JString? && ValidUserName(entries[UserNameKey].s)
    ensures r.Some? ==> entries[UserNameKey] == JString(r.value)
  {
    var stored := Get(entries, UserNameKey);
    if stored.None? || !Truthy(stored.value) then None
    else if stored.value.JString? && ValidUserName(stored.value.s) then Some(stored.value.s)
    else None
  }

  /** After a successful `setUserName(n)`, `getUserName()` returns `n`. */
  lemma UserNameRoundTrip(entries: Contents, name: string)
    requires ValidUserName(name)
    ensures GetUserName(entries[UserNameKey := JString(name)]) == Some(name)
  {
  }

  /** `isOnboardingComplete`: only the stored value `true` counts. */
  function IsOnboardingComplete(entries: Contents): (r: bool)
    ensures r <==> Get(entries, OnboardingCompleteKey) == Some(JBool(true))
  {
    var complete := Get(entries, OnboardingCompleteKey);
    complete.Some? && complete.value == JBool(true)
  }

  /** The identity of a listener callback. */
  type Listener = nat

  /** One call `listener(isComplete)`. */
  datatype Notification = Notification(listener: Listener, isComplete: bool)

  predicate NoDuplicates(ls: seq<Listener>) {
    forall i, j :: 0 <= i < j < |ls| ==> ls[i] != ls[j]
  }

  /** `Set.add`: appends a listener not yet present (iteration follows insertion
      order); a present one stays where it is. */
  function Added(ls: seq<Listener>, l: Listener): (r: seq<Listener>)
    ensures l in ls ==> r == ls
    ensures l !in ls ==> r == ls + [l]
    ensures NoDuplicates(ls) ==> NoDuplicates(r)
    ensures forall x :: x in r <==> x in ls || x == l
  {
    if l in ls then ls else ls + [l]
  }

  /** `Set.delete`: the listener goes; the others keep their order. */
  function Without(ls: seq<Listener>, l: Listener): (r: seq<Listener>)
    ensures forall x :: x in r <==> x in ls && x != l
    ensures NoDuplicates(ls) ==> NoDuplicates(r)
    ensures |r| <= |ls|
    ensures l !in ls ==> r == ls
  {
    if ls == [] then []
    else
      NoDuplicatesTail(ls);
      if ls[0] == l then Without(ls[1..], l)
      else [ls[0]] + Without(ls[1..], l)
  }

  /** Deleting from a concatenation deletes from each part. */
  lemma {:induction false} WithoutAppend(a: seq<Listener>, b: seq<Listener>, l: Listener)
    ensures Without(a + b, l) == Without(a, l) + Without(b, l)
  {
    if a == [] {
      assert a + b == b;
    } else {
      assert (a + b)[0] == a[0];
      assert (a + b)[1..] == a[1..] + b;
      WithoutAppend(a[1..], b, l);
    }
  }

  /** In a registry without duplicates, deleting a present listener cuts it out
      at its position and leaves the others in order. */
  lemma WithoutCutsOut(ls: seq<Listener>, l: Listener) returns (k: nat)
    requires NoDuplicates(ls) && l in ls
    ensures k < |ls| && ls[k] == l && Without(ls, l) == ls[..k] + ls[k + 1..]
  {
    k :| 0 <= k < |ls| && ls[k] == l;
    var before, after := ls[..k], ls[k + 1..];
    assert l !in before by {
      forall i | 0 <= i < |before|
        ensures before[i] != l
      {
        assert before[i] == ls[i];
      }
    }
    assert l !in after by {
      forall i | 0 <= i < |after|
        ensures after[i] != l
      {
        assert after[i] == ls[k + 1 + i];
      }
    }
    assert ls == before + ([l] + after);
    WithoutAppend(before, [l] + after, l);
    WithoutAppend([l], after, l);
    assert Without([l], l) == [];
  }

  lemma NoDuplicatesTail(ls: seq<Listener>)
    requires ls != []
    ensures NoDuplicates(ls) ==> NoDuplicates(ls[1..]) && ls[0] !in ls[1..]
  {
  }

  /** One call per listener, in iteration order, each with the same value. */
  function NotifyAll(ls: seq<Listener>, isComplete: bool): (r: seq<Notification>)
    ensures |r| == |ls|
    ensures forall i :: 0 <= i < |ls| ==> r[i] == Notification(ls[i], isComplete)
  {
    if ls == [] then [] else [Notification(ls[0], isComplete)] + NotifyAll(ls[1..], isComplete)
  }

  /** A listener removed by its unsubscribe function is not called by a later
      completion, and subscribing it a second time adds nothing. */
  lemma UnsubscribedListenerNotNotified(ls: seq<Listener>, l: Listener)
    ensures forall n :: n in NotifyAll(Without(ls, l), true) ==> n.listener != l
    ensures Added(Added(ls, l), l) == Added(ls, l)
  {
    var r := NotifyAll(Without(ls, l), true);
    forall n | n in r
      ensures n.listener != l
    {
      var i :| 0 <= i < |r| && r[i] == n;
      assert Without(ls, l)[i] in Without(ls, l);
    }
  }

  /** The module-level listener registry, `onboardingListeners`, with a record
      of the calls made to its listeners. */
  class Onboarding {
    var listeners: seq<Listener>
    var notifications: seq<Notification>

    ghost predicate Valid()
      reads this
    {
      NoDuplicates(listeners)
    }

    constructor ()
      ensures Valid() && listeners == [] && notifications == []
    {
      listeners := [];
      notifications := [];
    }

    /** `subscribeToOnboarding`: registers the listener. */
    method Subscribe(listener: Listener)
      requires Valid()
      modifies this
      ensures Valid()
      ensures listeners == Added(old(listeners), listener)
      ensures notifications == old(notifications)
    {
      listeners := Added(listeners, listener);
    }

    /** The function `subscribeToOnboarding` returns: unregisters the listener. */
    method Unsubscribe(listener: Listener)
      requires Valid()
      modifies this
      ensures Valid()
      ensures listeners == Without(old(listeners), listener)
      ensures listener !in listeners
      ensures notifications == old(notifications)
    {
      listeners := Without(listeners, listener);
    }

    /** `setOnboardingComplete`: stores `true`, then calls every registered
      listener with `true`, in order. */
    method SetOnboardingComplete(store: Store)
      requires Valid()
      modifies this, store
      ensures Valid() && listeners == old(listeners)
      ensures store.entries == old(store.entries)[OnboardingCompleteKey := JBool(true)]
      ensures IsOnboardingComplete(store.entries)
      ensures notifications == old(notifications) + NotifyAll(listeners, true)
    {
      store.Set(OnboardingCompleteKey, JBool(true));
      var i := 0;
      while i < |listeners|
        invariant 0 <= i <= |listeners|
        invariant listeners == old(listeners) && Valid()
        invariant store.entries == old(store.entries)[OnboardingCompleteKey := JBool(true)]
        invariant notifications == old(notifications) + NotifyAll(listeners[..i], true)
      {
        notifications := notifications + [Notification(listeners[i], true)];
        i := i + 1;
      }
      assert listeners[..i] == listeners;
    }
  }
}
