/**
 * Subscription lists (src/lib/server/db/subs.ts): for each subscription key the
 * persistent key-value store holds, under "sub:" + key, the list of subscribed
 * targets. Adding appends a target that is not yet listed; removing splices out the
 * first occurrence; a missing list reads as empty.
 */
module Subs {
  import opened Common

  type Subscriptions = seq<string>

  /** The store key of a subscription key. */
  function StoreKey(key: string): string {
    "sub:" + key
  }

  /** No target is listed twice. */
  predicate NoDuplicates(list: Subscriptions) {
    forall i, j :: 0 <= i < j < |list| ==> list[i] != list[j]
  }

  /** The list after `addSubscription`: unchanged when listed, else `target` appended. */
  function Added(list: Subscriptions, target: string): (r: Subscriptions)
    ensures target in r
    ensures target in list ==> r == list
    ensures target !in list ==> r == list + [target]
  {
    if target in list then list else list + [target]
  }

  /** The list after `removeSubscription`: the first occurrence spliced out, if any. */
  function Removed(list: Subscriptions, target: string): (r: Subscriptions)
    ensures target !in list ==> r == list
    ensures multiset(r) == multiset(list) - multiset{target}
    ensures target in list ==>
      var i := IndexOf(list, target);
      0 <= i && r == list[..i] + list[i + 1..]
  {
    var i := IndexOf(list, target);
    if i < 0 then list
    else
      assert list == list[..i] + [target] + list[i + 1..];
      list[..i] + list[i + 1..]
  }

  /** Adding never lists a target twice. */
  lemma AddedNoDuplicates(list: Subscriptions, target: string)
    requires NoDuplicates(list)
    ensures NoDuplicates(Added(list, target))
  {
  }

  /** On a list without duplicates, removing leaves the target unlisted. */
  lemma RemovedGone(list: Subscriptions, target: string)
    requires NoDuplicates(list)
    ensures target !in Removed(list, target)
    ensures NoDuplicates(Removed(list, target))
  {
    var i := IndexOf(list, target);
    if i >= 0 {
      var r := Removed(list, target);
      forall k | 0 <= k < |r| ensures r[k] != target {
        if k < i { assert r[k] == list[k]; } else { assert r[k] == list[k + 1]; }
      }
    }
  }

  /** Adding a new target and then removing it restores the list. */
  lemma AddThenRemove(list: Subscriptions, target: string)
    requires target !in list
    ensures Removed(Added(list, target), target) == list
  {
    var l := list + [target];
    assert IndexOf(l, target) == |list| by {
      assert l[..|list|] == list;
    }
    assert l[..|list|] == list;
  }

  /** The persistent store, restricted to the subscription entries. */
  class SubscriptionStore {
    var store: map<string, Subscriptions>

    constructor (initial: map<string, Subscriptions>)
      ensures store == initial
    {
      store := initial;
    }

    /** `getSubscriptions(key)`: the stored list, or [] when none is stored. */
    function Get(key: string): (r: Subscriptions)
      reads this
      ensures StoreKey(key) !in store ==> r == []
      ensures StoreKey(key) in store ==> r == store[StoreKey(key)]
    {
      var k := StoreKey(key);
      if k in store then store[k] else []
    }

    /** `addSubscription(key, target)`. */
    method Add(key: string, target: string)
      modifies this
      ensures StoreKey(key) !in old(store) ==> store == old(store)[StoreKey(key) := [target]]
      ensures StoreKey(key) in old(store) ==> store == old(store)[StoreKey(key) := Added(old(store)[StoreKey(key)], target)]
      ensures Get(key) == Added(old(Get(key)), target)
    {
      var k := StoreKey(key);
      if k !in store {
        store := store[k := [target]];
        return;
      }
      var result := store[k];
      if target in result {
        return;
      }
      result := result + [target];
      store := store[k := result];
    }

    /** `removeSubscription(key, target)`. */
    method Remove(key: string, target: string)
      modifies this
      ensures StoreKey(key) !in old(store) ==> store == old(store)
      ensures StoreKey(key) in old(store) && target !in old(store)[StoreKey(key)] ==> store == old(store)
      ensures StoreKey(key) in old(store) && target in old(store)[StoreKey(key)] ==>
        store == old(store)[StoreKey(key) := Removed(old(store)[StoreKey(key)], target)]
      ensures Get(key) == Removed(old(Get(key)), target)
    {
      var k := StoreKey(key);
      if k !in store {
        return;
      }
      var result := store[k];
      var index := IndexOf(result, target);
      if index < 0 {
        return;
      }
      result := result[..index] + result[index + 1..];
      store := store[k := result];
    }
  }
}
