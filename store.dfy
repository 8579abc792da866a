/** The observable state store of MiniFrame (`state` in bin/miniframe.js):
    one shared mapping from keys to values, replaced by a shallow merge on
    every update, and an ordered list of subscribers notified after each
    update. Subscribers are callback references; here each is an id, and a
    notification is recorded rather than executed. */
module StateStore {
  import opened Seqs

  /** A subscriber callback, compared by reference identity (`indexOf`). */
  type SubscriberId = nat

  /** One call `cb(this._state)` made by `setState`. */
  datatype Notification<V> = Notification(subscriber: SubscriberId, state: map<string, V>)

  /** The closure returned by `subscribe`; it remembers its callback. */
  datatype Unsubscriber = Unsubscriber(callback: SubscriberId)

  /** `{ ...current, ...update }`: keys of `update` win, every other key keeps its value. */
  function Merge<V>(current: map<string, V>, update: map<string, V>): (r: map<string, V>)
    ensures r.Keys == current.Keys + update.Keys
    ensures forall k :: k in update ==> r[k] == update[k]
    ensures forall k :: k in current && k !in update ==> r[k] == current[k]
  {
    current + update
  }

  /** The state of a new store after the updates `us`, applied in order. */
  function MergeAll<V>(us: seq<map<string, V>>): map<string, V>
  {
    if us == [] then map[] else Merge(MergeAll(us[..|us| - 1]), us[|us| - 1])
  }

  /** The index of the last update that mentions `k`, or -1 when none does. */
  function LastWith<V>(us: seq<map<string, V>>, k: string): (i: int)
    ensures -1 <= i < |us|
    ensures i == -1 <==> forall j :: 0 <= j < |us| ==> k !in us[j]
    ensures 0 <= i ==> k in us[i] && forall j :: i < j < |us| ==> k !in us[j]
  {
    if us == [] then -1
    else if k in us[|us| - 1] then |us| - 1
    else LastWith(us[..|us| - 1], k)
  }

  /** After any sequence of updates a key is present exactly when some update
      set it, and its value is the one from the last update that did. */
  lemma {:induction false} MergeAllLastWins<V>(us: seq<map<string, V>>, k: string)
    ensures k in MergeAll(us) <==> LastWith(us, k) >= 0
    ensures LastWith(us, k) >= 0 ==> MergeAll(us)[k] == us[LastWith(us, k)][k]
  {
    if us != [] {
      MergeAllLastWins(us[..|us| - 1], k);
    }
  }

  /** The notifications `forEach(cb => cb(state))` makes, in list order. */
  function Broadcast<V>(subscribers: seq<SubscriberId>, state: map<string, V>): seq<Notification<V>>
  {
    seq(|subscribers|, i requires 0 <= i < |subscribers| => Notification(subscribers[i], state))
  }

  /** The notification loop of `setState`: each subscriber exactly once, in
      order, each given the new state. */
  method Notify<V>(subscribers: seq<SubscriberId>, state: map<string, V>)
    returns (calls: seq<Notification<V>>)
    ensures |calls| == |subscribers|
    ensures forall i :: 0 <= i < |calls| ==> calls[i].subscriber == subscribers[i] && calls[i].state == state
  {
    calls := [];
    var i := 0;
    while i < |subscribers|
      invariant 0 <= i <= |subscribers|
      invariant |calls| == i
      invariant forall j :: 0 <= j < i ==> calls[j] == Notification(subscribers[j], state)
    {
      calls := calls + [Notification(subscribers[i], state)];
      i := i + 1;
    }
  }

  /** `_subscribers.indexOf(x)`: the first position holding `x`, or -1. */
  function IndexOf(s: seq<SubscriberId>, x: SubscriberId): (i: int)
    ensures -1 <= i < |s|
    ensures i == -1 <==> x !in s
    ensures 0 <= i ==> s[i] == x && x !in s[..i]
  {
    if s == [] then -1
    else if s[0] == x then 0
    else
      var j := IndexOf(s[1..], x);
      if j == -1 then -1 else j + 1
  }

  /** The effect of the unsubscribe closure on the subscriber list. */
  function RemoveFirst(s: seq<SubscriberId>, x: SubscriberId): seq<SubscriberId>
  {
    var i := IndexOf(s, x);
    if i > -1 then s[..i] + s[i + 1..] else s
  }

  /** Unsubscribing removes one occurrence of the callback, nothing else, and
      keeps the order of the other subscribers. */
  lemma RemoveFirstRemovesOne(s: seq<SubscriberId>, x: SubscriberId)
    ensures multiset(RemoveFirst(s, x)) == multiset(s) - multiset{x}
    ensures x !in s ==> RemoveFirst(s, x) == s
    ensures Subsequence(RemoveFirst(s, x), s)
  {
    var i := IndexOf(s, x);
    if i > -1 {
      DropOneMultiset(s, i);
      DropOneIsSubsequence(s, i);
    } else {
      SelfSubsequence(s);
    }
  }

  lemma DropOneMultiset(s: seq<SubscriberId>, i: nat)
    requires i < |s|
    ensures multiset(s[..i] + s[i + 1..]) == multiset(s) - multiset{s[i]}
  {
    assert s == s[..i] + [s[i]] + s[i + 1..];
  }

  lemma {:induction false} SelfSubsequence(s: seq<SubscriberId>)
    ensures Subsequence(s, s)
  {
    if s != [] {
      SelfSubsequence(s[1..]);
    }
  }

  lemma {:induction false} DropOneIsSubsequence(s: seq<SubscriberId>, i: nat)
    requires i < |s|
    ensures Subsequence(s[..i] + s[i + 1..], s)
  {
    if i == 0 {
      assert s[..0] + s[1..] == s[1..];
      SelfSubsequence(s[1..]);
    } else {
      DropOneIsSubsequence(s[1..], i - 1);
      var r := s[..i] + s[i + 1..];
      assert r[0] == s[0];
      assert r[1..] == s[1..][..i - 1] + s[1..][i..];
    }
  }

  /** A callback subscribed exactly once is gone after its unsubscribe
      closure runs, so later updates do not notify it. */
  lemma UnsubscribedIsNotNotified<V>(s: seq<SubscriberId>, x: SubscriberId, state: map<string, V>)
    requires multiset(s)[x] == 1
    ensures x !in RemoveFirst(s, x)
    ensures forall n :: n in Broadcast(RemoveFirst(s, x), state) ==> n.subscriber != x
  {
    RemoveFirstRemovesOne(s, x);
    assert multiset(RemoveFirst(s, x))[x] == 0;
  }

  /** Subscribe-then-unsubscribe restores the list, and a second call of the
      same closure changes nothing. */
  lemma UnsubscribeTwiceIsHarmless(s: seq<SubscriberId>, x: SubscriberId)
    requires x !in s
    ensures RemoveFirst(s + [x], x) == s
    ensures RemoveFirst(RemoveFirst(s + [x], x), x) == s
  {
    assert IndexOf(s + [x], x) == |s| by {
      assert (s + [x])[|s|] == x;
      assert (s + [x])[..|s|] == s;
    }
    assert (s + [x])[..|s|] == s;
    RemoveFirstRemovesOne(s, x);
  }

  /** The store object: `_state` and `_subscribers`. */
  class Store<V> {
    var state: map<string, V>
    var subscribers: seq<SubscriberId>

    constructor ()
      ensures state == map[] && subscribers == []
    {
      state := map[];
      subscribers := [];
    }

    /** Replaces the state by its merge with `update`, then notifies every subscriber. */
    method SetState(update: map<string, V>) returns (calls: seq<Notification<V>>)
      modifies this
      ensures state == Merge(old(state), update)
      ensures subscribers == old(subscribers)
      ensures calls == Broadcast(subscribers, state)
    {
      state := state + update;
      calls := Notify(subscribers, state);
    }

    /** A shallow copy of the state: a map value, so no later change made by
        the caller to what it received can reach the store. */
    method GetState() returns (copy: map<string, V>)
      ensures copy == state
    {
      copy := state;
    }

    /** Appends `callback`; the result stands for the unsubscribe closure. */
    method Subscribe(callback: SubscriberId) returns (unsubscribe: Unsubscriber)
      modifies this
      ensures subscribers == old(subscribers) + [callback]
      ensures state == old(state)
      ensures unsubscribe.callback == callback
    {
      subscribers := subscribers + [callback];
      unsubscribe := Unsubscriber(callback);
    }

    /** Runs an unsubscribe closure: removes the first entry equal to its callback, if any. */
    method Unsubscribe(unsubscribe: Unsubscriber)
      modifies this
      ensures subscribers == RemoveFirst(old(subscribers), unsubscribe.callback)
      ensures state == old(state)
    {
      var index := IndexOf(subscribers, unsubscribe.callback);
      if index > -1 {
        subscribers := subscribers[..index] + subscribers[index + 1..];
      }
    }
  }

  /** What `getState()` returns after the updates `us` on a new store. */
  method StateAfterUpdates<V>(us: seq<map<string, V>>) returns (s: map<string, V>)
    ensures s == MergeAll(us)
  {
    var store := new Store<V>();
    var i := 0;
    while i < |us|
      invariant 0 <= i <= |us|
      invariant store.state == MergeAll(us[..i])
    {
      assert us[..i + 1][..i] == us[..i];
      var _ := store.SetState(us[i]);
      i := i + 1;
    }
    assert us[..|us|] == us;
    s := store.GetState();
  }
}
