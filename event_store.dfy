/**
 * `useEvent`: the current event, shared by every component through a
 * module-level value, a set of listeners, and `localStorage`.
 *
 * `localStorage` becomes the map `storage`; `typeof window === "undefined"`
 * (rendering on the server) becomes the flag `onServer`. A listener is known by
 * an identifier, and `notified` records every listener call in order.
 */
module EventStore {
  import opened Wrappers
  import opened Basics
  import opened Scramble

  /** The `localStorage` key under which the current event is kept. */
  const StorageKey: string := "speedcube:current-event"

  /**
   * `getStoredEvent`: the stored value when it is a non-empty listed event,
   * otherwise (nothing stored, an unknown value, or on the server) the default.
   */
  function StoredEvent(onServer: bool, storage: map<string, string>): (r: Event)
    ensures !onServer && StorageKey in storage && storage[StorageKey] in Events ==> r == storage[StorageKey]
    ensures onServer || StorageKey !in storage || storage[StorageKey] !in Events ==> r == DefaultEvent
  {
    if onServer then DefaultEvent
    else if StorageKey in storage && storage[StorageKey] != "" && storage[StorageKey] in Events then storage[StorageKey]
    else DefaultEvent
  }

  /**
   * The identity of a subscribed callback. The listeners are a JavaScript
   * `Set`: a `Distinct` sequence in insertion order.
   */
  type ListenerId = nat

  /** `s` without `x`, order kept: `Set.prototype.delete`. */
  function Remove(s: seq<ListenerId>, x: ListenerId): (r: seq<ListenerId>)
    ensures forall y :: y in r <==> y in s && y != x
    ensures |r| <= |s|
  {
    if s == [] then []
    else if s[0] == x then Remove(s[1..], x)
    else [s[0]] + Remove(s[1..], x)
  }

  lemma {:induction false} RemoveDistinct(s: seq<ListenerId>, x: ListenerId)
    requires Distinct(s)
    ensures Distinct(Remove(s, x))
  {
    if s != [] {
      RemoveDistinct(s[1..], x);
      if s[0] != x {
        var rest := Remove(s[1..], x);
        assert s[0] !in s[1..];
        assert s[0] !in rest;
        assert forall i :: 1 <= i < |[s[0]] + rest| ==> ([s[0]] + rest)[i] == rest[i - 1];
      }
    }
  }

  /** Removing an absent listener changes nothing. */
  lemma {:induction false} RemoveAbsent(s: seq<ListenerId>, x: ListenerId)
    requires x !in s
    ensures Remove(s, x) == s
  {
    if s != [] {
      RemoveAbsent(s[1..], x);
    }
  }

  class Store {
    /** `typeof window === "undefined"`: there is no storage and no storage event. */
    const onServer: bool
    var currentEvent: Event
    var listeners: seq<ListenerId>
    var storage: map<string, string>
    /** Every listener call, in order. */
    var notified: seq<ListenerId>

    ghost predicate Valid()
      reads this
    {
      Distinct(listeners)
    }

    /** Loading the module: read the stored event once; no listeners yet. */
    constructor(onServer: bool, storage: map<string, string>)
      ensures Valid()
      ensures this.onServer == onServer && this.storage == storage
      ensures currentEvent == StoredEvent(onServer, storage)
      ensures listeners == [] && notified == []
    {
      this.onServer := onServer;
      this.storage := storage;
      currentEvent := StoredEvent(onServer, storage);
      listeners := [];
      notified := [];
    }

    /** The snapshot `useSyncExternalStore` reads in the browser. */
    function Snapshot(): Event
      reads this
    {
      currentEvent
    }

    /** The snapshot on the server is always the default event. */
    function ServerSnapshot(): Event {
      DefaultEvent
    }

    /**
     * `setEventValue`: nothing at all when the event is already current.
     * Otherwise make it current, write it to storage (not on the server), and
     * call every listener once, in subscription order.
     */
    method SetEventValue(newEvent: Event)
      requires Valid()
      modifies this
      ensures Valid()
      ensures old(currentEvent) == newEvent ==>
                storage == old(storage) && notified == old(notified) && currentEvent == old(currentEvent)
      ensures old(currentEvent) != newEvent ==> currentEvent == newEvent && notified == old(notified) + listeners
      ensures old(currentEvent) != newEvent && !onServer ==> storage == old(storage)[StorageKey := newEvent]
      ensures onServer ==> storage == old(storage)
      ensures listeners == old(listeners)
    {
      if currentEvent == newEvent {
        return;
      }
      currentEvent := newEvent;
      if !onServer {
        storage := storage[StorageKey := newEvent];
      }
      ghost var written := storage;
      var i := 0;
      while i < |listeners|
        invariant 0 <= i <= |listeners|
        invariant notified == old(notified) + listeners[..i]
        invariant listeners == old(listeners) && currentEvent == newEvent && storage == written
      {
        notified := notified + [listeners[i]];
        i := i + 1;
      }
    }

    /** `subscribe`: add the listener; adding one already there changes nothing. */
    method Subscribe(listener: ListenerId)
      requires Valid()
      modifies this
      ensures Valid()
      ensures listener in old(listeners) ==> listeners == old(listeners)
      ensures listener !in old(listeners) ==> listeners == old(listeners) + [listener]
      ensures currentEvent == old(currentEvent) && storage == old(storage) && notified == old(notified)
    {
      if listener !in listeners {
        listeners := listeners + [listener];
      }
    }

    /** The function `subscribe` returns: remove that listener and no other. */
    method Unsubscribe(listener: ListenerId)
      requires Valid()
      modifies this
      ensures Valid()
      ensures listeners == Remove(old(listeners), listener)
      ensures listener !in listeners
      ensures forall other :: other != listener ==> (other in listeners <==> other in old(listeners))
      ensures currentEvent == old(currentEvent) && storage == old(storage) && notified == old(notified)
    {
      RemoveDistinct(listeners, listener);
      listeners := Remove(listeners, listener);
    }

    /**
     * A `storage` event (only in the browser): another tab has already changed
     * the shared `localStorage` — set `key` to `newValue`, removed `key`
     * (`newValue` none), or cleared everything (`key` none) — and this tab's
     * `storage` shows that write. The handler then ignores other keys, a
     * removed or empty value and a value that is not an event, and sets a
     * valid event, writing back the value that is already there.
     */
    method OnStorage(key: Option<string>, newValue: Option<string>)
      requires Valid()
      modifies this
      ensures Valid()
      ensures onServer ==> storage == old(storage)
      ensures !onServer && key.None? ==> storage == map[]
      ensures !onServer && key.Some? && newValue.None? ==> storage == old(storage) - {key.value}
      ensures !onServer && key.Some? && newValue.Some? ==> storage == old(storage)[key.value := newValue.value]
      ensures onServer || key != Some(StorageKey) || newValue.None? || newValue.value !in Events ==>
                currentEvent == old(currentEvent) && notified == old(notified)
      ensures !onServer && key == Some(StorageKey) && newValue.Some? && newValue.value in Events ==>
                currentEvent == newValue.value
      ensures !onServer && key == Some(StorageKey) && newValue.Some? && newValue.value in Events
              && newValue.value != old(currentEvent) ==>
                notified == old(notified) + listeners
      ensures !onServer && key == Some(StorageKey) && newValue.Some? && newValue.value in Events
              && newValue.value == old(currentEvent) ==>
                notified == old(notified)
      ensures listeners == old(listeners)
    {
      if onServer {
        return;
      }
      match key {
        case None => storage := map[];
        case Some(k) =>
          storage := if newValue.None? then storage - {k} else storage[k := newValue.value];
      }
      if key != Some(StorageKey) {
        return;
      }
      match newValue {
        case None =>
        case Some(value) =>
          if value != "" && value in Events {
            SetEventValue(value);
          }
      }
    }
  }

  /**
   * Another tab removes the stored event: this tab's storage no longer holds
   * it, while the current event and the listeners stay as they were.
   */
  method OtherTabRemovesEvent(stored: map<string, string>) returns (keyKept: bool, event: Event, notified: seq<ListenerId>)
    ensures !keyKept
    ensures event == StoredEvent(false, stored) && notified == []
  {
    var store := new Store(false, stored);
    store.Subscribe(0);
    store.OnStorage(Some(StorageKey), None);
    keyKept, event, notified := StorageKey in store.storage, store.currentEvent, store.notified;
  }

  /**
   * Two subscribers, one of which unsubscribes: a change of event calls the
   * remaining one exactly once, and setting the same event again calls nobody.
   */
  method NotifyRemaining(a: ListenerId, b: ListenerId) returns (notified: seq<ListenerId>, stored: Option<string>)
    requires a != b
    ensures notified == [b]
    ensures stored == Some("444")
  {
    var store := new Store(false, map[]);
    store.Subscribe(a);
    store.Subscribe(b);
    store.Unsubscribe(a);
    store.SetEventValue("444");
    store.SetEventValue("444");
    notified := store.notified;
    stored := if StorageKey in store.storage then Some(store.storage[StorageKey]) else None;
  }
}
