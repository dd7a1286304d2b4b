// The caching registry client of configuration/client.go: Get, handleChange with the namespace
// overlay, and the notification of change handlers.
module RegistryClient {
  import opened Options
  import opened Ordering
  import opened RegistryLog

  datatype CacheKey = CacheKey(key: string, format: string)

  // The server's answer to a lookup.
  datatype Entry = Entry(value: string, format: string, secret: bool, namespace: string)

  datatype CachedEntry = CachedEntry(value: string, format: string, secret: bool, sourceNS: string)

  type Cache = map<CacheKey, CachedEntry>

  // A change of one cached entry, as it is reported to the handlers of its key.
  datatype Note = Note(key: string, oldValue: string, newValue: string)

  // Handlers are known by a number; a call is one invocation of a handler.
  type Handlers = map<string, seq<nat>>

  datatype Call = Call(handler: nat, key: string, oldValue: string, newValue: string)

  // The last branch of the source never decides: a key that equals the event's has matched before.
  predicate KeyMatches(ck: CacheKey, eventKey: string): (matches: bool)
    ensures matches <==> eventKey == ck.key || (ck.format != "" && eventKey == ck.key + "." + ck.format)
  {
    if ck.key == eventKey then true
    else if ck.format != "" && ck.key + "." + ck.format == eventKey then true
    else ck.format != "" && ck.key == eventKey
  }

  // What an event for its key makes of a cached entry; None when the entry is invalidated.
  function Changed(ns: string, cached: CachedEntry, e: Event): Option<CachedEntry> {
    if e.action == "set" then
      if e.namespace == ns && ns != "" then Some(cached.(value := e.value, sourceNS := e.namespace))
      else if e.namespace == "" && cached.sourceNS == "" then Some(cached.(value := e.value))
      else Some(cached)
    else if e.action == "delete" && e.namespace == cached.sourceNS then None
    else Some(cached)
  }

  function AfterEvent(ns: string, ck: CacheKey, cached: CachedEntry, e: Event): Option<CachedEntry> {
    if KeyMatches(ck, e.key) then Changed(ns, cached, e) else Some(cached)
  }

  function UpdatedCache(ns: string, cache: Cache, e: Event): Cache {
    map ck | ck in cache && AfterEvent(ns, ck, cache[ck], e).Some? :: AfterEvent(ns, ck, cache[ck], e).value
  }

  // A cached entry after a stretch of events; None once it has been invalidated.
  function Replay(ns: string, ck: CacheKey, cached: CachedEntry, events: seq<Event>): Option<CachedEntry> {
    if events == [] then Some(cached)
    else
      var n := |events| - 1;
      var before := Replay(ns, ck, cached, events[..n]);
      if before.None? then None else AfterEvent(ns, ck, before.value, events[n])
  }

  // The notification, if any, that an event yields for one cached entry.
  function NoteOf(ns: string, ck: CacheKey, cached: CachedEntry, e: Event): seq<Note> {
    if !KeyMatches(ck, e.key) then []
    else
      var after := Changed(ns, cached, e);
      if (after.Some? && after.value.value != cached.value) || e.action == "delete"
      then [Note(ck.key, cached.value, e.value)]
      else []
  }

  // The notifications when the cache is walked in the given order.
  function Notes(ns: string, cache: Cache, order: seq<CacheKey>, e: Event): seq<Note>
    requires forall ck :: ck in order ==> ck in cache
  {
    if order == [] then []
    else
      var n := |order| - 1;
      Notes(ns, cache, order[..n], e) + NoteOf(ns, order[n], cache[order[n]], e)
  }

  // order lists every key of the cache once: the way a walk over a Go map may go.
  ghost predicate IsWalk(order: seq<CacheKey>, cache: Cache) {
    Distinct(order) && forall ck :: ck in order <==> ck in cache
  }

  function Fire(handlers: seq<nat>, note: Note): seq<Call> {
    seq(|handlers|, i requires 0 <= i < |handlers| => Call(handlers[i], note.key, note.oldValue, note.newValue))
  }

  function HandlersOf(handlers: Handlers, key: string): seq<nat> {
    if key in handlers then handlers[key] else []
  }

  function FireAll(handlers: Handlers, notes: seq<Note>): seq<Call> {
    if notes == [] then []
    else
      var n := |notes| - 1;
      FireAll(handlers, notes[..n]) + Fire(HandlersOf(handlers, notes[n].key), notes[n])
  }

  predicate Notified(notes: seq<Note>, key: string) {
    exists i :: 0 <= i < |notes| && notes[i].key == key
  }

  // All handler calls that one event causes.
  function Calls(handlers: Handlers, notes: seq<Note>, e: Event): seq<Call> {
    FireAll(handlers, notes)
    + if HandlersOf(handlers, e.key) != [] && !Notified(notes, e.key)
      then Fire(HandlersOf(handlers, e.key), Note(e.key, "", e.value)) else []
  }

  class Client {
    const namespace: string
    var cache: Cache
    var handlers: Handlers
    var subscribed: set<CacheKey>
    // every handler call so far, in order
    var calls: seq<Call>

    constructor (namespace: string)
      ensures this.namespace == namespace
      ensures cache == map[] && handlers == map[] && subscribed == {} && calls == []
    {
      this.namespace := namespace;
      cache, handlers, subscribed, calls := map[], map[], {}, [];
    }

    // response is what a fetch of the key would return now, None for a failed fetch.
    method Get(key: string, format: string, response: Option<Entry>) returns (r: Option<string>)
      modifies this
      ensures var ck := CacheKey(key, format);
        if ck in old(cache) then
          r == Some(old(cache)[ck].value) && cache == old(cache) && subscribed == old(subscribed)
        else if response.None? then
          r == None && cache == old(cache) && subscribed == old(subscribed)
        else
          && r == Some(response.value.value)
          && cache == old(cache)[ck := CachedEntry(response.value.value, response.value.format,
                                                   response.value.secret, response.value.namespace)]
          && subscribed == old(subscribed) + {ck}
      ensures handlers == old(handlers) && calls == old(calls)
    {
      var ck := CacheKey(key, format);
      if ck in cache {
        return Some(cache[ck].value);
      }
      if response.None? {
        return None;
      }
      var entry := response.value;
      cache := cache[ck := CachedEntry(entry.value, entry.format, entry.secret, entry.namespace)];
      Subscribe(ck);
      return Some(entry.value);
    }

    method Subscribe(ck: CacheKey)
      modifies this`subscribed
      ensures subscribed == old(subscribed) + {ck}
    {
      if ck in subscribed {
        return;
      }
      subscribed := subscribed + {ck};
    }

    method OnChange(key: string, handler: nat)
      modifies this
      ensures handlers == old(handlers)[key :=
        (if key in old(handlers) then old(handlers)[key] else []) + [handler]]
      ensures subscribed == old(subscribed) + {CacheKey(key, "")}
      ensures cache == old(cache) && calls == old(calls)
    {
      handlers := handlers[key := HandlersOf(handlers, key) + [handler]];
      Subscribe(CacheKey(key, ""));
    }

    // handleChange: the walk over the cache, under the lock, then the calls of the handlers.
    // The walk takes the entries in an order the source does not control.
    method HandleChange(event: Event) returns (ghost order: seq<CacheKey>)
      modifies this
      ensures IsWalk(order, old(cache))
      ensures cache == UpdatedCache(namespace, old(cache), event)
      ensures calls == old(calls) + Calls(handlers, Notes(namespace, old(cache), order, event), event)
      ensures handlers == old(handlers) && subscribed == old(subscribed)
    {
      var notifications: seq<Note>;
      notifications, order := UpdateEntries(event);
      NotifyHandlers(event, notifications);
    }

    method UpdateEntries(event: Event) returns (notifications: seq<Note>, ghost order: seq<CacheKey>)
      modifies this`cache
      ensures IsWalk(order, old(cache))
      ensures cache == UpdatedCache(namespace, old(cache), event)
      ensures notifications == Notes(namespace, old(cache), order, event)
    {
      notifications := [];
      var todo := cache.Keys;
      order := [];
      ghost var updated := UpdatedCache(namespace, cache, event);
      while todo != {}
        invariant todo <= old(cache).Keys
        invariant Distinct(order) && forall ck :: ck in order <==> ck in old(cache) && ck !in todo
        invariant forall ck :: ck in todo ==> ck in cache && cache[ck] == old(cache)[ck]
        invariant forall ck :: ck in order ==>
          (ck in cache <==> ck in updated) && (ck in cache ==> cache[ck] == updated[ck])
        invariant cache.Keys <= old(cache).Keys
        invariant notifications == Notes(namespace, old(cache), order, event)
      {
        var ck :| ck in todo;
        todo := todo - {ck};
        var more := ChangeEntry(ck, event);
        assert (order + [ck])[..|order|] == order;
        order := order + [ck];
        notifications := notifications + more;
      }
    }

    // One turn of the walk.
    method ChangeEntry(ck: CacheKey, event: Event) returns (notifications: seq<Note>)
      requires ck in cache
      modifies this`cache
      ensures var after := AfterEvent(namespace, ck, old(cache)[ck], event);
        cache == if after.Some? then old(cache)[ck := after.value] else old(cache) - {ck}
      ensures notifications == NoteOf(namespace, ck, old(cache)[ck], event)
    {
      if !KeyMatches(ck, event.key) {
        return [];
      }
      var cached := cache[ck];
      var oldValue := cached.value;
      if event.action == "set" {
        if event.namespace == namespace && namespace != "" {
          cached := cached.(value := event.value, sourceNS := event.namespace);
          cache := cache[ck := cached];
        } else if event.namespace == "" {
          if cached.sourceNS == "" {
            cached := cached.(value := event.value);
            cache := cache[ck := cached];
          }
        }
      } else if event.action == "delete" {
        if event.namespace == cached.sourceNS {
          cache := cache - {ck};
        }
      }
      notifications := [];
      if cached.value != oldValue || event.action == "delete" {
        notifications := [Note(ck.key, oldValue, event.value)];
      }
    }

    method NotifyHandlers(event: Event, notifications: seq<Note>)
      modifies this`calls
      ensures calls == old(calls) + Calls(handlers, notifications, event)
    {
      for i := 0 to |notifications|
        invariant calls == old(calls) + FireAll(handlers, notifications[..i])
      {
        assert notifications[..i + 1][..i] == notifications[..i];
        FireHandlers(notifications[i]);
      }
      assert notifications[..|notifications|] == notifications;
      if HandlersOf(handlers, event.key) != [] {
        var alreadyNotified := false;
        for i := 0 to |notifications|
          invariant !alreadyNotified && !Notified(notifications[..i], event.key)
        {
          if notifications[i].key == event.key {
            alreadyNotified := true;
            break;
          }
        }
        if !alreadyNotified {
          FireHandlers(Note(event.key, "", event.value));
        }
      }
    }

    method FireHandlers(note: Note)
      modifies this`calls
      ensures calls == old(calls) + Fire(HandlersOf(handlers, note.key), note)
    {
      var hs := HandlersOf(handlers, note.key);
      for i := 0 to |hs|
        invariant calls == old(calls) + Fire(hs, note)[..i]
      {
        calls := calls + [Call(hs[i], note.key, note.oldValue, note.newValue)];
      }
    }
  }

  // --- What an event does to an entry ---

  // An entry leaves the cache on an event if and only if the event is a delete for it from the
  // namespace the entry came from.
  lemma LeavesCacheIff(ns: string, cache: Cache, e: Event, ck: CacheKey)
    requires ck in cache
    ensures ck !in UpdatedCache(ns, cache, e) <==>
      && e.action == "delete" && e.namespace == cache[ck].sourceNS
      && (e.key == ck.key || (ck.format != "" && e.key == ck.key + "." + ck.format))
  {
  }

  // An entry that stays takes the value of a set event for it from the client's own namespace, or
  // from the global one if it came from there; nothing else changes.
  lemma StaysInCache(ns: string, cache: Cache, e: Event, ck: CacheKey)
    requires ck in UpdatedCache(ns, cache, e)
    ensures ck in cache
    ensures var before, after := cache[ck], UpdatedCache(ns, cache, e)[ck];
      var isFor := e.action == "set"
        && (e.key == ck.key || (ck.format != "" && e.key == ck.key + "." + ck.format));
      && after.format == before.format && after.secret == before.secret
      && (isFor && ns != "" && e.namespace == ns ==> after.value == e.value && after.sourceNS == ns)
      && (isFor && e.namespace == "" && before.sourceNS == "" ==> after.value == e.value && after.sourceNS == "")
      && (!isFor || (e.namespace != "" && e.namespace != ns) || (e.namespace == "" && before.sourceNS != "") ==>
            after == before)
  {
  }

  // Each handler is called once, in order.
  lemma FireEach(handlers: seq<nat>, note: Note)
    ensures |Fire(handlers, note)| == |handlers|
    ensures forall k :: 0 <= k < |handlers| ==>
      Fire(handlers, note)[k] == Call(handlers[k], note.key, note.oldValue, note.newValue)
  {
  }

  // What Get stores for a fetched entry.
  function Stored(entry: Entry): CachedEntry {
    CachedEntry(entry.value, entry.format, entry.secret, entry.namespace)
  }
}
