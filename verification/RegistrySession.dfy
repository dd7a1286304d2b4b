// The registry client class at work: after any session of published settings, deliveries and
// reads, a read gives what the server holds once every event has been delivered.
module RegistrySession {
  import opened Options
  import opened RegistryLog
  import opened RegistryClient
  import opened RegistryCoherence

  // Something changes at the server, the next event reaches the client, or a key is read.
  datatype Action = Publish(e: Event) | DeliverNext | Read(key: string)

  function Published(actions: seq<Action>): seq<Event> {
    if actions == [] then []
    else
      var n := |actions| - 1;
      Published(actions[..n]) + if actions[n].Publish? then [actions[n].e] else []
  }

  // The server's answer to a lookup without a format.
  function Answer(initial: Store, log: seq<Event>, ns: string, key: string): Option<Entry> {
    var r := Overlay(StoreAfter(initial, log), ns, key);
    if r.Some? then Some(Entry(r.value.value, "", false, r.value.sourceNS)) else None
  }

  // The client is the client of w, in which nothing is outdated or under way.
  ghost predicate IsClientOf(client: Client, w: World)
    reads client
  {
    && client.namespace == w.ns && client.cache == w.cache
    && Inv(w) && w.pending == [] && w.stale == {}
  }

  // A lookup that nothing comes between, as two steps of the run.
  lemma LookupKeepsInv(w: World, ck: CacheKey, entry: Entry) returns (w': World)
    requires Inv(w) && w.pending == [] && w.stale == {} && Answers(w, ck, entry)
    ensures w' == w.(cache := w.cache[ck := Stored(entry)], fetchedAt := w.fetchedAt[ck := |w.log|])
    ensures Inv(w')
  {
    var p := Pending(ck, entry, |w.log|);
    var begun := w.(pending := [p]);
    assert w.pending + [p] == [p];
    BeginKeepsInv(w, ck, entry, begun);
    NothingBetween(begun, p);
    w' := w.(cache := w.cache[ck := Stored(entry)], fetchedAt := w.fetchedAt[ck := |w.log|]);
    assert [p][..0] + [p][1..] == [];
    assert {} - {ck} == {};
    EndKeepsInv(begun, 0, w');
  }

  method Lookup(client: Client, initial: Store, log: seq<Event>, key: string, ghost w: World)
    returns (got: Option<string>, ghost w': World)
    requires IsClientOf(client, w) && w.initial == initial && w.log == log
    modifies client
    ensures IsClientOf(client, w')
    ensures w'.ns == w.ns && w'.initial == initial && w'.log == log && w'.applied == w.applied
    ensures w.applied == |log| ==>
      got == var r := Overlay(StoreAfter(initial, log), w.ns, key); if r.Some? then Some(r.value.value) else None
  {
    var ck := CacheKey(key, "");
    var answer := Answer(initial, log, client.namespace, key);
    w' := w;
    if ck in w.cache {
      assert EntryInv(w, ck);
      assert log[..|log|] == log;
    } else if answer.Some? {
      w' := LookupKeepsInv(w, ck, answer.value);
    }
    got := client.Get(key, "", answer);
  }

  method Deliver(client: Client, e: Event, ghost w: World) returns (ghost w': World)
    requires IsClientOf(client, w) && w.applied < |w.log| && e == w.log[w.applied]
    modifies client
    ensures IsClientOf(client, w')
    ensures w'.ns == w.ns && w'.initial == w.initial && w'.log == w.log && w'.applied == w.applied + 1
  {
    w' := w.(applied := w.applied + 1, cache := UpdatedCache(w.ns, w.cache, e));
    assert StillStale(w) == {};
    DeliverKeepsInv(w, w');
    ghost var order := client.HandleChange(e);
  }

  method ReadAfterSession(ns: string, initial: Store, actions: seq<Action>, key: string) returns (got: Option<string>)
    ensures var store := StoreAfter(initial, Published(actions));
      got == if ns != "" && Slot(ns, key) in store then Some(store[Slot(ns, key)])
             else if Slot("", key) in store then Some(store[Slot("", key)])
             else None
  {
    var client := new Client(ns);
    var log: seq<Event> := [];
    var applied := 0;
    ghost var w := World(ns, initial, [], 0, map[], [], map[], {});
    for i := 0 to |actions|
      invariant fresh(client) && IsClientOf(client, w)
      invariant w.ns == ns && w.initial == initial && w.log == log && w.applied == applied
      invariant log == Published(actions[..i])
    {
      assert actions[..i + 1][..i] == actions[..i];
      match actions[i]
      case Publish(e) =>
        ghost var before := w;
        log := log + [e];
        w := w.(log := log);
        EmitKeepsInv(before, e, w);
      case DeliverNext =>
        if applied < |log| {
          w := Deliver(client, log[applied], w);
          applied := applied + 1;
        }
      case Read(k) =>
        var ignored;
        ignored, w := Lookup(client, initial, log, k, w);
    }
    assert actions[..|actions|] == actions;
    while applied < |log|
      invariant fresh(client) && IsClientOf(client, w)
      invariant w.ns == ns && w.initial == initial && w.log == log && w.applied == applied
    {
      w := Deliver(client, log[applied], w);
      applied := applied + 1;
    }
    got, w := Lookup(client, initial, log, key, w);
  }
}
