// The registry client class at work: what its handlers are called with over a whole session of
// change events, with lookups in between.
module RegistryHandlerSession {
  import opened Options
  import opened Ordering
  import opened RegistryLog
  import opened RegistryClient
  import opened RegistryNotifications

  // An event is handled, or a key is looked up when a fetch would give this answer.
  datatype SessionStep = Change(e: Event) | Look(ck: CacheKey, answer: Option<Entry>)

  function CacheStep(ns: string, cache: Cache, s: SessionStep): Cache {
    match s
    case Change(e) => UpdatedCache(ns, cache, e)
    case Look(ck, answer) => if ck in cache || answer.None? then cache else cache[ck := Stored(answer.value)]
  }

  function CacheAfter(ns: string, cache: Cache, steps: seq<SessionStep>): Cache {
    if steps == [] then cache
    else CacheStep(ns, CacheAfter(ns, cache, steps[..|steps| - 1]), steps[|steps| - 1])
  }

  // The same for one key of the cache; None while it is not cached.
  function EntryStep(ns: string, ck: CacheKey, cached: Option<CachedEntry>, s: SessionStep): Option<CachedEntry> {
    match s
    case Change(e) => if cached.None? then None else AfterEvent(ns, ck, cached.value, e)
    case Look(other, answer) =>
      if other == ck && cached.None? && answer.Some? then Some(Stored(answer.value)) else cached
  }

  function EntryAfter(ns: string, ck: CacheKey, cached: Option<CachedEntry>, steps: seq<SessionStep>)
    : Option<CachedEntry>
  {
    if steps == [] then cached
    else EntryStep(ns, ck, EntryAfter(ns, ck, cached, steps[..|steps| - 1]), steps[|steps| - 1])
  }

  // Each entry of the cache goes its own way.
  lemma {:induction false} EntryGoesItsWay(ns: string, cache: Cache, steps: seq<SessionStep>, ck: CacheKey)
    ensures EntryAt(CacheAfter(ns, cache, steps), ck) == EntryAfter(ns, ck, EntryAt(cache, ck), steps)
  {
    if steps != [] {
      EntryGoesItsWay(ns, cache, steps[..|steps| - 1], ck);
    }
  }

  // --- The calls of a session ---

  // For each event, an order in which the cache of that moment may be walked.
  ghost predicate AreWalks(ns: string, cache: Cache, orders: seq<seq<CacheKey>>, steps: seq<SessionStep>) {
    && |orders| == |steps|
    && forall i :: 0 <= i < |orders| && steps[i].Change? ==> IsWalk(orders[i], CacheAfter(ns, cache, steps[..i]))
  }

  lemma WalksPrefix(ns: string, cache: Cache, orders: seq<seq<CacheKey>>, steps: seq<SessionStep>)
    requires AreWalks(ns, cache, orders, steps) && steps != []
    ensures AreWalks(ns, cache, orders[..|steps| - 1], steps[..|steps| - 1])
  {
    var n := |steps| - 1;
    forall i | 0 <= i < n && steps[i].Change?
      ensures IsWalk(orders[..n][i], CacheAfter(ns, cache, steps[..n][..i]))
    {
      assert steps[..n][..i] == steps[..i];
    }
  }

  ghost function StepCalls(ns: string, handlers: Handlers, cache: Cache, order: seq<CacheKey>, s: SessionStep)
    : seq<Call>
    requires s.Change? ==> IsWalk(order, cache)
  {
    match s
    case Change(e) => Calls(handlers, Notes(ns, cache, order, e), e)
    case Look(_, _) => []
  }

  // All handler calls that a session causes, for the given walks.
  ghost function SessionCalls(ns: string, handlers: Handlers, cache: Cache, orders: seq<seq<CacheKey>>,
                              steps: seq<SessionStep>): seq<Call>
    requires AreWalks(ns, cache, orders, steps)
    decreases |steps|
  {
    if steps == [] then []
    else
      var n := |steps| - 1;
      WalksPrefix(ns, cache, orders, steps);
      assert steps[n].Change? ==> IsWalk(orders[n], CacheAfter(ns, cache, steps[..n]));
      SessionCalls(ns, handlers, cache, orders[..n], steps[..n])
      + StepCalls(ns, handlers, CacheAfter(ns, cache, steps[..n]), orders[n], steps[n])
  }

  // What the client was when a session began.
  datatype Before = Before(ns: string, handlers: Handlers, cache: Cache, calls: seq<Call>)

  // The client has gone through the steps, with the given walks.
  ghost predicate HasHandled(client: Client, b: Before, orders: seq<seq<CacheKey>>, steps: seq<SessionStep>)
    reads client
  {
    && client.namespace == b.ns && client.handlers == b.handlers
    && AreWalks(b.ns, b.cache, orders, steps)
    && client.cache == CacheAfter(b.ns, b.cache, steps)
    && client.calls == b.calls + SessionCalls(b.ns, b.handlers, b.cache, orders, steps)
  }

  method HandleAll(client: Client, steps: seq<SessionStep>) returns (ghost orders: seq<seq<CacheKey>>)
    modifies client
    ensures var b := old(Before(client.namespace, client.handlers, client.cache, client.calls));
      HasHandled(client, b, orders, steps)
  {
    orders := [];
    ghost var b := Before(client.namespace, client.handlers, client.cache, client.calls);
    ghost var handled: seq<SessionStep> := [];
    assert client.calls + [] == client.calls;
    for i := 0 to |steps|
      invariant HasHandled(client, b, orders, handled) && handled == steps[..i]
    {
      ghost var order := HandleNext(client, steps[i], b, orders, handled);
      orders, handled := orders + [order], handled + [steps[i]];
    }
    assert steps[..|steps|] == steps;
  }

  method HandleNext(client: Client, s: SessionStep, ghost b: Before, ghost orders: seq<seq<CacheKey>>,
                    ghost steps: seq<SessionStep>)
    returns (ghost order: seq<CacheKey>)
    requires HasHandled(client, b, orders, steps)
    modifies client
    ensures HasHandled(client, b, orders + [order], steps + [s])
  {
    ghost var calls := client.calls;
    order := [];
    match s {
      case Change(e) =>
        order := client.HandleChange(e);
      case Look(ck, answer) =>
        var got := client.Get(ck.key, ck.format, answer);
    }
    SessionGrows(b.ns, b.handlers, b.cache, orders, steps, order, s);
    ghost var more := StepCalls(b.ns, b.handlers, CacheAfter(b.ns, b.cache, steps), order, s);
    assert client.calls == calls + more;
    ConcatAssociative(b.calls, SessionCalls(b.ns, b.handlers, b.cache, orders, steps), more);
  }

  lemma ConcatAssociative(a: seq<Call>, b: seq<Call>, c: seq<Call>)
    ensures (a + b) + c == a + (b + c)
  {
  }

  lemma SessionGrows(ns: string, handlers: Handlers, cache: Cache, orders: seq<seq<CacheKey>>, steps: seq<SessionStep>,
                     order: seq<CacheKey>, s: SessionStep)
    requires AreWalks(ns, cache, orders, steps)
    requires s.Change? ==> IsWalk(order, CacheAfter(ns, cache, steps))
    ensures AreWalks(ns, cache, orders + [order], steps + [s])
    ensures CacheAfter(ns, cache, steps + [s]) == CacheStep(ns, CacheAfter(ns, cache, steps), s)
    ensures SessionCalls(ns, handlers, cache, orders + [order], steps + [s])
         == SessionCalls(ns, handlers, cache, orders, steps)
            + StepCalls(ns, handlers, CacheAfter(ns, cache, steps), order, s)
  {
    var all, walks := steps + [s], orders + [order];
    assert all[..|steps|] == steps && walks[..|steps|] == orders;
    forall k | 0 <= k < |walks| && all[k].Change?
      ensures IsWalk(walks[k], CacheAfter(ns, cache, all[..k]))
    {
      assert all[..k] == steps[..k];
      assert k < |orders| ==> walks[k] == orders[k] && all[k] == steps[k];
      assert k == |orders| ==> steps[..k] == steps;
    }
  }

  // --- A key with any number of cached entries ---

  // The cached entries that report exactly the note n.
  ghost function ReportersIn(ns: string, cache: Cache, e: Event, n: Note): set<CacheKey> {
    set ck | ck in cache && NoteOf(ns, ck, cache[ck], e) == [n]
  }

  ghost predicate SomeReport(ns: string, cache: Cache, e: Event, key: string) {
    exists ck :: ck in cache && ck.key == key && NoteOf(ns, ck, cache[ck], e) != []
  }

  // What the handlers of a key are told in one step: each report of an entry of the key once, in
  // some order; or the event itself with an empty old value, if it is one for the key and no
  // entry reports.
  ghost predicate IsTold(ns: string, cache: Cache, s: SessionStep, key: string, told: seq<Note>) {
    match s
    case Look(_, _) => told == []
    case Change(e) =>
      if SomeReport(ns, cache, e, key) then
        forall n: Note :: multiset(told)[n] == if n.key == key then |ReportersIn(ns, cache, e, n)| else 0
      else told == if e.key == key then [Note(key, "", e.value)] else []
  }

  function Flat(batches: seq<seq<Note>>): seq<Note> {
    if batches == [] then [] else Flat(batches[..|batches| - 1]) + batches[|batches| - 1]
  }

  ghost predicate AreTold(ns: string, cache: Cache, steps: seq<SessionStep>, key: string, told: seq<seq<Note>>) {
    && |told| == |steps|
    && forall i :: 0 <= i < |steps| ==> IsTold(ns, CacheAfter(ns, cache, steps[..i]), steps[i], key, told[i])
  }

  lemma {:induction false} NotesOnCount(notes: seq<Note>, key: string, n: Note)
    ensures multiset(NotesOn(notes, key))[n] == if n.key == key then multiset(notes)[n] else 0
  {
    if notes != [] {
      var k := |notes| - 1;
      NotesOnCount(notes[..k], key, n);
      assert notes == notes[..k] + [notes[k]];
    }
  }

  // Whether one of the entries on a walk reports on the key.
  function WalkReports(ns: string, cache: Cache, order: seq<CacheKey>, e: Event, key: string): bool
    requires forall ck :: ck in order ==> ck in cache
  {
    exists k :: 0 <= k < |order| && order[k].key == key && NoteOf(ns, order[k], cache[order[k]], e) != []
  }

  lemma {:induction false} NotesOnReports(ns: string, cache: Cache, order: seq<CacheKey>, e: Event, key: string)
    requires forall ck :: ck in order ==> ck in cache
    ensures NotesOn(Notes(ns, cache, order, e), key) != [] <==> WalkReports(ns, cache, order, e, key)
  {
    if order != [] {
      var n := |order| - 1;
      var note := NoteOf(ns, order[n], cache[order[n]], e);
      NotesOnReports(ns, cache, order[..n], e, key);
      NotesOnConcat(Notes(ns, cache, order[..n], e), note, key);
      NotesOnNote(note, key, order[n].key == key);
      WalkReportsStep(ns, cache, order, e, key);
    }
  }

  lemma WalkReportsStep(ns: string, cache: Cache, order: seq<CacheKey>, e: Event, key: string)
    requires order != [] && forall ck :: ck in order ==> ck in cache
    ensures var n := |order| - 1;
      WalkReports(ns, cache, order, e, key) <==>
        WalkReports(ns, cache, order[..n], e, key)
        || (order[n].key == key && NoteOf(ns, order[n], cache[order[n]], e) != [])
  {
    var n := |order| - 1;
    if WalkReports(ns, cache, order[..n], e, key) {
      var k :| 0 <= k < n && order[..n][k].key == key && NoteOf(ns, order[..n][k], cache[order[..n][k]], e) != [];
      assert order[k] == order[..n][k];
    }
    if k :| 0 <= k < n && order[k].key == key && NoteOf(ns, order[k], cache[order[k]], e) != [] {
      assert order[..n][k] == order[k];
    }
  }

  lemma WalkFindsReports(ns: string, cache: Cache, order: seq<CacheKey>, e: Event, key: string)
    requires IsWalk(order, cache)
    ensures WalkReports(ns, cache, order, e, key) <==> SomeReport(ns, cache, e, key)
  {
    if k :| 0 <= k < |order| && order[k].key == key && NoteOf(ns, order[k], cache[order[k]], e) != [] {
      assert order[k] in order && order[k] in cache;
    }
    if ck :| ck in cache && ck.key == key && NoteOf(ns, ck, cache[ck], e) != [] {
      assert ck in order;
      var k :| 0 <= k < |order| && order[k] == ck;
    }
  }

  // How often a note on the key is among those of the walk.
  lemma NotesOnExact(ns: string, cache: Cache, order: seq<CacheKey>, e: Event, key: string, n: Note)
    requires IsWalk(order, cache)
    ensures multiset(NotesOn(Notes(ns, cache, order, e), key))[n]
         == if n.key == key then |ReportersIn(ns, cache, e, n)| else 0
  {
    NotesOnCount(Notes(ns, cache, order, e), key, n);
    NoteCount(ns, cache, order, e, n);
    assert ReportersIn(ns, cache, e, n) == Reporters(ns, cache, order, e, n);
  }

  lemma ToldByEvent(ns: string, handlers: Handlers, cache: Cache, order: seq<CacheKey>, e: Event, key: string)
    returns (told: seq<Note>)
    requires IsWalk(order, cache)
    ensures IsTold(ns, cache, Change(e), key, told)
    ensures OnKey(Calls(handlers, Notes(ns, cache, order, e), e), key) == FireAll(handlers, told)
  {
    var own := NotesOn(Notes(ns, cache, order, e), key);
    told := if own != [] then own else if e.key == key then [Note(key, "", e.value)] else [];
    NotesGiveCalls(handlers, Notes(ns, cache, order, e), e, key);
    NotesOnReports(ns, cache, order, e, key);
    WalkFindsReports(ns, cache, order, e, key);
    forall n: Note | own != []
      ensures multiset(told)[n] == if n.key == key then |ReportersIn(ns, cache, e, n)| else 0
    {
      NotesOnExact(ns, cache, order, e, key, n);
    }
  }

  lemma ToldByStep(ns: string, handlers: Handlers, cache: Cache, order: seq<CacheKey>, s: SessionStep, key: string)
    returns (told: seq<Note>)
    requires s.Change? ==> IsWalk(order, cache)
    ensures IsTold(ns, cache, s, key, told)
    ensures OnKey(StepCalls(ns, handlers, cache, order, s), key) == FireAll(handlers, told)
  {
    told := [];
    if s.Change? {
      told := ToldByEvent(ns, handlers, cache, order, s.e, key);
    }
  }

  lemma ToldGrows(ns: string, cache: Cache, steps: seq<SessionStep>, key: string, before: seq<seq<Note>>,
                  last: seq<Note>)
    requires steps != [] && AreTold(ns, cache, steps[..|steps| - 1], key, before)
    requires IsTold(ns, CacheAfter(ns, cache, steps[..|steps| - 1]), steps[|steps| - 1], key, last)
    ensures AreTold(ns, cache, steps, key, before + [last])
    ensures Flat(before + [last]) == Flat(before) + last
  {
    var n := |steps| - 1;
    assert (before + [last])[..n] == before;
    forall i | 0 <= i < |steps|
      ensures IsTold(ns, CacheAfter(ns, cache, steps[..i]), steps[i], key, (before + [last])[i])
    {
      assert i < n ==> steps[..n][..i] == steps[..i];
    }
  }

  // In any session, the handlers of a key are called, step by step, with exactly what its entries
  // report then.
  lemma {:induction false} SessionTells(ns: string, handlers: Handlers, cache: Cache, orders: seq<seq<CacheKey>>,
                                        steps: seq<SessionStep>, key: string) returns (told: seq<seq<Note>>)
    requires AreWalks(ns, cache, orders, steps)
    ensures AreTold(ns, cache, steps, key, told)
    ensures OnKey(SessionCalls(ns, handlers, cache, orders, steps), key) == FireAll(handlers, Flat(told))
    decreases |steps|
  {
    told := [];
    if steps != [] {
      var n := |steps| - 1;
      WalksPrefix(ns, cache, orders, steps);
      var before := SessionTells(ns, handlers, cache, orders[..n], steps[..n], key);
      var now := CacheAfter(ns, cache, steps[..n]);
      var last := ToldByStep(ns, handlers, now, orders[n], steps[n], key);
      told := before + [last];
      ToldGrows(ns, cache, steps, key, before, last);
      OnKeyConcat(SessionCalls(ns, handlers, cache, orders[..n], steps[..n]),
                  StepCalls(ns, handlers, now, orders[n], steps[n]), key);
      FireAllConcat(handlers, Flat(before), last);
    }
  }

  // --- A key with one cached entry ---

  // The key of ck is looked up in that format only.
  ghost predicate OneFormat(steps: seq<SessionStep>, ck: CacheKey) {
    forall i :: 0 <= i < |steps| && steps[i].Look? && steps[i].ck.key == ck.key ==> steps[i].ck == ck
  }

  function StepReports(ns: string, ck: CacheKey, cached: Option<CachedEntry>, s: SessionStep): seq<Note> {
    match s
    case Change(e) => Report(ns, ck, cached, e)
    case Look(_, _) => []
  }

  // The reports on one entry over a session.
  function SessionReports(ns: string, ck: CacheKey, cached: Option<CachedEntry>, steps: seq<SessionStep>): seq<Note> {
    if steps == [] then []
    else
      var n := |steps| - 1;
      SessionReports(ns, ck, cached, steps[..n])
      + StepReports(ns, ck, EntryAfter(ns, ck, cached, steps[..n]), steps[n])
  }

  lemma {:induction false} StaysOnly(ns: string, cache: Cache, steps: seq<SessionStep>, ck: CacheKey)
    requires OnlyEntry(cache, ck) && OneFormat(steps, ck)
    ensures OnlyEntry(CacheAfter(ns, cache, steps), ck)
  {
    if steps != [] {
      StaysOnly(ns, cache, steps[..|steps| - 1], ck);
    }
  }

  // In a session, the handlers of a key with one entry, which may come and go, are called with
  // exactly the reports on it, in order, whatever the walks.
  lemma {:induction false} SessionCallsOnKey(ns: string, handlers: Handlers, cache: Cache,
      orders: seq<seq<CacheKey>>, steps: seq<SessionStep>, ck: CacheKey)
    requires AreWalks(ns, cache, orders, steps) && OnlyEntry(cache, ck) && OneFormat(steps, ck)
    ensures OnKey(SessionCalls(ns, handlers, cache, orders, steps), ck.key)
         == FireAll(handlers, SessionReports(ns, ck, EntryAt(cache, ck), steps))
    decreases |steps|
  {
    if steps != [] {
      var n := |steps| - 1;
      WalksPrefix(ns, cache, orders, steps);
      SessionCallsOnKey(ns, handlers, cache, orders[..n], steps[..n], ck);
      StaysOnly(ns, cache, steps[..n], ck);
      EntryGoesItsWay(ns, cache, steps[..n], ck);
      var now := CacheAfter(ns, cache, steps[..n]);
      if steps[n].Change? {
        EventCallsOnKey(ns, handlers, now, orders[n], steps[n].e, ck);
      }
      OnKeyConcat(SessionCalls(ns, handlers, cache, orders[..n], steps[..n]),
                  StepCalls(ns, handlers, now, orders[n], steps[n]), ck.key);
      FireAllConcat(handlers, SessionReports(ns, ck, EntryAt(cache, ck), steps[..n]),
                    StepReports(ns, ck, EntryAt(now, ck), steps[n]));
    }
  }

  // --- When the calls chain ---

  function EventsOf(steps: seq<SessionStep>): seq<Event> {
    if steps == [] then []
    else
      var n := |steps| - 1;
      EventsOf(steps[..n]) + if steps[n].Change? then [steps[n].e] else []
  }

  // Lookups change nothing for an entry that stays cached.
  lemma {:induction false} LooksDoNothing(ns: string, ck: CacheKey, cached: CachedEntry, steps: seq<SessionStep>)
    requires Replay(ns, ck, cached, EventsOf(steps)).Some?
    ensures EntryAfter(ns, ck, Some(cached), steps) == Replay(ns, ck, cached, EventsOf(steps))
    ensures SessionReports(ns, ck, Some(cached), steps) == Reports(ns, ck, cached, EventsOf(steps))
  {
    if steps != [] {
      var n := |steps| - 1;
      if steps[n].Change? {
        assert EventsOf(steps)[..|EventsOf(steps)| - 1] == EventsOf(steps[..n]);
      } else {
        assert EventsOf(steps) == EventsOf(steps[..n]);
      }
      LooksDoNothing(ns, ck, cached, steps[..n]);
    }
  }

  // In a session of set events with lookups in between, the calls of the key's handlers chain
  // from the entry's first value to its last if and only if every event for the key changes the
  // value.
  lemma SessionCallsChainIff(ns: string, handlers: Handlers, cache: Cache, orders: seq<seq<CacheKey>>,
                             steps: seq<SessionStep>, ck: CacheKey) returns (told: seq<Note>, last: CachedEntry)
    requires AreWalks(ns, cache, orders, steps) && ck in cache && OnlyEntry(cache, ck) && OneFormat(steps, ck)
    requires AllSets(EventsOf(steps))
    ensures OnKey(SessionCalls(ns, handlers, cache, orders, steps), ck.key) == FireAll(handlers, told)
    ensures ck in CacheAfter(ns, cache, steps) && CacheAfter(ns, cache, steps)[ck] == last
    ensures Chains(told, ck.key, cache[ck].value, last.value) <==> EachSetChanges(ns, ck, cache[ck], EventsOf(steps))
  {
    SessionChainsIff(ns, ck, cache[ck], EventsOf(steps));
    LooksDoNothing(ns, ck, cache[ck], steps);
    SessionCallsOnKey(ns, handlers, cache, orders, steps, ck);
    EntryGoesItsWay(ns, cache, steps, ck);
    told, last := SessionReports(ns, ck, Some(cache[ck]), steps), CacheAfter(ns, cache, steps)[ck];
  }

  function SetTwice(ck: CacheKey, e: Event, answer: Option<Entry>): seq<SessionStep> {
    [Change(e), Look(ck, answer), Change(e)]
  }

  // A session in which they do not: a value is set twice, and read in between. The handler is
  // told of a change from the first value, and then of one from the empty value.
  lemma RepeatedValueSession(ns: string, handlers: Handlers, cache: Cache, orders: seq<seq<CacheKey>>,
                             key: string, value: string, answer: Option<Entry>, handler: nat)
    requires var ck, e := CacheKey(key, ""), Event(key, value, "set", "");
      && AreWalks(ns, cache, orders, SetTwice(ck, e, answer))
      && ck in cache && OnlyEntry(cache, ck) && cache[ck].sourceNS == "" && cache[ck].value != value
      && HandlersOf(handlers, key) == [handler]
    ensures var ck, e := CacheKey(key, ""), Event(key, value, "set", "");
      OnKey(SessionCalls(ns, handlers, cache, orders, SetTwice(ck, e, answer)), key)
      == [Call(handler, key, cache[ck].value, value), Call(handler, key, "", value)]
  {
    var ck, e := CacheKey(key, ""), Event(key, value, "set", "");
    var steps := SetTwice(ck, e, answer);
    SessionCallsOnKey(ns, handlers, cache, orders, steps, ck);
    SetTwiceReports(ns, key, cache[ck], value, answer);
    FireTwo(handlers, Note(key, cache[ck].value, value), Note(key, "", value), handler);
  }

  lemma SetTwiceReports(ns: string, key: string, cached: CachedEntry, value: string, answer: Option<Entry>)
    requires cached.sourceNS == "" && cached.value != value
    ensures var ck, e := CacheKey(key, ""), Event(key, value, "set", "");
      SessionReports(ns, ck, Some(cached), SetTwice(ck, e, answer))
      == [Note(key, cached.value, value), Note(key, "", value)]
  {
    var ck, e := CacheKey(key, ""), Event(key, value, "set", "");
    EventsOfSetTwice(ck, e, answer);
    SetsKeep(ns, ck, cached, [e, e]);
    LooksDoNothing(ns, ck, cached, SetTwice(ck, e, answer));
    RepeatedValueBreaksChain(ns, key, cached, value);
  }

  lemma EventsOfSetTwice(ck: CacheKey, e: Event, answer: Option<Entry>)
    ensures EventsOf(SetTwice(ck, e, answer)) == [e, e]
  {
    var steps := SetTwice(ck, e, answer);
    assert steps[..2] == [Change(e), Look(ck, answer)] && steps[..2][..1] == [Change(e)];
    assert EventsOf([Change(e)]) == [e];
    assert EventsOf(steps[..2]) == [e];
  }

  lemma FireTwo(handlers: Handlers, first: Note, second: Note, handler: nat)
    requires HandlersOf(handlers, first.key) == [handler] && HandlersOf(handlers, second.key) == [handler]
    ensures FireAll(handlers, [first, second])
         == [Call(handler, first.key, first.oldValue, first.newValue),
             Call(handler, second.key, second.oldValue, second.newValue)]
  {
    FireAllConcat(handlers, [first], [second]);
    FireOne(handlers, first);
    FireOne(handlers, second);
  }

  // --- The handlers of one key, from registration to call ---

  // Handlers are registered on a key, which is looked up or not, and a set event for it from the
  // global namespace is handled: each handler is called exactly once, in the order of
  // registration, with the cached value, or the empty one, and the value of the event.
  method EachHandlerCalled(ns: string, key: string, hs: seq<nat>, entry: Entry, lookedUp: bool, value: string)
    returns (calls: seq<Call>)
    requires hs != [] && entry.namespace == "" && value != entry.value
    ensures |calls| == |hs|
    ensures forall k :: 0 <= k < |hs| ==>
      calls[k] == Call(hs[k], key, if lookedUp then entry.value else "", value)
  {
    var client := new Client(ns);
    for i := 0 to |hs|
      invariant fresh(client) && client.namespace == ns && client.cache == map[] && client.calls == []
      invariant client.handlers == if i == 0 then map[] else map[key := hs[..i]]
    {
      assert hs[..i + 1] == hs[..i] + [hs[i]];
      client.OnChange(key, hs[i]);
    }
    assert hs[..|hs|] == hs;
    if lookedUp {
      var got := client.Get(key, "", Some(entry));
    }
    ghost var cache := client.cache;
    var e := Event(key, value, "set", "");
    ghost var order := client.HandleChange(e);
    calls := client.calls;
    CallsOfOneKey(ns, hs, cache, order, e);
  }

  lemma CallsOfOneKey(ns: string, hs: seq<nat>, cache: Cache, order: seq<CacheKey>, e: Event)
    requires IsWalk(order, cache) && e.action == "set" && e.namespace == ""
    requires forall ck :: ck in cache ==> ck == CacheKey(e.key, "")
    requires CacheKey(e.key, "") in cache ==>
      cache[CacheKey(e.key, "")].sourceNS == "" && cache[CacheKey(e.key, "")].value != e.value
    ensures var calls := [] + Calls(map[e.key := hs], Notes(ns, cache, order, e), e);
      var before := if CacheKey(e.key, "") in cache then cache[CacheKey(e.key, "")].value else "";
      |calls| == |hs| && forall k :: 0 <= k < |hs| ==> calls[k] == Call(hs[k], e.key, before, e.value)
  {
    var ck, handlers := CacheKey(e.key, ""), map[e.key := hs];
    OneEntryNotes(ns, cache, order, e, ck);
    var note := Note(e.key, if ck in cache then cache[ck].value else "", e.value);
    FireOne(handlers, note);
    FireEach(hs, note);
    var notes := Notes(ns, cache, order, e);
    if ck in cache {
      assert notes == [note] && notes[0].key == e.key;
    } else {
      assert notes == [];
    }
  }

  lemma OneEntryNotes(ns: string, cache: Cache, order: seq<CacheKey>, e: Event, ck: CacheKey)
    requires IsWalk(order, cache) && forall other :: other in cache ==> other == ck
    ensures Notes(ns, cache, order, e) == if ck in cache then NoteOf(ns, ck, cache[ck], e) else []
  {
    forall k | 0 <= k < |order|
      ensures order[k] == ck
    {
      assert order[k] in order;
    }
    if order != [] {
      DistinctSize(order);
      assert order[0] in order && (set x | x in order) == {ck};
      assert order == [ck] && order[..0] == [];
      assert Notes(ns, cache, order[..0], e) == [];
    }
  }
}
