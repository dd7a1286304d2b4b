// What the handlers of the registry client get to see of a change event.
module RegistryNotifications {
  import opened Options
  import opened Ordering
  import opened RegistryLog
  import opened RegistryClient

  // The entries on the walk that report exactly the note n.
  ghost function Reporters(ns: string, cache: Cache, order: seq<CacheKey>, e: Event, n: Note): set<CacheKey>
    requires forall ck :: ck in order ==> ck in cache
  {
    set ck | ck in order && NoteOf(ns, ck, cache[ck], e) == [n]
  }

  lemma {:induction false} NoteCount(ns: string, cache: Cache, order: seq<CacheKey>, e: Event, n: Note)
    requires Distinct(order) && forall ck :: ck in order ==> ck in cache
    ensures multiset(Notes(ns, cache, order, e))[n] == |Reporters(ns, cache, order, e, n)|
  {
    if order == [] {
      assert Reporters(ns, cache, order, e, n) == {};
    } else {
      var k := |order| - 1;
      var note := NoteOf(ns, order[k], cache[order[k]], e);
      NoteCount(ns, cache, order[..k], e, n);
      ReportersStep(ns, cache, order, e, n);
      assert multiset(note)[n] == if note == [n] then 1 else 0;
    }
  }

  // The last entry of the walk joins the reporters or not.
  lemma ReportersStep(ns: string, cache: Cache, order: seq<CacheKey>, e: Event, n: Note)
    requires order != [] && Distinct(order) && forall ck :: ck in order ==> ck in cache
    ensures var k := |order| - 1;
      |Reporters(ns, cache, order, e, n)| == |Reporters(ns, cache, order[..k], e, n)|
        + if NoteOf(ns, order[k], cache[order[k]], e) == [n] then 1 else 0
  {
    var k := |order| - 1;
    var before, all := Reporters(ns, cache, order[..k], e, n), Reporters(ns, cache, order, e, n);
    assert order == order[..k] + [order[k]];
    assert order[k] !in order[..k];
    forall ck
      ensures ck in all <==> ck in before || (ck == order[k] && NoteOf(ns, ck, cache[ck], e) == [n])
    {
      assert ck in order <==> ck in order[..k] || ck == order[k];
    }
    if NoteOf(ns, order[k], cache[order[k]], e) == [n] {
      assert all == before + {order[k]};
    } else {
      assert all == before;
    }
  }

  // The notifications do not depend on the order of the walk, except for their own order.
  lemma WalkOrderIrrelevant(ns: string, cache: Cache, order1: seq<CacheKey>, order2: seq<CacheKey>, e: Event)
    requires IsWalk(order1, cache) && IsWalk(order2, cache)
    ensures multiset(Notes(ns, cache, order1, e)) == multiset(Notes(ns, cache, order2, e))
  {
    forall n: Note
      ensures multiset(Notes(ns, cache, order1, e))[n] == multiset(Notes(ns, cache, order2, e))[n]
    {
      NoteCount(ns, cache, order1, e, n);
      NoteCount(ns, cache, order2, e, n);
      assert Reporters(ns, cache, order1, e, n) == Reporters(ns, cache, order2, e, n);
    }
  }

  // The entries of one key whose value an event takes from `before` to a different `after`.
  ghost function ValueChanges(ns: string, cache: Cache, e: Event, key: string, before: string, after: string)
    : set<CacheKey>
  {
    var updated := UpdatedCache(ns, cache, e);
    set ck | ck in cache && ck in updated && ck.key == key
             && cache[ck].value == before && updated[ck].value == after && before != after
  }

  // For a set event, an entry reports a note exactly when its value changes that way.
  lemma ReportsItsChange(ns: string, cache: Cache, e: Event, ck: CacheKey, n: Note)
    requires ck in cache && e.action == "set"
    ensures var updated := UpdatedCache(ns, cache, e);
      NoteOf(ns, ck, cache[ck], e) == [n] <==>
        && ck in updated && ck.key == n.key && cache[ck].value == n.oldValue
        && updated[ck].value == n.newValue && n.oldValue != n.newValue
  {
  }

  // A set event reports each change of a cached value exactly once, with its old and its new
  // value, and reports nothing else.
  lemma SetNotesExact(ns: string, cache: Cache, order: seq<CacheKey>, e: Event, key: string,
                      before: string, after: string)
    requires IsWalk(order, cache) && e.action == "set"
    ensures multiset(Notes(ns, cache, order, e))[Note(key, before, after)]
         == |ValueChanges(ns, cache, e, key, before, after)|
  {
    var n := Note(key, before, after);
    NoteCount(ns, cache, order, e, n);
    var reporters, changes := Reporters(ns, cache, order, e, n), ValueChanges(ns, cache, e, key, before, after);
    forall ck
      ensures ck in reporters <==> ck in changes
    {
      if ck in cache {
        ReportsItsChange(ns, cache, e, ck, n);
      }
    }
    assert reporters == changes;
  }

  // The matching entries of one key that hold a value.
  ghost function Matching(cache: Cache, eventKey: string, key: string, value: string): set<CacheKey> {
    set ck | ck in cache && KeyMatches(ck, eventKey) && ck.key == key && cache[ck].value == value
  }

  // A delete event reports every matching entry once, whether or not it invalidates it, with the
  // value the event carries as the new one.
  lemma DeleteNotesExact(ns: string, cache: Cache, order: seq<CacheKey>, e: Event, key: string,
                         before: string, after: string)
    requires IsWalk(order, cache) && e.action == "delete"
    ensures multiset(Notes(ns, cache, order, e))[Note(key, before, after)]
         == if after == e.value then |Matching(cache, e.key, key, before)| else 0
  {
    var n := Note(key, before, after);
    NoteCount(ns, cache, order, e, n);
    var reporters := Reporters(ns, cache, order, e, n);
    var matching := if after == e.value then Matching(cache, e.key, key, before) else {};
    forall ck
      ensures ck in reporters <==> ck in matching
    {
    }
    assert reporters == matching;
  }

  // --- Every handler on the event's key runs ---

  // From position i on, all of hs are called one after the other with the note.
  ghost predicate FiredAt(calls: seq<Call>, i: nat, hs: seq<nat>, note: Note) {
    i + |hs| <= |calls| &&
    forall k :: 0 <= k < |hs| ==> calls[i + k] == Call(hs[k], note.key, note.oldValue, note.newValue)
  }

  ghost predicate AllCalled(calls: seq<Call>, hs: seq<nat>, key: string) {
    exists note: Note, i: nat :: FiredAt(calls, i, hs, note) && note.key == key
  }

  lemma HandlersOfEventRun(handlers: Handlers, notes: seq<Note>, e: Event)
    requires e.key in handlers
    ensures AllCalled(Calls(handlers, notes, e), handlers[e.key], e.key)
  {
    var hs := handlers[e.key];
    var all := Calls(handlers, notes, e);
    var first := FireAll(handlers, notes);
    if hs == [] {
      assert FiredAt(all, 0, hs, Note(e.key, "", e.value));
    } else if Notified(notes, e.key) {
      var i :| 0 <= i < |notes| && notes[i].key == e.key;
      FiredFor(handlers, notes, i);
      var note: Note, at: nat :| FiredAt(first, at, hs, note) && note.key == e.key;
      assert forall k :: 0 <= k < |first| ==> all[k] == first[k];
      assert FiredAt(all, at, hs, note);
    } else {
      var note := Note(e.key, "", e.value);
      assert FiredAt(all, |first|, hs, note);
    }
  }

  lemma {:induction false} FiredFor(handlers: Handlers, notes: seq<Note>, i: nat)
    requires i < |notes|
    ensures AllCalled(FireAll(handlers, notes), HandlersOf(handlers, notes[i].key), notes[i].key)
  {
    var n := |notes| - 1;
    var key := notes[i].key;
    var hs := HandlersOf(handlers, key);
    var before, all := FireAll(handlers, notes[..n]), FireAll(handlers, notes);
    if i == n {
      assert FiredAt(all, |before|, hs, notes[n]);
    } else {
      FiredFor(handlers, notes[..n], i);
      var note: Note, at: nat :| FiredAt(before, at, hs, note) && note.key == key;
      assert forall k :: 0 <= k < |before| ==> all[k] == before[k];
      assert FiredAt(all, at, hs, note);
    }
  }

  // The calls that concern one key.
  function OnKey(calls: seq<Call>, key: string): seq<Call> {
    if calls == [] then []
    else
      var n := |calls| - 1;
      OnKey(calls[..n], key) + if calls[n].key == key then [calls[n]] else []
  }

  lemma {:induction false} OnKeyConcat(a: seq<Call>, b: seq<Call>, key: string)
    ensures OnKey(a + b, key) == OnKey(a, key) + OnKey(b, key)
  {
    if b == [] {
      assert a + b == a;
    } else {
      assert (a + b)[..|a + b| - 1] == a + b[..|b| - 1];
      OnKeyConcat(a, b[..|b| - 1], key);
    }
  }

  lemma {:induction false} OnKeyUniform(calls: seq<Call>, key: string, own: bool)
    requires forall i :: 0 <= i < |calls| ==> (calls[i].key == key <==> own)
    ensures OnKey(calls, key) == if own then calls else []
  {
    if calls != [] {
      OnKeyUniform(calls[..|calls| - 1], key, own);
    }
  }

  // The notes that concern one key.
  function NotesOn(notes: seq<Note>, key: string): seq<Note> {
    if notes == [] then []
    else
      var n := |notes| - 1;
      NotesOn(notes[..n], key) + if notes[n].key == key then [notes[n]] else []
  }

  lemma {:induction false} NotesOnConcat(a: seq<Note>, b: seq<Note>, key: string)
    ensures NotesOn(a + b, key) == NotesOn(a, key) + NotesOn(b, key)
  {
    if b == [] {
      assert a + b == a;
    } else {
      assert (a + b)[..|a + b| - 1] == a + b[..|b| - 1];
      NotesOnConcat(a, b[..|b| - 1], key);
    }
  }

  lemma {:induction false} NotesOnNotified(notes: seq<Note>, key: string)
    ensures NotesOn(notes, key) != [] <==> Notified(notes, key)
  {
    if notes != [] {
      var n := |notes| - 1;
      NotesOnNotified(notes[..n], key);
      if i :| 0 <= i < |notes| && notes[i].key == key {
        assert i < n ==> notes[..n][i].key == key;
      }
    }
  }

  lemma {:induction false} FireAllConcat(handlers: Handlers, a: seq<Note>, b: seq<Note>)
    ensures FireAll(handlers, a + b) == FireAll(handlers, a) + FireAll(handlers, b)
  {
    if b == [] {
      assert a + b == a;
    } else {
      assert (a + b)[..|a + b| - 1] == a + b[..|b| - 1];
      FireAllConcat(handlers, a, b[..|b| - 1]);
    }
  }

  lemma FireOne(handlers: Handlers, note: Note)
    ensures FireAll(handlers, [note]) == Fire(HandlersOf(handlers, note.key), note)
  {
    assert [note][..0] == [];
  }

  // The calls on a key are those that its own notes cause.
  lemma {:induction false} CallsOnKey(handlers: Handlers, notes: seq<Note>, key: string)
    ensures OnKey(FireAll(handlers, notes), key) == FireAll(handlers, NotesOn(notes, key))
  {
    if notes != [] {
      var n := |notes| - 1;
      CallsOnKey(handlers, notes[..n], key);
      var fired := Fire(HandlersOf(handlers, notes[n].key), notes[n]);
      OnKeyUniform(fired, key, notes[n].key == key);
      OnKeyConcat(FireAll(handlers, notes[..n]), fired, key);
      var own := if notes[n].key == key then [notes[n]] else [];
      FireAllConcat(handlers, NotesOn(notes[..n], key), own);
      FireOne(handlers, notes[n]);
    }
  }

  // --- What the handlers of one key see of one event ---

  // No other entry than the one at ck has its key.
  ghost predicate OnlyEntry(cache: Cache, ck: CacheKey) {
    forall other :: other in cache && other.key == ck.key ==> other == ck
  }

  lemma WalkPrefix(order: seq<CacheKey>, ck: CacheKey)
    requires order != [] && Distinct(order)
    ensures var n := |order| - 1;
      && Distinct(order[..n]) && order[n] !in order[..n]
      && (ck in order <==> ck in order[..n] || ck == order[n])
      && (forall other :: other in order[..n] ==> other in order)
  {
    assert order == order[..|order| - 1] + [order[|order| - 1]];
  }

  lemma {:induction false} NotesOfOnlyEntry(ns: string, cache: Cache, order: seq<CacheKey>, e: Event, ck: CacheKey)
    requires Distinct(order) && (forall other :: other in order ==> other in cache) && OnlyEntry(cache, ck)
    ensures NotesOn(Notes(ns, cache, order, e), ck.key)
         == if ck in order then NoteOf(ns, ck, cache[ck], e) else []
  {
    if order != [] {
      var n := |order| - 1;
      WalkPrefix(order, ck);
      NotesOfOnlyEntry(ns, cache, order[..n], e, ck);
      NotesOnStep(ns, cache, order, e, ck);
      var before := NotesOn(Notes(ns, cache, order[..n], e), ck.key);
      if order[n] == ck {
        assert before == [];
      } else {
        assert before + [] == before;
      }
    }
  }

  lemma NotesOnStep(ns: string, cache: Cache, order: seq<CacheKey>, e: Event, ck: CacheKey)
    requires order != [] && (forall other :: other in order ==> other in cache) && OnlyEntry(cache, ck)
    ensures var n := |order| - 1;
      NotesOn(Notes(ns, cache, order, e), ck.key)
      == NotesOn(Notes(ns, cache, order[..n], e), ck.key)
         + if order[n] == ck then NoteOf(ns, ck, cache[ck], e) else []
  {
    var n := |order| - 1;
    var note := NoteOf(ns, order[n], cache[order[n]], e);
    NotesOnConcat(Notes(ns, cache, order[..n], e), note, ck.key);
    assert order[n] in cache;
    NotesOnNote(note, ck.key, order[n].key == ck.key);
  }

  lemma NotesOnNote(note: seq<Note>, key: string, own: bool)
    requires |note| <= 1 && forall n :: n in note ==> (n.key == key <==> own)
    ensures NotesOn(note, key) == if own then note else []
  {
    if note != [] {
      assert note[0] in note && note == [note[0]] && note[..0] == [];
    }
  }

  // The entry's note, if the event yields one; otherwise the event itself with an empty old
  // value, if it is one for the key.
  function Report(ns: string, ck: CacheKey, cached: Option<CachedEntry>, e: Event): seq<Note> {
    var own := if cached.Some? then NoteOf(ns, ck, cached.value, e) else [];
    if own != [] then own else if e.key == ck.key then [Note(ck.key, "", e.value)] else []
  }

  function EntryAt(cache: Cache, ck: CacheKey): Option<CachedEntry> {
    if ck in cache then Some(cache[ck]) else None
  }

  // The calls that are made when no note was on the event's key.
  function Fallback(handlers: Handlers, notes: seq<Note>, e: Event): seq<Call> {
    if HandlersOf(handlers, e.key) != [] && !Notified(notes, e.key)
    then Fire(HandlersOf(handlers, e.key), Note(e.key, "", e.value)) else []
  }

  lemma FallbackOnKey(handlers: Handlers, notes: seq<Note>, e: Event, key: string)
    ensures OnKey(Fallback(handlers, notes, e), key)
         == if e.key == key && !Notified(notes, key) then FireAll(handlers, [Note(key, "", e.value)]) else []
  {
    OnKeyUniform(Fallback(handlers, notes, e), key, e.key == key);
    FireOne(handlers, Note(key, "", e.value));
  }

  // The handlers of a key with at most one cached entry are called with that report exactly.
  lemma EventCallsOnKey(ns: string, handlers: Handlers, cache: Cache, order: seq<CacheKey>, e: Event, ck: CacheKey)
    requires IsWalk(order, cache) && OnlyEntry(cache, ck)
    ensures OnKey(Calls(handlers, Notes(ns, cache, order, e), e), ck.key)
         == FireAll(handlers, Report(ns, ck, EntryAt(cache, ck), e))
  {
    var notes := Notes(ns, cache, order, e);
    NotesOfOnlyEntry(ns, cache, order, e, ck);
    NotesGiveCalls(handlers, notes, e, ck.key);
  }

  lemma NotesGiveCalls(handlers: Handlers, notes: seq<Note>, e: Event, key: string)
    ensures var own := NotesOn(notes, key);
      OnKey(Calls(handlers, notes, e), key)
      == FireAll(handlers, if own != [] then own else if e.key == key then [Note(key, "", e.value)] else [])
  {
    CallsOnKey(handlers, notes, key);
    NotesOnNotified(notes, key);
    var fired, extra := FireAll(handlers, notes), Fallback(handlers, notes, e);
    assert Calls(handlers, notes, e) == fired + extra;
    OnKeyConcat(fired, extra, key);
    FallbackOnKey(handlers, notes, e, key);
    if NotesOn(notes, key) != [] {
      assert OnKey(fired, key) + [] == OnKey(fired, key);
    } else {
      assert OnKey(fired, key) == [] && [] + OnKey(extra, key) == OnKey(extra, key);
    }
  }

  // A key of which nothing is cached: each of its handlers runs exactly once, with an empty old
  // value and the value of the event.
  lemma UncachedKeyNotifiedOnce(ns: string, handlers: Handlers, cache: Cache, order: seq<CacheKey>, e: Event)
    requires IsWalk(order, cache) && forall ck :: ck in cache ==> ck.key != e.key
    ensures var calls := OnKey(Calls(handlers, Notes(ns, cache, order, e), e), e.key);
      var hs := if e.key in handlers then handlers[e.key] else [];
      |calls| == |hs| && forall k :: 0 <= k < |hs| ==> calls[k] == Call(hs[k], e.key, "", e.value)
  {
    var note := Note(e.key, "", e.value);
    EventCallsOnKey(ns, handlers, cache, order, e, CacheKey(e.key, ""));
    assert Report(ns, CacheKey(e.key, ""), None, e) == [note];
    FireOne(handlers, note);
    FireEach(HandlersOf(handlers, e.key), note);
  }

  // --- Successive notifications of one entry ---

  // What its set events report of an entry, as long as it stays cached.
  function SetNotes(ns: string, ck: CacheKey, cached: CachedEntry, events: seq<Event>): seq<Note> {
    if events == [] then []
    else
      var n := |events| - 1;
      var before := Replay(ns, ck, cached, events[..n]);
      SetNotes(ns, ck, cached, events[..n])
      + if before.Some? && events[n].action == "set" then NoteOf(ns, ck, before.value, events[n]) else []
  }

  // Each note starts from the value the one before it ended with.
  ghost predicate Chains(notes: seq<Note>, key: string, first: string, last: string) {
    && (forall i :: 0 <= i < |notes| ==> notes[i].key == key && notes[i].oldValue != notes[i].newValue)
    && (forall i :: 0 < i < |notes| ==> notes[i - 1].newValue == notes[i].oldValue)
    && (if notes == [] then first == last
        else notes[0].oldValue == first && notes[|notes| - 1].newValue == last)
  }

  // A chain can be taken apart, and put together, at its last note.
  lemma ChainsLast(notes: seq<Note>, note: Note, key: string, first: string, last: string)
    ensures Chains(notes + [note], key, first, last) <==>
      && Chains(notes, key, first, note.oldValue)
      && note.key == key && note.oldValue != note.newValue && note.newValue == last
  {
    var all := notes + [note];
    assert all[|notes|] == note && all[..|notes|] == notes;
    if Chains(all, key, first, last) && notes != [] {
      assert all[|notes| - 1].newValue == all[|notes|].oldValue;
      forall i | 0 < i < |notes|
        ensures notes[i - 1].newValue == notes[i].oldValue
      {
        assert all[i - 1].newValue == all[i].oldValue;
      }
    }
  }

  // The set notifications of an entry that stays cached lead, without a gap, from the value it
  // had to the value it has.
  lemma {:induction false} SetNotesChain(ns: string, ck: CacheKey, cached: CachedEntry, events: seq<Event>)
    requires Replay(ns, ck, cached, events).Some?
    ensures Chains(SetNotes(ns, ck, cached, events), ck.key, cached.value, Replay(ns, ck, cached, events).value.value)
  {
    if events != [] {
      var n := |events| - 1;
      SetNotesChain(ns, ck, cached, events[..n]);
      var before := SetNotes(ns, ck, cached, events[..n]);
      var w := Replay(ns, ck, cached, events[..n]).value;
      var w' := Replay(ns, ck, cached, events).value;
      if w'.value != w.value {
        ChainsLast(before, Note(ck.key, w.value, w'.value), ck.key, cached.value, w'.value);
      } else {
        assert before + [] == before;
      }
    }
  }

  // --- What the handlers are told of one entry ---

  // The reports on one entry over a stretch of events.
  function Reports(ns: string, ck: CacheKey, cached: CachedEntry, events: seq<Event>): seq<Note> {
    if events == [] then []
    else
      var n := |events| - 1;
      Reports(ns, ck, cached, events[..n]) + Report(ns, ck, Replay(ns, ck, cached, events[..n]), events[n])
  }

  // Every set event for the entry's own key changes its value.
  ghost predicate EachSetChanges(ns: string, ck: CacheKey, cached: CachedEntry, events: seq<Event>) {
    forall i :: 0 <= i < |events| ==> SetChanges(ns, ck, cached, events, i)
  }

  ghost predicate SetChanges(ns: string, ck: CacheKey, cached: CachedEntry, events: seq<Event>, i: nat)
    requires i < |events|
  {
    var before := Replay(ns, ck, cached, events[..i]);
    events[i].key == ck.key ==> before.Some? && NoteOf(ns, ck, before.value, events[i]) != []
  }

  lemma EachSetChangesLast(ns: string, ck: CacheKey, cached: CachedEntry, events: seq<Event>)
    requires events != []
    ensures EachSetChanges(ns, ck, cached, events) <==>
      && EachSetChanges(ns, ck, cached, events[..|events| - 1])
      && SetChanges(ns, ck, cached, events, |events| - 1)
  {
    var n := |events| - 1;
    forall i | 0 <= i < n
      ensures SetChanges(ns, ck, cached, events, i) <==> SetChanges(ns, ck, cached, events[..n], i)
    {
      assert events[..n][..i] == events[..i];
    }
  }

  ghost predicate AllSets(events: seq<Event>) {
    forall i :: 0 <= i < |events| ==> events[i].action == "set"
  }

  // In a session of set events, what the handlers of the key see chains from the entry's first
  // value to its last if and only if every event for the key changes the value: one that does
  // not, because it is shadowed or sets the same value, is still passed on with an empty old value.
  lemma SessionChainsIff(ns: string, ck: CacheKey, cached: CachedEntry, events: seq<Event>)
    requires AllSets(events)
    ensures Replay(ns, ck, cached, events).Some?
    ensures Chains(Reports(ns, ck, cached, events), ck.key, cached.value, Replay(ns, ck, cached, events).value.value)
       <==> EachSetChanges(ns, ck, cached, events)
    ensures EachSetChanges(ns, ck, cached, events) ==>
      Reports(ns, ck, cached, events) == SetNotes(ns, ck, cached, events)
  {
    SetsKeep(ns, ck, cached, events);
    if EachSetChanges(ns, ck, cached, events) {
      ChangesReported(ns, ck, cached, events);
      SetNotesChain(ns, ck, cached, events);
    }
    var last := Replay(ns, ck, cached, events).value.value;
    if Chains(Reports(ns, ck, cached, events), ck.key, cached.value, last) {
      ChainEnds(ns, ck, cached, events, last);
    }
  }

  lemma {:induction false} SetsKeep(ns: string, ck: CacheKey, cached: CachedEntry, events: seq<Event>)
    requires AllSets(events)
    ensures Replay(ns, ck, cached, events).Some?
  {
    if events != [] {
      SetsKeep(ns, ck, cached, events[..|events| - 1]);
    }
  }

  lemma {:induction false} ChangesReported(ns: string, ck: CacheKey, cached: CachedEntry, events: seq<Event>)
    requires AllSets(events) && EachSetChanges(ns, ck, cached, events)
    ensures Reports(ns, ck, cached, events) == SetNotes(ns, ck, cached, events)
  {
    if events != [] {
      var n := |events| - 1;
      SetsKeep(ns, ck, cached, events[..n]);
      EachSetChangesLast(ns, ck, cached, events);
      ChangesReported(ns, ck, cached, events[..n]);
    }
  }

  // What a set event reports: nothing, a change of the value, or itself without a change.
  lemma ReportCases(ns: string, ck: CacheKey, cached: CachedEntry, e: Event)
    requires e.action == "set"
    ensures var report, after := Report(ns, ck, Some(cached), e), AfterEvent(ns, ck, cached, e);
      && after.Some?
      && var changes := NoteOf(ns, ck, cached, e) != [];
      && report == (if changes then [Note(ck.key, cached.value, after.value.value)]
                    else if e.key == ck.key then [Note(ck.key, "", e.value)] else [])
      && (changes <==> after.value.value != cached.value)
  {
  }

  // Where a chain of reports can end: at the entry's value when each set changed it, or with an
  // event that was only passed on, and then the entry's value is empty and the chain's end is not.
  lemma {:induction false} ChainEnds(ns: string, ck: CacheKey, cached: CachedEntry, events: seq<Event>, last: string)
    requires AllSets(events) && Chains(Reports(ns, ck, cached, events), ck.key, cached.value, last)
    ensures Replay(ns, ck, cached, events).Some?
    ensures var w := Replay(ns, ck, cached, events).value.value;
      (EachSetChanges(ns, ck, cached, events) && last == w) || (w == "" && last != "")
  {
    SetsKeep(ns, ck, cached, events);
    if events != [] {
      var n := |events| - 1;
      SetsKeep(ns, ck, cached, events[..n]);
      EachSetChangesLast(ns, ck, cached, events);
      var entry := Replay(ns, ck, cached, events[..n]).value;
      ReportCases(ns, ck, entry, events[n]);
      var before, report := Reports(ns, ck, cached, events[..n]), Report(ns, ck, Some(entry), events[n]);
      assert Reports(ns, ck, cached, events) == before + report;
      if report == [] {
        assert before + report == before;
        ChainEnds(ns, ck, cached, events[..n], last);
      } else {
        ChainsLast(before, report[0], ck.key, cached.value, last);
        ChainEnds(ns, ck, cached, events[..n], report[0].oldValue);
      }
    }
  }

  // The shortest way to break the chain: a value is set a second time.
  lemma RepeatedValueBreaksChain(ns: string, key: string, cached: CachedEntry, value: string)
    requires cached.sourceNS == "" && cached.value != value
    ensures var ck, e := CacheKey(key, ""), Event(key, value, "set", "");
      && Reports(ns, ck, cached, [e, e]) == [Note(key, cached.value, value), Note(key, "", value)]
      && (value != "" ==> !Chains(Reports(ns, ck, cached, [e, e]), key, cached.value, value))
  {
    var ck, e := CacheKey(key, ""), Event(key, value, "set", "");
    assert [e, e][..1] == [e] && [e][..0] == [];
    assert Replay(ns, ck, cached, [e]) == Some(cached.(value := value));
    assert Reports(ns, ck, cached, [e]) == [Note(key, cached.value, value)];
    var all := Reports(ns, ck, cached, [e, e]);
    assert value != "" ==> all[0].newValue != all[1].oldValue;
  }
}
