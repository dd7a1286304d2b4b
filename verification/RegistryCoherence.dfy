// The registry client's cache agrees with the server, over every run of the two.
module RegistryCoherence {
  import opened Options
  import opened RegistryLog
  import opened RegistryClient

  // A cached entry holds what a read of the overlay gives.
  predicate Agrees(cached: CachedEntry, r: Option<Resolved>) {
    r == Some(Resolved(cached.value, cached.sourceNS))
  }

  // An entry without a format that agrees keeps agreeing, or is invalidated.
  lemma EventKeepsAgreement(ns: string, key: string, cached: CachedEntry, store: Store, e: Event)
    requires Agrees(cached, Overlay(store, ns, key))
    ensures var after := AfterEvent(ns, CacheKey(key, ""), cached, e);
      after.Some? ==> Agrees(after.value, Overlay(ApplyEvent(store, e), ns, key))
  {
  }

  // --- Late events ---

  lemma {:induction false} ReplayFirst(ns: string, key: string, cached: CachedEntry, e: Event, events: seq<Event>)
    ensures Replay(ns, CacheKey(key, ""), cached, [e] + events)
         == var next := AfterEvent(ns, CacheKey(key, ""), cached, e);
            if next.None? then None else Replay(ns, CacheKey(key, ""), next.value, events)
  {
    var all := [e] + events;
    var n := |events|;
    if n == 0 {
      assert all[..0] == [];
      assert Replay(ns, CacheKey(key, ""), cached, []) == Some(cached);
    } else {
      assert all[..n] == [e] + events[..n - 1];
      ReplayFirst(ns, key, cached, e, events[..n - 1]);
    }
  }

  // Where a replayed entry has its value from: the last own or global set among the events, or
  // the entry as it was when no event touched its slot.
  lemma {:induction false} ReplayedFrom(ns: string, key: string, cached: CachedEntry, events: seq<Event>)
    requires cached.sourceNS in {"", ns}
    ensures var r := Replay(ns, CacheKey(key, ""), cached, events);
      r.Some? ==>
        var c := r.value;
        var own, glob := LastChangeOf(events, Slot(ns, key)), LastChangeOf(events, Slot("", key));
        && c.sourceNS in {"", ns}
        && (c.sourceNS != "" ==>
              own == SetTo(c.value) || (own == Untouched && cached.sourceNS == ns && cached.value == c.value))
        && (c.sourceNS == "" ==>
              && cached.sourceNS == "" && (ns != "" ==> !own.SetTo?)
              && (glob == SetTo(c.value) || (glob == Untouched && cached.value == c.value)))
  {
    if events != [] {
      ReplayedFrom(ns, key, cached, events[..|events| - 1]);
    }
  }

  // Replay convergence: an entry that was fetched after the events, but sees them only now,
  // ends up invalidated or with exactly what the overlay gives after the events.
  lemma ReplayConverges(ns: string, key: string, cached: CachedEntry, store: Store, late: seq<Event>)
    requires Agrees(cached, Overlay(StoreAfter(store, late), ns, key))
    ensures var r := Replay(ns, CacheKey(key, ""), cached, late);
      r.Some? ==> Agrees(r.value, Overlay(StoreAfter(store, late), ns, key))
  {
    ReplayedFrom(ns, key, cached, late);
    SlotAfter(store, late, Slot(ns, key));
    SlotAfter(store, late, Slot("", key));
  }

  // Whether a stretch of events brings an entry that does not agree with the store up to date:
  // an own set as the last own change does, and so does a global value for an entry that came
  // from the global namespace, when nothing of the own namespace is left in front of it.
  predicate Repairs(ns: string, key: string, cached: CachedEntry, store: Store, events: seq<Event>) {
    var own, glob := LastChangeOf(events, Slot(ns, key)), LastChangeOf(events, Slot("", key));
    || (ns != "" && own.SetTo?)
    || (&& cached.sourceNS == ""
        && (ns == "" || own == Deleted || (own == Untouched && Slot(ns, key) !in store))
        && (glob.SetTo? ||
            (glob == Untouched && Slot("", key) in store && store[Slot("", key)] == cached.value)))
  }

  // An entry that does not agree, and that the events do not invalidate, agrees after them if
  // and only if they repair it.
  lemma RepairedIff(ns: string, key: string, cached: CachedEntry, store: Store, events: seq<Event>)
    requires cached.sourceNS in {"", ns} && !Agrees(cached, Overlay(store, ns, key))
    requires Replay(ns, CacheKey(key, ""), cached, events).Some?
    ensures Agrees(Replay(ns, CacheKey(key, ""), cached, events).value, Overlay(StoreAfter(store, events), ns, key))
       <==> Repairs(ns, key, cached, store, events)
  {
    ReplayedFrom(ns, key, cached, events);
    SlotAfter(store, events, Slot(ns, key));
    SlotAfter(store, events, Slot("", key));
  }

  // --- Runs of server and client ---

  // A lookup that missed the cache, holds its answer, read at log position `at`, and has not
  // stored it yet. Others of the same key may have stored theirs in the meantime.
  datatype Pending = Pending(ck: CacheKey, entry: Entry, at: nat)

  // fetchedAt and stale are bookkeeping of the proof: the log position each entry was read at,
  // and the entries that were outdated when they were stored and have not been repaired since.
  datatype World = World(
    ns: string, initial: Store, log: seq<Event>, applied: nat, cache: Cache, pending: seq<Pending>,
    fetchedAt: map<CacheKey, nat>, stale: set<CacheKey>)

  datatype Step =
    | Emit(e: Event)
    | Deliver
    | BeginGet(ck: CacheKey, entry: Entry)
    | EndGet(i: nat)

  ghost predicate Start(w: World) {
    w == World(w.ns, w.initial, [], 0, map[], [], map[], {})
  }

  // What the server answers now; the rendering of a setting in another format is left open.
  ghost predicate Answers(w: World, ck: CacheKey, entry: Entry) {
    ck.format == "" ==>
      Overlay(StoreAfter(w.initial, w.log), w.ns, ck.key) == Some(Resolved(entry.value, entry.namespace))
  }

  // An answer that is stored now is still up to date, or will be brought up to date by events.
  predicate InTime(w: World, p: Pending)
    requires p.at <= |w.log| && w.applied <= |w.log|
  {
    w.applied < p.at ||
    LeavesResolved(w.log[p.at..w.applied], w.ns, p.ck.key, Resolved(p.entry.value, p.entry.namespace))
  }

  // The outdated entries that the next event does not repair.
  function StillStale(w: World): set<CacheKey>
    requires w.applied < |w.log|
  {
    set ck | ck in w.stale && !(ck in w.cache &&
      Repairs(w.ns, ck.key, w.cache[ck], StoreAfter(w.initial, w.log[..w.applied]), [w.log[w.applied]]))
  }

  ghost predicate Next(w: World, s: Step, w': World) {
    match s
    case Emit(e) => w' == w.(log := w.log + [e])
    case Deliver =>
      && w.applied < |w.log|
      && w' == w.(applied := w.applied + 1, cache := UpdatedCache(w.ns, w.cache, w.log[w.applied]),
                  stale := StillStale(w))
    case BeginGet(ck, entry) =>
      && Answers(w, ck, entry)
      && w' == w.(pending := w.pending + [Pending(ck, entry, |w.log|)])
    case EndGet(i) =>
      && i < |w.pending|
      && var p := w.pending[i];
      && p.at <= |w.log| && w.applied <= |w.log|
      && w' == w.(
           cache := w.cache[p.ck := Stored(p.entry)],
           pending := w.pending[..i] + w.pending[i + 1..],
           fetchedAt := w.fetchedAt[p.ck := p.at],
           stale := if InTime(w, p) then w.stale - {p.ck} else w.stale + {p.ck})
  }

  ghost predicate CanStep(w: World, w': World) {
    exists s :: Next(w, s, w')
  }

  ghost predicate IsRun(run: seq<World>) {
    && run != [] && Start(run[0])
    && forall i :: 0 < i < |run| ==> CanStep(run[i - 1], run[i])
  }

  // --- The invariant ---

  ghost predicate InBounds(w: World) {
    && w.applied <= |w.log|
    && (forall ck :: ck in w.cache ==> ck in w.fetchedAt && w.fetchedAt[ck] <= |w.log|)
    && (forall p :: p in w.pending ==> p.at <= |w.log|)
  }

  // Once the client has caught up with the position an entry was read at, the entry agrees with
  // the overlay at the applied position exactly when it is not outdated; before that, the events
  // still to come will see to it.
  ghost predicate EntryInv(w: World, ck: CacheKey)
    requires InBounds(w) && ck in w.cache
  {
    var q := w.fetchedAt[ck];
    && w.cache[ck].sourceNS in {"", w.ns}
    && if q <= w.applied then
         Agrees(w.cache[ck], OverlayAt(w.initial, w.log, w.applied, w.ns, ck.key)) <==> ck !in w.stale
       else
         && ck !in w.stale
         && var r := Replay(w.ns, ck, w.cache[ck], w.log[w.applied..q]);
            r.Some? ==> Agrees(r.value, OverlayAt(w.initial, w.log, q, w.ns, ck.key))
  }

  ghost predicate PendingInv(w: World, p: Pending)
    requires p.at <= |w.log|
  {
    p.ck.format == "" ==> Agrees(Stored(p.entry), OverlayAt(w.initial, w.log, p.at, w.ns, p.ck.key))
  }

  ghost predicate Inv(w: World) {
    && InBounds(w)
    && (forall p :: p in w.pending ==> PendingInv(w, p))
    && (forall ck :: ck in w.cache && ck.format == "" ==> EntryInv(w, ck))
  }

  lemma EmitKeepsInv(w: World, e: Event, w': World)
    requires Inv(w) && Next(w, Emit(e), w')
    ensures Inv(w')
  {
    assert forall n :: 0 <= n <= |w.log| ==> w'.log[..n] == w.log[..n];
    forall p | p in w'.pending
      ensures PendingInv(w', p)
    {
      assert PendingInv(w, p);
    }
    forall ck | ck in w'.cache && ck.format == ""
      ensures EntryInv(w', ck)
    {
      assert EntryInv(w, ck);
      var q := w.fetchedAt[ck];
      assert q > w.applied ==> w'.log[w.applied..q] == w.log[w.applied..q];
    }
  }

  lemma DeliverKeepsInv(w: World, w': World)
    requires Inv(w) && Next(w, Deliver, w')
    ensures Inv(w')
  {
    forall p | p in w'.pending
      ensures PendingInv(w', p)
    {
      assert PendingInv(w, p);
    }
    forall ck | ck in w'.cache && ck.format == ""
      ensures EntryInv(w', ck)
    {
      assert EntryInv(w, ck);
      DeliveredEntry(w, w', ck);
    }
  }

  lemma DeliveredEntry(w: World, w': World, ck: CacheKey)
    requires Inv(w) && Next(w, Deliver, w') && InBounds(w')
    requires ck in w.cache && ck in w'.cache && ck.format == "" && EntryInv(w, ck)
    ensures EntryInv(w', ck)
  {
    assert ck == CacheKey(ck.key, "");
    assert w'.cache[ck] == AfterEvent(w.ns, ck, w.cache[ck], w.log[w.applied]).value;
    if w.fetchedAt[ck] > w.applied {
      DeliveredLate(w, ck.key);
    } else if ck !in w.stale {
      DeliveredCaughtUp(w, ck.key);
    } else {
      DeliveredStale(w, ck.key);
    }
  }

  lemma DeliveredCaughtUp(w: World, key: string)
    requires w.applied < |w.log| && CacheKey(key, "") in w.cache
    requires Agrees(w.cache[CacheKey(key, "")], OverlayAt(w.initial, w.log, w.applied, w.ns, key))
    ensures var after := AfterEvent(w.ns, CacheKey(key, ""), w.cache[CacheKey(key, "")], w.log[w.applied]);
      after.Some? ==> Agrees(after.value, OverlayAt(w.initial, w.log, w.applied + 1, w.ns, key))
  {
    var n := w.applied;
    assert w.log[..n + 1][..n] == w.log[..n];
    EventKeepsAgreement(w.ns, key, w.cache[CacheKey(key, "")], StoreAfter(w.initial, w.log[..n]), w.log[n]);
  }

  lemma DeliveredStale(w: World, key: string)
    requires w.applied < |w.log| && CacheKey(key, "") in w.cache
    requires w.cache[CacheKey(key, "")].sourceNS in {"", w.ns}
    requires !Agrees(w.cache[CacheKey(key, "")], OverlayAt(w.initial, w.log, w.applied, w.ns, key))
    ensures var n := w.applied;
      var cached := w.cache[CacheKey(key, "")];
      var after := AfterEvent(w.ns, CacheKey(key, ""), cached, w.log[n]);
      after.Some? ==>
        (Agrees(after.value, OverlayAt(w.initial, w.log, n + 1, w.ns, key))
         <==> Repairs(w.ns, key, cached, StoreAfter(w.initial, w.log[..n]), [w.log[n]]))
  {
    var n, cached := w.applied, w.cache[CacheKey(key, "")];
    var store := StoreAfter(w.initial, w.log[..n]);
    assert w.log[..n + 1] == w.log[..n] + [w.log[n]];
    StoreAfterConcat(w.initial, w.log[..n], [w.log[n]]);
    ReplayFirst(w.ns, key, cached, w.log[n], []);
    assert [w.log[n]] + [] == [w.log[n]];
    if Replay(w.ns, CacheKey(key, ""), cached, [w.log[n]]).Some? {
      RepairedIff(w.ns, key, cached, store, [w.log[n]]);
    }
  }

  lemma DeliveredLate(w: World, key: string)
    requires InBounds(w) && CacheKey(key, "") in w.cache
    requires w.fetchedAt[CacheKey(key, "")] > w.applied && EntryInv(w, CacheKey(key, ""))
    ensures var q := w.fetchedAt[CacheKey(key, "")];
      var after := AfterEvent(w.ns, CacheKey(key, ""), w.cache[CacheKey(key, "")], w.log[w.applied]);
      after.Some? ==>
        var r := Replay(w.ns, CacheKey(key, ""), after.value, w.log[w.applied + 1..q]);
        r.Some? ==> Agrees(r.value, OverlayAt(w.initial, w.log, q, w.ns, key))
  {
    var n, q := w.applied, w.fetchedAt[CacheKey(key, "")];
    assert w.log[n..q] == [w.log[n]] + w.log[n + 1..q];
    ReplayFirst(w.ns, key, w.cache[CacheKey(key, "")], w.log[n], w.log[n + 1..q]);
  }

  lemma BeginKeepsInv(w: World, ck: CacheKey, entry: Entry, w': World)
    requires Inv(w) && Next(w, BeginGet(ck, entry), w')
    ensures Inv(w')
  {
    assert w.log[..|w.log|] == w.log;
    forall p | p in w'.pending
      ensures p.at <= |w'.log| && PendingInv(w', p)
    {
      assert p in w.pending ==> PendingInv(w, p);
    }
    forall c | c in w'.cache && c.format == ""
      ensures EntryInv(w', c)
    {
      assert EntryInv(w, c);
    }
  }

  lemma EndKeepsInv(w: World, i: nat, w': World)
    requires Inv(w) && Next(w, EndGet(i), w')
    ensures Inv(w')
  {
    var p := w.pending[i];
    forall p' | p' in w'.pending
      ensures p'.at <= |w'.log| && PendingInv(w', p')
    {
      assert p' in w.pending && PendingInv(w, p');
    }
    forall ck | ck in w'.cache && ck.format == ""
      ensures EntryInv(w', ck)
    {
      if ck == p.ck {
        assert p in w.pending && PendingInv(w, p);
        StoredEntry(w, p);
      } else {
        assert EntryInv(w, ck);
      }
    }
  }

  // What storing an answer means for the entry.
  lemma StoredEntry(w: World, p: Pending)
    requires p.at <= |w.log| && w.applied <= |w.log| && p.ck.format == "" && PendingInv(w, p)
    ensures w.applied < p.at ==>
      var r := Replay(w.ns, p.ck, Stored(p.entry), w.log[w.applied..p.at]);
      r.Some? ==> Agrees(r.value, OverlayAt(w.initial, w.log, p.at, w.ns, p.ck.key))
    ensures w.applied >= p.at ==>
      (Agrees(Stored(p.entry), OverlayAt(w.initial, w.log, w.applied, w.ns, p.ck.key)) <==> InTime(w, p))
  {
    var n, q := w.applied, p.at;
    if n < q {
      assert w.log[..q] == w.log[..n] + w.log[n..q];
      StoreAfterConcat(w.initial, w.log[..n], w.log[n..q]);
      ReplayConverges(w.ns, p.ck.key, Stored(p.entry), StoreAfter(w.initial, w.log[..n]), w.log[n..q]);
    } else {
      assert w.log[..n] == w.log[..q] + w.log[q..n];
      StoreAfterConcat(w.initial, w.log[..q], w.log[q..n]);
      ResolvedStaysIff(StoreAfter(w.initial, w.log[..q]), w.log[q..n], w.ns, p.ck.key,
                       Resolved(p.entry.value, p.entry.namespace));
    }
  }

  lemma StepKeepsInv(w: World, w': World)
    requires Inv(w) && CanStep(w, w')
    ensures Inv(w')
  {
    var s :| Next(w, s, w');
    match s
    case Emit(e) => EmitKeepsInv(w, e, w');
    case Deliver => DeliverKeepsInv(w, w');
    case BeginGet(ck, entry) => BeginKeepsInv(w, ck, entry, w');
    case EndGet(i) => EndKeepsInv(w, i, w');
  }

  lemma {:induction false} RunKeepsInv(run: seq<World>, i: nat)
    requires IsRun(run) && i < |run|
    ensures Inv(run[i])
  {
    if i > 0 {
      RunKeepsInv(run, i - 1);
      StepKeepsInv(run[i - 1], run[i]);
    }
  }

  // --- Main results ---

  // Cache coherence: in every state of every run, an unformatted entry that the client has
  // caught up with holds the overlay at the applied position if and only if it is not outdated:
  // it was stored in time, or an event has repaired it since. An outdated entry is always one
  // that the client has caught up with.
  lemma CacheCoherent(run: seq<World>, i: nat, key: string)
    requires IsRun(run) && i < |run|
    ensures var w, ck := run[i], CacheKey(key, "");
      ck in w.cache ==>
        && ck in w.fetchedAt && w.applied <= |w.log|
        && (ck in w.stale ==> w.fetchedAt[ck] <= w.applied)
        && (w.fetchedAt[ck] <= w.applied ==>
              (Agrees(w.cache[ck], OverlayAt(w.initial, w.log, w.applied, w.ns, key)) <==> ck !in w.stale))
  {
    RunKeepsInv(run, i);
    var w, ck := run[i], CacheKey(key, "");
    if ck in w.cache {
      assert EntryInv(w, ck);
    }
  }

  // When every event has been delivered, a cache hit is what a fetch would answer now, if and
  // only if the entry is not outdated.
  lemma HitIsFresh(run: seq<World>, i: nat, key: string, entry: Entry)
    requires IsRun(run) && i < |run|
    requires run[i].applied == |run[i].log| && CacheKey(key, "") in run[i].cache
    ensures var w, ck := run[i], CacheKey(key, "");
      && (ck !in w.stale ==>
            (Answers(w, ck, entry) <==> entry.value == w.cache[ck].value && entry.namespace == w.cache[ck].sourceNS))
      && (ck in w.stale ==>
            (Answers(w, ck, entry) ==> !(entry.value == w.cache[ck].value && entry.namespace == w.cache[ck].sourceNS)))
  {
    var w, ck := run[i], CacheKey(key, "");
    RunKeepsInv(run, i);
    assert EntryInv(w, ck);
    assert w.log[..w.applied] == w.log;
  }

  // No event is delivered between the read and the store of any lookup: Get as one step.
  ghost predicate AtomicGets(run: seq<World>) {
    forall i :: 0 < i < |run| && run[i].applied != run[i - 1].applied ==> run[i - 1].pending == []
  }

  // With atomic lookups every entry is stored in time.
  lemma {:induction false} AtomicGetsInTime(run: seq<World>, i: nat)
    requires IsRun(run) && AtomicGets(run) && i < |run|
    ensures run[i].stale == {}
    ensures forall p :: p in run[i].pending ==> run[i].applied <= p.at
  {
    if i > 0 {
      AtomicGetsInTime(run, i - 1);
      RunKeepsInv(run, i - 1);
      var w, w' := run[i - 1], run[i];
      assert CanStep(w, w');
      var s :| Next(w, s, w');
      match s
      case Emit(_) =>
      case Deliver =>
        assert w.pending == [] by { assert w'.applied != w.applied; }
      case BeginGet(_, _) =>
      case EndGet(i) =>
        assert w.pending[i] in w.pending;
        NothingBetween(w, w.pending[i]);
        forall p | p in w'.pending
          ensures p in w.pending
        {
        }
    }
  }

  lemma NothingBetween(w: World, p: Pending)
    requires p.at <= |w.log| && w.applied <= p.at
    ensures InTime(w, p)
  {
    if w.applied == p.at {
      assert w.log[p.at..w.applied] == [];
    }
  }

  // The source does not hold its lock between the read and the store. An event delivered in
  // between can leave a wrong value in the cache: a run in which the client has applied every
  // event and still holds the old value. It stays until an event repairs or invalidates it.
  lemma WindowLeavesOldValue() returns (run: seq<World>)
    ensures IsRun(run)
    ensures var w := run[|run| - 1];
      && w.applied == |w.log| && w.pending == []
      && CacheKey("k", "") in w.cache && w.cache[CacheKey("k", "")].value == "old"
      && OverlayAt(w.initial, w.log, w.applied, w.ns, "k") == Some(Resolved("new", ""))
  {
    var ck := CacheKey("k", "");
    var entry := Entry("old", "", false, "");
    var e := Event("k", "new", "set", "");
    var w0 := World("", map[Slot("", "k") := "old"], [], 0, map[], [], map[], {});
    var w1 := w0.(pending := [Pending(ck, entry, 0)]);
    var w2 := w1.(log := [e]);
    var w3 := w2.(applied := 1);
    var w4 := w3.(cache := map[ck := Stored(entry)], pending := [], fetchedAt := map[ck := 0], stale := {ck});
    assert CanStep(w0, w1) by { assert Next(w0, BeginGet(ck, entry), w1); }
    assert CanStep(w1, w2) by { assert Next(w1, Emit(e), w2); }
    assert CanStep(w2, w3) by { assert Next(w2, Deliver, w3); }
    assert CanStep(w3, w4) by {
      OneSet(w0.initial, e);
      assert w3.log[0..1] == [e];
      assert !InTime(w3, w3.pending[0]);
      assert Next(w3, EndGet(0), w4);
    }
    FiveStates(w0, w1, w2, w3, w4);
    run := [w0, w1, w2, w3, w4];
    OneSet(w0.initial, e);
    assert w4.log[..1] == [e];
  }

  lemma FiveStates(w0: World, w1: World, w2: World, w3: World, w4: World)
    requires Start(w0) && CanStep(w0, w1) && CanStep(w1, w2) && CanStep(w2, w3) && CanStep(w3, w4)
    ensures IsRun([w0, w1, w2, w3, w4])
  {
  }

  lemma OneSet(store: Store, e: Event)
    requires e.action == "set"
    ensures StoreAfter(store, [e]) == store[Slot(e.namespace, e.key) := e.value]
    ensures LastChangeOf([e], Slot(e.namespace, e.key)) == SetTo(e.value)
  {
    assert [e][..0] == [];
  }

}
