// The registry server as its clients see it: a store of settings per namespace, changed by a
// growing log of events, and read with "namespace first, then global".
module RegistryLog {
  import opened Options

  // A change notification; action is "set", "delete" or something a client does not know.
  datatype Event = Event(key: string, value: string, action: string, namespace: string)

  // A slot of the store: the global namespace is "".
  datatype Slot = Slot(namespace: string, key: string)

  type Store = map<Slot, string>

  // A resolved setting and the namespace it came from.
  datatype Resolved = Resolved(value: string, sourceNS: string)

  function ApplyEvent(store: Store, e: Event): Store {
    var slot := Slot(e.namespace, e.key);
    if e.action == "set" then store[slot := e.value]
    else if e.action == "delete" then store - {slot}
    else store
  }

  function StoreAfter(initial: Store, log: seq<Event>): Store {
    if log == [] then initial
    else ApplyEvent(StoreAfter(initial, log[..|log| - 1]), log[|log| - 1])
  }

  function Overlay(store: Store, ns: string, key: string): Option<Resolved> {
    if ns != "" && Slot(ns, key) in store then Some(Resolved(store[Slot(ns, key)], ns))
    else if Slot("", key) in store then Some(Resolved(store[Slot("", key)], ""))
    else None
  }

  // The overlay after the first n events.
  function OverlayAt(initial: Store, log: seq<Event>, n: nat, ns: string, key: string): Option<Resolved>
    requires n <= |log|
  {
    Overlay(StoreAfter(initial, log[..n]), ns, key)
  }

  lemma {:induction false} StoreAfterConcat(initial: Store, a: seq<Event>, b: seq<Event>)
    ensures StoreAfter(initial, a + b) == StoreAfter(StoreAfter(initial, a), b)
  {
    if b == [] {
      assert a + b == a;
    } else {
      assert (a + b)[..|a + b| - 1] == a + b[..|b| - 1];
      StoreAfterConcat(initial, a, b[..|b| - 1]);
    }
  }

  // --- What the log leaves in a slot ---

  // A setting or removal of the slot.
  predicate Touches(e: Event, slot: Slot) {
    e.namespace == slot.namespace && e.key == slot.key && (e.action == "set" || e.action == "delete")
  }

  // A slot holds what the last event that touches it leaves: its value, or nothing.
  lemma {:induction false} LastTouchDecides(initial: Store, log: seq<Event>, slot: Slot, i: nat)
    requires i < |log| && Touches(log[i], slot)
    requires forall j :: i < j < |log| ==> !Touches(log[j], slot)
    ensures slot in StoreAfter(initial, log) <==> log[i].action == "set"
    ensures log[i].action == "set" ==> StoreAfter(initial, log)[slot] == log[i].value
  {
    var n := |log| - 1;
    if i < n {
      LastTouchDecides(initial, log[..n], slot, i);
    }
  }

  lemma {:induction false} UntouchedStays(initial: Store, log: seq<Event>, slot: Slot)
    requires forall j :: 0 <= j < |log| ==> !Touches(log[j], slot)
    ensures slot in StoreAfter(initial, log) <==> slot in initial
    ensures slot in initial ==> StoreAfter(initial, log)[slot] == initial[slot]
  {
    if log != [] {
      UntouchedStays(initial, log[..|log| - 1], slot);
    }
  }

  // --- What a stretch of events does to one slot ---

  // Nothing, or the last thing it does to the slot: set it to a value or delete it.
  datatype LastChange = Untouched | SetTo(value: string) | Deleted

  function LastChangeOf(events: seq<Event>, slot: Slot): LastChange {
    if events == [] then Untouched
    else
      var e := events[|events| - 1];
      if Slot(e.namespace, e.key) == slot && e.action == "set" then SetTo(e.value)
      else if Slot(e.namespace, e.key) == slot && e.action == "delete" then Deleted
      else LastChangeOf(events[..|events| - 1], slot)
  }

  lemma {:induction false} SlotAfter(store: Store, events: seq<Event>, slot: Slot)
    ensures match LastChangeOf(events, slot)
      case Untouched =>
        var after := StoreAfter(store, events);
        (slot in after <==> slot in store) && (slot in store ==> after[slot] == store[slot])
      case SetTo(v) => slot in StoreAfter(store, events) && StoreAfter(store, events)[slot] == v
      case Deleted => slot !in StoreAfter(store, events)
  {
    if events != [] {
      SlotAfter(store, events[..|events| - 1], slot);
    }
  }

  // The events leave the setting that `r` was resolved from as it is.
  predicate LeavesResolved(events: seq<Event>, ns: string, key: string, r: Resolved) {
    && (r.sourceNS == "" ==> LastChangeOf(events, Slot("", key)) in {Untouched, SetTo(r.value)})
    && (ns != "" ==>
          LastChangeOf(events, Slot(ns, key)) in (if r.sourceNS == "" then {Untouched, Deleted}
                                                  else {Untouched, SetTo(r.value)}))
  }

  // Whether a resolved setting is still what a read gives can be told from the events alone.
  lemma ResolvedStaysIff(store: Store, events: seq<Event>, ns: string, key: string, r: Resolved)
    requires Overlay(store, ns, key) == Some(r)
    ensures Overlay(StoreAfter(store, events), ns, key) == Some(r) <==> LeavesResolved(events, ns, key, r)
  {
    SlotAfter(store, events, Slot(ns, key));
    SlotAfter(store, events, Slot("", key));
  }
}
