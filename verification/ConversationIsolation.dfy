// Conversations in one storage: they do not disturb each other.
module ConversationIsolation {
  import opened Conversations
  import opened ConversationKeys
  import opened ConversationRuns

  // --- Get depends on the objects of its own conversation only ---

  ghost predicate AgreeUnder(dir: string, a: Objects, b: Objects) {
    forall k :: dir <= k ==> (k in a <==> k in b) && (k in a ==> a[k] == b[k])
  }

  lemma ChildrenLocal(dir: string, a: Objects, b: Objects)
    requires AgreeUnder(dir, a, b)
    ensures Children(a, dir) == Children(b, dir)
  {
    forall k
      ensures k in Children(a, dir) <==> k in Children(b, dir)
    {
      if k in Children(a, dir) {
        var key :| key in a && dir <= key && Child(dir, key) == k;
        assert key in b;
      }
      if k in Children(b, dir) {
        var key :| key in b && dir <= key && Child(dir, key) == k;
        assert key in a;
      }
    }
  }

  lemma LoadsLocal(id: string, a: Objects, b: Objects, r: Loaded)
    requires AgreeUnder(ConversationDir(id), a, b) && Loads(a, id, r)
    ensures Loads(b, id, r)
  {
    var dir := ConversationDir(id);
    DirOfKeys(id);
    if MetadataKey(id) in a && CostKey(id) in a {
      var keys :| IsListing(a, dir, keys) && LoadsKeys(a, id, keys, r);
      ChildrenLocal(dir, a, b);
      assert Listed(a, dir) == Listed(b, dir);
      assert IsListing(b, dir, keys);
      ReadsLocal(id, keys, a, b, r);
    }
  }

  lemma ReadsLocal(id: string, keys: seq<string>, a: Objects, b: Objects, r: Loaded)
    requires MetadataKey(id) in a && CostKey(id) in a && MetadataKey(id) in b && CostKey(id) in b
    requires AgreeUnder(ConversationDir(id), a, b)
    requires IsListing(a, ConversationDir(id), keys) && LoadsKeys(a, id, keys, r)
    ensures LoadsKeys(b, id, keys, r)
  {
    var dir := ConversationDir(id);
    DirOfKeys(id);
    forall k | k in keys
      ensures k in a <==> k in b
      ensures k in a ==> a[k] == b[k]
    {
      assert k in Children(a, dir);
      assert dir <= k;
    }
    if k :| k in keys && k !in a {
      assert k in keys && k !in b;
    } else {
      assert forall i :: 0 <= i < |keys| ==> keys[i] in keys;
      assert ReadMessages(a, keys) == ReadMessages(b, keys);
    }
  }

  // --- Runs over many conversations ---

  datatype Call = Create(id: string, now: string, outcome: Outcome) | On(id: string, op: Op)

  // The storage and the handles that callers hold.
  datatype Many = Many(objects: Objects, handles: map<string, Content>)

  ghost function ManyAfter(m: Many, call: Call): Many {
    match call
    case Create(id, now, outcome) =>
      Many(AfterCreate(m.objects, id, now, outcome),
           if outcome.BothWritten? then m.handles[id := Content(id, "", now, [], 0.0)] else m.handles)
    case On(id, op) =>
      if id in m.handles
      then
        var s := S3After(S3State(m.objects, m.handles[id]), id, op);
        Many(s.objects, m.handles[id := s.handle])
      else m
  }

  ghost function ManyRun(objects: Objects, calls: seq<Call>): Many {
    if calls == [] then Many(objects, map[])
    else ManyAfter(ManyRun(objects, calls[..|calls| - 1]), calls[|calls| - 1])
  }

  // One conversation's part of the run: nothing, only its metadata file, or the time it was
  // created and its operations.
  datatype Part = Absent | MetadataOnly | Part(now: string, ops: seq<Op>)

  function CreatedPart(now: string, outcome: Outcome): Part {
    match outcome
    case NoneWritten => Absent
    case FirstWritten => MetadataOnly
    case BothWritten => Part(now, [])
  }

  function PartOf(calls: seq<Call>, id: string): Part {
    if calls == [] then Absent
    else
      var before, call := PartOf(calls[..|calls| - 1], id), calls[|calls| - 1];
      if call.id != id then before
      else match call
        case Create(_, now, outcome) =>
          if outcome.NoneWritten? then before else CreatedPart(now, outcome)
        case On(_, op) => if before.Part? then before.(ops := before.ops + [op]) else before
  }

  // Identifiers as they are generated: neither empty nor with a slash.
  predicate IsIdentifier(id: string) {
    id != "" && SlashFree(id)
  }

  // They are not generated twice.
  ghost predicate GoodIds(calls: seq<Call>) {
    && (forall call :: call in calls ==> IsIdentifier(call.id))
    && (forall i, j :: 0 <= i < j < |calls| && calls[i].Create? && calls[j].Create? ==> calls[i].id != calls[j].id)
  }

  // A handle has the identifier of its conversation, or none, and so has its metadata file.
  ghost predicate HandlesInv(m: Many) {
    forall id :: id in m.handles ==>
      && IsIdentifier(id) && m.handles[id].id in {id, ""}
      && MetadataKey(id) in m.objects && AsMetadata(m.objects[MetadataKey(id)]).id in {id, ""}
  }

  ghost predicate IsolationInv(m: Many, id: string, part: Part) {
    match part
    case Absent => id !in m.handles && IsNew(m.objects, id)
    case MetadataOnly => id !in m.handles && MetadataKey(id) in m.objects && CostKey(id) !in m.objects
    case Part(now, ops) =>
      && id in m.handles && m.handles[id] == S3Run(map[], id, now, ops).handle
      && AgreeUnder(ConversationDir(id), m.objects, S3Run(map[], id, now, ops).objects)
  }

  // Two writes under another conversation's directory.
  lemma OtherWrites(objects: Objects, id: string, other: string, key1: string, d1: Document,
                    key2: string, d2: Document, outcome: Outcome)
    requires IsIdentifier(id) && SlashFree(other) && id != other
    requires ConversationDir(other) <= key1 && ConversationDir(other) <= key2
    ensures AgreeUnder(ConversationDir(id), TwoWrites(objects, key1, d1, key2, d2, outcome), objects)
  {
    if ConversationDir(id) <= key1 {
      DirsDisjoint(id, other, key1);
    }
    if ConversationDir(id) <= key2 {
      DirsDisjoint(id, other, key2);
    }
  }

  // A call writes nothing under the directory of another conversation, even when its handle has
  // lost its identifier.
  lemma OtherCallWrites(m: Many, id: string, call: Call)
    requires HandlesInv(m) && IsIdentifier(id) && IsIdentifier(call.id) && call.id != id
    ensures AgreeUnder(ConversationDir(id), ManyAfter(m, call).objects, m.objects)
  {
    DirOfKeys(call.id);
    match call
    case Create(other, now, outcome) =>
      OtherWrites(m.objects, id, other, MetadataKey(other), MetadataFile(other, "", now),
                  CostKey(other), CostFile(0.0), outcome);
    case On(other, op) =>
      if other in m.handles {
        var c := m.handles[other];
        DirOfKeys(c.id);
        match op
        case Add(msg, outcome) =>
          MessageKeyParts(c.id, msg.timestamp);
          OtherWrites(m.objects, id, c.id, MessageKey(c.id, msg.timestamp), MessageFile(msg),
                      CostKey(c.id), CostFile(msg.totalCost), outcome);
        case Save(outcome) =>
          OtherWrites(m.objects, id, c.id, MetadataKey(c.id), MetadataFile(c.id, c.sessionID, c.createdAt),
                      CostKey(c.id), CostFile(c.totalCost), outcome);
        case SetSession(_) =>
        case Reload =>
      }
  }

  lemma OtherCallKeepsInv(m: Many, id: string, part: Part, call: Call)
    requires HandlesInv(m) && IsolationInv(m, id, part)
    requires IsIdentifier(id) && IsIdentifier(call.id) && call.id != id
    ensures IsolationInv(ManyAfter(m, call), id, part)
  {
    DirOfKeys(id);
    OtherCallWrites(m, id, call);
  }

  lemma OwnWritesKeepMetadata(m: Many, id: string, op: Op)
    requires HandlesInv(m) && id in m.handles
    ensures var after := ObjectsAfter(m.objects, m.handles[id], op);
      MetadataKey(id) in after && AsMetadata(after[MetadataKey(id)]).id in {id, ""}
  {
    MessageKeyInjective(id, "", "");
    WritesTo(id, m.handles[id].id, if op.Add? then op.msg.timestamp else "");
    DirOfKeys(id);
  }

  // What a call does to its own handle and metadata file.
  lemma OwnHandleKept(m: Many, call: Call)
    requires HandlesInv(m) && IsIdentifier(call.id) && call.id in ManyAfter(m, call).handles
    ensures var m' := ManyAfter(m, call);
      && m'.handles[call.id].id in {call.id, ""}
      && MetadataKey(call.id) in m'.objects && AsMetadata(m'.objects[MetadataKey(call.id)]).id in {call.id, ""}
  {
    MessageKeyInjective(call.id, "", "");
    if call.On? {
      OwnWritesKeepMetadata(m, call.id, call.op);
      if call.op.Reload? {
        assert Loads(m.objects, call.id, Load(m.objects, call.id));
      }
    }
  }

  lemma HandlesKept(m: Many, call: Call)
    requires HandlesInv(m) && IsIdentifier(call.id)
    ensures HandlesInv(ManyAfter(m, call))
  {
    var m' := ManyAfter(m, call);
    forall id | id in m'.handles
      ensures IsIdentifier(id) && m'.handles[id].id in {id, ""}
      ensures MetadataKey(id) in m'.objects && AsMetadata(m'.objects[MetadataKey(id)]).id in {id, ""}
    {
      if id == call.id {
        OwnHandleKept(m, call);
      } else {
        OtherCallWrites(m, id, call);
        DirOfKeys(id);
      }
    }
  }

  lemma TwoWritesAgree(dir: string, a: Objects, b: Objects, key1: string, d1: Document,
                       key2: string, d2: Document, outcome: Outcome)
    requires AgreeUnder(dir, a, b)
    ensures AgreeUnder(dir, TwoWrites(a, key1, d1, key2, d2, outcome), TwoWrites(b, key1, d1, key2, d2, outcome))
  {
  }

  lemma OwnCallKeepsInv(m: Many, id: string, now: string, ops: seq<Op>, op: Op)
    requires IsolationInv(m, id, Part(now, ops))
    ensures IsolationInv(ManyAfter(m, On(id, op)), id, Part(now, ops + [op]))
  {
    assert (ops + [op])[..|ops|] == ops;
    var s, c := S3Run(map[], id, now, ops), m.handles[id];
    var dir := ConversationDir(id);
    match op
    case Add(msg, outcome) =>
      TwoWritesAgree(dir, m.objects, s.objects, MessageKey(c.id, msg.timestamp), MessageFile(msg),
                     CostKey(c.id), CostFile(msg.totalCost), outcome);
    case Save(outcome) =>
      TwoWritesAgree(dir, m.objects, s.objects, MetadataKey(c.id), MetadataFile(c.id, c.sessionID, c.createdAt),
                     CostKey(c.id), CostFile(c.totalCost), outcome);
    case SetSession(_) =>
    case Reload =>
      LoadsLocal(id, m.objects, s.objects, Load(m.objects, id));
      LoadsUnique(s.objects, id, Load(m.objects, id), Load(s.objects, id));
  }

  lemma OwnCreateKeepsInv(m: Many, id: string, now: string, outcome: Outcome)
    requires IsolationInv(m, id, Absent)
    ensures IsolationInv(ManyAfter(m, Create(id, now, outcome)), id, CreatedPart(now, outcome))
  {
    DirOfKeys(id);
    MessageKeyInjective(id, "", "");
  }

  lemma {:induction false} PartIsIsolated(objects: Objects, calls: seq<Call>, id: string)
    requires GoodIds(calls) && IsIdentifier(id) && IsNew(objects, id)
    ensures HandlesInv(ManyRun(objects, calls)) && IsolationInv(ManyRun(objects, calls), id, PartOf(calls, id))
  {
    if calls != [] {
      var n := |calls| - 1;
      var call := calls[n];
      assert call in calls;
      PartIsIsolated(objects, calls[..n], id);
      HandlesKept(ManyRun(objects, calls[..n]), call);
      var before := PartOf(calls[..n], id);
      if call.id != id {
        OtherCallKeepsInv(ManyRun(objects, calls[..n]), id, before, call);
      } else if call.Create? {
        CreatedBefore(calls[..n], id);
        assert before.Absent?;
        OwnCreateKeepsInv(ManyRun(objects, calls[..n]), id, call.now, call.outcome);
      } else if before.Part? {
        OwnCallKeepsInv(ManyRun(objects, calls[..n]), id, before.now, before.ops, call.op);
      }
    }
  }

  lemma {:induction false} CreatedBefore(calls: seq<Call>, id: string)
    ensures !PartOf(calls, id).Absent? ==> exists i :: 0 <= i < |calls| && calls[i].Create? && calls[i].id == id
  {
    if calls != [] {
      CreatedBefore(calls[..|calls| - 1], id);
    }
  }

  // The handle that its own calls alone would have made, if it was created.
  ghost predicate HoldsHandle(m: Many, id: string, part: Part) {
    match part
    case Absent => id !in m.handles
    case MetadataOnly => id !in m.handles
    case Part(now, ops) => id in m.handles && m.handles[id] == S3Run(map[], id, now, ops).handle
  }

  // What Get returns for a conversation after any run over many conversations, and what its
  // handle holds, is what it would be had only this conversation's own calls been made, in an
  // empty storage. Get fails for
  // a conversation whose creation got no further than the metadata file.
  lemma OthersNeverChangeGet(objects: Objects, calls: seq<Call>, id: string, r: Loaded)
    requires GoodIds(calls) && IsIdentifier(id) && IsNew(objects, id)
    ensures Loads(ManyRun(objects, calls).objects, id, r)
       <==> (match PartOf(calls, id)
             case Absent => r == NotFound
             case MetadataOnly => r == Failed
             case Part(now, ops) => Loads(S3Run(map[], id, now, ops).objects, id, r))
    ensures HoldsHandle(ManyRun(objects, calls), id, PartOf(calls, id))
  {
    PartIsIsolated(objects, calls, id);
    DirOfKeys(id);
    var m := ManyRun(objects, calls);
    match PartOf(calls, id)
    case Absent =>
    case MetadataOnly =>
    case Part(now, ops) =>
      var alone := S3Run(map[], id, now, ops).objects;
      if Loads(m.objects, id, r) { LoadsLocal(id, m.objects, alone, r); }
      if Loads(alone, id, r) { LoadsLocal(id, alone, m.objects, r); }
  }
}
