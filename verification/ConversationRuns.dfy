// Runs of operations on one conversation, in both stores, and what can be told of them from the
// operations alone: the fields of the handle, the metadata and cost files, and whether the
// conversation can be read.
module ConversationRuns {
  import opened Ordering
  import opened Conversations
  import opened ConversationKeys

  // --- Operations on one handle ---

  // Operations with how far their writes got; SetSession is the caller's own change of the
  // handle, and Reload has the caller go on with the handle that Get returns, if it returns one.
  datatype Op = Add(msg: Message, outcome: Outcome) | Save(outcome: Outcome) | SetSession(sessionID: string) | Reload

  // The message file of an added message was written.
  predicate Written(op: Op) {
    op.Add? && !op.outcome.NoneWritten?
  }

  // What the operation itself does to a handle, the same in both stores, as far as an addition
  // takes effect. The memory store returns the handle that the caller has.
  function HandleAfter(c: Content, op: Op): Content {
    match op
    case Add(msg, outcome) => if outcome.NoneWritten? then c else WithMessage(c, msg)
    case Save(_) => c
    case SetSession(sessionID) => c.(sessionID := sessionID)
    case Reload => c
  }

  function ObjectsAfter(objects: Objects, c: Content, op: Op): Objects {
    match op
    case Add(msg, outcome) => AfterAdd(objects, c.id, msg, outcome)
    case Save(outcome) => AfterSave(objects, c, outcome)
    case SetSession(_) => objects
    case Reload => objects
  }

  // The memory store's conversation after Create and the operations; it cannot fail, and is
  // given the additions that take effect on the handle.
  function MemoryRun(id: string, ops: seq<Op>): Content {
    if ops == [] then Content(id, "", "", [], 0.0)
    else HandleAfter(MemoryRun(id, ops[..|ops| - 1]), ops[|ops| - 1])
  }

  // S3Store's handle and storage after Create and the operations.
  datatype S3State = S3State(objects: Objects, handle: Content)

  ghost function S3After(s: S3State, id: string, op: Op): S3State {
    if op.Reload? then
      var r := Load(s.objects, id);
      if r.Found? then s.(handle := r.c) else s
    else S3State(ObjectsAfter(s.objects, s.handle, op), HandleAfter(s.handle, op))
  }

  ghost function S3Run(objects: Objects, id: string, now: string, ops: seq<Op>): S3State {
    if ops == [] then S3State(AfterCreate(objects, id, now, BothWritten), Content(id, "", now, [], 0.0))
    else S3After(S3Run(objects, id, now, ops[..|ops| - 1]), id, ops[|ops| - 1])
  }

  predicate NoReload(ops: seq<Op>) {
    forall op :: op in ops ==> !op.Reload?
  }

  predicate AllPlain(ops: seq<Op>) {
    forall op :: op in ops && Written(op) ==> PlainTimestamp(op.msg.timestamp)
  }

  ghost predicate HasSlash(ops: seq<Op>) {
    exists op :: op in ops && Written(op) && !SlashFree(op.msg.timestamp)
  }

  // --- What the operations tell ---

  datatype Head = Head(id: string, sessionID: string, createdAt: string)

  // The head and cost of the handle, the metadata and cost that are stored, the timestamps of the
  // messages written to the place of the conversation, and whether the two costs are still that
  // of the last message added. A message under "metadata" replaces the metadata file and one
  // under "cost" the cost file; reading the former back gives the handle an empty identifier, and
  // from then on it writes to another place.
  datatype Trace = Trace(handle: Head, cost: real, meta: Head, savedCost: real, files: set<string>,
                         costKept: bool, savedKept: bool)

  // What a listing shows of the file of a message: its key, or a directory.
  function NameOf(id: string, ts: string): string {
    ConversationDir(id) + UpToSlash(ts + ".json")
  }

  function FileNames(id: string, files: set<string>): set<string> {
    set ts | ts in files :: NameOf(id, ts)
  }

  // The names that a listing with room for all would show.
  function NamesOf(id: string, files: set<string>): set<string> {
    {MetadataKey(id), CostKey(id)} + FileNames(id, files)
  }

  // A directory is among the names listed; it cannot be read.
  ghost predicate Unreadable(id: string, files: set<string>) {
    exists k :: k in FirstIn(NamesOf(id, files), PAGE) && EndsInSlash(k)
  }

  ghost function TraceStep(id: string, t: Trace, op: Op): Trace {
    match op
    case Add(msg, outcome) =>
      if outcome.NoneWritten? then t
      else
        var here := t.handle.id == id;
        var saved := here && (outcome.BothWritten? || msg.timestamp == "cost");
        t.(cost := msg.totalCost, costKept := true,
           meta := if here && msg.timestamp == "metadata" then Head("", "", "") else t.meta,
           savedCost := if saved then msg.totalCost else t.savedCost, savedKept := saved,
           files := if here then t.files + {msg.timestamp} else t.files)
    case Save(outcome) =>
      if outcome.NoneWritten? || t.handle.id != id then t
      else if outcome.FirstWritten? then t.(meta := t.handle)
      else t.(meta := t.handle, savedCost := t.cost, savedKept := t.costKept)
    case SetSession(sessionID) => t.(handle := t.handle.(sessionID := sessionID))
    case Reload =>
      if Unreadable(id, t.files) then t
      else t.(handle := t.meta, cost := t.savedCost, costKept := t.savedKept)
  }

  ghost function TraceOf(id: string, now: string, ops: seq<Op>): Trace {
    if ops == [] then Trace(Head(id, "", now), 0.0, Head(id, "", now), 0.0, {}, true, true)
    else TraceStep(id, TraceOf(id, now, ops[..|ops| - 1]), ops[|ops| - 1])
  }

  predicate WritesMetadata(ops: seq<Op>) {
    exists op :: op in ops && Written(op) && op.msg.timestamp == "metadata"
  }

  predicate Strays(ops: seq<Op>) {
    !NoReload(ops) && WritesMetadata(ops)
  }

  function WrittenStamps(ops: seq<Op>): set<string> {
    set op | op in ops && Written(op) :: op.msg.timestamp
  }

  // The handle keeps its identifier unless it is read back after a message under "metadata".
  lemma {:induction false} TraceStaysHome(id: string, now: string, ops: seq<Op>)
    requires !Strays(ops)
    ensures var t := TraceOf(id, now, ops);
      && t.handle.id == id && t.files == WrittenStamps(ops)
      && (!WritesMetadata(ops) ==> t.meta.id == id)
      && (AllPlain(ops) ==> t.meta.id == id && t.meta.createdAt == now && t.handle.createdAt == now)
  {
    if ops != [] {
      var n := |ops| - 1;
      assert ops == ops[..n] + [ops[n]];
      TraceStaysHome(id, now, ops[..n]);
      assert Written(ops[n]) ==> ops[n] in ops;
      StampsGrow(ops[..n], ops[n]);
    }
  }

  lemma StampsGrow(ops: seq<Op>, op: Op)
    ensures WrittenStamps(ops + [op]) == WrittenStamps(ops) + if Written(op) then {op.msg.timestamp} else {}
  {
    forall ts
      ensures ts in WrittenStamps(ops + [op]) <==> ts in WrittenStamps(ops) || (Written(op) && ts == op.msg.timestamp)
    {
      if ts in WrittenStamps(ops) {
        var o :| o in ops && Written(o) && o.msg.timestamp == ts;
        assert o in ops + [op];
      }
      assert op in ops + [op];
    }
  }

  // Without a slash in a timestamp every name is that of a file.
  lemma SlashFreeReads(id: string, files: set<string>)
    requires forall ts :: ts in files ==> SlashFree(ts)
    ensures forall k :: k in NamesOf(id, files) ==> !EndsInSlash(k)
    ensures !Unreadable(id, files)
  {
    forall k | k in NamesOf(id, files)
      ensures !EndsInSlash(k)
    {
      if k != MetadataKey(id) && k != CostKey(id) {
        var ts :| ts in files && k == NameOf(id, ts);
        MessageKeyParts(id, ts);
        UpToSlashFree(ts + ".json");
      }
    }
  }

  // When it is, it loses later messages to another place: a timestamp with a slash then does no
  // harm to the conversation, which has no trace of the message.
  lemma StrayingLosesMessages(id: string, now: string, first: Message, second: Message)
    requires id != "" && first.timestamp == "metadata" && !SlashFree(second.timestamp)
    ensures var ops := [Add(first, BothWritten), Reload, Add(second, BothWritten)];
      HasSlash(ops) && TraceOf(id, now, ops).handle.id == "" && TraceOf(id, now, ops).files == {"metadata"}
  {
    var ops := [Add(first, BothWritten), Reload, Add(second, BothWritten)];
    assert ops[..2] == [Add(first, BothWritten), Reload] && ops[..2][..1] == [Add(first, BothWritten)];
    assert ops[2] in ops && Written(ops[2]);
    assert [Add(first, BothWritten)][..0] == [];
    var t1 := TraceOf(id, now, [Add(first, BothWritten)]);
    assert t1 == TraceStep(id, TraceOf(id, now, []), Add(first, BothWritten));
    assert t1.files == {"metadata"} && t1.meta.id == "";
    SlashFreeReads(id, {"metadata"});
    assert TraceOf(id, now, ops[..2]) == TraceStep(id, t1, Reload);
  }

  // The costs that count as kept are those of the memory store.
  lemma {:induction false} KeptCosts(id: string, now: string, ops: seq<Op>)
    ensures var t := TraceOf(id, now, ops);
      && (t.costKept ==> t.cost == MemoryRun(id, ops).totalCost)
      && (t.savedKept ==> t.savedCost == MemoryRun(id, ops).totalCost)
  {
    if ops != [] {
      KeptCosts(id, now, ops[..|ops| - 1]);
    }
  }

  // --- The run agrees with it ---

  // No object of the conversation exists yet: its identifier is new.
  predicate IsNew(objects: Objects, id: string) {
    forall k :: k in objects ==> !(ConversationDir(id) <= k)
  }

  predicate IsKeyIn(id: string, files: set<string>, key: string) {
    exists ts :: ts in files && key == MessageKey(id, ts)
  }

  // Exactly the metadata and cost files, and the files of messages under their own names.
  ghost predicate Files(objects: Objects, id: string, files: set<string>) {
    && (forall k :: ConversationDir(id) <= k ==>
          (k in objects <==> k == MetadataKey(id) || k == CostKey(id) || IsKeyIn(id, files, k)))
    && (forall ts :: ts in files && ts != "metadata" && ts != "cost" ==> HoldsMessage(objects, id, ts))
  }

  predicate HoldsMessage(objects: Objects, id: string, ts: string) {
    && MessageKey(id, ts) in objects
    && objects[MessageKey(id, ts)].MessageFile? && objects[MessageKey(id, ts)].message.timestamp == ts
  }

  ghost predicate Tracks(s: S3State, id: string, t: Trace) {
    && Head(s.handle.id, s.handle.sessionID, s.handle.createdAt) == t.handle && s.handle.totalCost == t.cost
    && MetadataKey(id) in s.objects && CostKey(id) in s.objects
    && AsMetadata(s.objects[MetadataKey(id)]) == MetadataFile(t.meta.id, t.meta.sessionID, t.meta.createdAt)
    && AsCost(s.objects[CostKey(id)]) == t.savedCost
    && t.handle.id in {id, ""} && t.meta.id in {id, ""}
  }

  ghost predicate TraceInv(s: S3State, id: string, t: Trace) {
    Tracks(s, id, t) && Files(s.objects, id, t.files)
  }

  // A handle that has lost its identifier writes to another place.
  lemma StraysOutside(id: string, key: string)
    requires SlashFree(id) && id != "" && ConversationDir("") <= key
    ensures !(ConversationDir(id) <= key)
  {
    if ConversationDir(id) <= key {
      DirsDisjoint(id, "", key);
    }
  }

  // The keys that are written: those of the conversation, or none under its directory.
  lemma WritesTo(id: string, home: string, ts: string)
    requires home in {id, ""} && (home == id || SlashFree(id))
    ensures home != id ==> !(ConversationDir(id) <= MessageKey(home, ts)) && !(ConversationDir(id) <= CostKey(home))
    ensures home != id ==> !(ConversationDir(id) <= MetadataKey(home))
  {
    if home != id {
      DirOfKeys("");
      MessageKeyParts("", ts);
      StraysOutside(id, MessageKey("", ts));
      StraysOutside(id, CostKey(""));
      StraysOutside(id, MetadataKey(""));
    }
  }

  lemma AddTracks(s: S3State, id: string, t: Trace, op: Op)
    requires Tracks(s, id, t) && Written(op) && (t.handle.id == id || SlashFree(id))
    ensures Tracks(S3After(s, id, op), id, TraceStep(id, t, op))
  {
    DirOfKeys(id);
    WritesTo(id, s.handle.id, op.msg.timestamp);
    MessageKeyInjective(id, op.msg.timestamp, "");
    CostTimestamp(id);
    MetadataTimestamp(id);
  }

  lemma AddFiles(s: S3State, id: string, t: Trace, op: Op)
    requires TraceInv(s, id, t) && Written(op) && (t.handle.id == id || SlashFree(id))
    ensures Files(S3After(s, id, op).objects, id, TraceStep(id, t, op).files)
  {
    if s.handle.id == id {
      AddHere(s.objects, id, t.files, op.msg, op.outcome);
    } else {
      WritesTo(id, s.handle.id, op.msg.timestamp);
      OtherPlace(s.objects, S3After(s, id, op).objects, id, t.files);
    }
  }

  lemma AddHere(objects: Objects, id: string, files: set<string>, msg: Message, outcome: Outcome)
    requires Files(objects, id, files) && !outcome.NoneWritten?
    ensures Files(AfterAdd(objects, id, msg, outcome), id, files + {msg.timestamp})
  {
    AddKeys(objects, id, files, msg, outcome);
    forall ts | ts in files + {msg.timestamp} && ts != "metadata" && ts != "cost"
      ensures HoldsMessage(AfterAdd(objects, id, msg, outcome), id, ts)
    {
      MessageKeyInjective(id, ts, msg.timestamp);
      assert ts != msg.timestamp ==> HoldsMessage(objects, id, ts);
    }
  }

  lemma AddKeys(objects: Objects, id: string, files: set<string>, msg: Message, outcome: Outcome)
    requires Files(objects, id, files) && !outcome.NoneWritten?
    ensures forall k :: ConversationDir(id) <= k ==>
      (k in AfterAdd(objects, id, msg, outcome)
       <==> k == MetadataKey(id) || k == CostKey(id) || IsKeyIn(id, files + {msg.timestamp}, k))
  {
    var after, files' := AfterAdd(objects, id, msg, outcome), files + {msg.timestamp};
    DirOfKeys(id);
    MessageKeyParts(id, msg.timestamp);
    forall k | ConversationDir(id) <= k
      ensures k in after <==> k == MetadataKey(id) || k == CostKey(id) || IsKeyIn(id, files', k)
    {
      assert msg.timestamp in files';
      assert IsKeyIn(id, files', k) <==> IsKeyIn(id, files, k) || k == MessageKey(id, msg.timestamp);
    }
  }

  // Nothing was written under the directory.
  lemma OtherPlace(objects: Objects, objects': Objects, id: string, files: set<string>)
    requires Files(objects, id, files)
    requires forall k :: ConversationDir(id) <= k ==> (k in objects <==> k in objects')
    requires forall k :: ConversationDir(id) <= k && k in objects ==> objects'[k] == objects[k]
    ensures Files(objects', id, files)
  {
    forall ts | ts in files && ts != "metadata" && ts != "cost"
      ensures HoldsMessage(objects', id, ts)
    {
      assert HoldsMessage(objects, id, ts);
      MessageKeyParts(id, ts);
    }
  }

  lemma SaveTracks(s: S3State, id: string, t: Trace, op: Op)
    requires Tracks(s, id, t) && op.Save? && (t.handle.id == id || SlashFree(id))
    ensures Tracks(S3After(s, id, op), id, TraceStep(id, t, op))
  {
    DirOfKeys(id);
    WritesTo(id, s.handle.id, "");
    MessageKeyInjective(id, "", "");
  }

  lemma SaveFiles(s: S3State, id: string, t: Trace, op: Op)
    requires TraceInv(s, id, t) && op.Save? && (t.handle.id == id || SlashFree(id))
    ensures Files(S3After(s, id, op).objects, id, t.files)
  {
    if s.handle.id == id {
      SaveHere(s.objects, s.handle, t.files, op.outcome);
    } else {
      WritesTo(id, s.handle.id, "");
      OtherPlace(s.objects, S3After(s, id, op).objects, id, t.files);
    }
  }

  lemma SaveHere(objects: Objects, c: Content, files: set<string>, outcome: Outcome)
    requires Files(objects, c.id, files)
    ensures Files(AfterSave(objects, c, outcome), c.id, files)
  {
    DirOfKeys(c.id);
    forall ts | ts in files && ts != "metadata" && ts != "cost"
      ensures HoldsMessage(AfterSave(objects, c, outcome), c.id, ts)
    {
      assert HoldsMessage(objects, c.id, ts);
      MessageKeyInjective(c.id, ts, ts);
    }
  }

  // --- Reading ---

  // The names under the directory are those that the timestamps give.
  lemma ChildrenAreNames(objects: Objects, id: string, files: set<string>)
    requires Files(objects, id, files)
    ensures Children(objects, ConversationDir(id)) == NamesOf(id, files)
  {
    var dir := ConversationDir(id);
    forall k
      ensures k in Children(objects, dir) <==> k in NamesOf(id, files)
    {
      if k in Children(objects, dir) {
        var key :| key in objects && dir <= key && Child(dir, key) == k;
        ChildIsName(objects, id, files, key);
      }
      if k in NamesOf(id, files) {
        NameIsChild(objects, id, files, k);
      }
    }
  }

  lemma ChildIsName(objects: Objects, id: string, files: set<string>, key: string)
    requires Files(objects, id, files) && key in objects && ConversationDir(id) <= key
    ensures Child(ConversationDir(id), key) in NamesOf(id, files)
  {
    var dir := ConversationDir(id);
    if key == MetadataKey(id) || key == CostKey(id) {
      ChildOfFile(dir, "metadata.json");
      ChildOfFile(dir, "cost.json");
    } else {
      var ts :| ts in files && key == MessageKey(id, ts);
      MessageKeyParts(id, ts);
    }
  }

  lemma NameIsChild(objects: Objects, id: string, files: set<string>, k: string)
    requires Files(objects, id, files) && k in NamesOf(id, files)
    ensures k in Children(objects, ConversationDir(id))
  {
    var dir := ConversationDir(id);
    DirOfKeys(id);
    if k == MetadataKey(id) || k == CostKey(id) {
      ChildOfFile(dir, "metadata.json");
      ChildOfFile(dir, "cost.json");
      assert k in objects && Child(dir, k) == k;
    } else {
      var ts :| ts in files && k == NameOf(id, ts);
      MessageKeyParts(id, ts);
      assert IsKeyIn(id, files, MessageKey(id, ts));
      assert MessageKey(id, ts) in objects && Child(dir, MessageKey(id, ts)) == k;
    }
  }

  // A name is the key of an object unless it is a directory.
  lemma NameReads(objects: Objects, id: string, files: set<string>, k: string)
    requires Files(objects, id, files) && k in NamesOf(id, files)
    ensures k in objects <==> !EndsInSlash(k)
    ensures EndsInSlash(k) ==> IsMessageName(ConversationDir(id), k)
  {
    var dir := ConversationDir(id);
    DirOfKeys(id);
    if k != MetadataKey(id) && k != CostKey(id) {
      var ts :| ts in files && k == NameOf(id, ts);
      MessageKeyParts(id, ts);
      UpToSlashFree(ts + ".json");
      if SlashFree(ts) {
        assert IsKeyIn(id, files, k);
      } else {
        assert EndsInSlash(k);
        assert k[|dir|..] == UpToSlash(ts + ".json");
        forall other | other in files
          ensures k != MessageKey(id, other)
        {
          assert !EndsInSlash(MessageKey(id, other));
        }
      }
    }
  }

  // Get fails exactly when the conversation is unreadable, and otherwise returns the stored head
  // and cost.
  lemma ReadsTracked(s: S3State, id: string, t: Trace, r: Loaded)
    requires TraceInv(s, id, t) && Loads(s.objects, id, r)
    ensures if Unreadable(id, t.files) then r.Failed?
            else r.Found? && Head(r.c.id, r.c.sessionID, r.c.createdAt) == t.meta && r.c.totalCost == t.savedCost
  {
    var keys :| IsListing(s.objects, ConversationDir(id), keys) && LoadsKeys(s.objects, id, keys, r);
    ChildrenAreNames(s.objects, id, t.files);
    forall k | k in FirstIn(NamesOf(id, t.files), PAGE)
      ensures k in s.objects <==> !EndsInSlash(k)
      ensures EndsInSlash(k) ==> k in keys
    {
      NameReads(s.objects, id, t.files, k);
    }
    if Unreadable(id, t.files) {
      var k :| k in FirstIn(NamesOf(id, t.files), PAGE) && EndsInSlash(k);
      assert k in keys && k !in s.objects;
    }
  }

  // --- Main results for any operations ---

  // An identifier as they are generated has no slash; without a reload it does not matter, and
  // neither does it when no message is written under "metadata".
  predicate KeepsPlace(id: string, ops: seq<Op>) {
    SlashFree(id) || !Strays(ops)
  }

  lemma StepTracked(s: S3State, id: string, t: Trace, op: Op)
    requires TraceInv(s, id, t) && (t.handle.id == id || SlashFree(id))
    ensures TraceInv(S3After(s, id, op), id, TraceStep(id, t, op))
  {
    match op
    case Add(_, outcome) =>
      if !outcome.NoneWritten? {
        AddTracks(s, id, t, op);
        AddFiles(s, id, t, op);
      }
    case Save(_) =>
      SaveTracks(s, id, t, op);
      SaveFiles(s, id, t, op);
    case SetSession(_) =>
    case Reload => ReadsTracked(s, id, t, Load(s.objects, id));
  }

  lemma {:induction false} RunTracked(objects: Objects, id: string, now: string, ops: seq<Op>)
    requires IsNew(objects, id) && KeepsPlace(id, ops)
    ensures TraceInv(S3Run(objects, id, now, ops), id, TraceOf(id, now, ops))
  {
    DirOfKeys(id);
    MessageKeyInjective(id, "", "");
    if ops != [] {
      var n := |ops| - 1;
      assert ops == ops[..n] + [ops[n]];
      RunTracked(objects, id, now, ops[..n]);
      if !Strays(ops) {
        TraceStaysHome(id, now, ops[..n]);
      }
      StepTracked(S3Run(objects, id, now, ops[..n]), id, TraceOf(id, now, ops[..n]), ops[n]);
    }
  }

  // The conversation cannot be read back if and only if a directory is among the first thousand
  // names. Of at most 998 timestamps that is any with a slash, unless a handle was read back after
  // a message under "metadata".
  lemma UnreadableIffSlash(objects: Objects, id: string, now: string, ops: seq<Op>)
    requires IsNew(objects, id) && KeepsPlace(id, ops)
    ensures Loads(S3Run(objects, id, now, ops).objects, id, Failed) <==> Unreadable(id, TraceOf(id, now, ops).files)
    ensures !Strays(ops) ==> TraceOf(id, now, ops).files == WrittenStamps(ops)
    ensures !Strays(ops) && |WrittenStamps(ops)| + 2 <= PAGE ==>
      (Unreadable(id, TraceOf(id, now, ops).files) <==> HasSlash(ops))
  {
    RunTracked(objects, id, now, ops);
    var s, t := S3Run(objects, id, now, ops), TraceOf(id, now, ops);
    ReadsTracked(s, id, t, Load(s.objects, id));
    if Loads(s.objects, id, Failed) {
      LoadsUnique(s.objects, id, Failed, Load(s.objects, id));
    }
    if !Strays(ops) {
      TraceStaysHome(id, now, ops);
      if |t.files| + 2 <= PAGE {
        FewNames(id, t.files);
        SlashUnreadable(id, ops);
      }
    }
  }

  // With room for all names, all are listed.
  lemma FewNames(id: string, files: set<string>)
    requires |files| + 2 <= PAGE
    ensures FirstIn(NamesOf(id, files), PAGE) == NamesOf(id, files)
  {
    ImageSize(id, files);
    assert |NamesOf(id, files)| <= |{MetadataKey(id), CostKey(id)}| + |FileNames(id, files)|;
    FirstSize(NamesOf(id, files), PAGE);
  }

  lemma {:induction false} ImageSize(id: string, files: set<string>)
    ensures |FileNames(id, files)| <= |files|
  {
    if files == {} {
      assert FileNames(id, files) == {};
    } else {
      var ts :| ts in files;
      ImageSize(id, files - {ts});
      forall k
        ensures k in FileNames(id, files) <==> k in FileNames(id, files - {ts}) + {NameOf(id, ts)}
      {
        if x :| x in files && k == NameOf(id, x) {
          assert x == ts || x in files - {ts};
        }
      }
      assert FileNames(id, files) == FileNames(id, files - {ts}) + {NameOf(id, ts)};
    }
  }

  lemma SlashUnreadable(id: string, ops: seq<Op>)
    requires FirstIn(NamesOf(id, WrittenStamps(ops)), PAGE) == NamesOf(id, WrittenStamps(ops))
    ensures Unreadable(id, WrittenStamps(ops)) <==> HasSlash(ops)
  {
    if HasSlash(ops) {
      var op :| op in ops && Written(op) && !SlashFree(op.msg.timestamp);
      var ts := op.msg.timestamp;
      assert ts in WrittenStamps(ops);
      MessageKeyParts(id, ts);
      UpToSlashFree(ts + ".json");
      var k := NameOf(id, ts);
      assert k in NamesOf(id, WrittenStamps(ops)) && EndsInSlash(k);
    } else {
      SlashFreeReads(id, WrittenStamps(ops));
    }
  }
}
