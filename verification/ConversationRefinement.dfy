// S3Store against MemoryStore: what a conversation loaded from storage has to do with the list
// of messages that the memory store keeps.
module ConversationRefinement {
  import opened Ordering
  import opened Conversations
  import opened ConversationKeys
  import opened ConversationRuns

  // --- What the storage holds for one conversation ---

  // The last message written under each timestamp.
  function LastWrites(ops: seq<Op>): map<string, Message> {
    if ops == [] then map[]
    else
      var before := LastWrites(ops[..|ops| - 1]);
      var op := ops[|ops| - 1];
      if Written(op) then before[op.msg.timestamp := op.msg] else before
  }

  // Exactly the metadata file, the cost file and one file for each timestamp.
  ghost predicate Holds(objects: Objects, id: string, writes: map<string, Message>) {
    && MetadataKey(id) in objects && objects[MetadataKey(id)].MetadataFile? && objects[MetadataKey(id)].id == id
    && CostKey(id) in objects && objects[CostKey(id)].CostFile?
    && (forall ts :: ts in writes ==>
          && PlainTimestamp(ts)
          && MessageKey(id, ts) in objects && objects[MessageKey(id, ts)] == MessageFile(writes[ts]))
    && (forall k :: k in objects && ConversationDir(id) <= k ==>
          k == MetadataKey(id) || k == CostKey(id) || IsKeyOf(id, writes, k))
  }

  ghost predicate IsKeyOf(id: string, writes: map<string, Message>, key: string) {
    exists ts :: ts in writes && key == MessageKey(id, ts)
  }

  // With plain timestamps the handle keeps its identifier.
  lemma PlainIsHome(objects: Objects, id: string, now: string, ops: seq<Op>)
    requires IsNew(objects, id) && AllPlain(ops)
    ensures S3Run(objects, id, now, ops).handle.id == id && S3Run(objects, id, now, ops).handle.createdAt == now
    ensures !Strays(ops)
  {
    assert !Strays(ops);
    TraceStaysHome(id, now, ops);
    RunTracked(objects, id, now, ops);
  }

  lemma {:induction false} RunHolds(objects: Objects, id: string, now: string, ops: seq<Op>)
    requires IsNew(objects, id) && AllPlain(ops)
    ensures Holds(S3Run(objects, id, now, ops).objects, id, LastWrites(ops))
  {
    MessageKeyInjective(id, "", "");
    DirOfKeys(id);
    if ops != [] {
      var n := |ops| - 1;
      assert ops == ops[..n] + [ops[n]];
      RunHolds(objects, id, now, ops[..n]);
      PlainIsHome(objects, id, now, ops[..n]);
      if Written(ops[n]) {
        assert ops[n] in ops;
        AddHolds(S3Run(objects, id, now, ops[..n]).objects, id, LastWrites(ops[..n]), ops[n].msg, ops[n].outcome);
      } else if ops[n].Save? {
        SaveHolds(S3Run(objects, id, now, ops[..n]), id, LastWrites(ops[..n]), ops[n].outcome);
      }
    }
  }

  lemma AddHolds(objects: Objects, id: string, writes: map<string, Message>, msg: Message, outcome: Outcome)
    requires Holds(objects, id, writes) && PlainTimestamp(msg.timestamp) && !outcome.NoneWritten?
    ensures Holds(AfterAdd(objects, id, msg, outcome), id, writes[msg.timestamp := msg])
  {
    var objects', writes' := AfterAdd(objects, id, msg, outcome), writes[msg.timestamp := msg];
    forall ts | ts in writes'
      ensures MessageKey(id, ts) in objects' && objects'[MessageKey(id, ts)] == MessageFile(writes'[ts])
    {
      MessageKeyInjective(id, ts, msg.timestamp);
    }
    MessageKeyInjective(id, msg.timestamp, msg.timestamp);
    forall k | k in objects' && ConversationDir(id) <= k
      ensures k == MetadataKey(id) || k == CostKey(id) || IsKeyOf(id, writes', k)
    {
      if IsKeyOf(id, writes, k) {
        var ts :| ts in writes && k == MessageKey(id, ts);
        assert ts in writes';
      }
      assert msg.timestamp in writes';
    }
  }

  lemma SaveHolds(s: S3State, id: string, writes: map<string, Message>, outcome: Outcome)
    requires Holds(s.objects, id, writes) && s.handle.id == id
    ensures Holds(AfterSave(s.objects, s.handle, outcome), id, writes)
  {
    MessageKeyInjective(id, "", "");
    var objects' := AfterSave(s.objects, s.handle, outcome);
    forall ts | ts in writes
      ensures MessageKey(id, ts) in objects' && objects'[MessageKey(id, ts)] == MessageFile(writes[ts])
    {
      MessageKeyInjective(id, ts, ts);
    }
  }

  // A listed file that can be read holds a message with a plain timestamp.
  lemma ListedIsPlain(objects: Objects, id: string, files: set<string>, k: string)
    requires Files(objects, id, files) && k in objects
    requires k in Listed(objects, ConversationDir(id)) && IsMessageName(ConversationDir(id), k)
    ensures PlainTimestamp(AsMessage(objects[k]).timestamp)
  {
    ChildrenAreNames(objects, id, files);
    NameIsPlain(objects, id, files, k);
  }

  lemma NameIsPlain(objects: Objects, id: string, files: set<string>, k: string)
    requires Files(objects, id, files) && k in objects
    requires k in NamesOf(id, files) && IsMessageName(ConversationDir(id), k)
    ensures PlainTimestamp(AsMessage(objects[k]).timestamp)
  {
    var dir := ConversationDir(id);
    NameReads(objects, id, files, k);
    assert MetadataKey(id)[|dir|..] == "metadata.json" && CostKey(id)[|dir|..] == "cost.json";
    var ts :| ts in files && k == NameOf(id, ts);
    NameOfSlash(id, ts);
    MessageName(id, ts);
    assert HoldsMessage(objects, id, ts);
  }

  lemma NameOfSlash(id: string, ts: string)
    ensures if SlashFree(ts) then NameOf(id, ts) == MessageKey(id, ts) else EndsInSlash(NameOf(id, ts))
  {
    UpToSlashFree(ts + ".json");
    MessageKeyParts(id, ts);
    assert MessageKey(id, ts) == ConversationDir(id) + (ts + ".json");
  }

  // --- What Get reads of it ---

  lemma {:induction false} PrefixCancels(p: string, a: string, b: string)
    ensures StringLeq(p + a, p + b) <==> StringLeq(a, b)
  {
    if p == "" {
      assert p + a == a && p + b == b;
    } else {
      assert (p + a)[1..] == p[1..] + a && (p + b)[1..] == p[1..] + b;
      PrefixCancels(p[1..], a, b);
    }
  }

  function FileName(ts: string): string {
    ts + ".json"
  }

  // Timestamps in the strict order of their file names.
  ghost predicate FileNamesIncrease(tss: seq<string>) {
    forall i, j :: 0 <= i < j < |tss| ==> StringLeq(FileName(tss[i]), FileName(tss[j])) && tss[i] != tss[j]
  }

  function KeysOf(id: string, tss: seq<string>): seq<string> {
    seq(|tss|, i requires 0 <= i < |tss| => MessageKey(id, tss[i]))
  }

  function Pick(writes: map<string, Message>, tss: seq<string>): seq<Message>
    requires forall ts :: ts in tss ==> ts in writes
  {
    seq(|tss|, i requires 0 <= i < |tss| => writes[tss[i]])
  }

  lemma KeysInOrder(id: string, tss: seq<string>)
    ensures FileNamesIncrease(tss) <==> Sorted(KeysOf(id, tss)) && Distinct(KeysOf(id, tss))
  {
    forall i, j | 0 <= i < j < |tss|
      ensures StringLeq(FileName(tss[i]), FileName(tss[j])) <==> StringLeq(KeysOf(id, tss)[i], KeysOf(id, tss)[j])
      ensures tss[i] != tss[j] <==> KeysOf(id, tss)[i] != KeysOf(id, tss)[j]
    {
      assert MessageKey(id, tss[i]) == ConversationDir(id) + FileName(tss[i]);
      assert MessageKey(id, tss[j]) == ConversationDir(id) + FileName(tss[j]);
      PrefixCancels(ConversationDir(id), FileName(tss[i]), FileName(tss[j]));
      MessageKeyInjective(id, tss[i], tss[j]);
    }
  }

  // All objects of a conversation are files directly under its directory.
  lemma ChildIsKey(objects: Objects, id: string, writes: map<string, Message>, key: string)
    requires Holds(objects, id, writes) && key in objects && ConversationDir(id) <= key
    ensures Child(ConversationDir(id), key) == key
    ensures IsMessageName(ConversationDir(id), key) <==> IsKeyOf(id, writes, key)
  {
    var dir := ConversationDir(id);
    MessageKeyInjective(id, "", "");
    if IsKeyOf(id, writes, key) {
      var ts :| ts in writes && key == MessageKey(id, ts);
      MessageKeyParts(id, ts);
      ChildOfFile(dir, ts + ".json");
      MessageName(id, ts);
    } else {
      ChildOfFile(dir, "metadata.json");
      ChildOfFile(dir, "cost.json");
      assert MetadataKey(id)[|dir|..] == "metadata.json" && CostKey(id)[|dir|..] == "cost.json";
    }
  }

  // What the listing of a conversation shows besides its metadata and cost files.
  lemma MessageChildren(objects: Objects, id: string, writes: map<string, Message>, k: string)
    requires Holds(objects, id, writes)
    ensures k in Children(objects, ConversationDir(id)) && IsMessageName(ConversationDir(id), k)
       <==> IsKeyOf(id, writes, k)
  {
    var dir := ConversationDir(id);
    if k in Children(objects, dir) {
      var key :| key in objects && dir <= key && Child(dir, key) == k;
      ChildIsKey(objects, id, writes, key);
    }
    if IsKeyOf(id, writes, k) {
      var ts :| ts in writes && k == MessageKey(id, ts);
      MessageKeyParts(id, ts);
      ChildIsKey(objects, id, writes, k);
    }
  }

  // The timestamps, of those given, whose files are within the page that a listing shows.
  ghost function ShownOf(id: string, files: set<string>): set<string> {
    WithKeysIn(id, files, FirstIn(NamesOf(id, files), PAGE))
  }

  ghost function WithKeysIn(id: string, files: set<string>, page: set<string>): set<string> {
    set ts | ts in files && MessageKey(id, ts) in page
  }

  // Their message keys in order.
  lemma KeysOfPage(id: string, files: set<string>, page: set<string>) returns (tss: seq<string>)
    ensures FileNamesIncrease(tss) && forall ts :: ts in tss <==> ts in WithKeysIn(id, files, page)
    ensures forall k :: k in KeysOf(id, tss) <==> k in page && IsKeyIn(id, files, k)
  {
    var shown := WithKeysIn(id, files, page);
    var all := set ts | ts in shown :: MessageKey(id, ts);
    var keys := SortedKeysExist(all);
    tss := seq(|keys|, i requires 0 <= i < |keys| => StampOf(id, keys[i]));
    forall i | 0 <= i < |keys|
      ensures tss[i] in shown && keys[i] == MessageKey(id, tss[i])
    {
      assert keys[i] in all;
      var ts :| ts in shown && keys[i] == MessageKey(id, ts);
      StampOfKey(id, ts);
    }
    assert keys == KeysOf(id, tss);
    KeysInOrder(id, tss);
    forall ts | ts in shown
      ensures ts in tss
    {
      assert MessageKey(id, ts) in all && MessageKey(id, ts) in keys;
      var i :| 0 <= i < |keys| && keys[i] == MessageKey(id, ts);
      MessageKeyInjective(id, tss[i], ts);
    }
  }

  // Reading a directory that holds the writes gives those shown in the order of their file names.
  lemma HeldIsLoaded(objects: Objects, id: string, writes: map<string, Message>) returns (tss: seq<string>)
    requires Holds(objects, id, writes) && Children(objects, ConversationDir(id)) == NamesOf(id, writes.Keys)
    ensures FileNamesIncrease(tss) && forall ts :: ts in tss <==> ts in ShownOf(id, writes.Keys)
    ensures var meta := objects[MetadataKey(id)];
      Loads(objects, id, Found(Content(id, meta.sessionID, meta.createdAt, Pick(writes, tss),
                                       AsCost(objects[CostKey(id)]))))
  {
    var page := Listed(objects, ConversationDir(id));
    tss := KeysOfPage(id, writes.Keys, page);
    forall k
      ensures k in KeysOf(id, tss) <==> k in page && IsMessageName(ConversationDir(id), k)
    {
      MessageChildren(objects, id, writes, k);
      assert IsKeyIn(id, writes.Keys, k) <==> IsKeyOf(id, writes, k);
    }
    KeysInOrder(id, tss);
    KeysLoad(objects, id, writes, KeysOf(id, tss), tss);
  }

  lemma KeysLoad(objects: Objects, id: string, writes: map<string, Message>, keys: seq<string>, tss: seq<string>)
    requires Holds(objects, id, writes) && IsListing(objects, ConversationDir(id), keys)
    requires keys == KeysOf(id, tss) && forall ts :: ts in tss ==> ts in writes
    ensures var meta := objects[MetadataKey(id)];
      Loads(objects, id, Found(Content(id, meta.sessionID, meta.createdAt, Pick(writes, tss),
                                       AsCost(objects[CostKey(id)]))))
  {
    forall k | k in keys
      ensures k in objects
    {
      var i :| 0 <= i < |keys| && keys[i] == k;
      assert tss[i] in writes;
    }
    assert ReadMessages(objects, keys) == Pick(writes, tss);
    assert LoadsKeys(objects, id, keys,
      Found(Content(id, objects[MetadataKey(id)].sessionID, objects[MetadataKey(id)].createdAt,
                    Pick(writes, tss), AsCost(objects[CostKey(id)]))));
  }

  // The timestamp in a message key.
  function StampOf(id: string, key: string): string {
    var n := |ConversationDir(id)|;
    if n + 5 <= |key| then key[n..|key| - 5] else ""
  }

  lemma StampOfKey(id: string, ts: string)
    ensures StampOf(id, MessageKey(id, ts)) == ts
  {
    assert MessageKey(id, ts) == ConversationDir(id) + ts + ".json";
  }

  // --- Main results for one conversation ---

  // For any plain timestamps, Get returns one message for each distinct timestamp that a listing
  // shows, the last one written, in the order of the file names, with the session and the cost
  // last written.
  lemma LoadedAfterRun(objects: Objects, id: string, now: string, ops: seq<Op>) returns (tss: seq<string>)
    requires IsNew(objects, id) && AllPlain(ops)
    ensures FileNamesIncrease(tss)
    ensures forall ts :: ts in tss <==> ts in ShownOf(id, LastWrites(ops).Keys)
    ensures var t := TraceOf(id, now, ops);
      Loads(S3Run(objects, id, now, ops).objects, id,
            Found(Content(id, t.meta.sessionID, now, Pick(LastWrites(ops), tss), t.savedCost)))
    ensures var t := TraceOf(id, now, ops);
      t.savedKept ==> t.savedCost == MemoryRun(id, ops).totalCost
  {
    RunHolds(objects, id, now, ops);
    PlainIsHome(objects, id, now, ops);
    TraceStaysHome(id, now, ops);
    RunTracked(objects, id, now, ops);
    KeptCosts(id, now, ops);
    WritesAreStamps(ops);
    ChildrenAreNames(S3Run(objects, id, now, ops).objects, id, WrittenStamps(ops));
    tss := HeldIsLoaded(S3Run(objects, id, now, ops).objects, id, LastWrites(ops));
  }

  lemma {:induction false} WritesAreStamps(ops: seq<Op>)
    ensures LastWrites(ops).Keys == WrittenStamps(ops)
  {
    if ops != [] {
      var n := |ops| - 1;
      assert ops == ops[..n] + [ops[n]];
      WritesAreStamps(ops[..n]);
      StampsGrow(ops[..n], ops[n]);
    }
  }

  // The timestamps of the added messages, in the order they were added.
  function Stamps(ops: seq<Op>): seq<string> {
    if ops == [] then []
    else
      var op := ops[|ops| - 1];
      Stamps(ops[..|ops| - 1]) + if Written(op) then [op.msg.timestamp] else []
  }

  lemma {:induction false} StampsOfMemory(id: string, ops: seq<Op>)
    ensures |MemoryRun(id, ops).messages| == |Stamps(ops)|
    ensures forall i :: 0 <= i < |Stamps(ops)| ==> MemoryRun(id, ops).messages[i].timestamp == Stamps(ops)[i]
    ensures forall ts :: ts in LastWrites(ops) <==> ts in Stamps(ops)
    ensures forall ts :: ts in LastWrites(ops) ==> LastWrites(ops)[ts].timestamp == ts
    ensures Distinct(Stamps(ops)) ==>
      forall i :: 0 <= i < |Stamps(ops)| ==> LastWrites(ops)[Stamps(ops)[i]] == MemoryRun(id, ops).messages[i]
  {
    if ops != [] {
      var n := |ops| - 1;
      StampsOfMemory(id, ops[..n]);
      var before := Stamps(ops[..n]);
      assert forall i :: 0 <= i < |before| ==> before[i] == Stamps(ops)[i];
      if Distinct(Stamps(ops)) && Written(ops[n]) {
        assert forall i :: 0 <= i < |before| ==> before[i] != Stamps(ops)[|before|];
      }
    }
  }

  // All of the timestamps are shown.
  ghost predicate AllShown(id: string, tss: seq<string>) {
    var files := set ts | ts in tss;
    ShownOf(id, files) == files
  }

  ghost predicate ComesBack(id: string, ops: seq<Op>) {
    AllPlain(ops) && FileNamesIncrease(Stamps(ops)) && AllShown(id, Stamps(ops))
  }

  // The conversation that Get returns has the messages of the memory store, in the same order,
  // if and only if their timestamps are plain, their file names increase from each to the next,
  // and all of them are within the page of a listing (PageHolds says when). A message under
  // "metadata" or "cost" is missing from the listing, and a slash makes Get fail. It makes no
  // difference which handle, the first or a reloaded one, was used.
  lemma RefinesMemoryIff(objects: Objects, id: string, now: string, ops: seq<Op>, r: Loaded)
    requires IsNew(objects, id) && KeepsPlace(id, ops)
    requires Loads(S3Run(objects, id, now, ops).objects, id, r)
    ensures var t := TraceOf(id, now, ops);
      && (r.Found? ==> r.c.totalCost == t.savedCost && r.c.sessionID == t.meta.sessionID)
      && (t.savedKept ==> t.savedCost == MemoryRun(id, ops).totalCost)
    ensures AllPlain(ops) ==> r.Found? && r.c.id == id && r.c.createdAt == now
    ensures r.Found? && r.c.messages == MemoryRun(id, ops).messages
       <==> ComesBack(id, ops)
  {
    KeptCosts(id, now, ops);
    RunTracked(objects, id, now, ops);
    ReadsTracked(S3Run(objects, id, now, ops), id, TraceOf(id, now, ops), r);
    if AllPlain(ops) {
      RefinesMemoryPlain(objects, id, now, ops, r);
    } else if r.Found? && r.c.messages == MemoryRun(id, ops).messages {
      LoadedStampsPlain(objects, id, now, ops, r);
    }
  }

  // The last reload that gave a handle, if there was one, found all messages in their order.
  ghost predicate ReloadFoundAll(id: string, now: string, ops: seq<Op>) {
    if ops == [] then true
    else
      var before := ops[..|ops| - 1];
      if ops[|ops| - 1].Reload? && !Unreadable(id, TraceOf(id, now, before).files)
      then ComesBack(id, before)
      else ReloadFoundAll(id, now, before)
  }

  // Exactly then the handle that the caller has shows the memory store's messages too.
  lemma {:induction false} HandleRefinesMemoryIff(objects: Objects, id: string, now: string, ops: seq<Op>)
    requires IsNew(objects, id) && KeepsPlace(id, ops)
    ensures S3Run(objects, id, now, ops).handle.messages == MemoryRun(id, ops).messages
       <==> ReloadFoundAll(id, now, ops)
  {
    if ops != [] {
      var n := |ops| - 1;
      assert ops == ops[..n] + [ops[n]];
      HandleRefinesMemoryIff(objects, id, now, ops[..n]);
      var s := S3Run(objects, id, now, ops[..n]);
      match ops[n]
      case Add(msg, outcome) =>
        if !outcome.NoneWritten? {
          SameWithMessage(s.handle.messages, MemoryRun(id, ops[..n]).messages, msg);
        }
      case Save(_) =>
      case SetSession(_) =>
      case Reload =>
        RunTracked(objects, id, now, ops[..n]);
        ReadsTracked(s, id, TraceOf(id, now, ops[..n]), Load(s.objects, id));
        RefinesMemoryIff(objects, id, now, ops[..n], Load(s.objects, id));
    }
  }

  lemma SameWithMessage(a: seq<Message>, b: seq<Message>, msg: Message)
    ensures a + [msg] == b + [msg] <==> a == b
  {
    if a + [msg] == b + [msg] {
      assert a == (a + [msg])[..|a|] && b == (b + [msg])[..|b|] && |a| == |b|;
    }
  }

  lemma RefinesMemoryPlain(objects: Objects, id: string, now: string, ops: seq<Op>, r: Loaded)
    requires IsNew(objects, id) && AllPlain(ops)
    requires Loads(S3Run(objects, id, now, ops).objects, id, r)
    ensures r.Found? && r.c.id == id && r.c.createdAt == now
    ensures r.c.messages == MemoryRun(id, ops).messages
       <==> FileNamesIncrease(Stamps(ops)) && AllShown(id, Stamps(ops))
  {
    var tss := LoadedAfterRun(objects, id, now, ops);
    var t := TraceOf(id, now, ops);
    LoadsUnique(S3Run(objects, id, now, ops).objects, id, r,
                Found(Content(id, t.meta.sessionID, now, Pick(LastWrites(ops), tss), t.savedCost)));
    StampsOfMemory(id, ops);
    PickIsMemory(id, ops, ShownOf(id, LastWrites(ops).Keys), tss);
    assert LastWrites(ops).Keys == (set ts | ts in Stamps(ops));
  }

  // The writes shown are the memory store's messages exactly when all are shown, in the order in
  // which they were added.
  lemma PickIsMemory(id: string, ops: seq<Op>, shown: set<string>, tss: seq<string>)
    requires FileNamesIncrease(tss) && shown <= LastWrites(ops).Keys && forall ts :: ts in tss <==> ts in shown
    ensures Pick(LastWrites(ops), tss) == MemoryRun(id, ops).messages
       <==> FileNamesIncrease(Stamps(ops)) && shown == LastWrites(ops).Keys
  {
    StampsOfMemory(id, ops);
    var memory, writes, stamps := MemoryRun(id, ops).messages, LastWrites(ops), Stamps(ops);
    if FileNamesIncrease(stamps) && shown == writes.Keys {
      IncreasingUnique(id, stamps, tss);
      assert Pick(writes, tss) == memory;
    }
    if Pick(writes, tss) == memory {
      forall i | 0 <= i < |tss|
        ensures tss[i] == stamps[i]
      {
        assert Pick(writes, tss)[i] == writes[tss[i]];
      }
      assert tss == stamps;
    }
  }

  // When all the messages come back, all timestamps are plain.
  lemma LoadedStampsPlain(objects: Objects, id: string, now: string, ops: seq<Op>, r: Loaded)
    requires IsNew(objects, id) && KeepsPlace(id, ops)
    requires Loads(S3Run(objects, id, now, ops).objects, id, r)
    requires r.Found? && r.c.messages == MemoryRun(id, ops).messages
    ensures AllPlain(ops)
  {
    var after := S3Run(objects, id, now, ops).objects;
    var dir := ConversationDir(id);
    RunTracked(objects, id, now, ops);
    StampsOfMemory(id, ops);
    var keys :| IsListing(after, dir, keys) && LoadsKeys(after, id, keys, r);
    forall i | 0 <= i < |Stamps(ops)|
      ensures PlainTimestamp(Stamps(ops)[i])
    {
      assert keys[i] in keys;
      assert r.c.messages[i] == AsMessage(after[keys[i]]);
      ListedIsPlain(after, id, TraceOf(id, now, ops).files, keys[i]);
    }
    StampsOfOps(ops);
  }

  lemma {:induction false} StampsOfOps(ops: seq<Op>)
    ensures forall op :: op in ops && Written(op) ==> op.msg.timestamp in Stamps(ops)
  {
    if ops != [] {
      StampsOfOps(ops[..|ops| - 1]);
      assert ops == ops[..|ops| - 1] + [ops[|ops| - 1]];
    }
  }

  lemma IncreasingUnique(id: string, a: seq<string>, b: seq<string>)
    requires FileNamesIncrease(a) && FileNamesIncrease(b) && forall ts :: ts in a <==> ts in b
    ensures a == b
  {
    var ka, kb := KeysOf(id, a), KeysOf(id, b);
    KeysInOrder(id, a);
    KeysInOrder(id, b);
    SameElements(a, b);
    assert |a| == |multiset(a)| == |multiset(b)| == |b|;
    forall k
      ensures k in ka <==> k in kb
    {
      if k in ka {
        var i :| 0 <= i < |ka| && ka[i] == k;
        assert a[i] in b;
        var j :| 0 <= j < |b| && b[j] == a[i];
        assert kb[j] == k;
      }
      if k in kb {
        var i :| 0 <= i < |kb| && kb[i] == k;
        assert b[i] in a;
        var j :| 0 <= j < |a| && a[j] == b[i];
        assert ka[j] == k;
      }
    }
    SameElements(ka, kb);
    SortedUnique(ka, kb);
    forall i | 0 <= i < |a|
      ensures a[i] == b[i]
    {
      assert ka[i] == kb[i];
      MessageKeyInjective(id, a[i], b[i]);
    }
  }

  // --- How many messages a listing has room for ---

  lemma NamesAndKeys(id: string, tss: seq<string>)
    requires forall ts :: ts in tss ==> PlainTimestamp(ts)
    ensures forall k :: k in FileNames(id, set ts | ts in tss) <==> k in KeysOf(id, tss)
  {
    var files := set ts | ts in tss;
    forall k
      ensures k in FileNames(id, files) <==> k in KeysOf(id, tss)
    {
      if ts :| ts in files && k == NameOf(id, ts) {
        NameOfSlash(id, ts);
        var i :| 0 <= i < |tss| && tss[i] == ts;
        assert KeysOf(id, tss)[i] == k;
      }
      if i :| 0 <= i < |tss| && KeysOf(id, tss)[i] == k {
        NameOfSlash(id, tss[i]);
        assert tss[i] in files;
      }
    }
  }

  lemma KeysWithin(id: string, tss: seq<string>, page: set<string>)
    ensures (WithKeysIn(id, (set ts | ts in tss), page) == (set ts | ts in tss))
       <==> forall k :: k in KeysOf(id, tss) ==> k in page
  {
    var files := set ts | ts in tss;
    if WithKeysIn(id, files, page) == files {
      forall k | k in KeysOf(id, tss)
        ensures k in page
      {
        var i :| 0 <= i < |tss| && KeysOf(id, tss)[i] == k;
        assert tss[i] in files;
      }
    }
    if forall k :: k in KeysOf(id, tss) ==> k in page {
      forall ts | ts in files
        ensures MessageKey(id, ts) in page
      {
        var i :| 0 <= i < |tss| && tss[i] == ts;
        assert KeysOf(id, tss)[i] in KeysOf(id, tss);
      }
    }
  }

  lemma ShownKeys(id: string, tss: seq<string>)
    requires forall ts :: ts in tss ==> PlainTimestamp(ts)
    ensures AllShown(id, tss) <==>
      forall k :: k in KeysOf(id, tss) ==> k in FirstIn(NamesOf(id, set ts | ts in tss), PAGE)
    ensures forall k :: k in NamesOf(id, set ts | ts in tss) <==>
      k == MetadataKey(id) || k == CostKey(id) || k in KeysOf(id, tss)
  {
    NamesAndKeys(id, tss);
    KeysWithin(id, tss, FirstIn(NamesOf(id, set ts | ts in tss), PAGE));
  }

  // Up to 998 messages are shown, and never more than a thousand.
  lemma PageBounds(id: string, tss: seq<string>)
    requires FileNamesIncrease(tss) && forall ts :: ts in tss ==> PlainTimestamp(ts)
    ensures |tss| + 2 <= PAGE ==> AllShown(id, tss)
    ensures AllShown(id, tss) ==> |tss| <= PAGE
  {
    var files, keys := set ts | ts in tss, set k | k in KeysOf(id, tss);
    ShownKeys(id, tss);
    KeysInOrder(id, tss);
    DistinctSize(tss);
    DistinctSize(KeysOf(id, tss));
    if |tss| + 2 <= PAGE {
      FewNames(id, files);
    }
    if AllShown(id, tss) {
      var page := FirstIn(NamesOf(id, files), PAGE);
      FirstSize(NamesOf(id, files), PAGE);
      assert page == keys + (page - keys);
    }
  }

  // Where all the file names come before that of the cost file, as they do when timestamps start
  // with a digit, a thousand messages are shown and one more is not.
  lemma PageHolds(id: string, tss: seq<string>)
    requires FileNamesIncrease(tss) && forall ts :: ts in tss ==> PlainTimestamp(ts)
    requires forall ts :: ts in tss ==> StringLeq(FileName(ts), "cost.json")
    ensures AllShown(id, tss) <==> |tss| <= PAGE
  {
    PageBounds(id, tss);
    ShownKeys(id, tss);
    var names, keys := NamesOf(id, set ts | ts in tss), KeysOf(id, tss);
    var all := keys + [CostKey(id), MetadataKey(id)];
    NamesInOrder(id, tss);
    FirstSorted(all, names, PAGE);
    if |tss| <= PAGE {
      forall k | k in keys
        ensures k in FirstIn(names, PAGE)
      {
        var i :| 0 <= i < |keys| && keys[i] == k;
        var first := if PAGE <= |all| then all[..PAGE] else all;
        assert first[i] == k;
      }
    }
  }

  lemma NamesInOrder(id: string, tss: seq<string>)
    requires FileNamesIncrease(tss) && forall ts :: ts in tss ==> PlainTimestamp(ts)
    requires forall ts :: ts in tss ==> StringLeq(FileName(ts), "cost.json")
    ensures var all := KeysOf(id, tss) + [CostKey(id), MetadataKey(id)];
      Sorted(all) && Distinct(all)
  {
    var dir, keys := ConversationDir(id), KeysOf(id, tss);
    KeysInOrder(id, tss);
    MessageKeyInjective(id, "", "");
    PrefixCancels(dir, "cost.json", "metadata.json");
    assert StringLeq(CostKey(id), MetadataKey(id));
    forall i | 0 <= i < |keys|
      ensures StringLeq(keys[i], CostKey(id)) && StringLeq(keys[i], MetadataKey(id))
      ensures keys[i] != CostKey(id) && keys[i] != MetadataKey(id)
    {
      assert tss[i] in tss && keys[i] == dir + FileName(tss[i]);
      PrefixCancels(dir, FileName(tss[i]), "cost.json");
      StringLeqTransitive(keys[i], CostKey(id), MetadataKey(id));
      MessageKeyInjective(id, tss[i], "");
    }
  }

  // With timestamps of one length that start with a digit, such as RFC 3339 times, and increase,
  // the conversation comes back whole if and only if it has at most a thousand messages.
  lemma ThousandMessages(objects: Objects, id: string, now: string, ops: seq<Op>, r: Loaded)
    requires IsNew(objects, id) && AllPlain(ops) && Loads(S3Run(objects, id, now, ops).objects, id, r)
    requires IncreaseInOneLength(Stamps(ops))
    requires forall ts :: ts in Stamps(ops) ==> ts != "" && '0' <= ts[0] <= '9'
    ensures r.Found? && (r.c.messages == MemoryRun(id, ops).messages <==> |Stamps(ops)| <= PAGE)
  {
    PlainIsHome(objects, id, now, ops);
    RefinesMemoryIff(objects, id, now, ops, r);
    EqualLengthsIncrease(Stamps(ops));
    PlainStamps(ops);
    forall ts | ts in Stamps(ops)
      ensures StringLeq(FileName(ts), "cost.json")
    {
      assert FileName(ts)[0] == ts[0];
    }
    PageHolds(id, Stamps(ops));
  }

  lemma {:induction false} PlainStamps(ops: seq<Op>)
    requires AllPlain(ops)
    ensures forall ts :: ts in Stamps(ops) ==> PlainTimestamp(ts)
  {
    if ops != [] {
      var n := |ops| - 1;
      assert ops == ops[..n] + [ops[n]];
      PlainStamps(ops[..n]);
      assert ops[n] in ops;
    }
  }

  // Timestamps of one length, each with a smaller character than the later ones where they first
  // differ.
  ghost predicate IncreaseInOneLength(tss: seq<string>) {
    forall i, j :: 0 <= i < j < |tss| ==> |tss[i]| == |tss[j]| && FirstDifferenceLess(tss[i], tss[j])
  }

  ghost predicate FirstDifferenceLess(a: string, b: string) {
    exists k :: 0 <= k < |a| && k < |b| && a[..k] == b[..k] && a[k] < b[k]
  }

  // Strictly increasing timestamps of one length give increasing file names.
  lemma EqualLengthsIncrease(tss: seq<string>)
    requires IncreaseInOneLength(tss)
    ensures FileNamesIncrease(tss)
  {
    forall i, j | 0 <= i < j < |tss|
      ensures StringLeq(FileName(tss[i]), FileName(tss[j])) && tss[i] != tss[j]
    {
      assert FirstDifferenceLess(tss[i], tss[j]);
      var k :| 0 <= k < |tss[i]| && k < |tss[j]| && tss[i][..k] == tss[j][..k] && tss[i][k] < tss[j][k];
      EarlierAt(tss[i], tss[j], k);
      SuffixKeepsOrder(tss[i], tss[j], ".json");
    }
  }

  // What Get returns is in the order of the characters of the file names, whatever the order in
  // which the messages were added.
  lemma LoadedInOrder(objects: Objects, id: string, now: string, ops: seq<Op>, r: Loaded, i: nat, j: nat)
    requires IsNew(objects, id) && AllPlain(ops) && Loads(S3Run(objects, id, now, ops).objects, id, r)
    requires r.Found? && i < j < |r.c.messages|
    ensures var a, b := r.c.messages[i].timestamp + ".json", r.c.messages[j].timestamp + ".json";
      a != b && (a <= b || FirstDifferenceLess(a, b))
  {
    var tss := LoadedAfterRun(objects, id, now, ops);
    var t := TraceOf(id, now, ops);
    LoadsUnique(S3Run(objects, id, now, ops).objects, id, r,
                Found(Content(id, t.meta.sessionID, now, Pick(LastWrites(ops), tss), t.savedCost)));
    StampsOfMemory(id, ops);
    assert r.c.messages[i].timestamp == tss[i] && r.c.messages[j].timestamp == tss[j];
    StringLeqMeaning(FileName(tss[i]), FileName(tss[j]));
    if FileName(tss[i]) == FileName(tss[j]) {
      SuffixCancels(tss[i], tss[j]);
    }
  }

  lemma {:induction false} SuffixKeepsOrder(a: string, b: string, suffix: string)
    requires |a| == |b| && StringLeq(a, b) && a != b
    ensures StringLeq(a + suffix, b + suffix)
  {
    assert (a + suffix)[0] == a[0] && (b + suffix)[0] == b[0];
    if a[0] == b[0] {
      assert a == [a[0]] + a[1..] && b == [b[0]] + b[1..];
      assert (a + suffix)[1..] == a[1..] + suffix && (b + suffix)[1..] == b[1..] + suffix;
      SuffixKeepsOrder(a[1..], b[1..], suffix);
    }
  }

  // Timestamps of different lengths can change places: "1" comes before "1!", "1.json" after
  // "1!.json".
  lemma UnequalLengthsReorder()
    ensures StringLeq("1", "1!") && !StringLeq(FileName("1"), FileName("1!"))
  {
    assert FileName("1") == "1.json" && FileName("1!") == "1!.json";
    assert "1.json"[1..] == ".json" && "1!.json"[1..] == "!.json";
    assert "1"[1..] == "" && "1!"[1..] == "!";
  }
}
