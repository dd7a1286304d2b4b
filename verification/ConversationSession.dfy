// The two store classes side by side: the same calls on a new conversation in each.
module ConversationSession {
  import opened Conversations
  import opened ConversationKeys
  import opened ConversationRuns
  import opened ConversationRefinement

  // What Get returns after the calls.
  lemma Compared(id: string, now: string, ops: seq<Op>, r: Loaded)
    requires KeepsPlace(id, ops) && Loads(S3Run(map[], id, now, ops).objects, id, r)
    ensures var t := TraceOf(id, now, ops);
      && (if Unreadable(id, t.files) then r.Failed? else r.Found? && r.c.totalCost == t.savedCost)
      && (!Strays(ops) && |WrittenStamps(ops)| + 2 <= PAGE ==> (Unreadable(id, t.files) <==> HasSlash(ops)))
      && (t.savedKept ==> t.savedCost == MemoryRun(id, ops).totalCost)
    ensures r.Found? && r.c.messages == MemoryRun(id, ops).messages
       <==> ComesBack(id, ops)
  {
    RunTracked(map[], id, now, ops);
    UnreadableIffSlash(map[], id, now, ops);
    ReadsTracked(S3Run(map[], id, now, ops), id, TraceOf(id, now, ops), r);
    RefinesMemoryIff(map[], id, now, ops, r);
  }

  // Reads the conversation back and goes on with the handle it is given.
  method ReloadHandle(s3: S3Store, id: string, a: Conversation) returns (a': Conversation)
    ensures var r := Load(s3.store.objects, id);
      if r.Found? then fresh(a') && a'.Value() == r.c else a' == a
  {
    var ok, c, r := s3.Get(id, NO_FAULTS);
    a' := if c != null then c else a;
  }

  // One operation on both stores; an addition that does not take effect is not made on the memory
  // store, and a reload there gives the same handle again.
  method OnBoth(s3: S3Store, memory: MemoryStore, id: string, op: Op, a: Conversation, b: Conversation)
    returns (a': Conversation)
    requires a != b && b.id == id && id in memory.conversations && memory.conversations[id] == b
    modifies s3.store, memory, a, b
    ensures S3State(s3.store.objects, a'.Value()) == S3After(old(S3State(s3.store.objects, a.Value())), id, op)
    ensures b.Value() == HandleAfter(old(b.Value()), op) && b.id == id
    ensures id in memory.conversations && memory.conversations[id] == b
    ensures a' == a || fresh(a')
  {
    a' := a;
    match op
    case Add(msg, outcome) =>
      var ok := s3.AddMessage(a, msg, outcome);
      if !outcome.NoneWritten? {
        memory.AddMessage(b, msg);
      }
    case Save(outcome) =>
      var ok := s3.Save(a, outcome);
      memory.Save(b);
    case SetSession(sessionID) =>
      a.sessionID := sessionID;
      b.sessionID := sessionID;
    case Reload =>
      a' := ReloadHandle(s3, id, a);
      var again := memory.Get(id);
      assert again == b;
  }

  // Loads the conversation back from both stores and compares what they return, and what the two
  // handles show.
  method CompareStores(id: string, now: string, ops: seq<Op>)
    returns (loaded: bool, sameMessages: bool, sameCost: bool, sameHandles: bool)
    requires KeepsPlace(id, ops)
    ensures var t := TraceOf(id, now, ops);
      && (loaded <==> !Unreadable(id, t.files))
      && (!Strays(ops) && |WrittenStamps(ops)| + 2 <= PAGE ==> (loaded <==> !HasSlash(ops)))
      && (loaded ==> (sameCost <==> t.savedCost == MemoryRun(id, ops).totalCost))
      && (loaded && t.savedKept ==> sameCost)
    ensures sameMessages <==> ComesBack(id, ops)
    ensures sameHandles <==> ReloadFoundAll(id, now, ops)
  {
    var storage := new Storage();
    var s3 := new S3Store(storage);
    var memory := new MemoryStore();
    var created := s3.Create(id, now, BothWritten);
    var a: Conversation := created;
    var b := memory.Create(id);
    for i := 0 to |ops|
      invariant fresh(storage) && fresh(memory) && fresh(a) && fresh(b) && a != b
      invariant S3State(storage.objects, a.Value()) == S3Run(map[], id, now, ops[..i])
      invariant b.Value() == MemoryRun(id, ops[..i]) && b.id == id
      invariant id in memory.conversations && memory.conversations[id] == b
    {
      assert ops[..i + 1][..i] == ops[..i];
      a := OnBoth(s3, memory, id, ops[i], a, b);
    }
    assert ops[..|ops|] == ops;
    var ok, x, r := s3.Get(id, NO_FAULTS);
    var y := memory.Get(id);
    Compared(id, now, ops, r);
    HandleRefinesMemoryIff(map[], id, now, ops);
    loaded := ok;
    sameMessages := x != null && x.messages == y.messages;
    sameCost := x != null && x.totalCost == y.totalCost;
    sameHandles := a.messages == b.messages;
  }

  // --- From the first message to the last ---

  function Adds(msgs: seq<Message>): seq<Op> {
    seq(|msgs|, i requires 0 <= i < |msgs| => Add(msgs[i], BothWritten))
  }

  lemma {:induction false} AddsAreStamps(id: string, now: string, msgs: seq<Message>)
    ensures |Stamps(Adds(msgs))| == |msgs|
    ensures forall i :: 0 <= i < |msgs| ==> Stamps(Adds(msgs))[i] == msgs[i].timestamp
    ensures MemoryRun(id, Adds(msgs)).messages == msgs && !Strays(Adds(msgs))
    ensures var t := TraceOf(id, now, Adds(msgs));
      && t.savedCost == (if msgs == [] then 0.0 else msgs[|msgs| - 1].totalCost)
      && t.meta.sessionID == "" && t.handle.sessionID == "" && t.handle.id == id
  {
    if msgs != [] {
      var n := |msgs| - 1;
      AddsAreStamps(id, now, msgs[..n]);
      assert Adds(msgs)[..n] == Adds(msgs[..n]);
      assert msgs == msgs[..n] + [msgs[n]];
      TraceStaysHome(id, now, Adds(msgs[..n]));
    }
  }

  // A timestamp that begins with a digit and has no slash.
  predicate IsDated(msg: Message) {
    var ts := msg.timestamp;
    ts != "" && '0' <= ts[0] <= '9' && '/' !in ts
  }

  // Timestamps of one length that differ, first at a character that is less in a.
  ghost predicate IsEarlier(a: Message, b: Message) {
    var s, t := a.timestamp, b.timestamp;
    |s| == |t| && exists k :: 0 <= k < |s| && s[..k] == t[..k] && s[k] < t[k]
  }

  // A conversation is created, messages are added to it one after the other, and it is read back.
  // With timestamps of one length that begin with a digit, hold no slash and increase, all of it
  // comes back in the same order, unless there are more than a thousand messages.
  method RoundTrip(id: string, now: string, msgs: seq<Message>) returns (conv: Conversation?)
    requires forall i :: 0 <= i < |msgs| ==> IsDated(msgs[i])
    requires forall i, j :: 0 <= i < j < |msgs| ==> IsEarlier(msgs[i], msgs[j])
    ensures conv != null
    ensures conv.messages == msgs <==> |msgs| <= 1000
    ensures conv.id == id && conv.sessionID == "" && conv.createdAt == now
    ensures conv.totalCost == if msgs == [] then 0.0 else msgs[|msgs| - 1].totalCost
  {
    var storage := new Storage();
    var s3 := new S3Store(storage);
    var created := s3.Create(id, now, BothWritten);
    var handle: Conversation := created;
    AddAll(s3, handle, id, now, msgs);
    var ok, c, r := s3.Get(id, NO_FAULTS);
    ComesBackWhole(id, now, msgs, r);
    conv := c;
  }

  method AddAll(s3: S3Store, handle: Conversation, id: string, now: string, msgs: seq<Message>)
    requires S3State(s3.store.objects, handle.Value()) == S3Run(map[], id, now, [])
    modifies s3.store, handle
    ensures S3State(s3.store.objects, handle.Value()) == S3Run(map[], id, now, Adds(msgs))
  {
    ghost var ops := Adds(msgs);
    for i := 0 to |msgs|
      invariant S3State(s3.store.objects, handle.Value()) == S3Run(map[], id, now, ops[..i])
    {
      assert ops[..i + 1][..i] == ops[..i] && ops[i] == Add(msgs[i], BothWritten);
      var ok := s3.AddMessage(handle, msgs[i], BothWritten);
    }
    assert ops[..|msgs|] == ops;
  }

  lemma ComesBackWhole(id: string, now: string, msgs: seq<Message>, r: Loaded)
    requires forall i :: 0 <= i < |msgs| ==> IsDated(msgs[i])
    requires forall i, j :: 0 <= i < j < |msgs| ==> IsEarlier(msgs[i], msgs[j])
    requires Loads(S3Run(map[], id, now, Adds(msgs)).objects, id, r)
    ensures r.Found? && (r.c.messages == msgs <==> |msgs| <= 1000)
    ensures r.c.id == id && r.c.sessionID == "" && r.c.createdAt == now
    ensures r.c.totalCost == if msgs == [] then 0.0 else msgs[|msgs| - 1].totalCost
  {
    AddsAreStamps(id, now, msgs);
    DatedArePlain(msgs);
    EarlierIncrease(id, now, msgs);
    ThousandMessages(map[], id, now, Adds(msgs), r);
    RefinesMemoryIff(map[], id, now, Adds(msgs), r);
  }

  lemma DatedArePlain(msgs: seq<Message>)
    requires forall i :: 0 <= i < |msgs| ==> IsDated(msgs[i])
    ensures AllPlain(Adds(msgs))
  {
    forall op | op in Adds(msgs)
      ensures PlainTimestamp(op.msg.timestamp)
    {
      var i :| 0 <= i < |msgs| && Adds(msgs)[i] == op;
      assert IsDated(msgs[i]) && op.msg == msgs[i];
    }
  }

  lemma EarlierIncrease(id: string, now: string, msgs: seq<Message>)
    requires forall i :: 0 <= i < |msgs| ==> IsDated(msgs[i])
    requires forall i, j :: 0 <= i < j < |msgs| ==> IsEarlier(msgs[i], msgs[j])
    ensures IncreaseInOneLength(Stamps(Adds(msgs)))
    ensures forall ts :: ts in Stamps(Adds(msgs)) ==> ts != "" && '0' <= ts[0] <= '9'
  {
    AddsAreStamps(id, now, msgs);
    var tss := Stamps(Adds(msgs));
    forall i, j | 0 <= i < j < |tss|
      ensures |tss[i]| == |tss[j]| && FirstDifferenceLess(tss[i], tss[j])
    {
      assert IsEarlier(msgs[i], msgs[j]);
    }
    forall ts | ts in tss
      ensures ts != "" && '0' <= ts[0] <= '9'
    {
      var i :| 0 <= i < |msgs| && ts == tss[i];
      assert IsDated(msgs[i]);
    }
  }
}
