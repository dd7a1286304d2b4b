// Conversation persistence: MemoryStore (ai/conversations/memory.go) and S3Store
// (ai/conversations/s3.go) over an abstract key-value storage.
module Conversations {
  import opened Ordering

  datatype Usage = Usage(input: nat, output: nat, cacheCreation: nat, cacheRead: nat)

  datatype Message = Message(
    timestamp: string, role: string, content: string, user: string, assistant: string,
    response: string, cost: real, totalCost: real, usage: Usage, model: string)

  // The content of a conversation.
  datatype Content = Content(
    id: string, sessionID: string, createdAt: string, messages: seq<Message>, totalCost: real)

  class Conversation {
    var id: string
    var sessionID: string
    var createdAt: string
    var messages: seq<Message>
    var totalCost: real

    ghost function Value(): Content
      reads this
    {
      Content(id, sessionID, createdAt, messages, totalCost)
    }

    constructor (id: string, sessionID: string, createdAt: string, messages: seq<Message>, totalCost: real)
      ensures Value() == Content(id, sessionID, createdAt, messages, totalCost)
    {
      this.id := id;
      this.sessionID := sessionID;
      this.createdAt := createdAt;
      this.messages := messages;
      this.totalCost := totalCost;
    }
  }

  // --- In memory ---

  // The handle after a message has been added to it; the same for both stores.
  function WithMessage(c: Content, msg: Message): Content {
    c.(messages := c.messages + [msg], totalCost := msg.totalCost)
  }

  class MemoryStore {
    var conversations: map<string, Conversation>

    constructor ()
      ensures conversations == map[]
    {
      conversations := map[];
    }

    // id is the identifier that was generated.
    method Create(id: string) returns (c: Conversation)
      modifies this
      ensures fresh(c) && c.Value() == Content(id, "", "", [], 0.0)
      ensures conversations == old(conversations)[id := c]
    {
      c := new Conversation(id, "", "", [], 0.0);
      conversations := conversations[id := c];
    }

    method Get(id: string) returns (c: Conversation?)
      ensures c == if id in conversations then conversations[id] else null
    {
      c := if id in conversations then conversations[id] else null;
    }

    method Save(conv: Conversation)
      modifies this
      ensures conversations == old(conversations)[conv.id := conv]
    {
      conversations := conversations[conv.id := conv];
    }

    method AddMessage(conv: Conversation, msg: Message)
      modifies conv
      ensures conv.Value() == WithMessage(old(conv.Value()), msg)
      ensures conv.messages == old(conv.messages) + [msg] && conv.totalCost == msg.totalCost
      ensures conv.id == old(conv.id) && conv.sessionID == old(conv.sessionID) && conv.createdAt == old(conv.createdAt)
    {
      conv.messages := conv.messages + [msg];
      conv.totalCost := msg.totalCost;
    }
  }

  // --- Storage ---

  // The JSON documents that are written.
  datatype Document =
    | MetadataFile(id: string, sessionID: string, createdAt: string)
    | CostFile(total: real)
    | MessageFile(message: Message)

  // Decoding takes the fields a document has and leaves the others zero.
  function AsMetadata(d: Document): Document {
    if d.MetadataFile? then d else MetadataFile("", "", "")
  }

  function AsCost(d: Document): real {
    match d
    case MetadataFile(_, _, _) => 0.0
    case CostFile(total) => total
    case MessageFile(m) => m.totalCost
  }

  function AsMessage(d: Document): Message {
    match d
    case MetadataFile(_, _, _) => EMPTY_MESSAGE
    case CostFile(total) => EMPTY_MESSAGE.(totalCost := total)
    case MessageFile(m) => m
  }

  const EMPTY_MESSAGE := Message("", "", "", "", "", "", 0.0, 0.0, Usage(0, 0, 0, 0), "")

  type Objects = map<string, Document>

  // What a listing of prefix shows of the object at key: the key itself, or the "directory"
  // below prefix that it lies in.
  function Child(prefix: string, key: string): string
    requires prefix <= key
  {
    prefix + UpToSlash(key[|prefix|..])
  }

  function UpToSlash(s: string): string {
    if s == "" then "" else if s[0] == '/' then "/" else [s[0]] + UpToSlash(s[1..])
  }

  predicate EndsInSlash(key: string) {
    key != "" && key[|key| - 1] == '/'
  }

  function Children(objects: Objects, prefix: string): set<string> {
    set key | key in objects && prefix <= key :: Child(prefix, key)
  }

  // A listing is one request, whose answer holds the first thousand names in order and no more.
  const PAGE: nat := 1000

  ghost function Listed(objects: Objects, prefix: string): set<string> {
    FirstIn(Children(objects, prefix), PAGE)
  }

  class Storage {
    var objects: Objects

    constructor ()
      ensures objects == map[]
    {
      objects := map[];
    }

    // succeeds says whether the backend takes the write.
    method Put(key: string, d: Document, succeeds: bool) returns (ok: bool)
      modifies this
      ensures ok <==> succeeds
      ensures objects == if succeeds then old(objects)[key := d] else old(objects)
    {
      if succeeds {
        objects := objects[key := d];
      }
      return succeeds;
    }

    // The listing of one directory level: the directories and then the files of the page that
    // the backend answers with.
    method List(prefix: string) returns (keys: seq<string>)
      ensures Distinct(keys) && forall k :: k in keys <==> k in Listed(objects, prefix)
    {
      var page := FirstPage(prefix);
      var directories: seq<string>, files: seq<string> := [], [];
      for i := 0 to |page|
        invariant Distinct(directories) && Distinct(files)
        invariant forall k :: k in directories <==> k in page[..i] && EndsInSlash(k)
        invariant forall k :: k in files <==> k in page[..i] && !EndsInSlash(k)
      {
        assert page[i] !in page[..i];
        if EndsInSlash(page[i]) {
          directories := directories + [page[i]];
        } else {
          files := files + [page[i]];
        }
      }
      assert page[..|page|] == page;
      DistinctConcat(directories, files);
      keys := directories + files;
      assert forall k :: k in keys <==> k in page;
    }

    // What the backend answers.
    method FirstPage(prefix: string) returns (page: seq<string>)
      ensures Distinct(page) && forall k :: k in page <==> k in Listed(objects, prefix)
    {
      var all := AllChildren(prefix);
      var ordered := SortStrings(all);
      SortSorts(all);
      PermutationDistinct(ordered, all);
      FirstSorted(ordered, Children(objects, prefix), PAGE);
      page := if PAGE <= |ordered| then ordered[..PAGE] else ordered;
    }

    method AllChildren(prefix: string) returns (keys: seq<string>)
      ensures Distinct(keys) && forall k :: k in keys <==> k in Children(objects, prefix)
    {
      keys := [];
      var todo := Children(objects, prefix);
      while todo != {}
        invariant todo <= Children(objects, prefix)
        invariant Distinct(keys) && forall k :: k in keys <==> k in Children(objects, prefix) && k !in todo
      {
        var k :| k in todo;
        todo := todo - {k};
        keys := keys + [k];
      }
    }
  }

  // --- Key layout ---

  function ConversationDir(id: string): string {
    "conversations/" + id + "/"
  }

  function MetadataKey(id: string): string {
    ConversationDir(id) + "metadata.json"
  }

  function CostKey(id: string): string {
    ConversationDir(id) + "cost.json"
  }

  function MessageKey(id: string, timestamp: string): string {
    ConversationDir(id) + timestamp + ".json"
  }

  predicate IsMessageName(dir: string, key: string) {
    var filename := if dir <= key then key[|dir|..] else key;
    filename != "metadata.json" && filename != "cost.json"
  }

  // --- What the operations do to the storage ---

  // Every operation makes two writes and stops at the first that fails.
  datatype Outcome = NoneWritten | FirstWritten | BothWritten

  function TwoWrites(objects: Objects, key1: string, d1: Document, key2: string, d2: Document, outcome: Outcome)
    : Objects
  {
    match outcome
    case NoneWritten => objects
    case FirstWritten => objects[key1 := d1]
    case BothWritten => objects[key1 := d1][key2 := d2]
  }

  function AfterCreate(objects: Objects, id: string, createdAt: string, outcome: Outcome): Objects {
    TwoWrites(objects, MetadataKey(id), MetadataFile(id, "", createdAt), CostKey(id), CostFile(0.0), outcome)
  }

  function AfterSave(objects: Objects, c: Content, outcome: Outcome): Objects {
    TwoWrites(objects, MetadataKey(c.id), MetadataFile(c.id, c.sessionID, c.createdAt),
              CostKey(c.id), CostFile(c.totalCost), outcome)
  }

  function AfterAdd(objects: Objects, id: string, msg: Message, outcome: Outcome): Objects {
    TwoWrites(objects, MessageKey(id, msg.timestamp), MessageFile(msg),
              CostKey(id), CostFile(msg.totalCost), outcome)
  }

  // --- What Get reads ---

  datatype Loaded = NotFound | Failed | Found(c: Content)

  function FilterMessageKeys(dir: string, keys: seq<string>): seq<string> {
    if keys == [] then []
    else
      var n := |keys| - 1;
      FilterMessageKeys(dir, keys[..n]) + if IsMessageName(dir, keys[n]) then [keys[n]] else []
  }

  // The keys of the message files, and directories, that are listed, in order.
  ghost predicate IsListing(objects: Objects, dir: string, keys: seq<string>) {
    && Sorted(keys) && Distinct(keys)
    && forall k :: k in keys <==> k in Listed(objects, dir) && IsMessageName(dir, k)
  }

  function ReadMessages(objects: Objects, keys: seq<string>): seq<Message>
    requires forall k :: k in keys ==> k in objects
  {
    seq(|keys|, i requires 0 <= i < |keys| => AsMessage(objects[keys[i]]))
  }

  // r is what Get returns for id.
  ghost predicate Loads(objects: Objects, id: string, r: Loaded) {
    if MetadataKey(id) !in objects then r == NotFound
    else if CostKey(id) !in objects then r == Failed
    else exists keys :: IsListing(objects, ConversationDir(id), keys) && LoadsKeys(objects, id, keys, r)
  }

  ghost predicate LoadsKeys(objects: Objects, id: string, keys: seq<string>, r: Loaded)
    requires MetadataKey(id) in objects && CostKey(id) in objects
  {
    if exists k :: k in keys && k !in objects then r == Failed
    else
      var meta := AsMetadata(objects[MetadataKey(id)]);
      r == Found(Content(meta.id, meta.sessionID, meta.createdAt, ReadMessages(objects, keys),
                         AsCost(objects[CostKey(id)])))
  }

  // There is one listing only, and so one result.
  lemma LoadsUnique(objects: Objects, id: string, r1: Loaded, r2: Loaded)
    requires Loads(objects, id, r1) && Loads(objects, id, r2)
    ensures r1 == r2
  {
    if MetadataKey(id) in objects && CostKey(id) in objects {
      var k1 :| IsListing(objects, ConversationDir(id), k1) && LoadsKeys(objects, id, k1, r1);
      var k2 :| IsListing(objects, ConversationDir(id), k2) && LoadsKeys(objects, id, k2, r2);
      SameElements(k1, k2);
      SortedUnique(k1, k2);
    }
  }

  lemma LoadExists(objects: Objects, id: string) returns (r: Loaded)
    ensures Loads(objects, id, r)
  {
    if MetadataKey(id) !in objects {
      r := NotFound;
    } else if CostKey(id) !in objects {
      r := Failed;
    } else {
      var dir := ConversationDir(id);
      var keys := SortedKeysExist(set k | k in Listed(objects, dir) && IsMessageName(dir, k));
      assert IsListing(objects, dir, keys);
      var meta := AsMetadata(objects[MetadataKey(id)]);
      r := if exists k :: k in keys && k !in objects then Failed
           else Found(Content(meta.id, meta.sessionID, meta.createdAt, ReadMessages(objects, keys),
                              AsCost(objects[CostKey(id)])));
      assert LoadsKeys(objects, id, keys, r);
    }
  }

  lemma LoadAlways(objects: Objects, id: string)
    ensures exists r :: Loads(objects, id, r)
  {
    var r := LoadExists(objects, id);
  }

  // What Get returns.
  ghost function Load(objects: Objects, id: string): (r: Loaded)
    ensures Loads(objects, id, r)
  {
    LoadAlways(objects, id);
    var r :| Loads(objects, id, r);
    r
  }

  lemma {:induction false} FilterKeepsNames(dir: string, keys: seq<string>)
    requires Distinct(keys)
    ensures Distinct(FilterMessageKeys(dir, keys))
    ensures forall k :: k in FilterMessageKeys(dir, keys) <==> k in keys && IsMessageName(dir, k)
  {
    if keys != [] {
      var n := |keys| - 1;
      FilterKeepsNames(dir, keys[..n]);
      assert keys == keys[..n] + [keys[n]];
      var rest := FilterMessageKeys(dir, keys[..n]);
      assert keys[n] !in keys[..n];
      assert forall j :: 0 <= j < |rest| ==> rest[j] in rest;
    }
  }

  // The requests of a Get that fail: the check for the metadata file, the listing, and the reads
  // of single keys.
  datatype Faults = Faults(check: bool, list: bool, gets: set<string>)

  // One of the requests that Get makes fails.
  ghost predicate ReadsFail(objects: Objects, id: string, faults: Faults) {
    faults.check ||
    (MetadataKey(id) in objects &&
     (MetadataKey(id) in faults.gets || CostKey(id) in faults.gets || faults.list ||
      FaultListed(objects, ConversationDir(id), faults)))
  }

  ghost predicate FaultListed(objects: Objects, dir: string, faults: Faults) {
    exists k :: k in Listed(objects, dir) && IsMessageName(dir, k) && k in faults.gets
  }

  // A listed key that cannot be read, because it is no object or because the request fails.
  lemma ReadFails(objects: Objects, id: string, keys: seq<string>, faults: Faults)
    requires MetadataKey(id) in objects && CostKey(id) in objects && IsListing(objects, ConversationDir(id), keys)
    requires exists k :: k in keys && (k !in objects || k in faults.gets)
    ensures ReadsFail(objects, id, faults) || Load(objects, id) == Failed
  {
    if k :| k in keys && k !in objects {
      assert LoadsKeys(objects, id, keys, Failed);
      LoadsUnique(objects, id, Failed, Load(objects, id));
    }
  }

  const NO_FAULTS := Faults(false, false, {})

  class S3Store {
    const store: Storage

    constructor (store: Storage)
      ensures this.store == store
    {
      this.store := store;
    }

    // id and now are the generated identifier and the current time; outcome says how far the
    // writes of an operation get. A conversation that could not be written is not returned.
    method Create(id: string, now: string, outcome: Outcome) returns (conv: Conversation?)
      modifies store
      ensures if outcome.BothWritten? then conv != null && fresh(conv) && conv.Value() == Content(id, "", now, [], 0.0)
              else conv == null
      ensures store.objects == AfterCreate(old(store.objects), id, now, outcome)
      ensures outcome.BothWritten? ==>
        store.objects == old(store.objects)[MetadataKey(id) := MetadataFile(id, "", now)][CostKey(id) := CostFile(0.0)]
    {
      var c := new Conversation(id, "", now, [], 0.0);
      var ok := store.Put(MetadataKey(c.id), MetadataFile(c.id, c.sessionID, c.createdAt), !outcome.NoneWritten?);
      if !ok {
        return null;
      }
      ok := store.Put(CostKey(c.id), CostFile(0.0), outcome.BothWritten?);
      if !ok {
        return null;
      }
      return c;
    }

    method Save(conv: Conversation, outcome: Outcome) returns (ok: bool)
      modifies store
      ensures ok <==> outcome.BothWritten?
      ensures store.objects == AfterSave(old(store.objects), conv.Value(), outcome)
      ensures outcome.BothWritten? ==>
        store.objects == old(store.objects)[MetadataKey(conv.id) :=
          MetadataFile(conv.id, conv.sessionID, conv.createdAt)][CostKey(conv.id) := CostFile(conv.totalCost)]
    {
      var metadata := MetadataFile(conv.id, conv.sessionID, conv.createdAt);
      ok := store.Put(MetadataKey(conv.id), metadata, !outcome.NoneWritten?);
      if !ok {
        return;
      }
      ok := store.Put(CostKey(conv.id), CostFile(conv.totalCost), outcome.BothWritten?);
    }

    // When only the cost file cannot be written, the handle has the message already.
    method AddMessage(conv: Conversation, msg: Message, outcome: Outcome) returns (ok: bool)
      modifies store, conv
      ensures ok <==> outcome.BothWritten?
      ensures conv.Value() == if outcome.NoneWritten? then old(conv.Value()) else WithMessage(old(conv.Value()), msg)
      ensures store.objects == AfterAdd(old(store.objects), old(conv.id), msg, outcome)
      ensures outcome.BothWritten? ==>
        && store.objects == old(store.objects)[MessageKey(conv.id, msg.timestamp) := MessageFile(msg)][
             CostKey(conv.id) := CostFile(msg.totalCost)]
        && conv.messages == old(conv.messages) + [msg] && conv.totalCost == msg.totalCost
        && conv.id == old(conv.id) && conv.sessionID == old(conv.sessionID) && conv.createdAt == old(conv.createdAt)
    {
      var msgKey := ConversationDir(conv.id) + msg.timestamp + ".json";
      ok := store.Put(msgKey, MessageFile(msg), !outcome.NoneWritten?);
      if !ok {
        return;
      }
      conv.messages := conv.messages + [msg];
      conv.totalCost := msg.totalCost;
      ok := store.Put(CostKey(conv.id), CostFile(conv.totalCost), outcome.BothWritten?);
    }

    // faults says which of the requests to the backend fail.
    method Get(id: string, faults: Faults) returns (ok: bool, conv: Conversation?, ghost r: Loaded)
      ensures r == if ReadsFail(store.objects, id, faults) then Failed else Load(store.objects, id)
      ensures faults.check ==> r == Failed
      ensures MetadataKey(id) in store.objects && faults.list ==> r == Failed
      ensures MetadataKey(id) in store.objects && MetadataKey(id) in faults.gets ==> r == Failed
      ensures MetadataKey(id) in store.objects && CostKey(id) in faults.gets ==> r == Failed
      ensures MetadataKey(id) in store.objects && FaultListed(store.objects, ConversationDir(id), faults) ==>
        r == Failed
      ensures !faults.check && !faults.list && faults.gets == {} ==> r == Load(store.objects, id)
      ensures MetadataKey(id) !in store.objects && !faults.check ==> r == NotFound
      ensures ok <==> !r.Failed?
      ensures if r.Found? then conv != null && fresh(conv) && conv.Value() == r.c else conv == null
    {
      if faults.check {
        return false, null, Failed;
      }
      if MetadataKey(id) !in store.objects {
        return true, null, NotFound;
      }
      if MetadataKey(id) in faults.gets {
        return false, null, Failed;
      }
      var meta := AsMetadata(store.objects[MetadataKey(id)]);
      if CostKey(id) !in store.objects || CostKey(id) in faults.gets || faults.list {
        return false, null, Failed;
      }
      var cost := AsCost(store.objects[CostKey(id)]);
      var msgKeys := MessageKeys(ConversationDir(id));
      var read, messages := ReadAll(msgKeys, faults);
      if !read {
        ReadFails(store.objects, id, msgKeys, faults);
        return false, null, Failed;
      }
      r := Found(Content(meta.id, meta.sessionID, meta.createdAt, messages, cost));
      assert LoadsKeys(store.objects, id, msgKeys, r);
      LoadsUnique(store.objects, id, r, Load(store.objects, id));
      ok := true;
      conv := new Conversation(meta.id, meta.sessionID, meta.createdAt, messages, cost);
    }

    // The messages under the keys, up to the first that cannot be read.
    method ReadAll(keys: seq<string>, faults: Faults) returns (ok: bool, messages: seq<Message>)
      ensures ok <==> forall k :: k in keys ==> k in store.objects && k !in faults.gets
      ensures ok ==> messages == ReadMessages(store.objects, keys)
    {
      messages := [];
      for i := 0 to |keys|
        invariant forall k :: k in keys[..i] ==> k in store.objects && k !in faults.gets
        invariant messages == ReadMessages(store.objects, keys[..i])
      {
        if keys[i] !in store.objects || keys[i] in faults.gets {
          assert keys[i] in keys;
          return false, [];
        }
        messages := messages + [AsMessage(store.objects[keys[i]])];
      }
      assert keys[..|keys|] == keys;
      ok := true;
    }

    // The sorted keys of the message files of one conversation.
    method MessageKeys(dir: string) returns (msgKeys: seq<string>)
      ensures IsListing(store.objects, dir, msgKeys)
    {
      var keys := store.List(dir);
      msgKeys := [];
      for i := 0 to |keys|
        invariant msgKeys == FilterMessageKeys(dir, keys[..i])
      {
        assert keys[..i + 1][..i] == keys[..i];
        if IsMessageName(dir, keys[i]) {
          msgKeys := msgKeys + [keys[i]];
        }
      }
      assert keys[..|keys|] == keys;
      FilterKeepsNames(dir, keys);
      SortSorts(msgKeys);
      PermutationDistinct(SortStrings(msgKeys), msgKeys);
      msgKeys := SortStrings(msgKeys);
    }
  }
}
