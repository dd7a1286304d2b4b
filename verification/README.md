# Greyhound: a verified model of its stateful parts

A Dafny 4.11 model of the pieces of Greyhound that hold state or take text apart, with proofs of
what they keep. `dafny verify dfyconfig.toml` checks the whole project.

| part | files |
|---|---|
| JSON extraction from model output | `DelimiterScanner`, `JsonGrammar`, `JsonScanning`, `CodeFences`, `JsonExtraction` |
| Registry client cache with namespace overlay | `RegistryLog`, `RegistryClient`, `RegistryNotifications`, `RegistryHandlerSession`, `RegistryCoherence`, `RegistrySession` |
| Shard assignment over a replicated log | `Ordering`, `ShardAssignment`, `ShardReplica`, `ShardCluster`, `ShardRaces` |
| Conversation stores | `Conversations`, `ConversationKeys`, `ConversationRuns`, `ConversationRefinement`, `ConversationIsolation`, `ConversationSession` |
| Billing queue | `BillingQueue`, `BillingSession` |
| Token cache of the authentication middleware | `TokenCache` |

How the parts are modelled:

- An object whose methods update its fields is a class (`RegistryClient.Client`,
  `ShardReplica.Node`, `Conversations.S3Store`, `Conversations.MemoryStore`,
  `BillingQueue.Client`, `TokenCache.Middleware`). Each method is proved against functions on
  values or against its whole new state.
- The statements over runs are about the same functions, or the methods are shown to do what a
  run does: `ShardRaces.RebalanceIsRun` for the leader's rebalance and the methods of
  `BillingSession` for the billing client.
- The methods `ReadAfterSession`, `HandleAll`, `EachHandlerCalled`, `FirstAssignment`,
  `CatchUpFromSnapshot`, `CompareStores`, `RoundTrip`, `RunAndClose`, `BurstAndClose`,
  `ParseFencedReply` and `ServeAll` put the code to work and state what a caller sees in the end, in
  terms of their arguments.
- What goroutines, nodes or requests do concurrently is a state machine over atomic steps;
  `IsRun` is a finite run of it, and the main results hold in every state of every run.
- Walks over Go maps take the elements in an arbitrary order.
- The clock, generated identifiers, the answers of servers, of the token verifier and of a
  storage listing are parameters or unconstrained choices.

## What is assumed

- Registry: the client sees every event of the log in order; lookups without a format are
  answered from the namespace overlay at the log position they are read at. The source releases
  its lock between the read and the store of a lookup (configuration/client.go:155-169), and the
  model has these as two steps. A lookup is harmless when no event is delivered in between
  (`AtomicGetsInTime`); otherwise `StoredEntry` says exactly when the stored value is up to date,
  `WindowLeavesOldValue` is a run that leaves a wrong value in a client that has applied every
  event, and `RepairedIff` says exactly which later events put such an entry right.
- Cluster: Raft is a committed log that grows at the end, a list of distinct servers, and
  proposals that are committed in any order or lost. Each node has its own configured number of
  shards. A rebalance holds no lock (cluster/partitioned.go:406-453): it reads the number of shards
  in every turn of its loop and once more for the stamp, the node may apply log entries in between,
  and each of these reads is atomic. With unequal configurations it can thus deal one number of
  shards and stamp another; `RaceReachable` and `SeenAssignIsDealt` say exactly which, `UniqueOwner`
  when keys are left without an owner, `UnlockedReadIff` when an early read of the number is
  harmless, and `EqualConfigurationsIff` that equal configurations are the only ones with which
  nothing goes wrong in any run. Only rebalancing proposes commands in the namespace `_cluster`. The
  README of the repository speaks of consistent hashing; the code deals shards by modulus
  (cluster/partitioned.go:434), and so does the model.
- Conversations: every write and every read may fail; an operation stops at the first that does.
  A listing is a single request (storage/s3.go:162-169) without a size of its own, so it is answered
  with the first 1000 names in order, the limit of ListObjectsV2 of the S3 API; `PageHolds` and
  `ThousandMessages` say what follows. JSON encoding and decoding are inverse on the structures, and
  the identifier of a new conversation has no objects yet.
- Strings are sequences of Unicode characters. They are ordered by the first character in which
  they differ (`StringLeqMeaning`), which is Go's order of the UTF-8 bytes.

## Model

| member | source | states |
|---|---|---|
| DelimiterScanner.FindMatchingDelimiter | ai/agent/parse.go:93-130 | the loop over depth, inString and escaped returns the first position that closes, or -1, for every text, start and bracket pair |
| DelimiterScanner.ScannerExact | ai/agent/parse.go:92-130 | on an opener the answer is i exactly when i is the first position where the balance of unquoted brackets is zero, and -1 exactly when there is none |
| DelimiterScanner.AppendStable | ai/agent/parse.go:98-129 | a position that was found does not change when text is appended |
| JsonScanning.ValueNeutral | ai/agent/parse.go:101-127 | every JSON value of RFC 8259, with escapes, brackets inside strings and any white space, leaves the scanner outside of strings at the depth it was at, never below it |
| JsonGrammar.StringMember | ai/agent/parse.go:30-32 | an object with any characters in a string value, brackets and back-quotes included, is a JSON text of the grammar |
| JsonScanning.ScanFindsEnd | ai/agent/parse.go:86-90 | started on a JSON object (array) the scanner stops exactly on its last character, whatever surrounds it |
| CodeFences.StripCodeFences | ai/agent/parse.go:67-78 | the loop keeps exactly the lines that do not trim to a leading triple back-quote, joined again |
| CodeFences.FenceByStart | ai/agent/parse.go:71-74 | whether a line is a fence depends on its first non-space characters alone |
| CodeFences.FenceByCharacters | ai/agent/parse.go:71-74 | a line is a fence if and only if its first three characters after white space are back-quotes |
| CodeFences.StrippedByLine | ai/agent/parse.go:67-78 | the stripper line by line: a fence line goes with its line feed, any other line stays |
| CodeFences.TrimMeaning | ai/agent/parse.go:71 | trimming drops white space at both ends, and all of it |
| CodeFences.WhiteSpace | ai/agent/parse.go:71 | which characters are white space |
| CodeFences.JoinSplit | ai/agent/parse.go:68-77 | joining the lines of a text gives the text back |
| CodeFences.SplitConcat | ai/agent/parse.go:68 | the lines of a concatenation are the lines of the parts with the two that meet made one |
| JsonExtraction.ParseJSON | ai/agent/parse.go:16-36 | the value that Unmarshal makes of what is extracted, or an error if it makes none; "no object" exactly when the stripped reply has no opening brace, "no match" exactly when the balance from the first one never returns to zero |
| JsonExtraction.ParseJSONArray | ai/agent/parse.go:39-59 | the same for square brackets |
| JsonExtraction.ParseFencedReply | ai/agent/parse.go:16-36 | for a JSON object after prose and a fence line the caller gets the value if Unmarshal gives one, and an error exactly if it does not |
| JsonExtraction.ParseObjectReply | ai/agent/parse.go:16-36 | the same for an object anywhere in a reply, under the conditions of the round trip |
| JsonExtraction.ParseArrayReply | ai/agent/parse.go:39-59 | the same for an array |
| JsonExtraction.TameLinesStartNoFence | ai/agent/parse.go:70-74 | no line of a JSON text begins a fence: line feeds are outside of strings and back-quotes inside |
| JsonExtraction.StrippedAroundJson | ai/agent/parse.go:67-78 | fence stripping leaves a JSON text in a reply untouched, unless the line it starts on has begun as a fence |
| JsonExtraction.ExtractsEmbedded | ai/agent/parse.go:16-59 | in any reply prefix, JSON, suffix exactly the JSON is cut out when what is kept of the prefix has no opening bracket and the JSON does not start on a fence line |
| JsonExtraction.ExtractionExact | ai/agent/parse.go:16-59 | when what is kept of the prefix holds no opening bracket, the JSON is recovered for every suffix if and only if the line it starts on has not begun as a fence |
| JsonExtraction.ExtractsFromFence | ai/agent/parse.go:66-78 | prose, a fence line with any info string, JSON, and anything after it give the JSON, when prose and info string hold no opening bracket |
| JsonExtraction.ExtractsFromLeadingFence | ai/agent/parse.go:66-78 | the same for a reply that begins with the fence line |
| JsonExtraction.ExtractMeaning | ai/agent/parse.go:20-32 | what each of the three outcomes says about the stripped text |
| RegistryClient.KeyMatches | configuration/client.go:457-470 | a cache key matches an event for its key, or for its key with its format as extension |
| RegistryClient.Client.Get | configuration/client.go:139-175 | a hit changes nothing, a failed fetch changes nothing, a miss stores the answer with its namespace and subscribes |
| RegistryClient.Client.HandleChange | configuration/client.go:372-444 | the new cache, and every handler call in order, for a walk over the cache in some order |
| RegistryClient.Client.UpdateEntries | configuration/client.go:381-418 | the walk over the cache updates each entry once and collects its notification |
| RegistryClient.Client.ChangeEntry | configuration/client.go:383-417 | what one turn of the walk does to the cache and reports, branch by branch |
| RegistryClient.LeavesCacheIff | configuration/client.go:363-409 | an entry leaves the cache on an event if and only if it is a delete for it from the namespace the entry came from |
| RegistryClient.StaysInCache | configuration/client.go:387-402 | which events change the value and source of an entry that stays, and that nothing else of it changes |
| RegistryClient.Client.NotifyHandlers | configuration/client.go:422-443 | handlers run for each notification, and for the event's key when none was for it |
| RegistryClient.FireEach | configuration/client.go:446-454 | each handler of the key is called once, in order, with key, old and new value |
| RegistryClient.Client.OnChange | configuration/client.go:224-232 | the handler is appended to those of its key, which is subscribed |
| RegistryNotifications.WalkOrderIrrelevant | configuration/client.go:382-418 | the notifications of an event are the same whatever the order of the map walk |
| RegistryNotifications.SetNotesExact | configuration/client.go:389-417 | a set event reports each change of a cached value exactly once, with its exact old and new value, and nothing else |
| RegistryNotifications.DeleteNotesExact | configuration/client.go:403-417 | a delete event reports every matching entry exactly once |
| RegistryNotifications.SetNotesChain | configuration/client.go:387-417 | the set notifications of an entry that stays cached chain from its first to its last value |
| RegistryHandlerSession.HandleAll | configuration/client.go:139-175 | for the client class: a session of events and lookups makes the handler calls of its walks, one event after the other |
| RegistryHandlerSession.EachHandlerCalled | configuration/client.go:224-232 | for the client class: of handlers registered on a key each is called exactly once by a set event, in the order of registration, with the cached value, or the empty one, and the new value |
| RegistryHandlerSession.SessionTells | configuration/client.go:372-454 | in any session of events and lookups the handlers of any key are called, event by event, with each report of a cached entry of the key once, and with an empty old value only when no entry reports |
| RegistryHandlerSession.SessionCallsOnKey | configuration/client.go:372-454 | the handlers of a key with one entry, which may be invalidated and fetched again, are called with exactly the reports on it, in order, whatever the walks |
| RegistryNotifications.SessionChainsIff | configuration/client.go:411-443 | over set events the reports on an entry chain from its first value to its last if and only if every event for the key changes the value; one that does not is passed on with an empty old value |
| RegistryHandlerSession.SessionCallsChainIff | configuration/client.go:372-454 | the same of the handler calls of a session with lookups in between |
| RegistryHandlerSession.RepeatedValueSession | configuration/client.go:411-443 | a session in which a value is set twice: the second call starts from the empty value, so the calls do not chain |
| RegistryNotifications.HandlersOfEventRun | configuration/client.go:422-454 | every handler on the event's key is called with the same note on it, one after the other |
| RegistryNotifications.UncachedKeyNotifiedOnce | configuration/client.go:427-443 | of a key that is not cached each handler is called exactly once, in order, with an empty old value and the value of the event |
| RegistryLog.ResolvedStaysIff | configuration/client.go:84-85 | from the events after a read one can tell exactly whether "namespace first, then global" still gives the same |
| RegistryLog.LastTouchDecides | configuration/client.go:84-85 | a setting holds what the last event that sets or deletes it leaves |
| RegistryCoherence.ReplayConverges | configuration/client.go:382-409 | an entry read after events it has not seen, run through them late, is invalidated or is the overlay after them |
| RegistryCoherence.StoredEntry | configuration/client.go:155-169 | what a fetched answer is worth when it is stored: replay settles it, or it is up to date if and only if the events in between left its setting alone |
| RegistryCoherence.StepKeepsInv | configuration/client.go:139-175 | every step of server and client keeps the coherence invariant, also when lookups of one key overlap |
| RegistryCoherence.RepairedIff | configuration/client.go:363-409 | an entry that does not agree with the server, and survives the events, agrees after them if and only if they set it in the own namespace, or give it the global value with nothing of the own namespace in front |
| RegistryCoherence.CacheCoherent | configuration/client.go:372-418 | in every state of every run a caught-up entry holds the overlay's value and source at the applied position if and only if it was stored in time or has been repaired since |
| RegistryCoherence.HitIsFresh | configuration/client.go:147-152 | with all events delivered a cache hit is exactly what a fetch would answer, and for an entry stored late and not repaired it never is |
| RegistryCoherence.AtomicGetsInTime | configuration/client.go:155-169 | when no event comes between read and store, no entry is ever stored outdated |
| RegistryCoherence.WindowLeavesOldValue | configuration/client.go:155-169 | a run in which the open window leaves a wrong value in a caught-up client |
| RegistrySession.ReadAfterSession | configuration/client.go:139-175 | for the client class: after any session of changes, deliveries and reads, once all events are delivered Get gives the setting of the own namespace, or else the global one, or none |
| Ordering.StringLeqMeaning | cluster/partitioned.go:425 | a string comes before another when it is a prefix of it or less in the first character in which they differ |
| ShardAssignment.MembersOrderPreservingBijection | cluster/partitioned.go:421-430 | the member map numbers exactly the servers 0 to N-1 in the order of their names, the first differing character deciding |
| ShardAssignment.DealtByNumber | cluster/partitioned.go:432-442 | shard s is dealt to the member numbered s mod N, exactly up to the number dealt, and the number stamped is the one given |
| ShardAssignment.OrderOfServersIrrelevant | cluster/partitioned.go:416-436 | two orderings of the same servers give the same assignment |
| ShardAssignment.ShardsAreLadder | cluster/partitioned.go:432-436 | member i of N has exactly the shards i, i+N, i+2N, ... below S, S/N of them and one more when i < S mod N |
| ShardAssignment.LoadsBalanced | cluster/partitioned.go:30-32 | loads differ by at most one, and no member goes without while N <= S |
| ShardAssignment.LoadsAddUp | cluster/partitioned.go:432-436 | the loads of all members add up to the number of shards |
| ShardAssignment.OneOwner | cluster/partitioned.go:189-200 | every key has exactly one owner, a member, and its shard is among the shards of that member and of no other |
| ShardAssignment.ShardsCover | cluster/partitioned.go:167-179 | the shards of the members are disjoint and together 0 to S-1 |
| ShardAssignment.AllOwnedIff | cluster/partitioned.go:432-442 | with d shards dealt and u stamped every key is owned by a member if and only if u is at most d, and the hash d decides it |
| ShardAssignment.EarlyReadIff | cluster/partitioned.go:182-200 | with t shards read early, d dealt and u stamped for N named members, every key gets the owner an atomic lookup gives if and only if t = u, or d = 0, or t and u are at most d and multiples of N; the hashes t, u and d alone decide it |
| ShardAssignment.EarlyReadExamples | cluster/partitioned.go:182-200 | for two members, harmful and harmless numbers read, dealt and stamped |
| ShardReplica.Node.constructor | cluster/partitioned.go:70-78 | a new node has empty maps and the configured number of shards, 64 by default |
| ShardReplica.Node.Rebalance | cluster/partitioned.go:406-453 | the leader's loops, with what the node applies before each of their reads of the number of shards: the assignment proposed and the whole new state; nothing is proposed without leadership or servers |
| ShardReplica.UndisturbedRebalance | cluster/partitioned.go:432-442 | when no assign is applied meanwhile, exactly the number of shards of the node is dealt and stamped |
| ShardReplica.Node.Apply | cluster/partitioned.go:489-508 | which entries change the assignment, reach a handler or are errors, and the whole new state |
| ShardReplica.Node.Install | cluster/partitioned.go:518-525 | the entry-by-entry copy installs exactly the given assignment |
| ShardReplica.Node.Snapshot | cluster/partitioned.go:533-547 | a snapshot holds the member map, the shard map and the number of shards |
| ShardReplica.Node.Restore | cluster/partitioned.go:549-567 | a snapshot that decodes replaces the state, another changes nothing |
| ShardReplica.Node.ShardsFor | cluster/partitioned.go:167-179 | the shards of a member, each once, strictly ascending |
| ShardReplica.Node.OwnsKey | cluster/partitioned.go:182-187 | true exactly when the node is the owner of the key's shard |
| ShardReplica.Node.OwnerOfKey | cluster/partitioned.go:195-200 | the owner of the key's shard, or the empty name |
| ShardReplica.Node.ShardForKey | cluster/partitioned.go:189-192 | the remainder of the hash, whose owner is the owner of the key |
| ShardReplica.FnvStep | cluster/partitioned.go:240-244 | one step of FNV-1a multiplies by the 64-bit prime, modulo 2^64 |
| ShardReplica.MixedBits | cluster/partitioned.go:240-244 | before that the byte is exclusive-ored into the low eight bits, bit by bit |
| ShardReplica.FnvConcat | cluster/partitioned.go:240-244 | a key is hashed byte by byte, from the 64-bit offset basis on |
| ShardReplica.HashOfHello | cluster/partitioned.go:240-244 | the FNV-1a hash of "Hello" |
| ShardCluster.SnapshotEquivalence | cluster/partitioned.go:533-567 | restoring a snapshot into any replica and applying the rest of the log gives the state of applying it all |
| ShardCluster.StateIsLastAssign | cluster/partitioned.go:510-531 | once the log holds an assign the state is the last one, whatever it was before |
| ShardCluster.StepKeepsInv | cluster/partitioned.go:356-453 | join, leave, every read of a rebalance, propose, lose, commit, apply, snapshot, install and restart keep every replica at the state of its log prefix and every assignment within what can be dealt |
| ShardCluster.TotalIsConstant | cluster/partitioned.go:75-78 | the number of shards is positive and one that some node is configured with, in every replica of every reachable state, and the configured one when all are equal |
| ShardCluster.UnlockedReadHarmless | cluster/partitioned.go:182-200 | with equal configurations the number of shards read before the lock picks the owner that an atomic lookup picks |
| ShardCluster.SeenAssignIsDealt | cluster/partitioned.go:406-453 | whatever the configurations, what a replica holds was dealt to distinct servers, in a number between two configured ones, and stamped with a configured one |
| ShardCluster.EqualTotalsDealAll | cluster/partitioned.go:406-453 | with equal configurations it is the assignment of the configured number, all of it dealt |
| ShardCluster.UnlockedReadIff | cluster/partitioned.go:182-200 | with any configurations, in any run, the early read is harmless for every key if and only if the two numbers are equal, or both are at most the number of shards held and multiples of the number of members |
| ShardRaces.RebalanceIsRun | cluster/partitioned.go:406-453 | whatever is applied while it is at work, what the rebalance of the node class computes is a run of the cluster |
| ShardRaces.RaceReachable | cluster/partitioned.go:432-442 | for any configurations, every number dealt between two configured ones and every configured stamp is reached, at a node that read its own number before |
| ShardRaces.EqualConfigurationsIff | cluster/partitioned.go:182-200 | in every run every key is owned by a member, if and only if all nodes are configured with the same number of shards; and the same holds of the early read being harmless |
| ShardCluster.UniqueOwner | cluster/partitioned.go:181-200 | in every reachable state, whatever the configurations, a replica that has seen an assign knows at most one member that owns a key, and one for every key if and only if it holds no fewer shards than it goes by, as it does with equal configurations |
| ShardCluster.NeverBothOwn | cluster/partitioned.go:182-187 | two replicas that reflect the same last assign agree and never both own a key |
| ShardCluster.FirstAssignment | cluster/partitioned.go:406-453 | for the node class: what a leader deals and applies, and the owner of a key by its hash, in terms of the server names alone |
| ShardCluster.CatchUpFromSnapshot | cluster/partitioned.go:489-567 | for two node classes: a node with any past that restores a snapshot and applies the rest of the log names the same owner of every key |
| Conversations.MemoryStore.AddMessage | ai/conversations/memory.go:45-51 | the message is appended and the total cost taken from it |
| Conversations.MemoryStore.Create | ai/conversations/memory.go:19-27 | a fresh empty conversation is registered under its identifier |
| Conversations.MemoryStore.Get | ai/conversations/memory.go:30-34 | the registered handle itself, or none |
| Conversations.MemoryStore.Save | ai/conversations/memory.go:37-42 | the handle is registered under its identifier |
| Conversations.Storage.List | storage/s3.go:153-184 | the direct children under a prefix, directories and then files, each once, the first 1000 of them in order |
| Conversations.S3Store.Create | ai/conversations/s3.go:54-76 | a fresh conversation with its metadata and cost files; when a write fails none is returned, and what was written before stays |
| Conversations.S3Store.Get | ai/conversations/s3.go:79-133 | not found, failed, or a fresh conversation with the messages read in the order of the sorted keys; it fails when one of the requests it makes does |
| Conversations.S3Store.MessageKeys | ai/conversations/s3.go:101-115 | the listing without metadata and cost files, sorted |
| Conversations.S3Store.Save | ai/conversations/s3.go:137-154 | metadata and cost files are rewritten from the handle, up to the first write that fails |
| Conversations.S3Store.AddMessage | ai/conversations/s3.go:157-174 | message file, handle and cost file are updated in this order; a failed message write changes nothing, a failed cost write leaves message and handle changed |
| Conversations.LoadsUnique | ai/conversations/s3.go:100-133 | what Get returns is determined by the stored objects, not by the order of the listing |
| ConversationKeys.KeyLayout | ai/conversations/s3.go:29-39 | the keys of the metadata, cost and message files |
| ConversationKeys.UpToSlashMeaning | storage/s3.go:159-184 | a listing shows a name up to and including its first slash |
| ConversationKeys.MessageKeyInjective | ai/conversations/s3.go:29-39 | different timestamps have different keys, and only "metadata" and "cost" collide with the other files |
| ConversationRuns.RunTracked | ai/conversations/s3.go:54-174 | after any operations, with failing writes and reloaded handles, the handle, the metadata and cost files and the set of files are what can be told from the operations alone |
| ConversationRefinement.LoadedAfterRun | ai/conversations/s3.go:54-174 | for any plain timestamps Get returns one message per distinct timestamp within the listed page, the last written, in key order, with the session and the cost last written |
| ConversationRefinement.LoadedInOrder | ai/conversations/s3.go:100-124 | the messages come back in the order of the characters of their file names, whatever the order they were added in |
| ConversationRefinement.RefinesMemoryIff | ai/conversations/s3.go:54-174 | for any timestamps, failing writes and reloads S3Store returns the messages of MemoryStore in the same order if and only if all timestamps are plain, the file names increase and all are within the listed page; cost and session are those last written, and the cost is MemoryStore's when no failed write came after |
| ConversationRefinement.HandleRefinesMemoryIff | ai/conversations/s3.go:79-133 | the caller's own handle shows MemoryStore's messages if and only if its last reload found them all in order |
| ConversationRefinement.PageHolds | ai/conversations/s3.go:100-115 | where file names come before that of the cost file, all messages are within the page if and only if there are at most 1000 |
| ConversationRefinement.PageBounds | ai/conversations/s3.go:100-115 | whatever the plain timestamps, 998 messages are within the page and more than 1000 are not |
| ConversationRefinement.ThousandMessages | ai/conversations/s3.go:54-174 | with increasing timestamps of one length that start with a digit the conversation comes back whole if and only if it has at most 1000 messages |
| ConversationRefinement.ListedIsPlain | ai/conversations/s3.go:106-124 | a file that is listed and can be read holds a message whose timestamp has no slash and is not "metadata" or "cost" |
| ConversationRefinement.EqualLengthsIncrease | ai/conversations/s3.go:115 | timestamps of one length that increase where they first differ have increasing file names |
| ConversationRefinement.UnequalLengthsReorder | ai/conversations/s3.go:159 | the suffix can put timestamps of different lengths in the other order |
| ConversationIsolation.OthersNeverChangeGet | ai/conversations/s3.go:29-39 | after any interleaving of calls on many conversations, failing or not, on first or reloaded handles, Get returns and the handle holds what this conversation's calls alone would give, and Get fails for one of which only the metadata was written |
| ConversationRuns.UnreadableIffSlash | ai/conversations/s3.go:100-124 | Get fails for a conversation if and only if a directory is within the listed page; of at most 998 timestamps, if and only if one with a slash was written, unless a handle was reloaded after a message under "metadata" |
| ConversationRuns.StrayingLosesMessages | ai/conversations/s3.go:126-159 | a handle reloaded after a message under "metadata" has an empty identifier, and what is added to it leaves no trace in the conversation |
| ConversationSession.CompareStores | ai/conversations/conversation.go:44-49 | for the two store classes: when the conversation loads, when the same messages come back, when the costs are the same, and when the two handles show the same messages |
| ConversationSession.RoundTrip | ai/conversations/s3.go:54-174 | for the store class: messages with timestamps of one length that begin with a digit, hold no slash and increase come back in the same order if and only if there are at most 1000, with the last total cost |
| BillingQueue.Client.Record | billing/client.go:69-87 | the event is queued with an empty service key or source replaced by the service, or dropped when 256 events wait |
| BillingQueue.Client.Close | billing/client.go:91-106 | undisturbed, the drain hands over exactly the queue, in order |
| BillingQueue.Client.WorkerTurn | billing/client.go:109-118 | one turn of the worker's select |
| BillingQueue.StepKeepsInv | billing/client.go:69-118 | every interleaved step keeps each dequeued event in exactly one place |
| BillingQueue.QueueConserves | billing/client.go:69-118 | accepted events are the dequeued ones followed by the queue, at most 256 wait, and none is handed over twice or out of its goroutine's order |
| BillingQueue.CloseDelivers | billing/client.go:89-106 | when Close has returned, each event accepted before it closed done has been handed over, unless it is in the worker's hand |
| BillingQueue.CloseLeavesNothing | billing/client.go:97-105 | with nothing recorded after Close began, the queue is empty and at most one event is not handed over |
| BillingQueue.CloserNeverStuck | billing/client.go:97-105 | until Close returns it can always take a step of its own |
| BillingQueue.CloseTerminates | billing/client.go:89-118 | with nothing recorded after Close began, worker and Close take at most 774 further steps, so Close returns |
| BillingSession.Turn | billing/client.go:109-118 | for the client class: a turn of the worker is a run of take, post and return, or of exit |
| BillingSession.CloseClient | billing/client.go:91-106 | for the client class: Close is a run of the closer, up to its return |
| BillingSession.RunAndClose | billing/client.go:69-118 | for the client class: after any use and Close, exactly the events that found room have been posted, with their defaults, each once and in order, and its life is a run |
| BillingSession.BurstAndClose | billing/client.go:69-106 | for the client class: of a burst of events exactly the first 256 are posted, in order, field by field |
| TokenCache.Middleware.Sweep | security/security.go:61-70 | a tick removes exactly the expired entries |
| TokenCache.Middleware.ServeHTTP | security/security.go:90-117 | the response and the new cache for each header, lookup and verdict |
| TokenCache.SweepsInvisible | security/security.go:57-71 | no lookup can tell whether the cache was ever swept |
| TokenCache.CacheHitsAreRecent | security/security.go:73-104 | claims served from the cache were returned by the verifier for exactly that token and stored less than one time to live before |
| TokenCache.CacheIsTransparent | security/security.go:90-117 | against a verifier that always answers the same, every response is what it answers for the token of the header, and a rejection without one |
| TokenCache.BearerIsAnswered | security/security.go:90-117 | for a header "Bearer t" the request is served with claims c if and only if the verifier gives c for t, and rejected if and only if it rejects t |
| TokenCache.LiveEntriesAreServed | security/security.go:73-104 | a live entry is served without asking the verifier, any other token is verified |
| TokenCache.StoredForOneTTL | security/security.go:83-87 | verified claims are stored for one time to live, five minutes if none is configured |
| TokenCache.ServeAll | security/security.go:49-119 | for the middleware class: in any sequence of requests and sweeps each request gets what the verifier answers for its token |
| TokenCache.EntriesDieInTime | security/security.go:57-71 | with sweeps on schedule no entry is older than twice the time to live |

## Left out

- Raft, gossip, discovery and transports (cluster/cluster.go), and state behind OnApply handlers, which snapshots do not hold.
- Minimal movement of shards, ownership across different log positions, membership events without a leader: the code does not provide them.
- RegistryCoherence.CacheCoherent: says nothing about entries with a format, because handleChange writes the raw event value into them.
- RegistryClient.Client.Get: handlers that are registered or call back into the client while they run are not modelled, nor are reconnects, lost events and subscription messages.
- RegistryClient.CachedEntry: a value in the map rather than a shared pointer, so a reader that still holds an entry after the lock is released is not captured.
- json.Unmarshal itself, for ParseJSON and ParseJSONArray: which texts it accepts for a type.
- ShardReplica.Node.Restore: the payload is the structured value; partial JSON objects are assignments with zero fields, the bytes themselves are not modelled.
- ConversationRefinement.RefinesMemoryIff: the file backend is not modelled; the creation time, which the memory store leaves empty, is not compared, and the session is the one last saved.
- Conversations.Storage.List: the store's own prefix, which is put in front of every key and trimmed again, is not modelled; that a listing can fail is part of S3Store.Get.
- Conversations.Message: costs are real numbers that are only copied; floating-point rounding does not arise.
- BillingQueue.QueueConserves: a second Close, which would panic, calls on a nil client, and HTTP delivery inside post.
- TokenCache.Middleware.constructor: a negative time to live, for which the ticker panics.
- GetOrDefault, Resolve and the environment variable names, ParseFiles, encryption, signing, e-mail, the command line, the MCP server and the Claude process: each is settled by a single branch or belongs to a foreign library.
