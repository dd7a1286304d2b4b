// One node of the partitioned cluster (cluster/partitioned.go): the leader's rebalance, the
// replicated state machine (Apply, Snapshot, Restore) and the lookups by shard and key.
module ShardReplica {
  import opened Ordering
  import opened ShardAssignment

  // --- 64-bit FNV-1a ---

  const FNV_OFFSET: bv64 := 0xcbf29ce484222325

  function Mixed(h: bv64, b: bv8): bv64 {
    h ^ b as bv64
  }

  function FnvByte(h: bv64, b: bv8): bv64 {
    Mixed(h, b) * 0x100000001b3
  }

  function Fnv(h: bv64, data: seq<bv8>): bv64
    decreases |data|
  {
    if data == [] then h else Fnv(FnvByte(h, data[0]), data[1..])
  }

  // Hash of a key, given as its bytes.
  function Hash(key: seq<bv8>): nat {
    Fnv(FNV_OFFSET, key) as nat
  }

  lemma HashIsUint64(key: seq<bv8>)
    ensures Hash(key) < 0x1_0000_0000_0000_0000
  {
  }

  // One step of FNV-1a: the mixed value is multiplied by the 64-bit prime 2^40 + 0x1b3, modulo 2^64.
  lemma FnvStep(h: bv64, b: bv8)
    ensures FnvByte(h, b) == Mixed(h, b) * 0x100000001b3
  {
  }

  // The byte is exclusive-ored into the low eight bits, bit by bit.
  lemma MixedBits(h: bv64, b: bv8, bit: bv8)
    requires bit == 1 || bit == 2 || bit == 4 || bit == 8 || bit == 16 || bit == 32 || bit == 64 || bit == 128
    ensures Mixed(h, b) >> 8 == h >> 8
    ensures (Mixed(h, b) & bit as bv64 != 0) <==> ((h & bit as bv64 != 0) != (b & bit != 0))
  {
  }

  // A key is hashed byte by byte from the 64-bit offset basis on.
  lemma {:induction false} FnvConcat(h: bv64, a: seq<bv8>, b: seq<bv8>)
    ensures Fnv(h, []) == h && Fnv(h, a + b) == Fnv(Fnv(h, a), b)
    ensures Hash(a) == Fnv(0xcbf29ce484222325, a) as nat
    decreases |a|
  {
    if a == [] {
      assert a + b == b;
    } else {
      assert (a + b)[1..] == a[1..] + b;
      FnvConcat(FnvByte(h, a[0]), a[1..], b);
    }
  }

  // Known values of FNV-1a: the hashes of "a" and "Hello".
  lemma HashOfA()
    ensures Fnv(0xcbf29ce484222325, [97]) == 0xaf63dc4c8601ec8c
  {
    FnvFirst(0xcbf29ce484222325, 97, []);
  }

  lemma HashOfHello()
    ensures Fnv(0xcbf29ce484222325, [72, 101, 108, 108, 111]) == 0x63f0bfacf2c00f6b
  {
    FnvFirst(0xcbf29ce484222325, 72, [101, 108, 108, 111]);
    FnvFirst(0xaf64054c86023237, 101, [108, 108, 111]);
    FnvFirst(0x9275307b5bb8156, 108, [108, 111]);
    FnvFirst(0x49535019cd9c958e, 108, [111]);
    FnvFirst(0x3526fdd86112af06, 111, []);
  }

  lemma FnvFirst(h: bv64, b: bv8, rest: seq<bv8>)
    ensures Fnv(h, [b] + rest) == Fnv(FnvByte(h, b), rest)
  {
    assert ([b] + rest)[1..] == rest;
  }

  // --- The replicated log ---

  datatype Payload = AssignPayload(a: Assignment) | OtherPayload(data: seq<bv8>)

  // A committed log entry: undecodable, or a command.
  datatype LogEntry = Undecodable | Command(ns: string, op: string, payload: Payload)

  datatype ApplyResult = Applied | DecodeError | UnknownNamespace | UnknownOp | Handled

  function AssignCommand(a: Assignment): LogEntry {
    Command("_cluster", "assign", AssignPayload(a))
  }

  predicate IsAssign(entry: LogEntry) {
    entry.Command? && entry.ns == "_cluster" && entry.op == "assign" && entry.payload.AssignPayload?
  }

  // What applying an entry does to the assignment a replica holds.
  function ApplyEntry(state: Assignment, entry: LogEntry): Assignment {
    if IsAssign(entry) then entry.payload.a else state
  }

  function ApplyLog(state: Assignment, log: seq<LogEntry>): Assignment {
    if log == [] then state
    else ApplyEntry(ApplyLog(state, log[..|log| - 1]), log[|log| - 1])
  }

  // What a snapshot stores, and what restoring it makes of a replica.
  function SnapshotOf(state: Assignment): Assignment {
    Assignment(state.members, state.shards, state.total)
  }

  function Restored(prior: Assignment, snapshot: Assignment): Assignment {
    prior.(members := snapshot.members, shards := snapshot.shards, total := snapshot.total)
  }

  // What of a node the state machine changes: the assignment, the commands handed to the handlers
  // of other namespaces, and how often the change handlers were started.
  datatype Fsm = Fsm(state: Assignment, handled: seq<LogEntry>, notified: nat)

  function AfterEntry(fsm: Fsm, handlers: set<string>, entry: LogEntry): Fsm {
    Fsm(ApplyEntry(fsm.state, entry),
        fsm.handled + if entry.Command? && entry.ns != "_cluster" && entry.ns in handlers then [entry] else [],
        fsm.notified + if IsAssign(entry) then 1 else 0)
  }

  function AfterLog(fsm: Fsm, handlers: set<string>, log: seq<LogEntry>): (after: Fsm)
    ensures after.state == ApplyLog(fsm.state, log)
  {
    if log == [] then fsm
    else AfterEntry(AfterLog(fsm, handlers, log[..|log| - 1]), handlers, log[|log| - 1])
  }

  lemma {:induction false} AfterConcat(fsm: Fsm, handlers: set<string>, a: seq<LogEntry>, b: seq<LogEntry>)
    ensures AfterLog(fsm, handlers, a + b) == AfterLog(AfterLog(fsm, handlers, a), handlers, b)
  {
    if b == [] {
      assert a + b == a;
    } else {
      assert (a + b)[..|a + b| - 1] == a + b[..|b| - 1];
      AfterConcat(fsm, handlers, a, b[..|b| - 1]);
    }
  }

  lemma ApplyLogConcat(state: Assignment, a: seq<LogEntry>, b: seq<LogEntry>)
    ensures ApplyLog(state, a + b) == ApplyLog(ApplyLog(state, a), b)
  {
    AfterConcat(Fsm(state, [], 0), {}, a, b);
  }

  // --- Rebalancing ---

  // A rebalance under way: the servers it goes by, how many shards it has dealt, and whether it
  // has left the loop.
  datatype Dealing = Dealing(servers: seq<string>, dealt: nat, done: bool)

  // One evaluation of the loop's guard, which reads the node's number of shards anew, and the
  // turn of the loop after it.
  function ReadGuard(d: Dealing, total: nat): Dealing {
    if !d.done && d.dealt < total then d.(dealt := d.dealt + 1) else d.(done := true)
  }

  // The command proposed in the end, stamped with the number of shards read then.
  function ProposalOf(d: Dealing, total: nat): LogEntry
    requires d.servers != []
  {
    AssignCommand(Stamped(d.servers, d.dealt, total))
  }

  function FirstBatch(arriving: seq<seq<LogEntry>>): seq<LogEntry> {
    if arriving == [] then [] else arriving[0]
  }

  function LaterBatches(arriving: seq<seq<LogEntry>>): seq<seq<LogEntry>> {
    if arriving == [] then [] else arriving[1..]
  }

  // The loop of a rebalance from a guard on, on a node with the given state, after the entries in
  // applied: how it ends and all that was applied by then.
  function DealOn(state: Assignment, d: Dealing, arriving: seq<seq<LogEntry>>, applied: seq<LogEntry>)
    : (r: (Dealing, seq<LogEntry>))
    ensures r.0.servers == d.servers && r.0.done && applied <= r.1
    decreases |arriving|, if d.dealt < state.total then state.total - d.dealt else 0
  {
    var d' := ReadGuard(d, state.total);
    var now := FirstBatch(arriving);
    if d'.done then (d', applied + now)
    else DealOn(ApplyLog(state, now), d', LaterBatches(arriving), applied + now)
  }

  // A whole rebalance, while the log entries arriving[k] are applied before the k-th read of the
  // number of shards.
  function Interleaved(state: Assignment, servers: seq<string>, arriving: seq<seq<LogEntry>>)
    : (r: (Dealing, seq<LogEntry>))
    ensures r.0.servers == servers && r.0.done && FirstBatch(arriving) <= r.1
  {
    var now := FirstBatch(arriving);
    DealOn(ApplyLog(state, now), Dealing(servers, 0, false), LaterBatches(arriving), now)
  }

  // A loop during which nothing arrives.
  lemma {:induction false} DealsUndisturbed(state: Assignment, d: Dealing)
    requires !d.done && d.dealt <= state.total
    ensures DealOn(state, d, [], []) == (Dealing(d.servers, state.total, true), [])
    decreases state.total - d.dealt
  {
    assert [] + FirstBatch([]) == [];
    if d.dealt < state.total {
      DealsUndisturbed(state, ReadGuard(d, state.total));
    }
  }

  // While no assign is applied, exactly the node's number of shards is dealt and stamped.
  lemma {:induction false} UndisturbedLoop(start: Assignment, d: Dealing, arriving: seq<seq<LogEntry>>,
                                           applied: seq<LogEntry>)
    requires !d.done && d.dealt <= start.total && ApplyLog(start, applied) == start
    requires forall k, e :: 0 <= k < |arriving| && e in arriving[k] ==> !IsAssign(e)
    ensures DealOn(start, d, arriving, applied).0 == Dealing(d.servers, start.total, true)
    ensures ApplyLog(start, DealOn(start, d, arriving, applied).1) == start
    decreases |arriving|, start.total - d.dealt
  {
    var now, later := FirstBatch(arriving), LaterBatches(arriving);
    NoAssign(start, now);
    ApplyLogConcat(start, applied, now);
    if d.dealt < start.total {
      assert forall k :: 0 <= k < |later| ==> later[k] == arriving[k + 1];
      UndisturbedLoop(start, ReadGuard(d, start.total), later, applied + now);
    }
  }

  lemma UndisturbedRebalance(state: Assignment, servers: seq<string>, arriving: seq<seq<LogEntry>>)
    requires servers != []
    requires forall k, e :: 0 <= k < |arriving| && e in arriving[k] ==> !IsAssign(e)
    ensures var (d, applied) := Interleaved(state, servers, arriving);
      ProposalOf(d, ApplyLog(state, applied).total) == AssignCommand(AssignmentFor(servers, state.total))
  {
    var now, later := FirstBatch(arriving), LaterBatches(arriving);
    NoAssign(state, now);
    assert forall k :: 0 <= k < |later| ==> later[k] == arriving[k + 1];
    UndisturbedLoop(state, Dealing(servers, 0, false), later, now);
  }

  lemma {:induction false} NoAssign(state: Assignment, log: seq<LogEntry>)
    requires forall e :: e in log ==> !IsAssign(e)
    ensures ApplyLog(state, log) == state
  {
    if log != [] {
      assert log[|log| - 1] in log;
      NoAssign(state, log[..|log| - 1]);
    }
  }

  // --- The node ---

  // TotalShards of the configuration; 0 stands for the default.
  function ConfiguredTotal(configured: nat): (total: nat)
    ensures configured == 0 ==> total == 64
    ensures configured > 0 ==> total == configured
  {
    if configured == 0 then 64 else configured
  }

  function InitialState(total: nat): Assignment {
    Assignment(map[], map[], total)
  }

  class Node {
    const name: string
    var memberMap: map<string, nat>
    var shardMap: map<nat, string>
    var totalShards: nat
    var applyHandlers: set<string>
    // the commands handed to the handlers of other namespaces, and the number of times the
    // change handlers were started
    var handled: seq<LogEntry>
    var notified: nat

    ghost function State(): Assignment
      reads this
    {
      Assignment(memberMap, shardMap, totalShards)
    }

    ghost function FsmState(): Fsm
      reads this
    {
      Fsm(State(), handled, notified)
    }

    constructor (name: string, configuredTotal: nat)
      ensures this.name == name && State() == InitialState(ConfiguredTotal(configuredTotal))
      ensures memberMap == map[] && shardMap == map[]
      ensures totalShards == if configuredTotal == 0 then 64 else configuredTotal
      ensures applyHandlers == {} && handled == [] && notified == 0
    {
      this.name := name;
      memberMap := map[];
      shardMap := map[];
      totalShards := configuredTotal;
      applyHandlers, handled, notified := {}, [], 0;
      new;
      if totalShards == 0 {
        totalShards := 64;
      }
    }

    // The command the leader proposes for the servers of the current configuration, if any. No
    // lock is held: arriving[k] is what the goroutine of Raft applies before the k-th read of
    // totalShards, and applied is all of it that was applied in the end.
    method Rebalance(isLeader: bool, servers: seq<string>, arriving: seq<seq<LogEntry>>)
      returns (proposed: seq<LogEntry>, applied: seq<LogEntry>)
      modifies this
      ensures var (d, entries) := Interleaved(old(State()), servers, arriving);
        if isLeader && servers != [] then applied == entries && proposed == [ProposalOf(d, State().total)]
        else applied == [] && proposed == []
      ensures FsmState() == AfterLog(old(FsmState()), applyHandlers, applied) && applyHandlers == old(applyHandlers)
    {
      if !isLeader {
        return [], [];
      }
      if |servers| == 0 {
        return [], [];
      }
      var names := SortStrings(servers);
      SortNonEmpty(servers);

      var members := NumberMembers(names);
      var shards, later;
      shards, applied, later := DealShards(servers, names, arriving);
      ghost var before := applied;
      applied := applied + FirstBatch(later);
      later := ApplyNextBatch(later, old(FsmState()), before);
      proposed := [AssignCommand(Assignment(members, shards, totalShards))];
    }

    method NumberMembers(names: seq<string>) returns (members: map<string, nat>)
      ensures members == NumberedMembers(names)
    {
      members := map[];
      for i := 0 to |names|
        invariant members == NumberedMembers(names[..i])
      {
        assert names[..i + 1][..i] == names[..i];
        members := members[names[i] := i];
      }
      assert names[..|names|] == names;
    }

    // The loop over the shards, up to the guard that ends it.
    method DealShards(ghost servers: seq<string>, names: seq<string>, arriving: seq<seq<LogEntry>>)
      returns (shards: map<nat, string>, applied: seq<LogEntry>, later: seq<seq<LogEntry>>)
      requires names != []
      modifies this
      ensures Interleaved(old(State()), servers, arriving) ==
              DealOn(State(), Dealing(servers, |shards|, false), later, applied)
      ensures shards == DealtShards(names, |shards|) && |shards| >= totalShards
      ensures FsmState() == AfterLog(old(FsmState()), applyHandlers, applied) && applyHandlers == old(applyHandlers)
    {
      ghost var whole := Interleaved(State(), servers, arriving);
      shards := map[];
      var shard := 0;
      later := ApplyNextBatch(arriving, old(FsmState()), []);
      applied := FirstBatch(arriving);
      assert [] + applied == applied;
      while shard < totalShards
        invariant whole == DealOn(State(), Dealing(servers, shard, false), later, applied)
        invariant FsmState() == AfterLog(old(FsmState()), applyHandlers, applied) && applyHandlers == old(applyHandlers)
        invariant shards == DealtShards(names, shard)
        decreases |later|, totalShards - shard
      {
        DealtStep(names, shard);
        var owner := names[shard % |names|];
        shards := shards[shard := owner];
        shard := shard + 1;
        ghost var before := applied;
        applied := applied + FirstBatch(later);
        later := ApplyNextBatch(later, old(FsmState()), before);
      }
      DealtCount(names, shard);
    }

    // The goroutine of Raft applies the next batch, if any, after the entries applied since the
    // node was as in start.
    method ApplyNextBatch(arriving: seq<seq<LogEntry>>, ghost start: Fsm, ghost applied: seq<LogEntry>)
      returns (later: seq<seq<LogEntry>>)
      requires FsmState() == AfterLog(start, applyHandlers, applied)
      modifies this
      ensures later == LaterBatches(arriving) && applyHandlers == old(applyHandlers)
      ensures FsmState() == AfterLog(start, applyHandlers, applied + FirstBatch(arriving))
      ensures State() == ApplyLog(old(State()), FirstBatch(arriving))
    {
      AfterConcat(start, applyHandlers, applied, FirstBatch(arriving));
      ApplyAll(FirstBatch(arriving));
      later := LaterBatches(arriving);
    }

    method ApplyAll(log: seq<LogEntry>)
      modifies this
      ensures FsmState() == AfterLog(old(FsmState()), applyHandlers, log) && applyHandlers == old(applyHandlers)
    {
      assert log[..0] == [];
      for i := 0 to |log|
        invariant FsmState() == AfterLog(old(FsmState()), applyHandlers, log[..i])
        invariant applyHandlers == old(applyHandlers)
      {
        assert log[..i + 1][..i] == log[..i];
        var r := Apply(log[i]);
      }
      assert log[..|log|] == log;
    }

    // --- State machine ---

    method Apply(entry: LogEntry) returns (r: ApplyResult)
      modifies this
      ensures State() == ApplyEntry(old(State()), entry)
      ensures r.Applied? <==>
        entry.Command? && entry.ns == "_cluster" && entry.op == "assign" && entry.payload.AssignPayload?
      ensures if r.Applied? then memberMap == entry.payload.a.members && shardMap == entry.payload.a.shards
                                 && totalShards == entry.payload.a.total
              else memberMap == old(memberMap) && shardMap == old(shardMap) && totalShards == old(totalShards)
      ensures r.Handled? <==> entry.Command? && entry.ns != "_cluster" && entry.ns in applyHandlers
      ensures r.UnknownNamespace? <==> entry.Command? && entry.ns != "_cluster" && entry.ns !in applyHandlers
      ensures r.UnknownOp? <==> entry.Command? && entry.ns == "_cluster" && entry.op != "assign"
      ensures notified == old(notified) + if r.Applied? then 1 else 0
      ensures handled == old(handled) + if r.Handled? then [entry] else []
      ensures applyHandlers == old(applyHandlers)
    {
      if entry.Undecodable? {
        return DecodeError;
      }
      if entry.ns == "_cluster" {
        r := ApplyClusterCmd(entry.op, entry.payload);
        return;
      }
      if entry.ns in applyHandlers {
        handled := handled + [entry];
        return Handled;
      }
      return UnknownNamespace;
    }

    method ApplyClusterCmd(op: string, payload: Payload) returns (r: ApplyResult)
      modifies this`memberMap, this`shardMap, this`totalShards, this`notified
      ensures State() == ApplyEntry(old(State()), Command("_cluster", op, payload))
      ensures r.Applied? <==> IsAssign(Command("_cluster", op, payload))
      ensures r.UnknownOp? <==> op != "assign"
      ensures !r.Handled? && !r.UnknownNamespace?
      ensures notified == old(notified) + if r.Applied? then 1 else 0
    {
      if op == "assign" {
        if payload.OtherPayload? {
          return DecodeError;
        }
        Install(payload.a);
        return Applied;
      }
      return UnknownOp;
    }

    // The common text of applyClusterCmd and Restore: the shard map is copied entry by entry.
    method Install(a: Assignment)
      modifies this`memberMap, this`shardMap, this`totalShards, this`notified
      ensures memberMap == a.members && shardMap == a.shards && totalShards == a.total
      ensures notified == old(notified) + 1
    {
      memberMap := a.members;
      totalShards := a.total;
      shardMap := map[];
      var todo := a.shards.Keys;
      while todo != {}
        invariant todo <= a.shards.Keys
        invariant shardMap == map s | s in a.shards && s !in todo :: a.shards[s]
        invariant memberMap == a.members && totalShards == a.total && notified == old(notified)
      {
        var shard :| shard in todo;
        todo := todo - {shard};
        shardMap := shardMap[shard := a.shards[shard]];
      }
      notified := notified + 1;
    }

    method Snapshot() returns (a: Assignment)
      ensures a.members == memberMap && a.shards == shardMap && a.total == totalShards
    {
      return Assignment(memberMap, shardMap, totalShards);
    }

    method Restore(snapshot: Payload) returns (ok: bool)
      modifies this`memberMap, this`shardMap, this`totalShards, this`notified
      ensures ok <==> snapshot.AssignPayload?
      ensures if ok then memberMap == snapshot.a.members && shardMap == snapshot.a.shards
                         && totalShards == snapshot.a.total
              else memberMap == old(memberMap) && shardMap == old(shardMap) && totalShards == old(totalShards)
      ensures State() == if ok then Restored(old(State()), snapshot.a) else old(State())
      ensures notified == old(notified) + if ok then 1 else 0
    {
      if snapshot.OtherPayload? {
        return false;
      }
      Install(snapshot.a);
      return true;
    }

    // --- Lookups ---

    method ShardsFor(member: string) returns (shards: seq<nat>)
      ensures Ascending(shards)
      ensures forall s :: s in shards <==> s in shardMap && shardMap[s] == member
      ensures forall s :: s in shards <==> s in ShardsOf(State(), member)
    {
      shards := [];
      var todo := shardMap.Keys;
      while todo != {}
        invariant todo <= shardMap.Keys
        invariant Distinct(shards)
        invariant forall s :: s in shards <==> s in ShardsOf(State(), member) && s !in todo
      {
        var shard :| shard in todo;
        todo := todo - {shard};
        if shardMap[shard] == member {
          shards := shards + [shard];
        }
      }
      SortNatsAscending(shards);
      shards := SortNats(shards);
    }

    method OwnsKey(key: seq<bv8>) returns (owns: bool)
      requires totalShards > 0
      ensures var shard := Hash(key) % totalShards;
        owns <==> (if shard in shardMap then shardMap[shard] else "") == name
      ensures owns <==> OwnerOfHash(State(), Hash(key)) == name
    {
      var shard := Hash(key) % totalShards;
      owns := (if shard in shardMap then shardMap[shard] else "") == name;
    }

    method OwnerOfKey(key: seq<bv8>) returns (owner: string)
      requires totalShards > 0
      ensures var shard := Hash(key) % totalShards;
        owner == if shard in shardMap then shardMap[shard] else ""
      ensures owner == OwnerOfHash(State(), Hash(key))
    {
      var shard := Hash(key) % totalShards;
      owner := if shard in shardMap then shardMap[shard] else "";
    }

    method ShardForKey(key: seq<bv8>) returns (shard: nat)
      requires totalShards > 0
      ensures shard < totalShards && Hash(key) == totalShards * (Hash(key) / totalShards) + shard
      ensures OwnerOfShard(State(), shard) == OwnerOfHash(State(), Hash(key))
    {
      var hash := Hash(key);
      Remainder(hash, totalShards);
      shard := hash % totalShards;
    }
  }

  lemma Remainder(n: nat, d: nat)
    requires d > 0
    ensures n == d * (n / d) + n % d && n % d < d
  {
  }
}
