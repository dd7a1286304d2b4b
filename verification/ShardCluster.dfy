// Runs of a partitioned cluster: members join and leave, leaders deal shards while their own
// state may change and propose assignments that may be lost, replicas apply the committed log at
// their own pace, take and install snapshots and restart.
module ShardCluster {
  import opened Ordering
  import opened ShardAssignment
  import opened ShardReplica

  // --- Snapshots and the log ---

  // The assignment of the last assign command in the log, if there is one.
  function LastAssign(log: seq<LogEntry>): seq<Assignment> {
    if log == [] then []
    else if IsAssign(log[|log| - 1]) then [log[|log| - 1].payload.a]
    else LastAssign(log[..|log| - 1])
  }

  // Once the log holds an assign, the state is the last one, whatever it was before.
  lemma {:induction false} StateIsLastAssign(state: Assignment, log: seq<LogEntry>)
    ensures ApplyLog(state, log) == if LastAssign(log) == [] then state else LastAssign(log)[0]
  {
    if log != [] {
      StateIsLastAssign(state, log[..|log| - 1]);
    }
  }

  // Snapshot equivalence: restoring the snapshot taken after i entries into any replica and
  // applying the rest of the log gives the state of a replica that applied it all.
  lemma SnapshotEquivalence(start: Assignment, prior: Assignment, log: seq<LogEntry>, i: nat)
    requires i <= |log|
    ensures ApplyLog(Restored(prior, SnapshotOf(ApplyLog(start, log[..i]))), log[i..]) == ApplyLog(start, log)
  {
    assert log == log[..i] + log[i..];
    ApplyLogConcat(start, log[..i], log[i..]);
  }

  // --- States and steps ---

  datatype Replica = Replica(state: Assignment, applied: nat)

  datatype Snapshot = Snapshot(state: Assignment, index: nat)

  // A rebalance that the goroutines of a node have under way.
  datatype Rebalance = Rebalance(leader: string, dealing: Dealing)

  // configured is the number of shards each node is configured with, which need not be the same
  // for all; servers is the Raft configuration; inFlight holds proposals that are neither
  // committed nor lost yet. Nodes go by their names.
  datatype Cluster = Cluster(
    configured: map<string, nat>, servers: seq<string>, rebalances: seq<Rebalance>, inFlight: seq<LogEntry>,
    log: seq<LogEntry>, replicas: map<string, Replica>, snapshots: set<Snapshot>)

  // A rebalance reads the number of shards of its node in every Deal, one evaluation of the
  // loop's guard, and once more in Propose; the node may apply entries in between.
  datatype Step =
    | Boot(r: string)                    // a fresh node, also after a restart
    | Join(leader: string, member: string)
    | Leave(leader: string, member: string)
    | Begin(leader: string)
    | Deal(i: nat)
    | Propose(i: nat)
    | Commit(i: nat)
    | Lose(i: nat)
    | CommitOther(entry: LogEntry)       // any command that is not the cluster's own
    | ApplyNext(r: string)
    | TakeSnapshot(r: string)
    | InstallSnapshot(r: string, snapshot: Snapshot)

  predicate Start(c: Cluster, configured: map<string, nat>) {
    c == Cluster(configured, c.servers, [], [], [], map[], {}) && Distinct(c.servers)
  }

  // The numbers of shards that nodes start with.
  function Totals(configured: map<string, nat>): set<nat> {
    set r | r in configured :: ConfiguredTotal(configured[r])
  }

  function Without(servers: seq<string>, member: string): seq<string> {
    if servers == [] then []
    else (if servers[0] == member then [] else [servers[0]]) + Without(servers[1..], member)
  }

  function Drop<T>(s: seq<T>, i: nat): seq<T>
    requires i < |s|
  {
    s[..i] + s[i + 1..]
  }

  // The rebalances that survive the restart of a node.
  function Elsewhere(rebalances: seq<Rebalance>, r: string): seq<Rebalance> {
    if rebalances == [] then []
    else (if rebalances[0].leader == r then [] else [rebalances[0]]) + Elsewhere(rebalances[1..], r)
  }

  ghost predicate Next(c: Cluster, s: Step, c': Cluster) {
    match s
    case Boot(r) =>
      && r in c.configured
      && c' == c.(replicas := c.replicas[r := Replica(InitialState(ConfiguredTotal(c.configured[r])), 0)],
                  rebalances := Elsewhere(c.rebalances, r))
    case Join(leader, member) =>
      && leader in c.replicas && member != leader && member !in c.servers
      && c' == c.(servers := c.servers + [member])
    case Leave(leader, member) =>
      && leader in c.replicas && member != leader
      && c' == c.(servers := Without(c.servers, member))
    case Begin(leader) =>
      && leader in c.replicas && c.servers != []
      && c' == c.(rebalances := c.rebalances + [Rebalance(leader, Dealing(c.servers, 0, false))])
    case Deal(i) =>
      && i < |c.rebalances| && c.rebalances[i].leader in c.replicas && !c.rebalances[i].dealing.done
      && var b := c.rebalances[i];
      && c' == c.(rebalances := c.rebalances[
           i := Rebalance(b.leader, ReadGuard(b.dealing, c.replicas[b.leader].state.total))])
    case Propose(i) =>
      && i < |c.rebalances| && c.rebalances[i].leader in c.replicas && c.rebalances[i].dealing.done
      && var b := c.rebalances[i];
      && b.dealing.servers != []
      && c' == c.(rebalances := Drop(c.rebalances, i),
                  inFlight := c.inFlight + [ProposalOf(b.dealing, c.replicas[b.leader].state.total)])
    case Commit(i) =>
      && i < |c.inFlight|
      && c' == c.(log := c.log + [c.inFlight[i]], inFlight := Drop(c.inFlight, i))
    case Lose(i) =>
      && i < |c.inFlight|
      && c' == c.(inFlight := Drop(c.inFlight, i))
    case CommitOther(entry) =>
      && (entry.Command? ==> entry.ns != "_cluster")
      && c' == c.(log := c.log + [entry])
    case ApplyNext(r) =>
      && r in c.replicas && c.replicas[r].applied < |c.log|
      && var p := c.replicas[r];
      && c' == c.(replicas := c.replicas[r := Replica(ApplyEntry(p.state, c.log[p.applied]), p.applied + 1)])
    case TakeSnapshot(r) =>
      && r in c.replicas
      && c' == c.(snapshots := c.snapshots + {Snapshot(SnapshotOf(c.replicas[r].state), c.replicas[r].applied)})
    case InstallSnapshot(r, snapshot) =>
      && r in c.replicas && snapshot in c.snapshots
      && c' == c.(replicas :=
           c.replicas[r := Replica(Restored(c.replicas[r].state, snapshot.state), snapshot.index)])
  }

  ghost predicate CanStep(c: Cluster, c': Cluster) {
    exists s :: Next(c, s, c')
  }

  ghost predicate IsRun(run: seq<Cluster>, configured: map<string, nat>) {
    && run != [] && Start(run[0], configured)
    && forall i :: 0 < i < |run| ==> CanStep(run[i - 1], run[i])
  }

  // --- The invariant ---

  ghost predicate AtMostSome(dealt: nat, totals: set<nat>) {
    exists total :: total in totals && dealt <= total
  }

  ghost predicate AtLeastSome(dealt: nat, totals: set<nat>) {
    exists total :: total in totals && total <= dealt
  }

  // An assign command for some non-empty set of servers: the number dealt lies between two
  // configured numbers of shards, and the one stamped is one of them.
  ghost predicate IsDealt(entry: LogEntry, totals: set<nat>) {
    exists servers, dealt, total :: IsDealtTo(entry, servers, dealt, total, totals)
  }

  ghost predicate IsDealtTo(entry: LogEntry, servers: seq<string>, dealt: nat, total: nat, totals: set<nat>) {
    && servers != [] && Distinct(servers)
    && AtMostSome(dealt, totals) && AtLeastSome(dealt, totals) && total in totals
    && entry == AssignCommand(Stamped(servers, dealt, total))
  }

  ghost predicate DealingInv(d: Dealing, totals: set<nat>) {
    && d.servers != [] && Distinct(d.servers)
    && AtMostSome(d.dealt, totals)
    && (d.done ==> AtLeastSome(d.dealt, totals))
  }

  ghost predicate EntryInv(entry: LogEntry, totals: set<nat>) {
    IsAssign(entry) ==> IsDealt(entry, totals)
  }

  // A replica's state is that of the log up to its applied index, however it got there, on top
  // of the initial state of some node.
  ghost predicate ReplicaInv(c: Cluster, state: Assignment, applied: nat) {
    applied <= |c.log| && exists total :: StartsFrom(c, state, applied, total)
  }

  ghost predicate StartsFrom(c: Cluster, state: Assignment, applied: nat, total: nat)
    requires applied <= |c.log|
  {
    total in Totals(c.configured) && state == ApplyLog(InitialState(total), c.log[..applied])
  }

  ghost predicate Inv(c: Cluster) {
    && Distinct(c.servers)
    && (forall b :: b in c.rebalances ==> b.leader in c.replicas && DealingInv(b.dealing, Totals(c.configured)))
    && (forall entry :: entry in c.inFlight ==> EntryInv(entry, Totals(c.configured)))
    && (forall entry :: entry in c.log ==> EntryInv(entry, Totals(c.configured)))
    && (forall r :: r in c.replicas ==> ReplicaInv(c, c.replicas[r].state, c.replicas[r].applied))
    && (forall s :: s in c.snapshots ==> ReplicaInv(c, s.state, s.index))
  }

  lemma {:induction false} WithoutDistinct(servers: seq<string>, member: string)
    requires Distinct(servers)
    ensures Distinct(Without(servers, member))
    ensures forall x :: x in Without(servers, member) <==> x in servers && x != member
  {
    if servers != [] {
      WithoutDistinct(servers[1..], member);
      assert servers == [servers[0]] + servers[1..];
      var rest := Without(servers[1..], member);
      forall k | 0 <= k < |rest|
        ensures rest[k] != servers[0]
      {
        assert rest[k] in rest;
      }
    }
  }

  // The number of shards a state goes by is one that some node is configured with.
  lemma {:induction false} TotalOfLog(log: seq<LogEntry>, total: nat, totals: set<nat>)
    requires total in totals && forall entry :: entry in log ==> EntryInv(entry, totals)
    ensures ApplyLog(InitialState(total), log).total in totals
  {
    if log != [] {
      var n := |log| - 1;
      TotalOfLog(log[..n], total, totals);
      assert log[n] in log && EntryInv(log[n], totals);
    }
  }

  lemma ReplicaTotal(c: Cluster, r: string)
    requires Inv(c) && r in c.replicas
    ensures c.replicas[r].state.total in Totals(c.configured)
    ensures c.replicas[r].state.total > 0
  {
    var p := c.replicas[r];
    assert ReplicaInv(c, p.state, p.applied);
    var total :| StartsFrom(c, p.state, p.applied, total);
    TotalOfLog(c.log[..p.applied], total, Totals(c.configured));
  }

  // A state that was right in c is right in c', whose log is no shorter.
  lemma ReplicaInvGrows(c: Cluster, c': Cluster, state: Assignment, applied: nat)
    requires ReplicaInv(c, state, applied) && c'.configured == c.configured && c.log <= c'.log
    ensures ReplicaInv(c', state, applied)
  {
    var total :| StartsFrom(c, state, applied, total);
    assert c'.log[..applied] == c.log[..applied];
    assert StartsFrom(c', state, applied, total);
  }

  // All replicas and snapshots that are also in c.
  lemma OthersGrow(c: Cluster, c': Cluster)
    requires Inv(c) && c'.configured == c.configured && c.log <= c'.log
    ensures forall r :: r in c.replicas && r in c'.replicas && c'.replicas[r] == c.replicas[r] ==>
      ReplicaInv(c', c'.replicas[r].state, c'.replicas[r].applied)
    ensures forall s :: s in c.snapshots ==> ReplicaInv(c', s.state, s.index)
  {
    forall r | r in c.replicas && r in c'.replicas && c'.replicas[r] == c.replicas[r]
      ensures ReplicaInv(c', c'.replicas[r].state, c'.replicas[r].applied)
    {
      ReplicaInvGrows(c, c', c.replicas[r].state, c.replicas[r].applied);
    }
    forall s | s in c.snapshots
      ensures ReplicaInv(c', s.state, s.index)
    {
      ReplicaInvGrows(c, c', s.state, s.index);
    }
  }

  lemma ReplicaStepKeepsInv(c: Cluster, r: string, p: Replica, c': Cluster)
    requires Inv(c) && ReplicaInv(c, p.state, p.applied)
    requires c' == c.(replicas := c.replicas[r := p])
    ensures Inv(c')
  {
    OthersGrow(c, c');
    ReplicaInvGrows(c, c', p.state, p.applied);
  }

  lemma SnapshotKeepsInv(c: Cluster, r: string, c': Cluster)
    requires Inv(c) && Next(c, TakeSnapshot(r), c')
    ensures Inv(c')
  {
    OthersGrow(c, c');
    ReplicaInvGrows(c, c', c.replicas[r].state, c.replicas[r].applied);
  }

  lemma {:induction false} ElsewhereSubset(rebalances: seq<Rebalance>, r: string)
    ensures forall b :: b in Elsewhere(rebalances, r) <==> b in rebalances && b.leader != r
  {
    if rebalances != [] {
      ElsewhereSubset(rebalances[1..], r);
      assert rebalances == [rebalances[0]] + rebalances[1..];
    }
  }

  // A read of the number of shards by a rebalance, its beginning and its end.
  lemma DealingStepKeepsInv(c: Cluster, s: Step, c': Cluster)
    requires Inv(c) && (s.Begin? || s.Deal? || s.Propose?) && Next(c, s, c')
    ensures Inv(c')
  {
    OthersGrow(c, c');
    match s
    case Begin(leader) =>
      ReplicaTotal(c, leader);
      assert AtMostSome(0, Totals(c.configured));
    case Deal(i) =>
      var b := c.rebalances[i];
      assert b in c.rebalances;
      ReplicaTotal(c, b.leader);
      assert DealingInv(c'.rebalances[i].dealing, Totals(c.configured));
    case Propose(i) =>
      var b := c.rebalances[i];
      assert b in c.rebalances;
      ReplicaTotal(c, b.leader);
      var total := c.replicas[b.leader].state.total;
      assert IsDealtTo(ProposalOf(b.dealing, total), b.dealing.servers, b.dealing.dealt, total, Totals(c.configured));
  }

  // A replica is replaced by one that is right.
  lemma OwnStepKeepsInv(c: Cluster, s: Step, c': Cluster)
    requires Inv(c) && (s.Boot? || s.ApplyNext? || s.InstallSnapshot?) && Next(c, s, c')
    ensures Inv(c')
  {
    match s
    case Boot(r) =>
      var total := ConfiguredTotal(c.configured[r]);
      assert c.log[..0] == [];
      assert StartsFrom(c, InitialState(total), 0, total);
      ElsewhereSubset(c.rebalances, r);
      var stopped := c.(rebalances := Elsewhere(c.rebalances, r));
      OthersGrow(c, stopped);
      ReplicaInvGrows(c, stopped, InitialState(total), 0);
      ReplicaStepKeepsInv(stopped, r, Replica(InitialState(total), 0), c');
    case ApplyNext(r) =>
      var p := c.replicas[r];
      assert ReplicaInv(c, p.state, p.applied);
      var total :| StartsFrom(c, p.state, p.applied, total);
      var next := ApplyEntry(p.state, c.log[p.applied]);
      assert c.log[..p.applied + 1][..p.applied] == c.log[..p.applied];
      assert StartsFrom(c, next, p.applied + 1, total);
      ReplicaStepKeepsInv(c, r, Replica(next, p.applied + 1), c');
    case InstallSnapshot(r, snapshot) =>
      assert ReplicaInv(c, snapshot.state, snapshot.index);
      ReplicaStepKeepsInv(c, r, Replica(Restored(c.replicas[r].state, snapshot.state), snapshot.index), c');
  }

  lemma LogStepKeepsInv(c: Cluster, s: Step, c': Cluster)
    requires Inv(c) && (s.Commit? || s.Lose? || s.CommitOther?) && Next(c, s, c')
    ensures Inv(c')
  {
    OthersGrow(c, c');
    assert s.Commit? ==> c.inFlight[s.i] in c.inFlight;
    forall entry | entry in c'.inFlight
      ensures entry in c.inFlight
    {
    }
  }

  lemma ServersStepKeepsInv(c: Cluster, s: Step, c': Cluster)
    requires Inv(c) && (s.Join? || s.Leave?) && Next(c, s, c')
    ensures Inv(c')
  {
    if s.Leave? {
      WithoutDistinct(c.servers, s.member);
    }
    OthersGrow(c, c');
  }

  lemma StepKeepsInv(c: Cluster, c': Cluster)
    requires Inv(c) && CanStep(c, c')
    ensures Inv(c') && c'.configured == c.configured
  {
    var s :| Next(c, s, c');
    match s
    case Boot(_) => OwnStepKeepsInv(c, s, c');
    case Join(_, _) => ServersStepKeepsInv(c, s, c');
    case Leave(_, _) => ServersStepKeepsInv(c, s, c');
    case Begin(_) => DealingStepKeepsInv(c, s, c');
    case Deal(_) => DealingStepKeepsInv(c, s, c');
    case Propose(_) => DealingStepKeepsInv(c, s, c');
    case Commit(_) => LogStepKeepsInv(c, s, c');
    case Lose(_) => LogStepKeepsInv(c, s, c');
    case CommitOther(_) => LogStepKeepsInv(c, s, c');
    case ApplyNext(_) => OwnStepKeepsInv(c, s, c');
    case TakeSnapshot(r) => SnapshotKeepsInv(c, r, c');
    case InstallSnapshot(_, _) => OwnStepKeepsInv(c, s, c');
  }

  lemma {:induction false} RunKeepsInv(run: seq<Cluster>, configured: map<string, nat>, i: nat)
    requires IsRun(run, configured) && i < |run|
    ensures Inv(run[i]) && run[i].configured == configured
  {
    if i > 0 {
      RunKeepsInv(run, configured, i - 1);
      StepKeepsInv(run[i - 1], run[i]);
    }
  }

  // --- Main results ---

  // Whether the replica called r answers that it owns a key with this hash.
  predicate Owns(r: string, state: Assignment, hash: nat)
    requires state.total > 0
  {
    OwnerOfHash(state, hash) == r
  }

  // All nodes are configured with the same number of shards.
  ghost predicate EqualTotals(configured: map<string, nat>, total: nat) {
    forall r :: r in configured ==> ConfiguredTotal(configured[r]) == total
  }

  // The modulus is never by zero, whatever the configurations. With equal configurations the
  // number of shards is the configured one in every state of every run and every replica.
  lemma TotalIsConstant(run: seq<Cluster>, configured: map<string, nat>, i: nat, r: string)
    requires IsRun(run, configured) && i < |run| && r in run[i].replicas
    ensures run[i].replicas[r].state.total > 0
    ensures run[i].replicas[r].state.total in Totals(configured)
    ensures forall total :: EqualTotals(configured, total) ==> run[i].replicas[r].state.total == total
  {
    RunKeepsInv(run, configured, i);
    ReplicaTotal(run[i], r);
  }

  // OwnsKey and OwnerOfKey read the number of shards before they take the lock. With equal
  // configurations, read at i and used at any later j, it picks the shard an atomic lookup at j
  // picks.
  lemma UnlockedReadHarmless(run: seq<Cluster>, configured: map<string, nat>, total: nat,
                             i: nat, j: nat, r: string, hash: nat)
    requires IsRun(run, configured) && EqualTotals(configured, total) && i <= j < |run|
    requires r in run[i].replicas && r in run[j].replicas
    ensures run[i].replicas[r].state.total > 0 && run[j].replicas[r].state.total > 0
    ensures ReadsSame(run[j].replicas[r].state, run[i].replicas[r].state.total, hash)
  {
    TotalIsConstant(run, configured, i, r);
    TotalIsConstant(run, configured, j, r);
  }

  ghost predicate HasSeenAssign(c: Cluster, p: Replica) {
    p.applied <= |c.log| && LastAssign(c.log[..p.applied]) != []
  }

  ghost predicate ReflectSameAssign(c: Cluster, p: Replica, q: Replica) {
    && p.applied <= |c.log| && q.applied <= |c.log|
    && LastAssign(c.log[..p.applied]) == LastAssign(c.log[..q.applied])
  }

  // A replica that has seen an assign holds what some leader dealt to some servers: the number
  // dealt lies between two configured numbers, and the one stamped is one of them.
  lemma SeenAssignIsDealt(run: seq<Cluster>, configured: map<string, nat>, i: nat, r: string)
    returns (servers: seq<string>, dealt: nat, total: nat)
    requires IsRun(run, configured) && i < |run| && r in run[i].replicas
    requires HasSeenAssign(run[i], run[i].replicas[r])
    ensures servers != [] && Distinct(servers) && total in Totals(configured) && total > 0 && dealt > 0
    ensures AtMostSome(dealt, Totals(configured)) && AtLeastSome(dealt, Totals(configured))
    ensures var a := run[i].replicas[r].state;
      a == Stamped(servers, dealt, total) && |a.shards| == dealt && |a.members| == |servers|
    ensures forall name :: name in run[i].replicas[r].state.members <==> name in servers
  {
    RunKeepsInv(run, configured, i);
    var c := run[i];
    var p := c.replicas[r];
    assert ReplicaInv(c, p.state, p.applied);
    var from :| StartsFrom(c, p.state, p.applied, from);
    var seen := c.log[..p.applied];
    StateIsLastAssign(InitialState(from), seen);
    var k := LastAssignIsEntry(seen);
    assert seen[k] in c.log && EntryInv(seen[k], Totals(configured));
    servers, dealt, total :| IsDealtTo(seen[k], servers, dealt, total, Totals(configured));
    OwnerOfDealt(servers, dealt, total, 0);
    MemberCount(servers, dealt, total);
    MembersOrderPreservingBijection(servers, dealt, total);
  }

  lemma {:induction false} LastAssignIsEntry(log: seq<LogEntry>) returns (k: nat)
    requires LastAssign(log) != []
    ensures k < |log| && IsAssign(log[k]) && LastAssign(log) == [log[k].payload.a]
  {
    k := |log| - 1;
    if !IsAssign(log[k]) {
      k := LastAssignIsEntry(log[..k]);
    }
  }

  // With equal configurations it is the assignment of the configured number of shards.
  lemma EqualTotalsDealAll(run: seq<Cluster>, configured: map<string, nat>, total: nat, i: nat, r: string)
    returns (servers: seq<string>)
    requires IsRun(run, configured) && EqualTotals(configured, total) && i < |run| && r in run[i].replicas
    requires HasSeenAssign(run[i], run[i].replicas[r])
    ensures servers != [] && Distinct(servers)
    ensures run[i].replicas[r].state == AssignmentFor(servers, total)
  {
    var dealt, stamped;
    servers, dealt, stamped := SeenAssignIsDealt(run, configured, i, r);
  }

  // A replica that has seen an assign knows at most one owner of a key among its members. It
  // knows one for every key if and only if it holds no fewer shards than it goes by, and the
  // hash that equals their number decides it. With equal configurations it always does.
  lemma UniqueOwner(run: seq<Cluster>, configured: map<string, nat>, i: nat, r: string)
    requires IsRun(run, configured) && i < |run| && r in run[i].replicas
    requires HasSeenAssign(run[i], run[i].replicas[r]) && "" !in run[i].replicas[r].state.members
    ensures var a := run[i].replicas[r].state;
      && a.total > 0
      && (forall hash: nat, name :: name in a.members ==>
            (hash % a.total in ShardsOf(a, name) <==> name == OwnerOfHash(a, hash)))
      && ((forall hash: nat :: OwnerOfHash(a, hash) in a.members) <==> a.total <= |a.shards|)
      && (OwnerOfHash(a, |a.shards|) in a.members <==> a.total <= |a.shards|)
      && forall total :: EqualTotals(configured, total) ==> a.total == |a.shards| == total
  {
    var servers, dealt, stamped := SeenAssignIsDealt(run, configured, i, r);
    AllOwnedIff(servers, dealt, stamped);
    var a := run[i].replicas[r].state;
    forall hash: nat, name | name in a.members
      ensures hash % a.total in ShardsOf(a, name) <==> name == OwnerOfHash(a, hash)
    {
      OwnerOfDealt(servers, dealt, stamped, hash % stamped);
    }
  }

  // With any configurations: read at i and used at a later j at which the replica has seen an
  // assign, the number of shards picks the owner an atomic lookup at j gives for every key, if
  // and only if it is the number at j, or both are numbers of whole rounds over the members
  // within what was dealt.
  lemma UnlockedReadIff(run: seq<Cluster>, configured: map<string, nat>, i: nat, j: nat, r: string)
    requires IsRun(run, configured) && i <= j < |run|
    requires r in run[i].replicas && r in run[j].replicas
    requires HasSeenAssign(run[j], run[j].replicas[r]) && "" !in run[j].replicas[r].state.members
    ensures var t, a := run[i].replicas[r].state.total, run[j].replicas[r].state;
      && t > 0 && a.total > 0 && |a.members| > 0 && |a.shards| > 0
      && ((forall hash: nat :: ReadsSame(a, t, hash)) <==> Compatible(t, |a.shards|, a.total, |a.members|))
      && (ReadsSame(a, t, t) && ReadsSame(a, t, a.total) && ReadsSame(a, t, |a.shards|) <==>
          Compatible(t, |a.shards|, a.total, |a.members|))
  {
    TotalIsConstant(run, configured, i, r);
    var servers, dealt, u := SeenAssignIsDealt(run, configured, j, r);
    EarlyReadIff(servers, run[i].replicas[r].state.total, dealt, u);
  }

  // Two replicas that reflect the same last assign, in particular the same log index, agree
  // once there is one, and never both own a key.
  lemma NeverBothOwn(run: seq<Cluster>, configured: map<string, nat>, i: nat, r: string, q: string, hash: nat)
    requires IsRun(run, configured) && i < |run| && r != q
    requires r in run[i].replicas && q in run[i].replicas
    requires ReflectSameAssign(run[i], run[i].replicas[r], run[i].replicas[q])
    ensures var a, b := run[i].replicas[r].state, run[i].replicas[q].state;
      && (HasSeenAssign(run[i], run[i].replicas[r]) ==> a == b)
      && a.total > 0 && b.total > 0 && !(Owns(r, a, hash) && Owns(q, b, hash))
  {
    TotalIsConstant(run, configured, i, r);
    TotalIsConstant(run, configured, i, q);
    StateOfPrefix(run, configured, i, r);
    StateOfPrefix(run, configured, i, q);
  }

  // The last assign among the applied entries, or an initial state without shards.
  lemma StateOfPrefix(run: seq<Cluster>, configured: map<string, nat>, i: nat, r: string)
    requires IsRun(run, configured) && i < |run| && r in run[i].replicas
    ensures var c, p := run[i], run[i].replicas[r];
      && p.applied <= |c.log|
      && var last := LastAssign(c.log[..p.applied]);
      && (last != [] ==> p.state == last[0])
      && (last == [] ==> p.state.shards == map[])
  {
    RunKeepsInv(run, configured, i);
    var c, p := run[i], run[i].replicas[r];
    assert ReplicaInv(c, p.state, p.applied);
    var total :| StartsFrom(c, p.state, p.applied, total);
    StateIsLastAssign(InitialState(total), c.log[..p.applied]);
  }

  // --- The node class at work ---

  // A new leader deals all its shards to the servers and applies its own command: what every
  // lookup then goes by. Shard s lies with server number s modulo the number of servers, in the
  // order of their names, and a key with the shard that its hash gives.
  method FirstAssignment(configured: nat, servers: seq<string>, key: seq<bv8>)
    returns (a: Assignment, owner: string)
    requires servers != [] && forall i, j :: 0 <= i < j < |servers| ==> servers[i] != servers[j]
    ensures a.total == if configured == 0 then 64 else configured
    ensures forall s: nat :: s in a.shards <==> s < a.total
    ensures forall s: nat :: s < a.total ==>
      a.shards[s] in a.members && a.members[a.shards[s]] == s % |servers|
    ensures forall name :: name in a.members <==> name in servers
    ensures forall x, y, i ::
      x in servers && y in servers && 0 <= i < |x| && i < |y| && x[..i] == y[..i] && x[i] < y[i] ==>
      a.members[x] < a.members[y]
    ensures owner in a.members && a.total > 0
    ensures a.members[owner] == Fnv(0xcbf29ce484222325, key) as nat % a.total % |servers|
  {
    var leader := new Node("leader", configured);
    var proposed, applied := leader.Rebalance(true, servers, []);
    ghost var state := InitialState(ConfiguredTotal(configured));
    DealsUndisturbed(state, Dealing(servers, 0, false));
    assert FirstBatch([]) == [] && ApplyLog(state, []) == state;
    leader.ApplyAll(proposed);
    a := leader.Snapshot();
    DealtByNumber(servers, a.total, a.total);
    MembersOrderPreservingBijection(servers, a.total, a.total);
    owner := leader.OwnerOfKey(key);
  }

  // A node with any past of its own installs a snapshot taken after i entries and applies the
  // rest; it then names the same owner of every key as the node that applied the whole log.
  method CatchUpFromSnapshot(configured: nat, log: seq<LogEntry>, i: nat, past: seq<LogEntry>, key: seq<bv8>)
    returns (same: bool)
    requires i <= |log| && ApplyLog(InitialState(ConfiguredTotal(configured)), log).total > 0
    ensures same
  {
    var leader := new Node("leader", configured);
    var follower := new Node("follower", configured);
    follower.ApplyAll(past);
    leader.ApplyAll(log[..i]);
    var snapshot := leader.Snapshot();
    ghost var prior := follower.State();
    var ok := follower.Restore(AssignPayload(snapshot));
    leader.ApplyAll(log[i..]);
    follower.ApplyAll(log[i..]);
    SnapshotEquivalence(InitialState(ConfiguredTotal(configured)), prior, log, i);
    ApplyLogConcat(InitialState(ConfiguredTotal(configured)), log[..i], log[i..]);
    assert log == log[..i] + log[i..];
    var x := leader.OwnerOfKey(key);
    var y := follower.OwnerOfKey(key);
    same := x == y;
  }
}
