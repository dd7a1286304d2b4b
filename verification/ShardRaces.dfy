// Which assignments the replicas of a partitioned cluster can come to hold. A rebalance reads its
// node's number of shards again and again while the node applies the log, so with unequal
// configurations it can deal one number of shards and stamp another.
module ShardRaces {
  import opened Ordering
  import opened ShardAssignment
  import opened ShardReplica
  import opened ShardCluster

  // --- Paths of steps ---

  ghost predicate IsPath(path: seq<Cluster>, c: Cluster, c': Cluster) {
    && path != [] && path[0] == c && path[|path| - 1] == c'
    && forall i :: 0 < i < |path| ==> CanStep(path[i - 1], path[i])
  }

  ghost predicate Reaches(c: Cluster, c': Cluster) {
    exists path :: IsPath(path, c, c')
  }

  lemma ReachesSelf(c: Cluster)
    ensures Reaches(c, c)
  {
    assert IsPath([c], c, c);
  }

  lemma ReachesNext(c: Cluster, c': Cluster, s: Step, c'': Cluster)
    requires Reaches(c, c') && Next(c', s, c'')
    ensures Reaches(c, c'')
  {
    var path :| IsPath(path, c, c');
    assert CanStep(c', c'');
    assert IsPath(path + [c''], c, c'');
  }

  lemma ReachesOn(c: Cluster, c': Cluster, c'': Cluster)
    requires Reaches(c, c') && Reaches(c', c'')
    ensures Reaches(c, c'')
  {
    var p :| IsPath(p, c, c');
    var q :| IsPath(q, c', c'');
    var path := p + q[1..];
    forall i | 0 < i < |path|
      ensures CanStep(path[i - 1], path[i])
    {
      if i >= |p| {
        assert path[i] == q[i - |p| + 1];
        assert path[i - 1] == q[i - |p|];
      }
    }
    assert IsPath(path, c, c'');
  }

  // --- A rebalance of the node class is a sequence of steps ---

  function Advanced(p: Replica, entries: seq<LogEntry>): Replica {
    Replica(ApplyLog(p.state, entries), p.applied + |entries|)
  }

  // The entries come next in the log for this replica.
  predicate ComeNext(c: Cluster, p: Replica, entries: seq<LogEntry>) {
    p.applied + |entries| <= |c.log| && c.log[p.applied..p.applied + |entries|] == entries
  }

  lemma {:induction false} AppliesAll(c: Cluster, r: string, entries: seq<LogEntry>)
    requires r in c.replicas && ComeNext(c, c.replicas[r], entries)
    ensures Reaches(c, c.(replicas := c.replicas[r := Advanced(c.replicas[r], entries)]))
  {
    var p, n := c.replicas[r], |entries| - 1;
    if entries == [] {
      assert c.(replicas := c.replicas[r := Advanced(p, [])]) == c;
      ReachesSelf(c);
    } else {
      assert c.log[p.applied..p.applied + n] == c.log[p.applied..p.applied + n + 1][..n];
      AppliesAll(c, r, entries[..n]);
      var mid := c.(replicas := c.replicas[r := Advanced(p, entries[..n])]);
      var end := c.(replicas := c.replicas[r := Advanced(p, entries)]);
      assert c.log[p.applied + n] == entries[n];
      assert end.replicas == mid.replicas[r := Advanced(p, entries)];
      assert Next(mid, ApplyNext(r), end);
      ReachesNext(c, mid, ApplyNext(r), end);
    }
  }

  // A replica that is to apply all of these entries has applied the first of them, and now
  // applies the next batch.
  lemma {:induction false} AppliesBatch(c: Cluster, r: string, start: Replica, applied: seq<LogEntry>,
                                        now: seq<LogEntry>, all: seq<LogEntry>)
    requires r in c.replicas && c.replicas[r] == Advanced(start, applied)
    requires ComeNext(c, start, all) && applied + now <= all
    ensures Reaches(c, c.(replicas := c.replicas[r := Advanced(start, applied + now)]))
  {
    var n := start.applied;
    assert c.log[n..n + |all|][|applied|..|applied + now|] == now;
    assert c.log[n + |applied|..n + |applied| + |now|] == now;
    AppliesAll(c, r, now);
    ApplyLogConcat(start.state, applied, now);
  }

  // The loop of a rebalance, with entries applied in between.
  lemma {:induction false} DealsOn(c: Cluster, i: nat, start: Replica, arriving: seq<seq<LogEntry>>,
                                   applied: seq<LogEntry>)
    requires i < |c.rebalances| && !c.rebalances[i].dealing.done && c.rebalances[i].leader in c.replicas
    requires var b := c.rebalances[i];
      && c.replicas[b.leader] == Advanced(start, applied)
      && ComeNext(c, start, DealOn(c.replicas[b.leader].state, b.dealing, arriving, applied).1)
    ensures var b := c.rebalances[i];
      var (d, all) := DealOn(c.replicas[b.leader].state, b.dealing, arriving, applied);
      Reaches(c, c.(replicas := c.replicas[b.leader := Advanced(start, all)],
                    rebalances := c.rebalances[i := Rebalance(b.leader, d)]))
    decreases |arriving|, c.replicas[c.rebalances[i].leader].state.total - c.rebalances[i].dealing.dealt
  {
    var b, now := c.rebalances[i], FirstBatch(arriving);
    var state := c.replicas[b.leader].state;
    var (d, all) := DealOn(state, b.dealing, arriving, applied);
    var read := Rebalance(b.leader, ReadGuard(b.dealing, state.total));
    var c1 := c.(rebalances := c.rebalances[i := read]);
    assert Next(c, Deal(i), c1);
    ReachesSelf(c);
    ReachesNext(c, c, Deal(i), c1);
    AppliesBatch(c1, b.leader, start, applied, now, all);
    var c2 := c1.(replicas := c1.replicas[b.leader := Advanced(start, applied + now)]);
    ReachesOn(c, c1, c2);
    if !read.dealing.done {
      ApplyLogConcat(start.state, applied, now);
      DealsOn(c2, i, start, LaterBatches(arriving), applied + now);
      var end := c.(replicas := c.replicas[b.leader := Advanced(start, all)],
                    rebalances := c.rebalances[i := Rebalance(b.leader, d)]);
      assert end == c2.(replicas := c2.replicas[b.leader := Advanced(start, all)],
                        rebalances := c2.rebalances[i := Rebalance(b.leader, d)]);
      ReachesOn(c, c2, end);
    }
  }

  // Whatever arrives while it is at work, Node.Rebalance does what a run of the cluster does.
  lemma {:induction false} RebalanceIsRun(c: Cluster, leader: string, arriving: seq<seq<LogEntry>>)
    requires leader in c.replicas && c.servers != []
    requires ComeNext(c, c.replicas[leader], Interleaved(c.replicas[leader].state, c.servers, arriving).1)
    ensures var p := c.replicas[leader];
      var (d, all) := Interleaved(p.state, c.servers, arriving);
      Reaches(c, c.(replicas := c.replicas[leader := Advanced(p, all)],
                    inFlight := c.inFlight + [ProposalOf(d, ApplyLog(p.state, all).total)]))
  {
    var p, i, now := c.replicas[leader], |c.rebalances|, FirstBatch(arriving);
    var (d, all) := Interleaved(p.state, c.servers, arriving);
    var c1 := c.(rebalances := c.rebalances + [Rebalance(leader, Dealing(c.servers, 0, false))]);
    assert Next(c, Begin(leader), c1);
    ReachesSelf(c);
    ReachesNext(c, c, Begin(leader), c1);
    assert Advanced(p, []) == p && [] + now == now;
    AppliesBatch(c1, leader, p, [], now, all);
    var c2 := c1.(replicas := c1.replicas[leader := Advanced(p, now)]);
    ReachesOn(c, c1, c2);
    DealsOn(c2, i, p, LaterBatches(arriving), now);
    var c3 := c.(replicas := c.replicas[leader := Advanced(p, all)],
                 rebalances := c.rebalances + [Rebalance(leader, d)]);
    assert c3 == c2.(replicas := c2.replicas[leader := Advanced(p, all)],
                     rebalances := c2.rebalances[i := Rebalance(leader, d)]);
    ReachesOn(c, c2, c3);
    var end := c3.(rebalances := c.rebalances,
                   inFlight := c.inFlight + [ProposalOf(d, ApplyLog(p.state, all).total)]);
    assert Drop(c3.rebalances, i) == c.rebalances;
    assert Next(c3, Propose(i), end);
    ReachesNext(c, c3, Propose(i), end);
  }

  // --- Every number between two configured ones can be dealt, and any configured one stamped ---

  function TotalOf(configured: map<string, nat>, r: string): nat
    requires r in configured
  {
    ConfiguredTotal(configured[r])
  }

  // A node that has applied nothing proposes the assignment of its configured number of shards.
  lemma FreshProposal(c: Cluster, r: string, total: nat)
    requires r in c.replicas && c.replicas[r] == Replica(InitialState(total), 0) && c.servers != []
    ensures Reaches(c, c.(inFlight := c.inFlight + [AssignCommand(AssignmentFor(c.servers, total))]))
  {
    DealsUndisturbed(InitialState(total), Dealing(c.servers, 0, false));
    RebalanceIsRun(c, r, []);
    assert c.replicas[r := Advanced(c.replicas[r], [])] == c.replicas;
  }

  // Nothing before the first reads, then one entry each before the last two.
  function Late(quiet: nat, first: LogEntry, second: LogEntry): seq<seq<LogEntry>> {
    if quiet == 0 then [[first], [second]] else [[]] + Late(quiet - 1, first, second)
  }

  // A number of shards that drops while the loop runs ends it there.
  lemma {:induction false} DealsUpTo(state: Assignment, d: Dealing, dealt: nat, first: LogEntry, second: LogEntry)
    requires !d.done && d.dealt < dealt <= state.total
    requires IsAssign(first) && first.payload.a.total <= dealt
    ensures DealOn(state, d, Late(dealt - d.dealt - 1, first, second), [])
         == (Dealing(d.servers, dealt, true), [first, second])
    decreases dealt - d.dealt
  {
    var d' := ReadGuard(d, state.total);
    if d'.dealt < dealt {
      DealsUpTo(state, d', dealt, first, second);
    } else {
      assert ApplyLog(state, [first]) == first.payload.a;
      assert [] + [first] == [first] && [first] + [second] == [first, second];
      assert Late(0, first, second)[1..] == [[second]];
    }
  }

  function Empty(configured: map<string, nat>, servers: seq<string>): Cluster {
    Cluster(configured, servers, [], [], [], map[], {})
  }

  function Fresh(configured: map<string, nat>, r: string): Replica
    requires r in configured
  {
    Replica(InitialState(TotalOf(configured, r)), 0)
  }

  lemma Boots(c: Cluster, r: string)
    requires r in c.configured && c.rebalances == []
    ensures Reaches(c, c.(replicas := c.replicas[r := Fresh(c.configured, r)]))
  {
    var c' := c.(replicas := c.replicas[r := Fresh(c.configured, r)]);
    assert Next(c, Boot(r), c');
    ReachesSelf(c);
    ReachesNext(c, c, Boot(r), c');
  }

  lemma CommitsFirst(c: Cluster, rest: seq<LogEntry>)
    requires c.inFlight != [] && rest == c.inFlight[1..]
    ensures Reaches(c, c.(log := c.log + [c.inFlight[0]], inFlight := rest))
  {
    var c' := c.(log := c.log + [c.inFlight[0]], inFlight := rest);
    assert Drop(c.inFlight, 0) == rest;
    assert Next(c, Commit(0), c');
    ReachesSelf(c);
    ReachesNext(c, c, Commit(0), c');
  }

  // Nodes low, stamp and high start, and the first two propose the assignments of their own
  // numbers of shards, which are committed.
  lemma TwoCommitted(configured: map<string, nat>, servers: seq<string>, low: string, stamp: string, high: string)
    returns (c: Cluster)
    requires servers != [] && low in configured && stamp in configured && high in configured
    ensures Reaches(Empty(configured, servers), c)
    ensures c.configured == configured && c.servers == servers && c.rebalances == [] && c.inFlight == []
    ensures c.log == [AssignCommand(AssignmentFor(servers, TotalOf(configured, low))),
                      AssignCommand(AssignmentFor(servers, TotalOf(configured, stamp)))]
    ensures high in c.replicas && c.replicas[high] == Fresh(configured, high)
  {
    var e := AssignCommand(AssignmentFor(servers, TotalOf(configured, low)));
    var f := AssignCommand(AssignmentFor(servers, TotalOf(configured, stamp)));
    var c0 := Empty(configured, servers);
    Boots(c0, low);
    var c1 := c0.(replicas := map[low := Fresh(configured, low)]);
    Boots(c1, stamp);
    var c2 := c1.(replicas := c1.replicas[stamp := Fresh(configured, stamp)]);
    Boots(c2, high);
    var c3 := c2.(replicas := c2.replicas[high := Fresh(configured, high)]);
    ReachesOn(c0, c1, c2);
    ReachesOn(c0, c2, c3);
    FreshProposal(c3, low, TotalOf(configured, low));
    assert [] + [e] == [e] && [e] + [f] == [e, f];
    var c4 := c3.(inFlight := [e]);
    ReachesOn(c0, c3, c4);
    FreshProposal(c4, stamp, TotalOf(configured, stamp));
    var c5 := c4.(inFlight := [e, f]);
    ReachesOn(c0, c4, c5);
    CommitsFirst(c5, [f]);
    var c6 := c5.(log := [e], inFlight := [f]);
    ReachesOn(c0, c5, c6);
    CommitsFirst(c6, []);
    c := c6.(log := [e, f], inFlight := []);
    ReachesOn(c0, c6, c);
  }

  // A rebalance that deals shards until the first entry ends the loop, and stamps what the second
  // one brings.
  lemma RaceProposed(c: Cluster, high: string, total: nat, dealt: nat, first: LogEntry, second: LogEntry)
    requires high in c.replicas && c.replicas[high] == Replica(InitialState(total), 0) && c.servers != []
    requires c.log == [first, second] && IsAssign(first) && IsAssign(second)
    requires 0 < dealt <= total && first.payload.a.total <= dealt
    ensures Reaches(c, c.(replicas := c.replicas[high := Replica(second.payload.a, 2)],
                          inFlight := c.inFlight +
                            [AssignCommand(Stamped(c.servers, dealt, second.payload.a.total))]))
  {
    var arriving := [[]] + Late(dealt - 1, first, second);
    assert arriving[1..] == Late(dealt - 1, first, second);
    DealsUpTo(InitialState(total), Dealing(c.servers, 0, false), dealt, first, second);
    assert Interleaved(InitialState(total), c.servers, arriving) == (Dealing(c.servers, dealt, true), [first, second]);
    assert c.log[0..2] == c.log && ApplyLog(InitialState(total), [first, second]) == second.payload.a;
    RebalanceIsRun(c, high, arriving);
  }

  // Node high deals shards until it applies the assign of low, and stamps what it has read after
  // it applied the assign of stamp.
  lemma RaceCommitted(configured: map<string, nat>, servers: seq<string>, low: string, stamp: string, high: string,
                      dealt: nat) returns (c: Cluster)
    requires servers != [] && low in configured && stamp in configured && high in configured
    requires TotalOf(configured, low) <= dealt <= TotalOf(configured, high)
    ensures Reaches(Empty(configured, servers), c)
    ensures c.configured == configured && c.rebalances == [] && |c.log| == 3
    ensures c.log[2] == AssignCommand(Stamped(servers, dealt, TotalOf(configured, stamp)))
  {
    var b := TwoCommitted(configured, servers, low, stamp, high);
    var e, f := b.log[0], b.log[1];
    RaceProposed(b, high, TotalOf(configured, high), dealt, e, f);
    var g := AssignCommand(Stamped(servers, dealt, TotalOf(configured, stamp)));
    assert [] + [g] == [g];
    var b' := b.(replicas := b.replicas[high := Replica(f.payload.a, 2)], inFlight := [g]);
    ReachesOn(Empty(configured, servers), b, b');
    CommitsFirst(b', []);
    c := b'.(log := b.log + [g], inFlight := []);
    ReachesOn(Empty(configured, servers), b', c);
  }

  // For any three nodes, whether they are different or not, some run brings any node from its
  // own number of shards to an assignment with any number dealt between the configured ones of
  // the first two, stamped with that of the third. SeenAssignIsDealt says that there are no others.
  lemma RaceReachable(configured: map<string, nat>, servers: seq<string>, low: string, stamp: string, high: string,
                      dealt: nat, r: string) returns (run: seq<Cluster>, i: nat)
    requires servers != [] && Distinct(servers)
    requires low in configured && stamp in configured && high in configured && r in configured
    requires TotalOf(configured, low) <= dealt <= TotalOf(configured, high)
    ensures IsRun(run, configured) && i < |run|
    ensures r in run[i].replicas && run[i].replicas[r].state == InitialState(TotalOf(configured, r))
    ensures var c := run[|run| - 1];
      && r in c.replicas && HasSeenAssign(c, c.replicas[r])
      && c.replicas[r].state == Stamped(servers, dealt, TotalOf(configured, stamp))
  {
    var c0 := Empty(configured, servers);
    var c := RaceCommitted(configured, servers, low, stamp, high, dealt);
    Boots(c, r);
    var c1 := c.(replicas := c.replicas[r := Fresh(configured, r)]);
    ReachesOn(c0, c, c1);
    assert c1.log[0..3] == c1.log;
    AppliesAll(c1, r, c1.log);
    var c2 := c1.(replicas := c1.replicas[r := Advanced(c1.replicas[r], c1.log)]);
    var p :| IsPath(p, c0, c1);
    var q :| IsPath(q, c1, c2);
    run, i := p + q[1..], |p| - 1;
    forall j | 0 < j < |run|
      ensures CanStep(run[j - 1], run[j])
    {
      if j >= |p| {
        assert run[j] == q[j - |p| + 1] && run[j - 1] == q[j - |p|];
      }
    }
    assert run[|run| - 1] == c2;
    assert c2.log[..3] == c2.log;
  }

  // --- When no run goes wrong ---

  ghost predicate Settled(c: Cluster, r: string) {
    && r in c.replicas && HasSeenAssign(c, c.replicas[r])
    && "" !in c.replicas[r].state.members && c.replicas[r].state.total > 0
  }

  ghost predicate KeyOwned(run: seq<Cluster>, i: nat, r: string, hash: nat) {
    i < |run| && Settled(run[i], r) ==>
      var a := run[i].replicas[r].state; OwnerOfHash(a, hash) in a.members
  }

  ghost predicate ReadHarmless(run: seq<Cluster>, i: nat, j: nat, r: string, hash: nat) {
    i <= j < |run| && r in run[i].replicas && run[i].replicas[r].state.total > 0 && Settled(run[j], r) ==>
      ReadsSame(run[j].replicas[r].state, run[i].replicas[r].state.total, hash)
  }

  ghost predicate AlwaysOwned(configured: map<string, nat>) {
    forall run, i: nat, r, hash: nat :: IsRun(run, configured) ==> KeyOwned(run, i, r, hash)
  }

  ghost predicate AlwaysHarmless(configured: map<string, nat>) {
    forall run, i: nat, j: nat, r, hash: nat :: IsRun(run, configured) ==> ReadHarmless(run, i, j, r, hash)
  }

  ghost predicate AllEqual(configured: map<string, nat>) {
    forall r, q :: r in configured && q in configured ==> TotalOf(configured, r) == TotalOf(configured, q)
  }

  // In every run every key has an owner among the members, if and only if all nodes are
  // configured with the same number of shards; and likewise for the early read.
  lemma EqualConfigurationsIff(configured: map<string, nat>)
    ensures AlwaysOwned(configured) <==> AllEqual(configured)
    ensures AlwaysHarmless(configured) <==> AllEqual(configured)
  {
    if AllEqual(configured) {
      forall run: seq<Cluster>, i: nat, r, hash: nat | IsRun(run, configured)
        ensures KeyOwned(run, i, r, hash)
      {
        if i < |run| && Settled(run[i], r) {
          TotalIsConstant(run, configured, i, r);
          assert EqualTotals(configured, run[i].replicas[r].state.total);
          UniqueOwner(run, configured, i, r);
        }
      }
      forall run: seq<Cluster>, i: nat, j: nat, r, hash: nat | IsRun(run, configured)
        ensures ReadHarmless(run, i, j, r, hash)
      {
        if i <= j < |run| && r in run[i].replicas && Settled(run[j], r) {
          TotalIsConstant(run, configured, j, r);
          UnlockedReadHarmless(run, configured, run[j].replicas[r].state.total, i, j, r, hash);
        }
      }
    } else {
      var low, high :| low in configured && high in configured && TotalOf(configured, low) < TotalOf(configured, high);
      // low deals as many shards as it is configured with and stamps the number of high
      var servers, dealt, total := ["a"], TotalOf(configured, low), TotalOf(configured, high);
      var run, i := RaceReachable(configured, servers, low, high, low, dealt, low);
      var j := |run| - 1;
      MembersOrderPreservingBijection(servers, dealt, total);
      AllOwnedIff(servers, dealt, total);
      assert Settled(run[j], low) && !KeyOwned(run, j, low, dealt);
      EarlyReadIff(servers, dealt, dealt, total);
      var hash: nat :| !ReadsSame(run[j].replicas[low].state, dealt, hash);
      assert !ReadHarmless(run, i, j, low, hash);
    }
  }
}
