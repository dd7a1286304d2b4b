// How the leader of a partitioned cluster assigns shards to members, and what follows from it.
module ShardAssignment {
  import opened Ordering

  // Member numbers, shard owners and the number of shards: the payload of an "assign" command,
  // the content of a snapshot, and the state of every replica.
  datatype Assignment = Assignment(members: map<string, nat>, shards: map<nat, string>, total: nat)

  // The sorted names are numbered from 0 and the shards are dealt out to them in turn.
  function NumberedMembers(names: seq<string>): map<string, nat> {
    if names == [] then map[]
    else
      var n := |names| - 1;
      NumberedMembers(names[..n])[names[n] := n]
  }

  function DealtShards(names: seq<string>, total: nat): map<nat, string>
    requires names != []
  {
    map shard: nat | 0 <= shard < total :: names[shard % |names|]
  }

  lemma DealtStep(names: seq<string>, shard: nat)
    requires names != []
    ensures DealtShards(names, shard + 1) == DealtShards(names, shard)[shard := names[shard % |names|]]
  {
  }

  lemma {:induction false} DealtCount(names: seq<string>, dealt: nat)
    requires names != []
    ensures |DealtShards(names, dealt)| == dealt
  {
    if dealt == 0 {
      assert DealtShards(names, 0) == map[];
    } else {
      DealtCount(names, dealt - 1);
      DealtStep(names, dealt - 1);
    }
  }

  lemma SortNonEmpty(servers: seq<string>)
    requires servers != []
    ensures SortStrings(servers) != []
  {
    SortSorts(servers);
    assert servers[0] in multiset(SortStrings(servers));
  }

  // What the leader proposes for the given servers when it has dealt that many shards and reads
  // total as the number of shards in the end.
  function Stamped(servers: seq<string>, dealt: nat, total: nat): Assignment
    requires servers != []
  {
    var names := SortStrings(servers);
    SortNonEmpty(servers);
    Assignment(NumberedMembers(names), DealtShards(names, dealt), total)
  }

  // The same when the number of shards does not change meanwhile.
  function AssignmentFor(servers: seq<string>, total: nat): Assignment
    requires servers != []
  {
    Stamped(servers, total, total)
  }

  // --- Lookups; a missing key of a Go map reads as the zero value ---

  function OwnerOfShard(a: Assignment, shard: nat): string {
    if shard in a.shards then a.shards[shard] else ""
  }

  function OwnerOfHash(a: Assignment, hash: nat): string
    requires a.total > 0
  {
    OwnerOfShard(a, hash % a.total)
  }

  function ShardsOf(a: Assignment, name: string): set<nat> {
    set shard | shard in a.shards && a.shards[shard] == name
  }

  // --- The member map ---

  lemma {:induction false} NumberedBy(names: seq<string>)
    requires Distinct(names)
    ensures forall name :: name in NumberedMembers(names) <==> name in names
    ensures forall i :: 0 <= i < |names| ==> names[i] in NumberedMembers(names) && NumberedMembers(names)[names[i]] == i
  {
    if names != [] {
      var n := |names| - 1;
      NumberedBy(names[..n]);
      assert names == names[..n] + [names[n]];
      forall i | 0 <= i < n
        ensures names[i] in NumberedMembers(names) && NumberedMembers(names)[names[i]] == i
      {
        assert names[..n][i] == names[i];
      }
    }
  }

  // The sorted server list, with what the lemmas below need of it.
  lemma SortedServers(servers: seq<string>) returns (names: seq<string>)
    requires servers != [] && Distinct(servers)
    ensures names == SortStrings(servers)
    ensures Sorted(names) && Distinct(names) && |names| == |servers|
    ensures forall name :: name in names <==> name in servers
  {
    names := SortStrings(servers);
    SortSorts(servers);
    PermutationDistinct(names, servers);
  }

  ghost predicate HasNumber(members: map<string, nat>, i: nat) {
    exists name :: name in members && members[name] == i
  }

  // The member map numbers exactly the servers, 0 to N-1, in the order of their names.
  lemma MembersOrderPreservingBijection(servers: seq<string>, dealt: nat, total: nat)
    requires servers != [] && Distinct(servers)
    ensures var m := Stamped(servers, dealt, total).members;
      && (forall name :: name in m <==> name in servers)
      && (forall name :: name in m ==> m[name] < |servers|)
      && (forall i :: 0 <= i < |servers| ==> HasNumber(m, i))
      && (forall a, b :: a in m && b in m ==> (m[a] <= m[b] <==> StringLeq(a, b)))
    ensures forall a, b, i ::
      a in servers && b in servers && 0 <= i < |a| && i < |b| && a[..i] == b[..i] && a[i] < b[i] ==>
      Stamped(servers, dealt, total).members[a] < Stamped(servers, dealt, total).members[b]
  {
    var names := SortedServers(servers);
    var m := Stamped(servers, dealt, total).members;
    NumberedBy(names);
    forall i | 0 <= i < |servers|
      ensures HasNumber(m, i)
    {
      assert names[i] in m && m[names[i]] == i;
    }
    forall a, b | a in m && b in m
      ensures m[a] <= m[b] <==> StringLeq(a, b)
    {
      var i :| 0 <= i < |names| && names[i] == a;
      var j :| 0 <= j < |names| && names[j] == b;
      StringLeqTotal(a, b);
      assert i < j ==> StringLeq(a, b);
      assert j < i ==> StringLeq(b, a);
    }
    forall a, b, i | a in servers && b in servers && 0 <= i < |a| && i < |b| && a[..i] == b[..i] && a[i] < b[i]
      ensures m[a] < m[b]
    {
      EarlierAt(a, b, i);
    }
  }

  // Shard s is dealt to the member numbered s modulo the number of members, up to the number
  // dealt, and the number of shards stamped is the one given.
  lemma DealtByNumber(servers: seq<string>, dealt: nat, total: nat)
    requires servers != [] && Distinct(servers)
    ensures var a := Stamped(servers, dealt, total);
      && a.total == total
      && (forall s: nat :: s in a.shards <==> s < dealt)
      && (forall s: nat :: s < dealt ==> a.shards[s] in a.members && a.members[a.shards[s]] == s % |servers|)
  {
    var names := SortedServers(servers);
    NumberedBy(names);
  }

  // The assignment depends on the set of servers alone.
  lemma OrderOfServersIrrelevant(servers1: seq<string>, servers2: seq<string>, dealt: nat, total: nat)
    requires servers1 != [] && servers2 != []
    requires Distinct(servers1) && Distinct(servers2)
    requires forall name :: name in servers1 <==> name in servers2
    ensures Stamped(servers1, dealt, total) == Stamped(servers2, dealt, total)
  {
    SameElements(servers1, servers2);
    SortOfPermutation(servers1, servers2);
  }

  // --- The shards of one member ---

  // How many of the shards below total the member numbered i of n gets.
  function Load(total: nat, n: nat, i: nat): nat
    requires i < n
  {
    total / n + if i < total % n then 1 else 0
  }

  // i, i + n, i + 2n, ...
  function Ladder(i: nat, n: nat, count: nat): seq<nat> {
    seq(count, k requires 0 <= k < count => i + k * n)
  }

  lemma LadderAscending(i: nat, n: nat, count: nat)
    requires n > 0
    ensures Ascending(Ladder(i, n, count))
  {
    forall j, k | 0 <= j < k < count
      ensures Ladder(i, n, count)[j] < Ladder(i, n, count)[k]
    {
      assert k * n == j * n + (k - j) * n;
      assert (k - j) * n >= n by { MulMonotone(1, k - j, n); }
    }
  }

  lemma MulMonotone(a: nat, b: nat, n: nat)
    requires a <= b
    ensures a * n <= b * n
  {
  }

  lemma DivModUnique(s: nat, n: nat, q: nat, r: nat)
    requires r < n && s == q * n + r
    ensures s / n == q && s % n == r
  {
    var q', r' := s / n, s % n;
    assert s == q' * n + r' by { assert s == n * (s / n) + s % n; }
    assert (q' + 1) * n == q' * n + n && (q + 1) * n == q * n + n;
    if q' < q {
      MulMonotone(q' + 1, q, n);
    } else if q < q' {
      MulMonotone(q + 1, q', n);
    }
  }

  // The ladder of load steps is exactly what is dealt to number i.
  lemma LadderElements(total: nat, n: nat, i: nat)
    requires i < n
    ensures forall s: nat :: s in Ladder(i, n, Load(total, n, i)) <==> s < total && s % n == i
  {
    var count := Load(total, n, i);
    forall s: nat
      ensures s in Ladder(i, n, count) <==> s < total && s % n == i
    {
      if s in Ladder(i, n, count) {
        var k :| 0 <= k < count && Ladder(i, n, count)[k] == s;
        DivModUnique(s, n, k, i);
        LoadBounds(total, n, i, k);
      }
      if s < total && s % n == i {
        var k := s / n;
        assert s == i + k * n by { assert s == n * (s / n) + s % n; }
        LoadBounds(total, n, i, k);
        assert Ladder(i, n, count)[k] == s;
      }
    }
  }

  lemma LoadBounds(total: nat, n: nat, i: nat, k: nat)
    requires i < n
    ensures k < Load(total, n, i) <==> i + k * n < total
  {
    var q, r := total / n, total % n;
    assert total == q * n + r by { assert total == n * (total / n) + total % n; }
    if k < q {
      MulMonotone(k + 1, q, n);
      assert (k + 1) * n == k * n + n;
    } else if k > q {
      MulMonotone(q + 1, k, n);
      assert (q + 1) * n == q * n + n;
    }
  }

  // An ascending listing of a member's shards is  i, i + N, i + 2N, ...  below the total, where
  // i is the member's number, and has as many entries as the load says.
  lemma ShardsAreLadder(servers: seq<string>, total: nat, name: string, listing: seq<nat>)
    requires servers != [] && Distinct(servers) && name in servers
    requires Ascending(listing)
    requires forall s :: s in listing <==> s in ShardsOf(AssignmentFor(servers, total), name)
    ensures var a, n := AssignmentFor(servers, total), |servers|;
      && name in a.members && a.members[name] < n
      && listing == Ladder(a.members[name], n, Load(total, n, a.members[name]))
  {
    var names := SortedServers(servers);
    var a, n := AssignmentFor(servers, total), |servers|;
    NumberedBy(names);
    var i :| 0 <= i < n && names[i] == name;
    LadderElements(total, n, i);
    LadderAscending(i, n, Load(total, n, i));
    forall s: nat
      ensures s in listing <==> s in Ladder(i, n, Load(total, n, i))
    {
      assert s in listing <==> s in ShardsOf(a, name);
      assert s < total && s % n != i ==> names[s % n] != name;
    }
    AscendingUnique(listing, Ladder(i, n, Load(total, n, i)));
  }

  // Loads differ by at most one, and no member goes without while there are enough shards.
  lemma LoadsBalanced(total: nat, n: nat, i: nat, j: nat)
    requires i < n && j < n
    ensures -1 <= Load(total, n, i) - Load(total, n, j) <= 1
    ensures n <= total ==> Load(total, n, i) >= 1
    ensures i <= j ==> Load(total, n, i) >= Load(total, n, j)
  {
    if n <= total {
      LoadBounds(total, n, i, 0);
    }
  }

  // The loads of all members add up to the number of shards.
  function TotalLoad(total: nat, n: nat, upTo: nat): nat
    requires upTo <= n
  {
    if upTo == 0 then 0 else TotalLoad(total, n, upTo - 1) + Load(total, n, upTo - 1)
  }

  lemma {:induction false} LoadsAddUp(total: nat, n: nat, upTo: nat)
    requires 0 < n && upTo <= n
    ensures TotalLoad(total, n, upTo) == upTo * (total / n) + (if upTo < total % n then upTo else total % n)
    ensures upTo == n ==> TotalLoad(total, n, n) == total
  {
    if upTo > 0 {
      LoadsAddUp(total, n, upTo - 1);
      assert upTo * (total / n) == (upTo - 1) * (total / n) + total / n;
    }
    assert total == n * (total / n) + total % n;
  }

  // Every hash has exactly one owner, which is a member, and lies in the shards of that member
  // and of no other.
  lemma OneOwner(servers: seq<string>, total: nat, hash: nat)
    requires servers != [] && Distinct(servers) && total > 0
    ensures var a := AssignmentFor(servers, total);
      && OwnerOfHash(a, hash) in a.members
      && OwnerOfHash(a, hash) in servers
      && forall name :: hash % total in ShardsOf(a, name) <==> name == OwnerOfHash(a, hash)
  {
    var names := SortedServers(servers);
    NumberedBy(names);
    var shard := hash % total;
    assert names[shard % |names|] in names;
  }

  ghost predicate IsOwned(a: Assignment, servers: seq<string>, shard: nat) {
    exists name :: name in servers && shard in ShardsOf(a, name)
  }

  // The members' shards together are exactly 0 to total-1.
  lemma ShardsCover(servers: seq<string>, total: nat)
    requires servers != [] && Distinct(servers)
    ensures var a := AssignmentFor(servers, total);
      && (forall s: nat :: s < total <==> IsOwned(a, servers, s))
      && (forall x, y :: x != y ==> ShardsOf(a, x) !! ShardsOf(a, y))
  {
    var names := SortedServers(servers);
    var a := AssignmentFor(servers, total);
    forall s: nat | s < total
      ensures IsOwned(a, servers, s)
    {
      var name := names[s % |names|];
      assert name in names && s in ShardsOf(a, name);
    }
  }

  // --- Keys without an owner ---

  lemma MemberCount(servers: seq<string>, dealt: nat, total: nat)
    requires servers != [] && Distinct(servers)
    ensures |Stamped(servers, dealt, total).members| == |servers|
  {
    var m := Stamped(servers, dealt, total).members;
    MembersOrderPreservingBijection(servers, dealt, total);
    DistinctSize(servers);
    assert m.Keys == set x | x in servers;
  }

  // A shard below the number of shards dealt is owned by a member; any other by nobody.
  lemma OwnerOfDealt(servers: seq<string>, dealt: nat, total: nat, shard: nat)
    requires servers != [] && Distinct(servers)
    ensures var a := Stamped(servers, dealt, total);
      && |a.shards| == dealt
      && (shard < dealt ==> OwnerOfShard(a, shard) in a.members && OwnerOfShard(a, shard) in servers)
      && (shard >= dealt ==> OwnerOfShard(a, shard) == "")
      && forall name :: shard in ShardsOf(a, name) <==> shard < dealt && name == OwnerOfShard(a, shard)
  {
    var names := SortedServers(servers);
    NumberedBy(names);
    DealtCount(names, dealt);
    assert shard < dealt ==> names[shard % |names|] in names;
  }

  // Every key is owned by a member if and only if no fewer shards were dealt than stamped, and
  // the hash that equals the number of shards dealt decides it.
  lemma AllOwnedIff(servers: seq<string>, dealt: nat, total: nat)
    requires servers != [] && Distinct(servers) && "" !in servers && total > 0
    ensures var a := Stamped(servers, dealt, total);
      && ((forall hash: nat :: OwnerOfHash(a, hash) in a.members) <==> total <= dealt)
      && (OwnerOfHash(a, dealt) in a.members <==> total <= dealt)
  {
    var a := Stamped(servers, dealt, total);
    MembersOrderPreservingBijection(servers, dealt, total);
    if total <= dealt {
      forall hash: nat
        ensures OwnerOfHash(a, hash) in a.members
      {
        OwnerOfDealt(servers, dealt, total, hash % total);
      }
    } else {
      SmallMod(dealt, total);
      OwnerOfDealt(servers, dealt, total, dealt);
      assert OwnerOfHash(a, dealt) !in a.members;
    }
  }

  // --- A lookup that uses a number of shards read earlier ---

  // With the number of shards t read before the assignment a was in place, a lookup still finds
  // the owner that a gives.
  predicate ReadsSame(a: Assignment, t: nat, hash: nat)
    requires t > 0 && a.total > 0
  {
    OwnerOfShard(a, hash % t) == OwnerOfHash(a, hash)
  }

  // The two numbers of shards are equal, or both are numbers of whole rounds over the n members
  // within what was dealt. Without any shard there is nothing to find.
  predicate Compatible(t: nat, dealt: nat, u: nat, n: nat)
    requires n > 0
  {
    t == u || dealt == 0 || (t <= dealt && u <= dealt && t % n == 0 && u % n == 0)
  }

  lemma DivMod(x: nat, n: nat)
    requires n > 0
    ensures x == (x / n) * n + x % n
  {
    assert x == n * (x / n) + x % n;
  }

  lemma MulAssociative(q: nat, k: nat, n: nat)
    ensures q * (k * n) == (q * k) * n
  {
  }

  lemma MulDistributes(a: nat, b: nat, n: nat)
    ensures (a + b) * n == a * n + b * n
  {
  }

  lemma ModOfSum(m: nat, s: nat, n: nat)
    requires n > 0
    ensures (m * n + s) % n == s % n
  {
    DivMod(s, n);
    MulDistributes(m, s / n, n);
    DivModUnique(m * n + s, n, m + s / n, s % n);
  }

  lemma ModOfMultiple(h: nat, t: nat, n: nat)
    requires n > 0 && t > 0 && t % n == 0
    ensures (h % t) % n == h % n
  {
    DivMod(t, n);
    DivMod(h, t);
    MulAssociative(h / t, t / n, n);
    ModOfSum((h / t) * (t / n), h % t, n);
  }

  lemma SmallMod(x: nat, n: nat)
    requires n > 0
    ensures x < n ==> x % n == x
    ensures n % n == 0 && 0 % n == 0
  {
    DivModUnique(n, n, 1, 0);
    if x < n {
      DivModUnique(x, n, 0, x);
    }
  }

  // The early read is harmless for every key if and only if the numbers are compatible, and the
  // hashes t, u and the number of shards dealt alone decide it.
  lemma EarlyReadIff(servers: seq<string>, t: nat, dealt: nat, u: nat)
    requires servers != [] && Distinct(servers) && "" !in servers && t > 0 && u > 0
    ensures var a := Stamped(servers, dealt, u);
      (forall hash: nat :: ReadsSame(a, t, hash)) <==> Compatible(t, dealt, u, |servers|)
    ensures var a := Stamped(servers, dealt, u);
      ReadsSame(a, t, t) && ReadsSame(a, t, u) && ReadsSame(a, t, dealt) <==> Compatible(t, dealt, u, |servers|)
  {
    var a := Stamped(servers, dealt, u);
    if Compatible(t, dealt, u, |servers|) {
      forall hash: nat
        ensures ReadsSame(a, t, hash)
      {
        CompatibleReadsSame(servers, t, dealt, u, hash);
      }
    }
    if ReadsSame(a, t, t) && ReadsSame(a, t, u) && ReadsSame(a, t, dealt) {
      WitnessesDecide(servers, t, dealt, u);
    }
  }

  lemma CompatibleReadsSame(servers: seq<string>, t: nat, dealt: nat, u: nat, hash: nat)
    requires servers != [] && Distinct(servers) && t > 0 && u > 0 && Compatible(t, dealt, u, |servers|)
    ensures ReadsSame(Stamped(servers, dealt, u), t, hash)
  {
    var names := SortedServers(servers);
    if t != u && dealt > 0 {
      ModOfMultiple(hash, t, |names|);
      ModOfMultiple(hash, u, |names|);
    }
  }

  // Two shards with the same owner in the end: neither is dealt, or both are and they lie the
  // same way in their rounds.
  lemma SameOwner(servers: seq<string>, dealt: nat, total: nat, i: nat, j: nat)
    requires servers != [] && Distinct(servers) && "" !in servers
    requires OwnerOfShard(Stamped(servers, dealt, total), i) == OwnerOfShard(Stamped(servers, dealt, total), j)
    ensures i < dealt <==> j < dealt
    ensures i < dealt ==> i % |servers| == j % |servers|
  {
    var names := SortedServers(servers);
    assert forall k :: 0 <= k < |names| ==> names[k] in names;
  }

  lemma WitnessesDecide(servers: seq<string>, t: nat, dealt: nat, u: nat)
    requires servers != [] && Distinct(servers) && "" !in servers && t > 0 && u > 0
    requires ReadsSame(Stamped(servers, dealt, u), t, t)
    requires ReadsSame(Stamped(servers, dealt, u), t, u)
    requires ReadsSame(Stamped(servers, dealt, u), t, dealt)
    ensures Compatible(t, dealt, u, |servers|)
  {
    if t != u && dealt > 0 {
      var small, large := if t < u then t else u, if t < u then u else t;
      SmallMod(small, large);
      SmallMod(large, small);
      SmallMod(0, large);
      SmallMod(0, |servers|);
      SameOwner(servers, dealt, u, 0, small);
      SameOwner(servers, dealt, u, 0, large % small);
      ModOfMultiple(large, small, |servers|);
      if dealt < large {
        SmallMod(dealt, large);
        SameOwner(servers, dealt, u, dealt % small, dealt);
      }
    }
  }

  // For two members: one shard read and two in place send the key with hash 1 to the wrong one;
  // two read and four in place are harmless, and so are four read with two stamped on four dealt;
  // four stamped on two dealt leave the key with hash 2 without an owner, and two read find one.
  lemma EarlyReadExamples()
    ensures !ReadsSame(AssignmentFor(["a", "b"], 2), 1, 1)
    ensures forall hash: nat :: ReadsSame(AssignmentFor(["a", "b"], 4), 2, hash)
    ensures forall hash: nat :: ReadsSame(Stamped(["a", "b"], 4, 2), 4, hash)
    ensures OwnerOfHash(Stamped(["a", "b"], 2, 4), 2) == "" && !ReadsSame(Stamped(["a", "b"], 2, 4), 2, 2)
  {
    var servers := ["a", "b"];
    EarlyReadIff(servers, 2, 4, 4);
    EarlyReadIff(servers, 4, 4, 2);
    OwnerOfDealt(servers, 2, 4, 2);
    if ReadsSame(AssignmentFor(servers, 2), 1, 1) {
      SameOwner(servers, 2, 2, 0, 1);
    }
    if ReadsSame(Stamped(servers, 2, 4), 2, 2) {
      SameOwner(servers, 2, 4, 0, 2);
    }
  }
}
