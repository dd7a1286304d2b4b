// Sorting as the source uses it: sort.Strings and sort.Slice give the sorted permutation of
// their argument, and there is only one.
module Ordering {

  predicate Distinct<T(==)>(s: seq<T>) {
    forall i, j :: 0 <= i < j < |s| ==> s[i] != s[j]
  }

  // --- Strings in lexicographic order ---

  predicate StringLeq(a: string, b: string) {
    a == "" || (b != "" && (a[0] < b[0] || (a[0] == b[0] && StringLeq(a[1..], b[1..]))))
  }

  lemma {:induction false} StringLeqTotal(a: string, b: string)
    ensures StringLeq(a, b) || StringLeq(b, a)
    ensures StringLeq(a, b) && StringLeq(b, a) ==> a == b
  {
    if a != "" && b != "" {
      StringLeqTotal(a[1..], b[1..]);
      assert a == [a[0]] + a[1..] && b == [b[0]] + b[1..];
    }
  }

  lemma {:induction false} StringLeqTransitive(a: string, b: string, c: string)
    requires StringLeq(a, b) && StringLeq(b, c)
    ensures StringLeq(a, c)
  {
    if a != "" && a[0] == b[0] == c[0] {
      StringLeqTransitive(a[1..], b[1..], c[1..]);
    }
  }

  // Character by character: a is a prefix of b, or the first characters that differ decide.
  lemma {:induction false} StringLeqMeaning(a: string, b: string)
    ensures StringLeq(a, b) <==>
      a <= b || exists i :: 0 <= i < |a| && i < |b| && a[..i] == b[..i] && a[i] < b[i]
  {
    if a != "" && b != "" {
      var a1, b1 := a[1..], b[1..];
      StringLeqMeaning(a1, b1);
      assert a == [a[0]] + a1 && b == [b[0]] + b1;
      if a[0] < b[0] {
        assert a[..0] == b[..0];
      } else if a[0] == b[0] {
        assert a <= b <==> a1 <= b1;
        if i :| 0 <= i < |a1| && i < |b1| && a1[..i] == b1[..i] && a1[i] < b1[i] {
          assert a[..i + 1] == [a[0]] + a1[..i] && b[..i + 1] == [b[0]] + b1[..i];
          assert a[i + 1] < b[i + 1];
        }
        if i :| 0 <= i < |a| && i < |b| && a[..i] == b[..i] && a[i] < b[i] {
          assert a1[..i - 1] == a[..i][1..] && b1[..i - 1] == b[..i][1..];
          assert a1[i - 1] < b1[i - 1];
        }
      } else {
        forall i | 0 <= i < |a| && i < |b| && a[i] < b[i]
          ensures a[..i] != b[..i]
        {
          assert i > 0 && a[..i][0] != b[..i][0];
        }
      }
    }
  }

  // Two strings of which the first comes before the second at some character.
  lemma EarlierAt(a: string, b: string, i: nat)
    requires i < |a| && i < |b| && a[..i] == b[..i] && a[i] < b[i]
    ensures StringLeq(a, b) && a != b && !StringLeq(b, a)
  {
    StringLeqMeaning(a, b);
    StringLeqTotal(a, b);
  }

  ghost predicate Sorted(s: seq<string>) {
    forall i, j :: 0 <= i < j < |s| ==> StringLeq(s[i], s[j])
  }

  function InsertString(x: string, s: seq<string>): seq<string> {
    if s == [] then [x]
    else if StringLeq(x, s[0]) then [x] + s
    else [s[0]] + InsertString(x, s[1..])
  }

  // sort.Strings
  function SortStrings(s: seq<string>): seq<string> {
    if s == [] then [] else InsertString(s[0], SortStrings(s[1..]))
  }

  lemma {:induction false} InsertKeepsElements(x: string, s: seq<string>)
    ensures multiset(InsertString(x, s)) == multiset(s) + multiset{x}
    ensures forall y :: y in InsertString(x, s) <==> y == x || y in s
  {
    if s != [] {
      assert s == [s[0]] + s[1..];
      if !StringLeq(x, s[0]) {
        InsertKeepsElements(x, s[1..]);
      }
    }
  }

  lemma {:induction false} InsertKeepsSorted(x: string, s: seq<string>)
    requires Sorted(s)
    ensures Sorted(InsertString(x, s))
  {
    if s != [] {
      StringLeqTotal(x, s[0]);
      if StringLeq(x, s[0]) {
        forall j | 0 < j < |s|
          ensures StringLeq(x, s[j])
        {
          StringLeqTransitive(x, s[0], s[j]);
        }
      } else {
        InsertKeepsSorted(x, s[1..]);
        InsertKeepsElements(x, s[1..]);
        var rest := InsertString(x, s[1..]);
        forall j | 0 <= j < |rest|
          ensures StringLeq(s[0], rest[j])
        {
          assert rest[j] in rest;
          assert rest[j] == x || rest[j] in s[1..];
        }
      }
    }
  }

  lemma {:induction false} SortSorts(s: seq<string>)
    ensures Sorted(SortStrings(s))
    ensures multiset(SortStrings(s)) == multiset(s)
  {
    if s != [] {
      assert s == [s[0]] + s[1..];
      SortSorts(s[1..]);
      InsertKeepsElements(s[0], SortStrings(s[1..]));
      InsertKeepsSorted(s[0], SortStrings(s[1..]));
    }
  }

  lemma {:induction false} SortedUnique(a: seq<string>, b: seq<string>)
    requires Sorted(a) && Sorted(b)
    requires multiset(a) == multiset(b)
    ensures a == b
  {
    assert |multiset(a)| == |a| && |multiset(b)| == |b|;
    if a != [] {
      SameFirst(a, b);
      assert a == [a[0]] + a[1..] && b == [b[0]] + b[1..];
      assert multiset(a[1..]) == multiset(a) - multiset{a[0]};
      assert multiset(b[1..]) == multiset(b) - multiset{b[0]};
      SortedUnique(a[1..], b[1..]);
    }
  }

  lemma SameFirst(a: seq<string>, b: seq<string>)
    requires Sorted(a) && Sorted(b) && a != [] && b != []
    requires multiset(a) == multiset(b)
    ensures a[0] == b[0]
  {
    assert a[0] in multiset(b) && b[0] in multiset(a);
    var i :| 0 <= i < |b| && b[i] == a[0];
    var j :| 0 <= j < |a| && a[j] == b[0];
    StringLeqTotal(a[0], b[0]);
  }

  // Equal multisets: nothing else about a list reaches its sorted form.
  lemma SortOfPermutation(a: seq<string>, b: seq<string>)
    requires multiset(a) == multiset(b)
    ensures SortStrings(a) == SortStrings(b)
  {
    SortSorts(a);
    SortSorts(b);
    SortedUnique(SortStrings(a), SortStrings(b));
  }

  // --- Permutations, duplicates and sets ---

  lemma {:induction false} DistinctCount<T>(s: seq<T>)
    ensures Distinct(s) <==> forall x :: x in s ==> multiset(s)[x] == 1
  {
    if s != [] {
      var n := |s| - 1;
      DistinctCount(s[..n]);
      assert s == s[..n] + [s[n]];
      if Distinct(s) {
        forall x | x in s
          ensures multiset(s)[x] == 1
        {
          assert s[n] !in s[..n];
        }
      } else {
        var i, j :| 0 <= i < j < |s| && s[i] == s[j];
        if j < n {
          assert s[..n][i] == s[..n][j];
          var x :| x in s[..n] && multiset(s[..n])[x] != 1;
          assert x in s && multiset(s)[x] >= multiset(s[..n])[x] >= 1;
        } else {
          assert s[i] in s[..n];
          assert multiset(s)[s[n]] >= 2;
          assert s[n] in s;
        }
      }
    }
  }

  // Two listings of the same things without repetition are permutations of each other.
  lemma SameElements<T>(a: seq<T>, b: seq<T>)
    requires Distinct(a) && Distinct(b) && forall x :: x in a <==> x in b
    ensures multiset(a) == multiset(b)
  {
    DistinctCount(a);
    DistinctCount(b);
    forall x
      ensures multiset(a)[x] == multiset(b)[x]
    {
      if x in a {
        assert x in b;
      } else {
        assert x !in b;
      }
    }
  }

  lemma PermutationDistinct<T>(a: seq<T>, b: seq<T>)
    requires multiset(a) == multiset(b)
    ensures Distinct(a) <==> Distinct(b)
    ensures forall x :: x in a <==> x in b
    ensures |a| == |b|
  {
    DistinctCount(a);
    DistinctCount(b);
    assert forall x :: x in a <==> x in multiset(a);
    assert forall x :: x in b <==> x in multiset(b);
    assert |multiset(a)| == |a| && |multiset(b)| == |b|;
  }

  lemma DistinctConcat<T>(a: seq<T>, b: seq<T>)
    requires Distinct(a) && Distinct(b) && forall x :: x in a ==> x !in b
    ensures Distinct(a + b)
  {
    forall i, j | 0 <= i < j < |a + b|
      ensures (a + b)[i] != (a + b)[j]
    {
      assert i < |a| <= j ==> (a + b)[i] in a && (a + b)[j] in b;
    }
  }

  // --- Natural numbers ---

  ghost predicate Ascending(s: seq<nat>) {
    forall i, j :: 0 <= i < j < |s| ==> s[i] < s[j]
  }

  function InsertNat(x: nat, s: seq<nat>): seq<nat> {
    if s == [] then [x]
    else if x <= s[0] then [x] + s
    else [s[0]] + InsertNat(x, s[1..])
  }

  function SortNats(s: seq<nat>): seq<nat> {
    if s == [] then [] else InsertNat(s[0], SortNats(s[1..]))
  }

  lemma {:induction false} InsertNatAscending(x: nat, s: seq<nat>)
    requires Ascending(s) && x !in s
    ensures Ascending(InsertNat(x, s))
    ensures forall y :: y in InsertNat(x, s) <==> y == x || y in s
  {
    if s != [] {
      assert s == [s[0]] + s[1..];
      if x > s[0] {
        InsertNatAscending(x, s[1..]);
        var rest := InsertNat(x, s[1..]);
        assert InsertNat(x, s) == [s[0]] + rest;
        forall j | 0 <= j < |rest|
          ensures s[0] < rest[j]
        {
          assert rest[j] in rest;
          assert rest[j] == x || rest[j] in s[1..];
        }
      }
    }
  }

  lemma {:induction false} SortNatsAscending(s: seq<nat>)
    requires Distinct(s)
    ensures Ascending(SortNats(s))
    ensures forall y :: y in SortNats(s) <==> y in s
  {
    if s != [] {
      assert s == [s[0]] + s[1..];
      SortNatsAscending(s[1..]);
      InsertNatAscending(s[0], SortNats(s[1..]));
    }
  }

  // A strictly ascending list is determined by its elements.
  lemma {:induction false} AscendingUnique(a: seq<nat>, b: seq<nat>)
    requires Ascending(a) && Ascending(b)
    requires forall x :: x in a <==> x in b
    ensures a == b
  {
    assert b != [] ==> b[0] in b;
    if a != [] {
      assert a[0] in a && a[0] in b;
      assert b != [] && b[0] in a;
      assert a == [a[0]] + a[1..] && b == [b[0]] + b[1..];
      assert a[0] == b[0];
      forall x
        ensures x in a[1..] <==> x in b[1..]
      {
        assert x in a[1..] ==> x in a && x > a[0];
        assert x in b[1..] ==> x in b && x > b[0];
      }
      AscendingUnique(a[1..], b[1..]);
    }
  }

  // Any set of strings can be listed in order.
  lemma {:induction false} SortedKeysExist(s: set<string>) returns (keys: seq<string>)
    ensures Sorted(keys) && Distinct(keys) && forall k :: k in keys <==> k in s
  {
    if s == {} {
      keys := [];
    } else {
      var x :| x in s;
      var rest := SortedKeysExist(s - {x});
      keys := InsertString(x, rest);
      InsertKeepsSorted(x, rest);
      InsertKeepsElements(x, rest);
      DistinctCount(rest);
      DistinctCount(keys);
    }
  }

  lemma {:induction false} DistinctSize<T>(s: seq<T>)
    requires Distinct(s)
    ensures |set x | x in s| == |s|
  {
    if s == [] {
      assert (set x | x in s) == {};
    } else {
      var n := |s| - 1;
      DistinctSize(s[..n]);
      assert s[n] !in s[..n];
      assert (set x | x in s) == (set x | x in s[..n]) + {s[n]};
    }
  }

  // --- The first elements of a set of strings ---

  // How many come before a string.
  ghost function Rank(s: set<string>, k: string): nat {
    |set j | j in s && j != k && StringLeq(j, k)|
  }

  ghost function FirstIn(s: set<string>, n: nat): set<string> {
    set k | k in s && Rank(s, k) < n
  }

  // In a listing in order the rank is the position.
  lemma SortedRank(keys: seq<string>, s: set<string>, i: nat)
    requires Sorted(keys) && Distinct(keys) && i < |keys| && forall k :: k in keys <==> k in s
    ensures Rank(s, keys[i]) == i
  {
    var before := set j | j in s && j != keys[i] && StringLeq(j, keys[i]);
    assert Distinct(keys[..i]);
    DistinctSize(keys[..i]);
    forall j
      ensures j in before <==> j in keys[..i]
    {
      if j in before {
        var m :| 0 <= m < |keys| && keys[m] == j;
        StringLeqTotal(j, keys[i]);
        assert m < i;
        assert keys[..i][m] == j;
      }
      if j in keys[..i] {
        var m :| 0 <= m < i && keys[m] == j;
        assert j in keys;
      }
    }
    assert before == set x | x in keys[..i];
  }

  // So the first n are those at the positions below n.
  lemma FirstSorted(keys: seq<string>, s: set<string>, n: nat)
    requires Sorted(keys) && Distinct(keys) && forall k :: k in keys <==> k in s
    ensures var first := if n <= |keys| then keys[..n] else keys;
      forall k :: k in first <==> k in FirstIn(s, n)
    ensures |keys| == |s|
  {
    DistinctSize(keys);
    assert s == set k | k in keys;
    forall i | 0 <= i < |keys|
      ensures keys[i] in FirstIn(s, n) <==> i < n
    {
      SortedRank(keys, s, i);
    }
    var first := if n <= |keys| then keys[..n] else keys;
    forall k | k in FirstIn(s, n)
      ensures k in first
    {
      assert k in keys;
      var i :| 0 <= i < |keys| && keys[i] == k;
      assert first[i] == k;
    }
  }

  lemma FirstSize(s: set<string>, n: nat)
    ensures |FirstIn(s, n)| == if |s| <= n then |s| else n
    ensures |s| <= n ==> FirstIn(s, n) == s
  {
    var keys := SortedKeysExist(s);
    FirstSorted(keys, s, n);
    var first := if n <= |keys| then keys[..n] else keys;
    DistinctSize(first);
    assert FirstIn(s, n) == set k | k in first;
    if |s| <= n {
      forall k | k in s
        ensures k in FirstIn(s, n)
      {
        assert k in first;
      }
    }
  }
}
