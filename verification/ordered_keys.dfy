/**
  The order in which a `std::map<std::string, _>` presents its keys: strictly ascending by
  `Strings.Less`. `SortedKeys` is that order for a set of keys; it is the only ascending
  enumeration of the set.
 */
module OrderedKeys {
  import opened Strings

  /** Strictly ascending, hence without repetitions. */
  predicate Ascending(s: seq<Bytes>) {
    forall i, j :: 0 <= i < j < |s| ==> Less(s[i], s[j])
  }

  /** `k` is the smallest key of `s`: where an in-order walk over `s` starts. */
  predicate IsLeast(k: Bytes, s: set<Bytes>) {
    k in s && forall j :: j in s && j != k ==> Less(k, j)
  }

  lemma {:induction false} LeastExists(s: set<Bytes>)
    requires s != {}
    ensures exists k :: IsLeast(k, s)
    decreases |s|
  {
    var x :| x in s;
    if s == {x} {
      assert IsLeast(x, s);
    } else {
      LeastExists(s - {x});
      var y :| IsLeast(y, s - {x});
      if Less(x, y) {
        forall j | j in s && j != x
          ensures Less(x, j)
        {
          if j != y {
            LessTransitive(x, y, j);
          }
        }
        assert IsLeast(x, s);
      } else {
        LessTotal(x, y);
        assert IsLeast(y, s);
      }
    }
  }

  lemma LeastUnique(s: set<Bytes>, a: Bytes, b: Bytes)
    requires IsLeast(a, s) && IsLeast(b, s)
    ensures a == b
  {
    LessAsymmetric(a, b);
  }

  /** The keys of `s` in the order an in-order walk of a `std::map` visits them. */
  ghost function SortedKeys(s: set<Bytes>): (r: seq<Bytes>)
    ensures Ascending(r)
    ensures forall k :: k in r <==> k in s
    ensures |r| == |s|
    decreases |s|
  {
    if s == {} then []
    else
      LeastExists(s);
      var k :| IsLeast(k, s);
      var rest := SortedKeys(s - {k});
      assert forall j :: 0 <= j < |rest| ==> rest[j] in s - {k};
      [k] + rest
  }

  /** The walk starts at the least key and continues with the walk over the others. */
  lemma SortedKeysStartsAtLeast(s: set<Bytes>, k: Bytes)
    requires IsLeast(k, s)
    ensures SortedKeys(s) == [k] + SortedKeys(s - {k})
  {
    var r := SortedKeys(s);
    assert r[0] in s;
    forall j | j in s && j != r[0]
      ensures Less(r[0], j)
    {
      var i :| 0 <= i < |r| && r[i] == j;
    }
    LeastUnique(s, r[0], k);
  }

  /** Moving the least unvisited key to the visited part keeps the whole walk the same. */
  lemma WalkAdvances(visited: seq<Bytes>, rest: set<Bytes>, k: Bytes)
    requires IsLeast(k, rest)
    ensures visited + SortedKeys(rest) == (visited + [k]) + SortedKeys(rest - {k})
  {
    SortedKeysStartsAtLeast(rest, k);
  }

  /** Two ascending sequences with the same elements are the same sequence. */
  lemma {:induction false} AscendingDetermined(r1: seq<Bytes>, r2: seq<Bytes>)
    requires Ascending(r1) && Ascending(r2)
    requires forall k :: k in r1 <==> k in r2
    ensures r1 == r2
    decreases |r1|
  {
    assert r1 != [] ==> r1[0] in r2;
    assert r2 != [] ==> r2[0] in r1;
    if r1 != [] && r2 != [] {
      var j :| 0 <= j < |r2| && r2[j] == r1[0];
      var i :| 0 <= i < |r1| && r1[i] == r2[0];
      LessAsymmetric(r1[0], r2[0]);
      assert r1[0] == r2[0];
      AscendingTail(r1);
      AscendingTail(r2);
      AscendingDetermined(r1[1..], r2[1..]);
      assert r1 == [r1[0]] + r1[1..] && r2 == [r2[0]] + r2[1..];
    }
  }

  /** The tail of an ascending sequence holds every element but the first. */
  lemma AscendingTail(r: seq<Bytes>)
    requires Ascending(r) && r != []
    ensures Ascending(r[1..])
    ensures forall k :: k in r[1..] <==> k in r && k != r[0]
  {
    forall k | k in r[1..]
      ensures k != r[0]
    {
      var i :| 0 <= i < |r[1..]| && r[1..][i] == k;
      assert Less(r[0], r[i + 1]);
      LessIrreflexive(k);
    }
    forall k | k in r && k != r[0]
      ensures k in r[1..]
    {
      var i :| 0 <= i < |r| && r[i] == k;
      assert r[1..][i - 1] == k;
    }
  }

  /** An ascending sequence repeats no element. */
  lemma AscendingDistinct(s: seq<Bytes>)
    requires Ascending(s)
    ensures forall i, j :: 0 <= i < j < |s| ==> s[i] != s[j]
  {
    forall i, j | 0 <= i < j < |s|
      ensures s[i] != s[j]
    {
      LessIrreflexive(s[i]);
    }
  }

  /** In a sequence without repetitions each element occurs once. */
  lemma {:induction false} DistinctOccursOnce(s: seq<Bytes>, x: Bytes)
    requires forall i, j :: 0 <= i < j < |s| ==> s[i] != s[j]
    ensures multiset(s)[x] == if x in s then 1 else 0
  {
    if s != [] {
      var init := s[..|s| - 1];
      assert s == init + [s[|s| - 1]];
      assert s[|s| - 1] !in init;
      DistinctOccursOnce(init, x);
    }
  }
}
