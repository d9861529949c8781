/**
 * Result order of the list queries. `ORDER BY` fixes only the sort keys:
 * rows with equal keys may come back in any order, so the listings below
 * make an arbitrary choice among ties and add no tie-break of their own.
 */
module Ordering {
  import opened Models

  /** The sort keys of one result row: (membership priority, account priority); 0 stands for the first where no group is joined. */
  datatype Rank = Rank(groupPriority: int, priority: int)

  /** Lexicographic `<=`: `ORDER BY account_groups.priority ASC, accounts.priority ASC`. */
  predicate RankLe(a: Rank, b: Rank) {
    a.groupPriority < b.groupPriority || (a.groupPriority == b.groupPriority && a.priority <= b.priority)
  }

  /** `s` is listed in non-decreasing rank. */
  predicate Ranked(keys: map<int, Rank>, s: seq<int>) {
    forall i, j :: 0 <= i < j < |s| && s[i] in keys && s[j] in keys ==> RankLe(keys[s[i]], keys[s[j]])
  }

  predicate Distinct<T(==)>(s: seq<T>) {
    forall i, j :: 0 <= i < j < |s| ==> s[i] != s[j]
  }

  /** `x` is an id of `s` whose row may come first. */
  predicate IsFirst(x: int, s: set<int>, keys: map<int, Rank>) {
    x in s && x in keys && forall y :: y in s && y in keys ==> RankLe(keys[x], keys[y])
  }

  /** Every finite, non-empty set of ranked ids has one that ranks before all the others. */
  lemma {:induction false} FirstExists(s: set<int>, keys: map<int, Rank>)
    requires s != {} && s <= keys.Keys
    ensures exists x :: IsFirst(x, s, keys)
    decreases |s|
  {
    HasMember(s);
    var x :| x in s;
    if s != {x} {
      var rest := s - {x};
      assert |rest| < |s|;
      FirstExists(rest, keys);
      var m :| IsFirst(m, rest, keys);
      var first := if RankLe(keys[x], keys[m]) then x else m;
      forall y | y in s && y in keys ensures RankLe(keys[first], keys[y]) {
        if y != x { assert y in rest; }
      }
      assert IsFirst(first, s, keys);
    } else {
      assert IsFirst(x, s, keys);
    }
  }

  /** The ids in an order `ORDER BY` admits: a first-ranked one, then the rest; ties go by an arbitrary choice. */
  ghost function RankedListing(s: set<int>, keys: map<int, Rank>): seq<int>
    requires s <= keys.Keys
    decreases |s|
  {
    if s == {} then []
    else
      FirstExists(s, keys);
      var x :| IsFirst(x, s, keys);
      assert |s - {x}| < |s|;
      [x] + RankedListing(s - {x}, keys)
  }

  /** `RankedListing` lists every id exactly once. */
  lemma {:induction false} RankedListingMembers(s: set<int>, keys: map<int, Rank>)
    requires s <= keys.Keys
    ensures |RankedListing(s, keys)| == |s|
    ensures forall x | x in s :: x in RankedListing(s, keys)
    ensures forall i | 0 <= i < |RankedListing(s, keys)| :: RankedListing(s, keys)[i] in s
    ensures Distinct(RankedListing(s, keys))
    decreases |s|
  {
    if s != {} {
      FirstExists(s, keys);
      var r := RankedListing(s, keys);
      var x := r[0];
      assert IsFirst(x, s, keys);
      var rest := s - {x};
      assert |rest| == |s| - 1;
      assert r == [x] + RankedListing(rest, keys);
      RankedListingMembers(rest, keys);
      var tail := RankedListing(rest, keys);
      assert forall i | 0 < i < |r| :: r[i] == tail[i - 1] && r[i] in rest;
      assert forall y | y in s && y != x :: y in rest;
    }
  }

  /** `RankedListing` is sorted by rank. */
  lemma {:induction false} RankedListingSorted(s: set<int>, keys: map<int, Rank>)
    requires s <= keys.Keys
    ensures Ranked(keys, RankedListing(s, keys))
    decreases |s|
  {
    if s != {} {
      FirstExists(s, keys);
      var r := RankedListing(s, keys);
      var x := r[0];
      assert IsFirst(x, s, keys);
      var rest := s - {x};
      assert |rest| == |s| - 1;
      assert r == [x] + RankedListing(rest, keys);
      RankedListingSorted(rest, keys);
      RankedListingMembers(rest, keys);
      var tail := RankedListing(rest, keys);
      assert forall i | 0 < i < |r| :: r[i] == tail[i - 1] && r[i] in rest && RankLe(keys[x], keys[r[i]]);
    }
  }

  /** A non-empty set of ids has a member. */
  lemma HasMember(s: set<int>)
    requires s != {}
    ensures exists x :: x in s
  {
    if forall x :: x !in s {
      assert false;
    }
  }

  /** The elements of a finite set of ids in some order. */
  ghost function Enumerate(s: set<int>): seq<int>
    decreases |s|
  {
    if s == {} then []
    else
      HasMember(s);
      var x :| x in s;
      assert |s - {x}| < |s|;
      [x] + Enumerate(s - {x})
  }

  /** `Enumerate` lists every element exactly once. */
  lemma {:induction false} EnumerateMembers(s: set<int>)
    ensures |Enumerate(s)| == |s|
    ensures forall x | x in s :: x in Enumerate(s)
    ensures forall i | 0 <= i < |Enumerate(s)| :: Enumerate(s)[i] in s
    ensures Distinct(Enumerate(s))
    decreases |s|
  {
    if s != {} {
      HasMember(s);
      var r := Enumerate(s);
      var x := r[0];
      assert x in s;
      var rest := s - {x};
      assert |rest| == |s| - 1;
      assert r == [x] + Enumerate(rest);
      EnumerateMembers(rest);
      var tail := Enumerate(rest);
      assert forall i | 0 < i < |r| :: r[i] == tail[i - 1] && r[i] in rest;
      assert forall y | y in s && y != x :: y in rest;
    }
  }

  predicate IsLargest(m: int, s: set<int>) {
    m in s && forall x :: x in s ==> x <= m
  }

  /** Every finite, non-empty set of integers has a largest element. */
  lemma {:induction false} LargestExists(s: set<int>)
    requires s != {}
    ensures exists m :: IsLargest(m, s)
    decreases |s|
  {
    HasMember(s);
    var x :| x in s;
    if s != {x} {
      var rest := s - {x};
      assert |rest| < |s|;
      LargestExists(rest);
      var m :| IsLargest(m, rest);
      var top := if x <= m then m else x;
      forall y | y in s ensures y <= top {
        if y != x { assert y in rest; }
      }
      assert IsLargest(top, s);
    } else {
      assert IsLargest(x, s);
    }
  }

  /** `ORDER BY id DESC`: the largest id, then the rest. */
  ghost function Descending(s: set<int>): seq<int>
    decreases |s|
  {
    if s == {} then []
    else
      LargestExists(s);
      var m :| IsLargest(m, s);
      assert |s - {m}| < |s|;
      [m] + Descending(s - {m})
  }

  /** `Descending` lists every id of the set. */
  lemma {:induction false} DescendingMembers(s: set<int>)
    ensures |Descending(s)| == |s|
    ensures forall x | x in s :: x in Descending(s)
    ensures forall i | 0 <= i < |Descending(s)| :: Descending(s)[i] in s
    decreases |s|
  {
    if s != {} {
      LargestExists(s);
      var r := Descending(s);
      var m := r[0];
      assert IsLargest(m, s);
      var rest := s - {m};
      assert |rest| == |s| - 1;
      assert r == [m] + Descending(rest);
      DescendingMembers(rest);
      var tail := Descending(rest);
      assert forall i | 0 < i < |r| :: r[i] == tail[i - 1] && r[i] in rest;
      assert forall x | x in s && x != m :: x in rest;
    }
  }

  /** `Descending` is strictly decreasing, so it has no repeats. */
  lemma {:induction false} DescendingSorted(s: set<int>)
    ensures forall i, j | 0 <= i < j < |Descending(s)| :: Descending(s)[i] > Descending(s)[j]
    decreases |s|
  {
    if s != {} {
      LargestExists(s);
      var r := Descending(s);
      var m := r[0];
      assert IsLargest(m, s);
      var rest := s - {m};
      assert |rest| == |s| - 1;
      assert r == [m] + Descending(rest);
      DescendingSorted(rest);
      DescendingMembers(rest);
      var tail := Descending(rest);
      assert forall i | 0 < i < |r| :: r[i] == tail[i - 1] && r[i] in rest && r[i] < m;
    }
  }
}
