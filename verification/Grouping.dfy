// Grouping a list by key into a dict of lists, as a defaultdict(list) loop does: groups
// keep the order of the list, and keys the order of their first appearance.
module Grouping {
  import opened Basics

  ghost predicate Keyed<T(!new), K(!new)>(xs: seq<T>, key: map<T, K>) {
    forall x :: x in xs ==> x in key
  }

  // d[k].append(x) on a defaultdict(list).
  function Append<T(!new), K(!new)>(groups: map<K, seq<T>>, k: K, x: T): map<K, seq<T>> {
    groups[k := (if k in groups then groups[k] else []) + [x]]
  }

  function AppendKey<K(==)>(order: seq<K>, k: K): seq<K> {
    if k in order then order else order + [k]
  }

  ghost function Members<T(!new), K(!new)>(xs: seq<T>, key: map<T, K>, k: K): seq<T>
    requires Keyed(xs, key)
  {
    if xs == [] then []
    else
      var n := |xs| - 1;
      Members(xs[..n], key, k) + (if key[xs[n]] == k then [xs[n]] else [])
  }

  // What the grouping loop has built: every group is the sublist of its key, and `order`
  // lists the keys once each.
  ghost predicate IsGrouping<T(!new), K(!new)>(xs: seq<T>, key: map<T, K>, groups: map<K, seq<T>>, order: seq<K>)
    requires Keyed(xs, key)
  {
    && Distinct(order)
    && (forall k :: k in order <==> k in groups)
    && (forall x :: x in xs ==> key[x] in groups)
    && (forall k :: k in groups ==> groups[k] == Members(xs, key, k) && groups[k] != [])
  }

  lemma GroupingStep<T(!new), K(!new)>(xs: seq<T>, key: map<T, K>, groups: map<K, seq<T>>, order: seq<K>, x: T)
    requires Keyed(xs + [x], key) && Keyed(xs, key) && IsGrouping(xs, key, groups, order)
    ensures IsGrouping(xs + [x], key, Append(groups, key[x], x), AppendKey(order, key[x]))
  {
    var k, more := key[x], xs + [x];
    assert more[..|xs|] == xs;
    var grown := Append(groups, k, x);
    if k !in groups {
      MembersEmpty(xs, key, k);
    }
    forall l | l in grown
      ensures grown[l] == Members(more, key, l) && grown[l] != []
    {
      assert Members(more, key, l) == Members(xs, key, l) + (if k == l then [x] else []);
      assert l != k ==> Members(xs, key, l) + [] == Members(xs, key, l);
    }
  }

  lemma {:induction false} MembersEmpty<T(!new), K(!new)>(xs: seq<T>, key: map<T, K>, k: K)
    requires Keyed(xs, key) && forall x :: x in xs ==> key[x] != k
    ensures Members(xs, key, k) == []
  {
    if xs != [] {
      MembersEmpty(xs[..|xs| - 1], key, k);
    }
  }

  // A group lists its elements as the list does.
  lemma {:induction false} MembersAppend<T(!new), K(!new)>(xs: seq<T>, ys: seq<T>, key: map<T, K>, k: K)
    requires Keyed(xs, key) && Keyed(ys, key)
    ensures Keyed(xs + ys, key) && Members(xs + ys, key, k) == Members(xs, key, k) + Members(ys, key, k)
    ensures |ys| == 1 ==> Members(ys, key, k) == if key[ys[0]] == k then ys else []
  {
    if ys == [] {
      assert xs + ys == xs;
    } else {
      var n := |ys| - 1;
      assert ys == ys[..n] + [ys[n]];
      MembersAppend(xs, ys[..n], key, k);
      assert (xs + ys)[..|xs| + n] == xs + ys[..n];
      Regroup(Members(xs, key, k), Members(ys[..n], key, k), if key[ys[n]] == k then [ys[n]] else []);
    }
  }

  lemma {:induction false} MembersAre<T(!new), K(!new)>(xs: seq<T>, key: map<T, K>, k: K)
    requires Keyed(xs, key)
    ensures forall x :: x in Members(xs, key, k) <==> x in xs && key[x] == k
    ensures Distinct(xs) ==> Distinct(Members(xs, key, k))
  {
    if xs != [] {
      var n := |xs| - 1;
      MembersAre(xs[..n], key, k);
      assert xs == xs[..n] + [xs[n]];
      if Distinct(xs) {
        assert xs[n] !in xs[..n];
      }
    }
  }

  // A list that is grown by the last element of xs, if at all.
  lemma PrecedesByLast<T(!new)>(xs: seq<T>, before: seq<T>, after: seq<T>, a: T, b: T)
    requires xs != [] && (after == before || after == before + [xs[|xs| - 1]])
    requires forall x :: x in before ==> x in xs[..|xs| - 1]
    requires Precedes(after, a, b)
    ensures Precedes(before, a, b) || Precedes(xs, a, b)
  {
    var i, j :| 0 <= i < j < |after| && after[i] == a && after[j] == b;
    if j < |before| {
      assert before[i] == a && before[j] == b;
    } else {
      assert before[i] in before;
      var p :| 0 <= p < |xs| - 1 && xs[..|xs| - 1][p] == a;
      assert xs[p] == a && xs[|xs| - 1] == b;
    }
  }

  lemma PrecedesLonger<T>(xs: seq<T>, n: nat, a: T, b: T)
    requires n <= |xs| && Precedes(xs[..n], a, b)
    ensures Precedes(xs, a, b)
  {
    var i, j :| 0 <= i < j < n && xs[..n][i] == a && xs[..n][j] == b;
    assert xs[i] == a && xs[j] == b;
  }

  lemma {:induction false} MembersInOrder<T(!new), K(!new)>(xs: seq<T>, key: map<T, K>, k: K, a: T, b: T)
    requires Keyed(xs, key) && Precedes(Members(xs, key, k), a, b)
    ensures Precedes(xs, a, b)
  {
    var n := |xs| - 1;
    MembersAre(xs[..n], key, k);
    PrecedesByLast(xs, Members(xs[..n], key, k), Members(xs, key, k), a, b);
    if Precedes(Members(xs[..n], key, k), a, b) {
      MembersInOrder(xs[..n], key, k, a, b);
      PrecedesLonger(xs, n, a, b);
    }
  }

  lemma InItsGroup<T(!new), K(!new)>(xs: seq<T>, key: map<T, K>, groups: map<K, seq<T>>, order: seq<K>, x: T)
    requires Keyed(xs, key) && IsGrouping(xs, key, groups, order) && x in xs
    ensures key[x] in groups && key[x] in order && x in groups[key[x]]
  {
    MembersAre(xs, key, key[x]);
  }

  lemma TwoInAGroup<T(!new), K(!new)>(xs: seq<T>, key: map<T, K>, groups: map<K, seq<T>>, order: seq<K>, x: T, y: T)
    requires Keyed(xs, key) && IsGrouping(xs, key, groups, order)
    requires x in xs && y in xs && x != y && key[x] == key[y]
    ensures key[x] in groups && |groups[key[x]]| >= 2
  {
    InItsGroup(xs, key, groups, order, x);
    InItsGroup(xs, key, groups, order, y);
    var g := groups[key[x]];
    var i :| 0 <= i < |g| && g[i] == x;
    var j :| 0 <= j < |g| && g[j] == y;
    assert i != j;
  }

  lemma ReorderedGrouping<T(!new), K(!new)>(
    xs: seq<T>, key: map<T, K>, groups: map<K, seq<T>>, order: seq<K>, sorted: seq<K>)
    requires Keyed(xs, key) && IsGrouping(xs, key, groups, order)
    requires Distinct(sorted) && forall k :: k in sorted <==> k in order
    ensures IsGrouping(xs, key, groups, sorted)
  {
  }

  // ----- Conservation: the groups account for every element exactly once ------------

  ghost function TotalSize<T(!new), K(!new)>(groups: map<K, seq<T>>, order: seq<K>): nat
    requires forall k :: k in order ==> k in groups
  {
    if order == [] then 0
    else
      var n := |order| - 1;
      TotalSize(groups, order[..n]) + |groups[order[n]]|
  }

  ghost function Concatenation<T(!new), K(!new)>(groups: map<K, seq<T>>, order: seq<K>): seq<T>
    requires forall k :: k in order ==> k in groups
  {
    if order == [] then []
    else
      var n := |order| - 1;
      Concatenation(groups, order[..n]) + groups[order[n]]
  }

  lemma {:induction false} ConcatenationSize<T(!new), K(!new)>(groups: map<K, seq<T>>, order: seq<K>)
    requires forall k :: k in order ==> k in groups
    ensures |Concatenation(groups, order)| == TotalSize(groups, order)
  {
    if order != [] {
      ConcatenationSize(groups, order[..|order| - 1]);
    }
  }

  lemma {:induction false} AppendConcatenation<T(!new), K(!new)>(groups: map<K, seq<T>>, order: seq<K>, k: K, x: T)
    requires forall l :: l in order ==> l in groups
    requires Distinct(order)
    ensures var grown := Append(groups, k, x);
      multiset(Concatenation(grown, order)) ==
      multiset(Concatenation(groups, order)) + (if k in order then multiset{x} else multiset{})
  {
    if order != [] {
      var n := |order| - 1;
      var init, l := order[..n], order[n];
      AppendConcatenation(groups, init, k, x);
      assert order == init + [l];
      assert l == k ==> k !in init;
      AppendedGroup(groups, k, x, l);
    }
  }

  lemma AppendedGroup<T(!new), K(!new)>(groups: map<K, seq<T>>, k: K, x: T, l: K)
    requires l in groups
    ensures multiset(Append(groups, k, x)[l]) == multiset(groups[l]) + (if l == k then multiset{x} else multiset{})
  {
  }

  lemma {:induction false} GroupingConserves<T(!new), K(!new)>(
    xs: seq<T>, key: map<T, K>, groups: map<K, seq<T>>, order: seq<K>)
    requires Keyed(xs, key) && IsGrouping(xs, key, groups, order)
    ensures multiset(Concatenation(groups, order)) == multiset(xs)
    ensures TotalSize(groups, order) == |xs|
  {
    ConcatenationByCount(xs, key, groups, order);
    ConcatenationSize(groups, order);
    assert |multiset(Concatenation(groups, order))| == |Concatenation(groups, order)|;
    assert |multiset(xs)| == |xs|;
  }

  // Any duplicate-free list of keys that covers the keys of xs gathers xs exactly once.
  lemma {:induction false} ConcatenationByCount<T(!new), K(!new)>(
    xs: seq<T>, key: map<T, K>, groups: map<K, seq<T>>, order: seq<K>)
    requires Keyed(xs, key) && Distinct(order)
    requires forall x :: x in xs ==> key[x] in order
    requires forall k :: k in order ==> k in groups && groups[k] == Members(xs, key, k)
    ensures multiset(Concatenation(groups, order)) == multiset(xs)
  {
    if xs == [] {
      ConcatenationOfEmpty(groups, order);
    } else {
      var n := |xs| - 1;
      var shorter := GroupsOf(xs[..n], key, groups.Keys);
      ConcatenationByCount(xs[..n], key, shorter, order);
      LastMemberAdded(xs, key, shorter, groups, order);
    }
  }

  ghost function GroupsOf<T(!new), K(!new)>(xs: seq<T>, key: map<T, K>, ks: set<K>): map<K, seq<T>>
    requires Keyed(xs, key)
  {
    map k | k in ks :: Members(xs, key, k)
  }

  lemma LastMemberAdded<T(!new), K(!new)>(
    xs: seq<T>, key: map<T, K>, shorter: map<K, seq<T>>, groups: map<K, seq<T>>, order: seq<K>)
    requires xs != [] && Keyed(xs, key) && Distinct(order)
    requires forall k :: k in order ==> k in groups && groups[k] == Members(xs, key, k)
    requires forall k :: k in order ==> k in shorter && shorter[k] == Members(xs[..|xs| - 1], key, k)
    requires multiset(Concatenation(shorter, order)) == multiset(xs[..|xs| - 1])
    requires key[xs[|xs| - 1]] in order
    ensures multiset(Concatenation(groups, order)) == multiset(xs)
  {
    var last := xs[|xs| - 1];
    AppendConcatenation(shorter, order, key[last], last);
    forall k | k in order
      ensures Append(shorter, key[last], last)[k] == groups[k]
    {
      GroupGrows(xs, key, shorter, groups, k);
    }
    ConcatenationAgrees(Append(shorter, key[last], last), groups, order);
    SplitLast(xs);
  }

  lemma GroupGrows<T(!new), K(!new)>(xs: seq<T>, key: map<T, K>, shorter: map<K, seq<T>>, groups: map<K, seq<T>>, k: K)
    requires xs != [] && Keyed(xs, key)
    requires k in groups && groups[k] == Members(xs, key, k)
    requires k in shorter && shorter[k] == Members(xs[..|xs| - 1], key, k)
    ensures Append(shorter, key[xs[|xs| - 1]], xs[|xs| - 1])[k] == groups[k]
  {
  }

  lemma SplitLast<T>(xs: seq<T>)
    requires xs != []
    ensures multiset(xs) == multiset(xs[..|xs| - 1]) + multiset{xs[|xs| - 1]}
  {
    assert xs == xs[..|xs| - 1] + [xs[|xs| - 1]];
  }

  lemma {:induction false} ConcatenationOfEmpty<T(!new), K(!new)>(groups: map<K, seq<T>>, order: seq<K>)
    requires forall k :: k in order ==> k in groups && groups[k] == []
    ensures Concatenation(groups, order) == []
  {
    if order != [] {
      ConcatenationOfEmpty(groups, order[..|order| - 1]);
    }
  }

  lemma {:induction false} ConcatenationAgrees<T(!new), K(!new)>(a: map<K, seq<T>>, b: map<K, seq<T>>, order: seq<K>)
    requires forall k :: k in order ==> k in a && k in b && a[k] == b[k]
    ensures Concatenation(a, order) == Concatenation(b, order)
  {
    if order != [] {
      ConcatenationAgrees(a, b, order[..|order| - 1]);
    }
  }
}
