// Facts about reordered lists: a sorted list, an image and a sum do not depend on the order
// of what they are made from.
module Permutations {
  import opened Basics
  import opened Sorting

  lemma SplitAt<T>(xs: seq<T>, i: nat)
    requires i < |xs|
    ensures multiset(xs) == multiset(xs[..i] + xs[i + 1..]) + multiset{xs[i]}
  {
    assert xs == xs[..i] + [xs[i]] + xs[i + 1..];
  }

  lemma SplitFirst<T>(xs: seq<T>)
    requires xs != []
    ensures multiset(xs) == multiset(xs[1..]) + multiset{xs[0]}
  {
    SplitAt(xs, 0);
    assert xs[..0] + xs[1..] == xs[1..];
  }

  lemma Cancel<T>(a: multiset<T>, b: multiset<T>, x: T)
    requires a + multiset{x} == b + multiset{x}
    ensures a == b
  {
    assert a == a + multiset{x} - multiset{x};
    assert b == b + multiset{x} - multiset{x};
  }

  // Removing the first element of one list from a permutation of it.
  lemma WithoutFirst<T>(xs: seq<T>, ys: seq<T>) returns (i: nat)
    requires xs != [] && multiset(xs) == multiset(ys)
    ensures i < |ys| && ys[i] == xs[0]
    ensures multiset(xs[1..]) == multiset(ys[..i] + ys[i + 1..])
  {
    SplitFirst(xs);
    assert xs[0] in multiset(ys);
    i :| 0 <= i < |ys| && ys[i] == xs[0];
    SplitAt(ys, i);
    Cancel(multiset(xs[1..]), multiset(ys[..i] + ys[i + 1..]), xs[0]);
  }

  lemma NothingToPermute<T>(ys: seq<T>)
    requires multiset(ys) == multiset{}
    ensures ys == []
  {
    assert |multiset(ys)| == |ys|;
  }

  lemma SameFirst<T(!new)>(xs: seq<T>, ys: seq<T>, le: (T, T) -> bool)
    requires xs != [] && ys != [] && Ordered(xs, le) && Ordered(ys, le) && multiset(xs) == multiset(ys)
    requires forall a, b :: le(a, b) && le(b, a) ==> a == b
    ensures xs[0] == ys[0]
    ensures multiset(xs[1..]) == multiset(ys[1..])
  {
    assert xs[0] in multiset(ys) && ys[0] in multiset(xs);
    var i :| 0 <= i < |ys| && ys[i] == xs[0];
    var j :| 0 <= j < |xs| && xs[j] == ys[0];
    assert i > 0 ==> le(ys[0], ys[i]);
    assert j > 0 ==> le(xs[0], xs[j]);
    SplitFirst(xs);
    SplitFirst(ys);
    Cancel(multiset(xs[1..]), multiset(ys[1..]), xs[0]);
  }

  lemma {:induction false} OrderedUnique<T(!new)>(xs: seq<T>, ys: seq<T>, le: (T, T) -> bool)
    requires Ordered(xs, le) && Ordered(ys, le) && multiset(xs) == multiset(ys)
    requires forall a, b :: le(a, b) && le(b, a) ==> a == b
    ensures xs == ys
  {
    assert |multiset(xs)| == |xs| && |multiset(ys)| == |ys|;
    if xs != [] {
      SameFirst(xs, ys, le);
      OrderedUnique(xs[1..], ys[1..], le);
      assert xs == [xs[0]] + xs[1..] && ys == [ys[0]] + ys[1..];
    }
  }

  lemma SortedUnique<T(!new)>(xs: seq<T>, ys: seq<T>, le: (T, T) -> bool)
    requires Preorder(le) && multiset(xs) == multiset(ys)
    requires forall a, b :: le(a, b) && le(b, a) ==> a == b
    ensures Sorted(xs, le) == Sorted(ys, le)
  {
    SortedKeeps(xs, le);
    SortedKeeps(ys, le);
    SortedOrdered(xs, le);
    SortedOrdered(ys, le);
    OrderedUnique(Sorted(xs, le), Sorted(ys, le), le);
  }

  lemma {:induction false} MappedPermuted<A, B>(f: A -> B, xs: seq<A>, ys: seq<A>)
    requires multiset(xs) == multiset(ys)
    ensures multiset(Mapped(f, xs)) == multiset(Mapped(f, ys))
  {
    if xs == [] {
      NothingToPermute(ys);
    } else {
      var i := WithoutFirst(xs, ys);
      var rest := ys[..i] + ys[i + 1..];
      MappedPermuted(f, xs[1..], rest);
      assert Mapped(f, xs) == [f(xs[0])] + Mapped(f, xs[1..]);
      SplitAt(Mapped(f, ys), i);
      assert Mapped(f, rest) == Mapped(f, ys)[..i] + Mapped(f, ys)[i + 1..];
    }
  }

  // Two duplicate-free lists of the same elements.
  lemma SameElementsPermuted<T>(xs: seq<T>, ys: seq<T>)
    requires Distinct(xs) && Distinct(ys) && forall x :: x in xs <==> x in ys
    ensures multiset(xs) == multiset(ys)
  {
    forall x
      ensures multiset(xs)[x] == multiset(ys)[x]
    {
      AtMostOnce(xs, x);
      AtMostOnce(ys, x);
      assert x in xs <==> x in multiset(xs);
      assert x in ys <==> x in multiset(ys);
    }
  }

  // ----- Sums ------------------------------------------------------------------------------

  ghost function Sum(xs: seq<real>): real {
    if xs == [] then 0.0 else xs[0] + Sum(xs[1..])
  }

  lemma {:induction false} SumAppend(xs: seq<real>, ys: seq<real>)
    ensures Sum(xs + ys) == Sum(xs) + Sum(ys)
  {
    if xs == [] {
      assert xs + ys == ys;
    } else {
      SumAppend(xs[1..], ys);
      assert (xs + ys)[1..] == xs[1..] + ys;
    }
  }

  lemma {:induction false} SumPermuted(xs: seq<real>, ys: seq<real>)
    requires multiset(xs) == multiset(ys)
    ensures Sum(xs) == Sum(ys)
  {
    if xs == [] {
      NothingToPermute(ys);
    } else {
      var i := WithoutFirst(xs, ys);
      SumPermuted(xs[1..], ys[..i] + ys[i + 1..]);
      SumAppend(ys[..i], ys[i + 1..]);
      SumAppend(ys[..i], [ys[i]] + ys[i + 1..]);
      assert ys == ys[..i] + ([ys[i]] + ys[i + 1..]);
    }
  }
}

// internal/dedup/usecase/annotate_dedup.py: the input order of a batch does not show in the
// records of its clusters.
module DedupOrder {
  import opened Basics
  import opened DedupModel
  import opened DedupService
  import opened DedupTheorems
  import opened Permutations
  import opened Sorting
  import opened Texts

  // ----- The mean similarity ----------------------------------------------------------------

  // The similarities of s to each of the sets, itself included if it is one of them.
  ghost function Row(s: set<string>, sets: seq<set<string>>): real {
    Sum(Mapped(x => Jaccard(s, x), sets))
  }

  ghost function Square(xs: seq<set<string>>, sets: seq<set<string>>): real {
    Sum(Mapped(x => Row(x, sets), xs))
  }

  ghost function Diagonal(sets: seq<set<string>>): real {
    Sum(Mapped(x => Jaccard(x, x), sets))
  }

  lemma RowPermuted(s: set<string>, xs: seq<set<string>>, ys: seq<set<string>>)
    requires multiset(xs) == multiset(ys)
    ensures Row(s, xs) == Row(s, ys)
  {
    MappedPermuted(x => Jaccard(s, x), xs, ys);
    SumPermuted(Mapped(x => Jaccard(s, x), xs), Mapped(x => Jaccard(s, x), ys));
  }

  lemma SquarePermuted(xs: seq<set<string>>, ys: seq<set<string>>)
    requires multiset(xs) == multiset(ys)
    ensures Square(xs, xs) == Square(ys, ys)
    ensures Diagonal(xs) == Diagonal(ys)
  {
    var f, g := x => Row(x, xs), x => Row(x, ys);
    forall i | 0 <= i < |ys|
      ensures f(ys[i]) == g(ys[i])
    {
      RowPermuted(ys[i], xs, ys);
    }
    assert Mapped(f, ys) == Mapped(g, ys);
    MappedPermuted(f, xs, ys);
    SumPermuted(Mapped(f, xs), Mapped(f, ys));
    MappedPermuted(x => Jaccard(x, x), xs, ys);
    SumPermuted(Mapped(x => Jaccard(x, x), xs), Mapped(x => Jaccard(x, x), ys));
  }

  lemma RowLast(s: set<string>, sets: seq<set<string>>, x: set<string>)
    ensures Row(s, sets + [x]) == Row(s, sets) + Jaccard(s, x)
  {
    var f := y => Jaccard(s, y);
    assert Mapped(f, sets + [x]) == Mapped(f, sets) + [Jaccard(s, x)];
    SumAppend(Mapped(f, sets), [Jaccard(s, x)]);
  }

  lemma {:induction false} SquareLastColumn(xs: seq<set<string>>, sets: seq<set<string>>, x: set<string>)
    ensures Square(xs, sets + [x]) == Square(xs, sets) + Row(x, xs)
  {
    if xs != [] {
      var f, g, h := y => Row(y, sets + [x]), y => Row(y, sets), y => Jaccard(x, y);
      SquareLastColumn(xs[1..], sets, x);
      assert Mapped(f, xs)[1..] == Mapped(f, xs[1..]);
      assert Mapped(g, xs)[1..] == Mapped(g, xs[1..]);
      assert Mapped(h, xs)[1..] == Mapped(h, xs[1..]);
      RowLast(xs[0], sets, x);
      JaccardSymmetric(x, xs[0]);
    }
  }

  lemma SquareLastRow(xs: seq<set<string>>, sets: seq<set<string>>, x: set<string>)
    ensures Square(xs + [x], sets) == Square(xs, sets) + Row(x, sets)
  {
    var f := y => Row(y, sets);
    assert Mapped(f, xs + [x]) == Mapped(f, xs) + [Row(x, sets)];
    SumAppend(Mapped(f, xs), [Row(x, sets)]);
  }

  lemma DiagonalLast(sets: seq<set<string>>, x: set<string>)
    ensures Diagonal(sets + [x]) == Diagonal(sets) + Jaccard(x, x)
  {
    var f := (y: set<string>) => Jaccard(y, y);
    assert Mapped(f, sets + [x]) == Mapped(f, sets) + [Jaccard(x, x)];
    SumAppend(Mapped(f, sets), [Jaccard(x, x)]);
  }

  lemma {:induction false} RowSumUnchanged(sets: seq<set<string>>, x: set<string>, i: nat, j: nat)
    requires i < |sets| && j <= |sets|
    ensures RowSum(sets + [x], i, j) == RowSum(sets, i, j)
  {
    if j > i + 1 {
      RowSumUnchanged(sets, x, i, j - 1);
    }
  }

  lemma RowSumLast(sets: seq<set<string>>, x: set<string>, i: nat)
    requires i < |sets|
    ensures RowSum(sets + [x], i, |sets| + 1) == RowSum(sets, i, |sets|) + Jaccard(x, sets[i])
  {
    RowSumUnchanged(sets, x, i, |sets|);
    JaccardSymmetric(x, sets[i]);
  }

  lemma {:induction false} PairSumLast(sets: seq<set<string>>, x: set<string>, i: nat)
    requires i <= |sets|
    ensures PairSum(sets + [x], i) == PairSum(sets, i) + Row(x, sets[..i])
  {
    if i > 0 {
      PairSumLast(sets, x, i - 1);
      RowSumLast(sets, x, i - 1);
      assert sets[..i] == sets[..i - 1] + [sets[i - 1]];
      RowLast(x, sets[..i - 1], sets[i - 1]);
    }
  }

  // Every unordered pair twice, and every set with itself.
  lemma {:induction false} SquareSplits(sets: seq<set<string>>)
    ensures Square(sets, sets) == 2.0 * PairSum(sets, |sets|) + Diagonal(sets)
  {
    if sets != [] {
      var n := |sets| - 1;
      var init, x := sets[..n], sets[n];
      assert sets == init + [x];
      SquareSplits(init);
      SquareLastRow(init, sets, x);
      SquareLastColumn(init, init, x);
      RowLast(x, init, x);
      DiagonalLast(init, x);
      PairSumLast(init, x, n);
      assert init[..n] == init;
    }
  }

  lemma PairSumPermuted(xs: seq<set<string>>, ys: seq<set<string>>)
    requires multiset(xs) == multiset(ys)
    ensures PairSum(xs, |xs|) == PairSum(ys, |ys|)
  {
    SquareSplits(xs);
    SquareSplits(ys);
    SquarePermuted(xs, ys);
  }

  lemma MeanPermuted(xs: seq<set<string>>, ys: seq<set<string>>)
    requires multiset(xs) == multiset(ys)
    ensures MeanSimilarity(xs) == MeanSimilarity(ys)
  {
    assert |multiset(xs)| == |xs| && |multiset(ys)| == |ys|;
    PairSumPermuted(xs, ys);
  }

  // ----- Records ------------------------------------------------------------------------------

  lemma NearRecordPermuted(cfg: Config, h: Hashing, g: seq<Mention>, g': seq<Mention>)
    requires g != [] && g' != [] && multiset(g) == multiset(g')
    requires Representative(g).id == Representative(g').id && Representative(g).raw == Representative(g').raw
    ensures NearRecord(h, g, MeanSimilarity(ShingleSets(cfg, g))) == NearRecord(h, g', MeanSimilarity(ShingleSets(cfg, g')))
  {
    assert |multiset(g)| == |g| && |multiset(g')| == |g'|;
    MeanPermuted(ShingleSets(cfg, g), ShingleSets(cfg, g')) by {
      var f := (m: Mention) => Shingles(cfg, m.compact);
      assert ShingleSets(cfg, g) == Mapped(f, g) && ShingleSets(cfg, g') == Mapped(f, g');
      MappedPermuted(f, g, g');
    }
    SortedPermuted(Compacts(g), Compacts(g')) by {
      var f := (m: Mention) => m.compact;
      assert Compacts(g) == Mapped(f, g) && Compacts(g') == Mapped(f, g');
      MappedPermuted(f, g, g');
    }
    SortedPermuted(IdsOf(g), IdsOf(g')) by {
      var f := (m: Mention) => m.id;
      assert IdsOf(g) == Mapped(f, g) && IdsOf(g') == Mapped(f, g');
      MappedPermuted(f, g, g');
    }
  }

  lemma SortedPermuted(xs: seq<string>, ys: seq<string>)
    requires multiset(xs) == multiset(ys)
    ensures Sorted(xs, LexLe) == Sorted(ys, LexLe)
  {
    LexLeIsPreorder();
    forall a, b | LexLe(a, b) && LexLe(b, a)
      ensures a == b
    {
      LexAntisymmetric(a, b);
    }
    SortedUnique(xs, ys, LexLe);
  }

  // The members of a record made from a group.
  lemma ListedIds(group: seq<Mention>, x: string)
    ensures x in Sorted(IdsOf(group), LexLe) <==> exists m :: m in group && m.id == x
  {
    SortedKeeps(IdsOf(group), LexLe);
    if x in IdsOf(group) {
      var i :| 0 <= i < |group| && IdsOf(group)[i] == x;
      assert group[i] in group;
    }
    if m :| m in group && m.id == x {
      var i :| 0 <= i < |group| && group[i] == m;
      assert IdsOf(group)[i] == x;
    }
  }

  lemma SameIdsSameGroup(byId: map<string, Mention>, g: seq<Mention>, g': seq<Mention>)
    requires KnownGroup(byId, g) && KnownGroup(byId, g')
    requires forall x :: x in Sorted(IdsOf(g), LexLe) <==> x in Sorted(IdsOf(g'), LexLe)
    ensures multiset(g) == multiset(g')
  {
    forall m
      ensures m in g <==> m in g'
    {
      ListedIds(g, m.id);
      ListedIds(g', m.id);
    }
    SameElementsPermuted(g, g');
  }

  lemma NearNameIsOfMembers(cfg: Config, h: Hashing, byId: map<string, Mention>, c: Cluster, d: Cluster)
    requires NearNamed(cfg, h, byId, c) && NearNamed(cfg, h, byId, d) && Alike(c, d)
    ensures c == d
  {
    var g :| KnownGroup(byId, g) && c == NearRecord(h, g, MeanSimilarity(ShingleSets(cfg, g)));
    var g' :| KnownGroup(byId, g') && d == NearRecord(h, g', MeanSimilarity(ShingleSets(cfg, g')));
    SameIdsSameGroup(byId, g, g');
    RepresentativeIsBest(g);
    RepresentativeIsBest(g');
    NearRecordPermuted(cfg, h, g, g');
  }

  // The same record, its members listed in any order.
  ghost predicate Relisted(c: Cluster, d: Cluster) {
    c.(ids := d.ids) == d && Elements(c.ids) == Elements(d.ids)
  }

  lemma ExactNameIsOfClass(byId: map<string, Mention>, cls: map<string, string>, c: Cluster, d: Cluster)
    requires ExactRecorded(byId, cls, c) && ExactRecorded(byId, cls, d) && Alike(c, d)
    ensures Relisted(c, d)
  {
    var k, g :| OfClass(byId, cls, k, g) && c == ExactRecord(k, g);
    var k', g' :| OfClass(byId, cls, k', g') && d == ExactRecord(k', g');
    RepresentativeIsBest(g);
    RepresentativeIsBest(g');
  }

  lemma NearRecordsKept(cfg: Config, h: Hashing, byId: map<string, Mention>, near: seq<Cluster>, near': seq<Cluster>)
    requires Covered(near, near')
    requires forall c :: c in near ==> NearNamed(cfg, h, byId, c)
    requires forall c :: c in near' ==> NearNamed(cfg, h, byId, c)
    ensures forall c :: c in near ==> c in near'
  {
    forall c | c in near
      ensures c in near'
    {
      var d :| d in near' && Alike(c, d);
      NearNameIsOfMembers(cfg, h, byId, c, d);
    }
  }

  lemma ExactRecordsKept(
    byId: map<string, Mention>, cls: map<string, string>, exact: seq<Cluster>, exact': seq<Cluster>)
    requires Covered(exact, exact')
    requires forall c :: c in exact ==> ExactRecorded(byId, cls, c)
    requires forall c :: c in exact' ==> ExactRecorded(byId, cls, c)
    ensures forall c :: c in exact ==> exists d :: d in exact' && Relisted(c, d)
  {
    forall c | c in exact
      ensures exists d :: d in exact' && Relisted(c, d)
    {
      var d :| d in exact' && Alike(c, d);
      ExactNameIsOfClass(byId, cls, c, d);
    }
  }

  // Permuting the batch gives the same near clusters, whole records included, and the same
  // exact clusters up to the order in which each lists its members.
  lemma RecordsIgnoreOrder(
    cfg: Config, h: Hashing, mentions: seq<Mention>, permuted: seq<Mention>,
    exact: seq<Cluster>, near: seq<Cluster>, exact': seq<Cluster>, near': seq<Cluster>)
    requires DistinctIds(mentions) && DistinctIds(permuted) && multiset(mentions) == multiset(permuted)
    requires Analyzed(cfg, h, mentions, exact, near) && AllNamed(cfg, h, mentions, exact, near)
    requires Analyzed(cfg, h, permuted, exact', near') && AllNamed(cfg, h, permuted, exact', near')
    ensures Elements(near) == Elements(near')
    ensures forall c :: c in exact ==> exists d :: d in exact' && Relisted(c, d)
  {
    InputOrderIrrelevant(cfg, h, mentions, permuted, exact, near, exact', near');
    PermutedViews(cfg, h, mentions, permuted, {});
    NamedViews(cfg, h, permuted, mentions, exact', near');
    NearRecordsKept(cfg, h, ById(mentions), near, near');
    NearRecordsKept(cfg, h, ById(mentions), near', near);
    ExactRecordsKept(ById(mentions), ExactClasses(cfg, h, mentions), exact, exact');
  }

  lemma NamedViews(
    cfg: Config, h: Hashing, permuted: seq<Mention>, mentions: seq<Mention>, exact: seq<Cluster>, near: seq<Cluster>)
    requires DistinctIds(mentions) && DistinctIds(permuted) && AllNamed(cfg, h, permuted, exact, near)
    requires ById(mentions) == ById(permuted) && ExactClasses(cfg, h, mentions) == ExactClasses(cfg, h, permuted)
    ensures AllNamed(cfg, h, mentions, exact, near)
  {
  }
}
