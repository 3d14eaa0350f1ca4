// internal/enrichment/usecase/topic_enricher.py: the clusters, and their order, are fixed by
// the documents' top tokens alone.
module TopicClusters {
  import opened Basics
  import opened Connectivity
  import opened TopicDiscovery

  // x is in one of the first c clusters.
  ghost predicate Placed(clusters: seq<seq<nat>>, c: nat, x: nat) {
    exists d: nat :: d < c && d < |clusters| && x in clusters[d]
  }

  // A chain of documents, each sharing two top tokens with the next.
  ghost predicate Linked(tops: seq<seq<string>>, x: nat, y: nat) {
    exists steps :: IsLink(tops, x, y, steps)
  }

  ghost predicate IsLink(tops: seq<seq<string>>, x: nat, y: nat, steps: seq<nat>)
    decreases |steps|
  {
    if steps == [] then x == y else ShareTwo(tops, x, steps[0]) && IsLink(tops, steps[0], y, steps[1..])
  }

  ghost predicate ShareTwo(tops: seq<seq<string>>, x: nat, y: nat) {
    && x < |tops| && y < |tops| && x != y
    && exists a, b :: a != b && SharedTop(tops, x, y, a) && SharedTop(tops, x, y, b)
  }

  lemma ShareTwoExactlyWhen(tops: seq<seq<string>>, x: nat, y: nat)
    ensures ShareTwo(tops, x, y) <==> Adjacent(OverlapEdges(tops), x, y)
  {
    if x < |tops| && y < |tops| && x != y {
      OverlapExactlyWhen(tops, x, y);
      OverlapExactlyWhen(tops, y, x);
      assert TokenSet(tops, x) * TokenSet(tops, y) == TokenSet(tops, y) * TokenSet(tops, x);
    }
  }

  lemma {:induction false} LinkIsChain(tops: seq<seq<string>>, x: nat, y: nat, steps: seq<nat>)
    ensures IsLink(tops, x, y, steps) <==> IsChain(OverlapEdges(tops), x, y, steps)
    decreases |steps|
  {
    if steps != [] {
      ShareTwoExactlyWhen(tops, x, steps[0]);
      LinkIsChain(tops, steps[0], y, steps[1..]);
    }
  }

  lemma LinkedExactlyWhen(tops: seq<seq<string>>, x: nat, y: nat)
    ensures Linked(tops, x, y) <==> Connected(OverlapEdges(tops), x, y)
  {
    if steps :| IsLink(tops, x, y, steps) {
      LinkIsChain(tops, x, y, steps);
    }
    if steps: seq<nat> :| IsChain(OverlapEdges(tops), x, y, steps) {
      LinkIsChain(tops, x, y, steps);
    }
  }

  // Two documents are in one cluster exactly when they are linked.
  lemma SameClusterIffLinked(tops: seq<seq<string>>, clusters: seq<seq<nat>>, c: nat, d: nat, x: nat, y: nat)
    requires IsClusteringOf(tops, clusters)
    requires c < |clusters| && d < |clusters| && x in clusters[c] && y in clusters[d]
    ensures c == d <==> Linked(tops, x, y)
  {
    SameClusterIffChain(tops, clusters, c, d, x, y);
    LinkedExactlyWhen(tops, x, y);
  }

  // ----- There is only one clustering ------------------------------------------------------------

  lemma {:induction false} FlattenedHas(clusters: seq<seq<nat>>, x: nat)
    ensures x in Flattened(clusters) <==> Placed(clusters, |clusters|, x)
  {
    if clusters != [] {
      var n := |clusters| - 1;
      FlattenedHas(clusters[..n], x);
      if x in clusters[n] {
        assert Placed(clusters, |clusters|, x);
      }
      if d: nat :| d < n && x in clusters[..n][d] {
        assert x in clusters[d];
      }
      if d: nat :| d < |clusters| && x in clusters[d] {
        assert d < n ==> x in clusters[..n][d];
      }
    }
  }

  lemma EveryIndexPlaced(tops: seq<seq<string>>, clusters: seq<seq<nat>>, x: nat)
    requires IsClusteringOf(tops, clusters)
    ensures x < |tops| <==> Placed(clusters, |clusters|, x)
  {
    EveryIndexOnce(tops, clusters);
    FlattenedHas(clusters, x);
  }

  // The first document of a cluster is the first that no earlier cluster holds.
  lemma HeadIsFirstLeft(tops: seq<seq<string>>, clusters: seq<seq<nat>>, c: nat, x: nat)
    requires IsClusteringOf(tops, clusters) && c < |clusters| && x < |tops| && !Placed(clusters, c, x)
    ensures clusters[c] != [] && clusters[c][0] <= x
  {
    var root: map<nat, nat>, order: seq<nat> :| ClusteredBy(tops, root, order, clusters);
    EveryIndexPlaced(tops, clusters, x);
    var d: nat :| d < |clusters| && x in clusters[d];
    assert d >= c;
    var i :| 0 <= i < |clusters[d]| && clusters[d][i] == x;
    assert clusters[d][0] <= x;
  }

  lemma HeadIsNotPlaced(tops: seq<seq<string>>, clusters: seq<seq<nat>>, c: nat)
    requires IsClusteringOf(tops, clusters) && c < |clusters|
    ensures clusters[c] != [] && clusters[c][0] < |tops| && !Placed(clusters, c, clusters[c][0])
  {
    var root: map<nat, nat>, order: seq<nat> :| ClusteredBy(tops, root, order, clusters);
    var x := clusters[c][0];
    assert x in clusters[c];
    EveryIndexPlaced(tops, clusters, x);
    assert root[x] == order[c];
    forall d: nat | d < c
      ensures x !in clusters[d]
    {
      assert order[d] != order[c];
    }
  }

  lemma SamePlaced(a: seq<seq<nat>>, b: seq<seq<nat>>, c: nat, x: nat)
    requires c <= |a| && c <= |b| && a[..c] == b[..c]
    ensures Placed(a, c, x) <==> Placed(b, c, x)
  {
    assert forall d :: 0 <= d < c ==> a[d] == a[..c][d] == b[..c][d] == b[d];
  }

  lemma {:induction false} SameElementsSameList(a: seq<nat>, b: seq<nat>)
    requires Increasing(a) && Increasing(b) && forall x :: x in a <==> x in b
    ensures a == b
  {
    assert (a != [] ==> a[0] in a) && (b != [] ==> b[0] in b);
    if a != [] && b != [] {
      var m, n := |a| - 1, |b| - 1;
      SameLast(a, b);
      SameLast(b, a);
      assert a == a[..m] + [a[m]] && b == b[..n] + [b[n]];
      forall x
        ensures x in a[..m] <==> x in b[..n]
      {
        assert x in a[..m] <==> x in a && x != a[m];
        assert x in b[..n] <==> x in b && x != b[n];
      }
      SameElementsSameList(a[..m], b[..n]);
    }
  }

  lemma SameLast(a: seq<nat>, b: seq<nat>)
    requires a != [] && b != [] && Increasing(b) && forall x :: x in a ==> x in b
    ensures a[|a| - 1] <= b[|b| - 1]
  {
    assert a[|a| - 1] in b;
  }

  lemma NextCluster(tops: seq<seq<string>>, a: seq<seq<nat>>, b: seq<seq<nat>>, c: nat)
    requires IsClusteringOf(tops, a) && IsClusteringOf(tops, b)
    requires c < |a| && c < |b| && a[..c] == b[..c]
    ensures a[c] == b[c]
  {
    HeadIsNotPlaced(tops, a, c);
    HeadIsNotPlaced(tops, b, c);
    SamePlaced(a, b, c, a[c][0]);
    SamePlaced(a, b, c, b[c][0]);
    HeadIsFirstLeft(tops, b, c, a[c][0]);
    HeadIsFirstLeft(tops, a, c, b[c][0]);
    forall x
      ensures x in a[c] <==> x in b[c]
    {
      InWithHead(tops, a, c, x);
      InWithHead(tops, b, c, x);
    }
    ClustersIncrease(tops, a, c);
    ClustersIncrease(tops, b, c);
    SameElementsSameList(a[c], b[c]);
  }

  lemma ClustersIncrease(tops: seq<seq<string>>, clusters: seq<seq<nat>>, c: nat)
    requires IsClusteringOf(tops, clusters) && c < |clusters|
    ensures Increasing(clusters[c]) && clusters[c] != []
  {
    var root: map<nat, nat>, order: seq<nat> :| ClusteredBy(tops, root, order, clusters);
  }

  lemma InWithHead(tops: seq<seq<string>>, clusters: seq<seq<nat>>, c: nat, x: nat)
    requires IsClusteringOf(tops, clusters) && c < |clusters|
    ensures clusters[c] != []
    ensures x in clusters[c] <==> x < |tops| && Linked(tops, clusters[c][0], x)
  {
    ClustersIncrease(tops, clusters, c);
    assert clusters[c][0] in clusters[c];
    EveryIndexPlaced(tops, clusters, x);
    if x < |tops| {
      var d: nat :| d < |clusters| && x in clusters[d];
      SameClusterIffLinked(tops, clusters, c, d, clusters[c][0], x);
    }
    if x in clusters[c] {
      assert Placed(clusters, |clusters|, x);
      SameClusterIffLinked(tops, clusters, c, c, clusters[c][0], x);
    }
  }

  lemma {:induction false} SameUpTo(tops: seq<seq<string>>, a: seq<seq<nat>>, b: seq<seq<nat>>, c: nat)
    requires IsClusteringOf(tops, a) && IsClusteringOf(tops, b) && c <= |a| && c <= |b|
    ensures a[..c] == b[..c]
  {
    if c > 0 {
      SameUpTo(tops, a, b, c - 1);
      NextCluster(tops, a, b, c - 1);
      assert a[..c] == a[..c - 1] + [a[c - 1]] && b[..c] == b[..c - 1] + [b[c - 1]];
    }
  }

  lemma NoLonger(tops: seq<seq<string>>, a: seq<seq<nat>>, b: seq<seq<nat>>)
    requires IsClusteringOf(tops, a) && IsClusteringOf(tops, b)
    ensures |a| <= |b|
  {
    if |a| > |b| {
      SameUpTo(tops, a, b, |b|);
      HeadIsNotPlaced(tops, a, |b|);
      SamePlaced(a, b, |b|, a[|b|][0]);
      EveryIndexPlaced(tops, b, a[|b|][0]);
    }
  }

  // However the union-find chose its roots: the clusters, their documents and both orders are
  // determined by the top tokens.
  lemma ClusteringIsUnique(tops: seq<seq<string>>, a: seq<seq<nat>>, b: seq<seq<nat>>)
    requires IsClusteringOf(tops, a) && IsClusteringOf(tops, b)
    ensures a == b
  {
    NoLonger(tops, a, b);
    NoLonger(tops, b, a);
    SameUpTo(tops, a, b, |a|);
    assert a[..|a|] == a && b[..|b|] == b;
  }
}
