// internal/dedup/usecase/annotate_dedup.py: what the clusters of a batch and its counters
// say, in terms of shared shingles, words and members.
module DedupRecords {
  import opened Basics
  import opened Connectivity
  import opened DedupModel
  import opened DedupOrder
  import opened DedupService
  import opened DedupTheorems
  import opened Grouping
  import opened Rounding
  import opened Sorting
  import opened Texts

  // ----- Near groups by counting shingles --------------------------------------------------------

  // The pairs of texts whose common shingles reach the threshold.
  ghost function CountEdges(cfg: Config, texts: map<string, string>): set<(string, string)> {
    set x, y | x in texts && y in texts && x != y && CountsReach(cfg, texts[x], texts[y]) :: (x, y)
  }

  ghost predicate CountsReach(cfg: Config, s: string, t: string) {
    Reaches(|Shingles(cfg, s) * Shingles(cfg, t)|, |Shingles(cfg, s) + Shingles(cfg, t)|, cfg.threshold)
  }

  lemma ThresholdEdgesAreCounted(cfg: Config, texts: map<string, string>)
    requires forall x :: x in texts ==> Shingles(cfg, texts[x]) != {}
    ensures ThresholdEdges(cfg, texts) == CountEdges(cfg, texts)
  {
    forall x, y | x in texts && y in texts
      ensures Similar(cfg, texts, x, y) <==> CountsReach(cfg, texts[x], texts[y])
    {
      SimilarExactlyWhen(Shingles(cfg, texts[x]), Shingles(cfg, texts[y]), cfg.threshold);
    }
  }

  // With at most 64 candidates: two are in one near cluster exactly when a chain of pairs
  // joins them, each of which has enough shingles in common.
  lemma SmallBatchByCounts(
    cfg: Config, h: Hashing, mentions: seq<Mention>, exact: seq<Cluster>, near: seq<Cluster>, x: string, y: string)
    requires DistinctIds(mentions) && cfg.nearEnabled && Analyzed(cfg, h, mentions, exact, near)
    requires var texts := NearTexts(cfg, IdsIn(exact), mentions); |texts| <= 64 && x in texts && y in texts && x != y
    ensures Together(near, x, y) <==> Connected(CountEdges(cfg, NearTexts(cfg, IdsIn(exact), mentions)), x, y)
  {
    var texts := NearTexts(cfg, IdsIn(exact), mentions);
    SmallBatchIsExact(ById(mentions), cfg, h, texts, near, x, y);
    ThresholdEdgesAreCounted(cfg, texts);
  }

  // Larger batches: a near cluster never leaves a component of that graph.
  lemma BandingIsSoundByCounts(
    cfg: Config, h: Hashing, mentions: seq<Mention>, exact: seq<Cluster>, near: seq<Cluster>, x: string, y: string)
    requires DistinctIds(mentions) && cfg.nearEnabled && Analyzed(cfg, h, mentions, exact, near)
    requires var texts := NearTexts(cfg, IdsIn(exact), mentions); x in texts && y in texts && x != y
    requires Together(near, x, y)
    ensures Connected(CountEdges(cfg, NearTexts(cfg, IdsIn(exact), mentions)), x, y)
  {
    var texts := NearTexts(cfg, IdsIn(exact), mentions);
    BandingIsSound(ById(mentions), cfg, h, texts, near, x, y);
    ThresholdEdgesAreCounted(cfg, texts);
  }

  // x has each of its buckets to itself, or shares it with more than the maximum.
  ghost predicate NoUsableBucket(cfg: Config, h: Hashing, texts: map<string, string>, x: string)
    requires x in texts
  {
    forall b: nat :: b < cfg.numBands ==>
      var bucket := Bucket(cfg, h, texts, b, BandOf(cfg, h, texts, b, x));
      bucket == {x} || |bucket| > cfg.maxBucketSize
  }

  // In a larger batch, a mention without a usable bucket is in no near cluster.
  lemma NoUsableBucketNoCluster(
    cfg: Config, h: Hashing, mentions: seq<Mention>, exact: seq<Cluster>, near: seq<Cluster>, x: string, y: string)
    requires DistinctIds(mentions) && cfg.nearEnabled && Analyzed(cfg, h, mentions, exact, near)
    requires var texts := NearTexts(cfg, IdsIn(exact), mentions);
      |texts| > 64 && x in texts && y in texts && x != y && NoUsableBucket(cfg, h, texts, x)
    ensures !Together(near, x, y)
  {
    var texts := NearTexts(cfg, IdsIn(exact), mentions);
    var edges := NearEdges(cfg, h, texts);
    ComponentsTogether(ById(mentions), texts.Keys, edges, near, x, y);
    NoNearEdges(cfg, h, texts, x);
    if Connected(edges, x, y) {
      IsolatedVertex(edges, x, y);
    }
  }

  lemma NoNearEdges(cfg: Config, h: Hashing, texts: map<string, string>, x: string)
    requires |texts| > 64 && x in texts && NoUsableBucket(cfg, h, texts, x)
    ensures forall z :: !Adjacent(NearEdges(cfg, h, texts), x, z)
  {
    forall z | z in texts && z != x
      ensures !Banded(cfg, h, texts, x, z) && !Banded(cfg, h, texts, z, x)
    {
      NotBanded(cfg, h, texts, x, z);
    }
  }

  lemma NotBanded(cfg: Config, h: Hashing, texts: map<string, string>, x: string, z: string)
    requires x in texts && z in texts && z != x && NoUsableBucket(cfg, h, texts, x)
    ensures !Banded(cfg, h, texts, x, z) && !Banded(cfg, h, texts, z, x)
  {
    forall b: nat | b < cfg.numBands && BandOf(cfg, h, texts, b, x) == BandOf(cfg, h, texts, b, z)
      ensures |Bucket(cfg, h, texts, b, BandOf(cfg, h, texts, b, x))| > cfg.maxBucketSize
    {
      assert z in Bucket(cfg, h, texts, b, BandOf(cfg, h, texts, b, x));
    }
  }

  // ----- What the records say --------------------------------------------------------------------

  // The kind's prefix and the first sixteen characters of the digest.
  ghost predicate NamedAfter(c: Cluster, prefix: string, digest: string) {
    && c.fingerprint == digest
    && c.clusterId == prefix + digest[..if |digest| < 16 then |digest| else 16]
  }

  // An exact cluster says so, claims full similarity, and is named after the digest that all
  // its members share.
  lemma ExactRecordSays(byId: map<string, Mention>, cls: map<string, string>, c: Cluster)
    requires ExactRecorded(byId, cls, c)
    ensures c.kind == Exact && c.similarity == 1.0 && c.size == |c.ids|
    ensures NamedAfter(c, "exact:", c.fingerprint)
    ensures forall x :: x in c.ids ==> x in cls && cls[x] == c.fingerprint
  {
    var k, group: seq<Mention> :| OfClass(byId, cls, k, group) && c == ExactRecord(k, group);
    forall i | 0 <= i < |c.ids|
      ensures c.ids[i] in cls && cls[c.ids[i]] == c.fingerprint
    {
      assert c.ids[i] == group[i].id && group[i] in group;
    }
  }

  // The members of an exact cluster are listed in the order of the batch.
  lemma ExactIdsInBatchOrder(cfg: Config, h: Hashing, mentions: seq<Mention>, c: Cluster, i: nat, j: nat)
    requires DistinctIds(mentions) && i < j < |c.ids|
    requires ListsGroup(Fingerprinted(cfg, h, mentions), ExactClasses(cfg, h, mentions), c)
    ensures exists a, b :: Precedes(mentions, a, b) && a.id == c.ids[i] && b.id == c.ids[j]
  {
    var members := Fingerprinted(cfg, h, mentions);
    var key := KeyOf(members, ExactClasses(cfg, h, mentions));
    var group := Members(members, key, c.fingerprint);
    assert Precedes(group, group[i], group[j]);
    MembersInOrder(members, key, c.fingerprint, group[i], group[j]);
    FingerprintedInOrder(cfg, h, mentions, group[i], group[j]);
  }

  lemma {:induction false} FingerprintedInOrder(cfg: Config, h: Hashing, mentions: seq<Mention>, a: Mention, b: Mention)
    requires Precedes(Fingerprinted(cfg, h, mentions), a, b)
    ensures Precedes(mentions, a, b)
  {
    var n := |mentions| - 1;
    FingerprintedAre(cfg, h, mentions[..n]);
    PrecedesByLast(mentions, Fingerprinted(cfg, h, mentions[..n]), Fingerprinted(cfg, h, mentions), a, b);
    if Precedes(Fingerprinted(cfg, h, mentions[..n]), a, b) {
      FingerprintedInOrder(cfg, h, mentions[..n], a, b);
      PrecedesLonger(mentions, n, a, b);
    }
  }

  // A near cluster says so, lists its members' ids in ascending order, and is named after the
  // digest of their texts, sorted and joined by a bar.
  lemma NearRecordSays(cfg: Config, h: Hashing, byId: map<string, Mention>, c: Cluster) returns (group: seq<Mention>)
    requires NearNamed(cfg, h, byId, c)
    ensures KnownGroup(byId, group) && NearSays(h, group, c) && c.similarity == MeanSimilarity(ShingleSets(cfg, group))
  {
    group :| KnownGroup(byId, group) && c == NearRecord(h, group, MeanSimilarity(ShingleSets(cfg, group)));
    NearRecordIs(h, group, MeanSimilarity(ShingleSets(cfg, group)));
  }

  ghost predicate NearSays(h: Hashing, group: seq<Mention>, c: Cluster) {
    && c.kind == Near && c.size == |group|
    && multiset(c.ids) == multiset(IdsOf(group)) && Ordered(c.ids, LexLe)
    && NamedAfter(c, "near:", h.digest(Join(Sorted(Compacts(group), LexLe), "|")))
  }

  lemma NearRecordIs(h: Hashing, group: seq<Mention>, similarity: real)
    requires group != []
    ensures NearSays(h, group, NearRecord(h, group, similarity)) && NearRecord(h, group, similarity).similarity == similarity
  {
    AscendingIds(IdsOf(group));
  }

  lemma AscendingIds(ids: seq<string>)
    ensures multiset(Sorted(ids, LexLe)) == multiset(ids) && Ordered(Sorted(ids, LexLe), LexLe)
  {
    SortedKeeps(ids, LexLe);
    LexLeIsPreorder();
    SortedOrdered(ids, LexLe);
  }

  // The similarity of a cluster is the mean over all ordered pairs of different members, to
  // within half a ten-thousandth.
  lemma MeanIsOverPairs(sets: seq<set<string>>, n: int)
    requires |sets| >= 2 && n == |sets| * (|sets| - 1)
    ensures -0.00005 * n as real <= MeanSimilarity(sets) * n as real - (Square(sets, sets) - Diagonal(sets)) <= 0.00005 * n as real
  {
    EvenProduct(|sets|);
    MeanOfPairs(sets, n);
    SquareSplits(sets);
  }

  lemma MeanOfPairs(sets: seq<set<string>>, n: int)
    requires n == |sets| * (|sets| - 1) && n % 2 == 0 && n >= 2
    ensures -0.00005 * n as real <= MeanSimilarity(sets) * n as real - 2.0 * PairSum(sets, |sets|) <= 0.00005 * n as real
  {
    var pairs, sum := (n / 2) as real, PairSum(sets, |sets|);
    ScaledBounds(Round4(sum / pairs), sum, pairs, 0.00005);
    Doubled(MeanSimilarity(sets), sum, pairs);
  }

  lemma {:induction false} EvenProduct(n: nat)
    ensures n * (n - 1) % 2 == 0 && (n >= 2 ==> n * (n - 1) >= 2)
  {
    if n > 0 {
      EvenProduct(n - 1);
      assert n * (n - 1) == (n - 1) * (n - 2) + 2 * (n - 1);
    }
  }

  lemma Doubled(mean: real, sum: real, pairs: real)
    requires -0.00005 * pairs <= mean * pairs - sum <= 0.00005 * pairs
    ensures var n := pairs * 2.0; -0.00005 * n <= mean * n - 2.0 * sum <= 0.00005 * n
  {
    assert mean * (pairs * 2.0) == 2.0 * (mean * pairs);
  }

  // The exact clusters go by ascending digest, the near ones by falling size and then by
  // ascending id.
  lemma ListsAreSorted(
    cfg: Config, h: Hashing, mentions: seq<Mention>, exact: seq<Cluster>, near: seq<Cluster>, i: nat, j: nat)
    requires DistinctIds(mentions) && AllNamed(cfg, h, mentions, exact, near) && i < j
    ensures j < |exact| ==> LexLe(exact[i].fingerprint, exact[j].fingerprint)
    ensures j < |near| ==> near[i].size >= near[j].size
    ensures j < |near| && near[i].size == near[j].size ==> LexLe(near[i].clusterId, near[j].clusterId)
  {
    assert j < |exact| ==> FingerprintLe(exact[i], exact[j]);
    assert j < |near| ==> ClusterLe(near[i], near[j]);
  }

  // Every listed cluster has two members or more, so the counters count the clusters.
  lemma CountersCountClusters(cfg: Config, h: Hashing, mentions: seq<Mention>, exact: seq<Cluster>, near: seq<Cluster>)
    requires DistinctIds(mentions) && Analyzed(cfg, h, mentions, exact, near)
    ensures CountLarge(exact) == |exact| && CountLarge(near) == |near|
  {
    forall c | c in exact
      ensures c.size >= 2
    {
      assert IsClass(ById(mentions), ExactClasses(cfg, h, mentions), c);
    }
    AllLarge(exact);
    if cfg.nearEnabled {
      NearAreLarge(ById(mentions), NearTexts(cfg, IdsIn(exact), mentions).Keys,
                   NearEdges(cfg, h, NearTexts(cfg, IdsIn(exact), mentions)), near);
    }
    AllLarge(near);
  }

  lemma NearAreLarge(
    byId: map<string, Mention>, vertices: set<string>, edges: set<(string, string)>, clusters: seq<Cluster>)
    requires Components(byId, vertices, edges, clusters)
    ensures forall c :: c in clusters ==> c.size >= 2
  {
    var root: map<string, string> :|
      root.Keys == vertices && Represents(root, edges) && Clustering(byId, root, clusters);
    forall c | c in clusters
      ensures c.size >= 2
    {
      assert IsClass(byId, root, c);
    }
  }

  lemma {:induction false} AllLarge(clusters: seq<Cluster>)
    requires forall c :: c in clusters ==> c.size >= 2
    ensures CountLarge(clusters) == |clusters|
  {
    if clusters != [] {
      assert clusters[0] in clusters;
      AllLarge(clusters[1..]);
    }
  }

  // What a member of a cluster carries.
  lemma AnnotationSays(c: Cluster)
    requires c.size >= 1
    ensures var a := AnnotationFor(c);
      && a.clusterId == Some(c.clusterId) && a.kind == Some(c.kind) && a.representative == Some(c.representative)
      && a.size == c.size && a.similarity == Some(c.similarity)
      && -0.0000005 * c.size as real <= a.weight * c.size as real - 1.0 <= 0.0000005 * c.size as real
  {
    ScaledBounds(AnnotationFor(c).weight, 1.0, c.size as real, 0.0000005);
  }
}
