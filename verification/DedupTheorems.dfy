// What near-duplicate and exact-duplicate clustering promise, for all inputs.
module DedupTheorems {
  import opened Basics
  import opened Connectivity
  import opened DedupModel
  import opened DedupService
  import opened Texts

  ghost predicate Together(clusters: seq<Cluster>, x: string, y: string) {
    exists c :: c in clusters && x in c.ids && y in c.ids
  }

  // ----- Near groups are connected components ------------------------------------------------

  lemma ClassesTogether(
    byId: map<string, Mention>, cls: map<string, string>, clusters: seq<Cluster>, x: string, y: string)
    requires Clustering(byId, cls, clusters)
    requires x in cls && y in cls && x != y
    ensures Together(clusters, x, y) <==> cls[x] == cls[y]
  {
    if Together(clusters, x, y) {
      var c :| c in clusters && x in c.ids && y in c.ids;
      assert IsClass(byId, cls, c);
    }
    if cls[x] == cls[y] {
      var c :| c in clusters && x in c.ids;
      assert IsClass(byId, cls, c);
    }
  }

  lemma ComponentsTogether(
    byId: map<string, Mention>, vertices: set<string>, edges: set<(string, string)>, clusters: seq<Cluster>, x: string, y: string)
    requires Components(byId, vertices, edges, clusters)
    requires x in vertices && y in vertices && x != y
    ensures Together(clusters, x, y) <==> Connected(edges, x, y)
  {
    var root: map<string, string> :|
      root.Keys == vertices && Represents(root, edges) && Clustering(byId, root, clusters);
    ClassesTogether(byId, root, clusters, x, y);
  }

  lemma SmallBatchEdges(cfg: Config, h: Hashing, texts: map<string, string>)
    requires |texts| <= BRUTE_FORCE_THRESHOLD
    ensures NearEdges(cfg, h, texts) == ThresholdEdges(cfg, texts)
  {
  }

  // With at most 64 signatures: one near group iff a chain of pairs at or above the threshold.
  lemma SmallBatchIsExact(
    byId: map<string, Mention>, cfg: Config, h: Hashing, texts: map<string, string>, near: seq<Cluster>, x: string, y: string)
    requires NearResult(byId, cfg, h, texts, near)
    requires |texts| <= BRUTE_FORCE_THRESHOLD
    requires x in texts && y in texts && x != y
    ensures Together(near, x, y) <==> Connected(ThresholdEdges(cfg, texts), x, y)
  {
    SmallBatchEdges(cfg, h, texts);
    ComponentsTogether(byId, texts.Keys, NearEdges(cfg, h, texts), near, x, y);
  }

  lemma NearEdgesAreThresholdEdges(cfg: Config, h: Hashing, texts: map<string, string>)
    ensures NearEdges(cfg, h, texts) <= ThresholdEdges(cfg, texts)
  {
  }

  // For any batch size: a near group never leaves a component of the threshold graph.
  lemma BandingIsSound(
    byId: map<string, Mention>, cfg: Config, h: Hashing, texts: map<string, string>, near: seq<Cluster>, x: string, y: string)
    requires NearResult(byId, cfg, h, texts, near)
    requires x in texts && y in texts && x != y && Together(near, x, y)
    ensures Connected(ThresholdEdges(cfg, texts), x, y)
  {
    NearEdgesAreThresholdEdges(cfg, h, texts);
    ComponentsTogether(byId, texts.Keys, NearEdges(cfg, h, texts), near, x, y);
    ConnectedMonotone(NearEdges(cfg, h, texts), ThresholdEdges(cfg, texts), x, y);
  }

  lemma EqualShinglesEqualBands(cfg: Config, h: Hashing, texts: map<string, string>, x: string, y: string, b: nat)
    requires cfg.Valid() && x in texts && y in texts && b < cfg.numBands
    requires Shingles(cfg, texts[x]) == Shingles(cfg, texts[y]) != {}
    ensures BandOf(cfg, h, texts, b, x) == BandOf(cfg, h, texts, b, y) != []
  {
    BandNonEmpty(cfg, Signature(cfg, h, Shingles(cfg, texts[x])), b);
  }

  // Equal shingle sets have equal signatures, hence share every bucket; one bucket of
  // acceptable size is enough to be grouped.
  lemma EqualShinglesAreGrouped(
    byId: map<string, Mention>, cfg: Config, h: Hashing, texts: map<string, string>, near: seq<Cluster>,
    x: string, y: string, b: nat)
    requires cfg.Valid() && cfg.threshold <= 1.0 && NearResult(byId, cfg, h, texts, near)
    requires x in texts && y in texts && x != y
    requires Shingles(cfg, texts[x]) == Shingles(cfg, texts[y]) != {}
    requires b < cfg.numBands
    requires |texts| <= BRUTE_FORCE_THRESHOLD || |Bucket(cfg, h, texts, b, BandOf(cfg, h, texts, b, x))| <= cfg.maxBucketSize
    ensures Together(near, x, y)
  {
    EqualShinglesEqualBands(cfg, h, texts, x, y, b);
    TwinsAreEdge(cfg, h, texts, x, y, b);
    ConnectedByEdge(NearEdges(cfg, h, texts), x, y);
    ComponentsTogether(byId, texts.Keys, NearEdges(cfg, h, texts), near, x, y);
  }

  lemma TwinsAreEdge(cfg: Config, h: Hashing, texts: map<string, string>, x: string, y: string, b: nat)
    requires cfg.threshold <= 1.0 && x in texts && y in texts && x != y
    requires Shingles(cfg, texts[x]) == Shingles(cfg, texts[y])
    requires b < cfg.numBands && BandOf(cfg, h, texts, b, x) == BandOf(cfg, h, texts, b, y) != []
    requires |texts| <= BRUTE_FORCE_THRESHOLD || |Bucket(cfg, h, texts, b, BandOf(cfg, h, texts, b, x))| <= cfg.maxBucketSize
    ensures (x, y) in NearEdges(cfg, h, texts)
  {
    JaccardOfEqual(Shingles(cfg, texts[x]));
    assert Similar(cfg, texts, x, y);
    assert Compared(cfg, h, texts, x, y);
  }

  // With a digest that has no collision, exact groups are the texts of the same words, if these,
  // joined by single spaces, are long enough.
  lemma ExactMeansSameText(cfg: Config, h: Hashing, mentions: seq<Mention>, exact: seq<Cluster>, x: Mention, y: Mention)
    requires DistinctIds(mentions) && Clustering(ById(mentions), ExactClasses(cfg, h, mentions), exact)
    requires forall s, t :: h.digest(s) == h.digest(t) ==> s == t
    requires x in mentions && y in mentions && x != y
    ensures Together(exact, x.id, y.id) <==>
      Split(x.compact) == Split(y.compact) && |Join(Split(x.compact), " ")| >= cfg.minTextLength
  {
    SameJoinSameWords(x.compact, y.compact);
    var cls := ExactClasses(cfg, h, mentions);
    TogetherAreClassified(ById(mentions), cls, exact, x.id, y.id);
    if x.id in cls && y.id in cls {
      ClassesTogether(ById(mentions), cls, exact, x.id, y.id);
    }
  }

  lemma TogetherAreClassified(
    byId: map<string, Mention>, cls: map<string, string>, clusters: seq<Cluster>, x: string, y: string)
    requires Clustering(byId, cls, clusters)
    ensures Together(clusters, x, y) ==> x in cls && y in cls
  {
    if Together(clusters, x, y) {
      var c :| c in clusters && x in c.ids && y in c.ids;
      assert IsClass(byId, cls, c);
    }
  }

  // ----- The input order does not matter -----------------------------------------------------

  // The same member sets, with the same sizes and representatives.
  ghost predicate SameClusters(a: seq<Cluster>, b: seq<Cluster>) {
    Covered(a, b) && Covered(b, a)
  }

  ghost predicate Covered(a: seq<Cluster>, b: seq<Cluster>) {
    forall c :: c in a ==> exists d :: d in b && Alike(c, d)
  }

  ghost predicate Alike(c: Cluster, d: Cluster) {
    (forall x :: x in c.ids <==> x in d.ids) && c.size == d.size && c.representative == d.representative
  }

  ghost predicate SamePartition(cls: map<string, string>, other: map<string, string>) {
    && cls.Keys == other.Keys
    && forall x, y :: x in cls && y in cls ==> (cls[x] == cls[y] <==> other[x] == other[y])
  }

  lemma ClassHasTwin(
    byId: map<string, Mention>, cls: map<string, string>, other: map<string, string>,
    a: seq<Cluster>, b: seq<Cluster>, c: Cluster)
    returns (d: Cluster)
    requires Clustering(byId, cls, a) && Clustering(byId, other, b) && SamePartition(cls, other)
    requires forall x :: x in byId ==> byId[x].id == x
    requires c in a
    ensures d in b && Alike(c, d)
  {
    assert IsClass(byId, cls, c);
    var x := c.representative;
    var y := if c.ids[0] == x then c.ids[1] else c.ids[0];
    assert c.ids[0] in c.ids && c.ids[1] in c.ids && c.ids[0] != c.ids[1];
    assert other[x] == other[y];
    d :| d in b && x in d.ids;
    TwinClassesAlike(byId, cls, other, c, d);
  }

  lemma TwinClassesAlike(
    byId: map<string, Mention>, cls: map<string, string>, other: map<string, string>, c: Cluster, d: Cluster)
    requires IsClass(byId, cls, c) && IsClass(byId, other, d) && SamePartition(cls, other)
    requires forall x :: x in byId ==> byId[x].id == x
    requires c.representative in d.ids
    ensures Alike(c, d)
  {
    forall x
      ensures x in c.ids <==> x in d.ids
    {
    }
    DistinctSize(c.ids);
    DistinctSize(d.ids);
    assert Elements(c.ids) == Elements(d.ids);
    BestIsUnique(byId[c.representative], byId[d.representative]);
  }

  lemma SamePartitionSameClusters(
    byId: map<string, Mention>, cls: map<string, string>, other: map<string, string>, a: seq<Cluster>, b: seq<Cluster>)
    requires Clustering(byId, cls, a) && Clustering(byId, other, b) && SamePartition(cls, other)
    requires forall x :: x in byId ==> byId[x].id == x
    ensures SameClusters(a, b)
  {
    forall c | c in a
      ensures exists d :: d in b && Alike(c, d)
    {
      var d := ClassHasTwin(byId, cls, other, a, b, c);
    }
    forall d | d in b
      ensures exists c :: c in a && Alike(d, c)
    {
      var c := ClassHasTwin(byId, other, cls, b, a, d);
    }
  }

  lemma PermutedViews(
    cfg: Config, h: Hashing, mentions: seq<Mention>, permuted: seq<Mention>, exactMembers: set<string>)
    requires DistinctIds(mentions) && DistinctIds(permuted)
    requires multiset(mentions) == multiset(permuted)
    ensures ById(mentions) == ById(permuted)
    ensures ExactClasses(cfg, h, mentions) == ExactClasses(cfg, h, permuted)
    ensures NearTexts(cfg, exactMembers, mentions) == NearTexts(cfg, exactMembers, permuted)
  {
    assert forall m :: m in mentions <==> m in permuted by {
      forall m ensures m in mentions <==> m in permuted {
        assert m in mentions <==> m in multiset(mentions);
        assert m in permuted <==> m in multiset(permuted);
      }
    }
    SameMembersSameViews(cfg, h, mentions, permuted, exactMembers);
  }

  lemma SameMembersSameViews(
    cfg: Config, h: Hashing, mentions: seq<Mention>, permuted: seq<Mention>, exactMembers: set<string>)
    requires DistinctIds(mentions) && DistinctIds(permuted)
    requires forall m :: m in mentions <==> m in permuted
    ensures ById(mentions) == ById(permuted)
    ensures ExactClasses(cfg, h, mentions) == ExactClasses(cfg, h, permuted)
    ensures NearTexts(cfg, exactMembers, mentions) == NearTexts(cfg, exactMembers, permuted)
  {
  }

  lemma NearOrderIrrelevant(
    byId: map<string, Mention>, cfg: Config, h: Hashing, texts: map<string, string>, near: seq<Cluster>,
    other: seq<Cluster>)
    requires NearResult(byId, cfg, h, texts, near) && NearResult(byId, cfg, h, texts, other)
    requires forall x :: x in byId ==> byId[x].id == x
    ensures SameClusters(near, other)
  {
    var edges := NearEdges(cfg, h, texts);
    var root: map<string, string> :| root.Keys == texts.Keys && Represents(root, edges) && Clustering(byId, root, near);
    var root': map<string, string> :| root'.Keys == texts.Keys && Represents(root', edges) && Clustering(byId, root', other);
    RootsSamePartition(root, root', edges);
    SamePartitionSameClusters(byId, root, root', near, other);
  }

  lemma RootsSamePartition(root: map<string, string>, other: map<string, string>, edges: set<(string, string)>)
    requires Represents(root, edges) && Represents(other, edges) && root.Keys == other.Keys
    ensures SamePartition(root, other)
  {
    forall x, y | x in root && y in root
      ensures root[x] == root[y] <==> other[x] == other[y]
    {
      assert root[x] == root[y] <==> Connected(edges, x, y);
      assert other[x] == other[y] <==> Connected(edges, x, y);
    }
  }

  // Permuting the batch changes no exact or near cluster and no representative.
  lemma InputOrderIrrelevant(
    cfg: Config, h: Hashing, mentions: seq<Mention>, permuted: seq<Mention>,
    exact: seq<Cluster>, near: seq<Cluster>, exact': seq<Cluster>, near': seq<Cluster>)
    requires DistinctIds(mentions) && DistinctIds(permuted)
    requires multiset(mentions) == multiset(permuted)
    requires Analyzed(cfg, h, mentions, exact, near) && Analyzed(cfg, h, permuted, exact', near')
    ensures SameClusters(exact, exact') && SameClusters(near, near')
  {
    PermutedViews(cfg, h, mentions, permuted, IdsIn(exact));
    var byId, cls := ById(mentions), ExactClasses(cfg, h, mentions);
    assert forall x :: x in byId ==> byId[x].id == x;
    if cfg.exactEnabled {
      SamePartitionSameClusters(byId, cls, cls, exact, exact');
    }
    SameClustersSameIds(exact, exact');
    if cfg.nearEnabled {
      NearOrderIrrelevant(byId, cfg, h, NearTexts(cfg, IdsIn(exact), mentions), near, near');
    }
  }

  lemma SameClustersSameIds(a: seq<Cluster>, b: seq<Cluster>)
    requires SameClusters(a, b)
    ensures IdsIn(a) == IdsIn(b)
  {
  }

  // ----- Weights are conserved ---------------------------------------------------------------

  ghost predicate Disjoint(clusters: seq<Cluster>) {
    forall i, j :: 0 <= i < j < |clusters| ==> forall x :: x in clusters[i].ids ==> x !in clusters[j].ids
  }

  lemma ClusteringDisjoint(byId: map<string, Mention>, cls: map<string, string>, clusters: seq<Cluster>)
    requires Clustering(byId, cls, clusters)
    ensures Disjoint(clusters)
    ensures forall c :: c in clusters ==> Sound(c, cls.Keys)
  {
    forall i, j, x | 0 <= i < j < |clusters| && x in clusters[i].ids
      ensures x !in clusters[j].ids
    {
      assert clusters[i] != clusters[j];
      assert IsClass(byId, cls, clusters[i]) && IsClass(byId, cls, clusters[j]);
    }
    forall c | c in clusters
      ensures Sound(c, cls.Keys)
    {
      assert IsClass(byId, cls, c);
    }
  }

  ghost function MentionIds(mentions: seq<Mention>): set<string> {
    set m | m in mentions :: m.id
  }

  ghost predicate Sound(c: Cluster, ids: set<string>) {
    Distinct(c.ids) && c.size == |c.ids| >= 1 && forall x :: x in c.ids ==> x in ids
  }

  // Well-formed clusters of batch members, no two of which share a member: the annotation
  // of one cluster never overwrites that of another.
  ghost predicate Conservable(mentions: seq<Mention>, clusters: seq<Cluster>) {
    Disjoint(clusters) && forall c :: c in clusters ==> Sound(c, MentionIds(mentions))
  }

  lemma NoMentionInTwoClusters(cfg: Config, h: Hashing, mentions: seq<Mention>, exact: seq<Cluster>, near: seq<Cluster>)
    requires DistinctIds(mentions) && Analyzed(cfg, h, mentions, exact, near)
    ensures Conservable(mentions, exact + near)
  {
    var byId, classes := ById(mentions), ExactClasses(cfg, h, mentions);
    var texts := NearTexts(cfg, IdsIn(exact), mentions);
    if cfg.exactEnabled {
      ClusteringDisjoint(byId, classes, exact);
    }
    if cfg.nearEnabled {
      NearDisjoint(byId, cfg, h, texts, near);
    }
    assert classes.Keys <= MentionIds(mentions);
    assert texts.Keys <= MentionIds(mentions) - IdsIn(exact);
    assert forall c :: c in exact ==> Sound(c, classes.Keys);
    assert forall c :: c in near ==> Sound(c, texts.Keys);
    JoinedConservable(mentions, exact, near, classes.Keys, texts.Keys);
  }

  lemma JoinedConservable(
    mentions: seq<Mention>, exact: seq<Cluster>, near: seq<Cluster>, exactIds: set<string>, nearIds: set<string>)
    requires Disjoint(exact) && Disjoint(near)
    requires exactIds <= MentionIds(mentions) && nearIds <= MentionIds(mentions) - IdsIn(exact)
    requires forall c :: c in exact ==> Sound(c, exactIds)
    requires forall c :: c in near ==> Sound(c, nearIds)
    ensures Conservable(mentions, exact + near)
  {
    var all := exact + near;
    forall i, j, x | 0 <= i < j < |all| && x in all[i].ids
      ensures x !in all[j].ids
    {
      if i < |exact| <= j {
        assert x in IdsIn(exact);
        assert Sound(near[j - |exact|], nearIds);
      }
    }
  }

  lemma NearDisjoint(
    byId: map<string, Mention>, cfg: Config, h: Hashing, texts: map<string, string>, near: seq<Cluster>)
    requires NearResult(byId, cfg, h, texts, near)
    ensures Disjoint(near)
    ensures forall c :: c in near ==> Sound(c, texts.Keys)
  {
    var root: map<string, string> :|
      root.Keys == texts.Keys && Represents(root, NearEdges(cfg, h, texts)) && Clustering(byId, root, near);
    ClusteringDisjoint(byId, root, near);
  }

  function TotalWeight(mentions: seq<Mention>): real {
    if mentions == [] then 0.0 else TotalWeight(mentions[..|mentions| - 1]) + mentions[|mentions| - 1].dedup.weight
  }

  function ClusteredCount(clusters: seq<Cluster>): nat {
    if clusters == [] then 0 else ClusteredCount(clusters[..|clusters| - 1]) + |clusters[|clusters| - 1].ids|
  }

  ghost predicate Fresh(mentions: seq<Mention>) {
    forall m :: m in mentions ==> m.dedup.weight == 1.0
  }

  ghost function WeightUnder(updates: map<string, Annotation>, m: Mention): real {
    if m.id in updates then updates[m.id].weight else 1.0
  }

  ghost function WeightsUnder(updates: map<string, Annotation>, mentions: seq<Mention>): real {
    if mentions == [] then 0.0
    else WeightsUnder(updates, mentions[..|mentions| - 1]) + WeightUnder(updates, mentions[|mentions| - 1])
  }

  lemma {:induction false} AnnotatedTotal(mentions: seq<Mention>, updates: map<string, Annotation>)
    requires Fresh(mentions)
    ensures TotalWeight(AnnotatedAll(updates, mentions)) == WeightsUnder(updates, mentions)
  {
    if mentions != [] {
      var n := |mentions| - 1;
      assert mentions[n] in mentions;
      AnnotatedTotal(mentions[..n], updates);
      assert AnnotatedAll(updates, mentions)[..n] == AnnotatedAll(updates, mentions[..n]);
    }
  }

  lemma {:induction false} UnknownIdChangesNothing(
    mentions: seq<Mention>, updates: map<string, Annotation>, x: string, a: Annotation)
    requires x !in MentionIds(mentions)
    ensures WeightsUnder(updates[x := a], mentions) == WeightsUnder(updates, mentions)
  {
    if mentions != [] {
      var n := |mentions| - 1;
      assert mentions[n].id in MentionIds(mentions);
      assert MentionIds(mentions[..n]) <= MentionIds(mentions);
      UnknownIdChangesNothing(mentions[..n], updates, x, a);
    }
  }

  // Annotating one more id of the batch replaces one weight of 1.
  lemma {:induction false} OneMoreAnnotation(
    mentions: seq<Mention>, updates: map<string, Annotation>, x: string, a: Annotation)
    requires DistinctIds(mentions) && x !in updates && x in MentionIds(mentions)
    ensures WeightsUnder(updates[x := a], mentions) == WeightsUnder(updates, mentions) + a.weight - 1.0
  {
    var n := |mentions| - 1;
    var init, last := mentions[..n], mentions[n];
    if last.id == x {
      assert x !in MentionIds(init);
      UnknownIdChangesNothing(init, updates, x, a);
    } else {
      assert x in MentionIds(init);
      OneMoreAnnotation(init, updates, x, a);
    }
  }

  ghost function Copies(n: nat, w: real): real {
    if n == 0 then 0.0 else Copies(n - 1, w) + w
  }

  lemma {:induction false} CopiesAreProduct(n: nat, w: real)
    ensures Copies(n, w) == n as real * w
  {
    if n > 0 {
      CopiesAreProduct(n - 1, w);
      OneMoreCopy((n - 1) as real, n as real, w);
    }
  }

  lemma OneMoreCopy(before: real, after: real, w: real)
    requires after == before + 1.0
    ensures after * w == before * w + w
  {
    assert (before + 1.0) * w == before * w + 1.0 * w;
  }

  lemma {:induction false} ManyMoreAnnotations(
    mentions: seq<Mention>, updates: map<string, Annotation>, ids: seq<string>, a: Annotation)
    requires DistinctIds(mentions) && Distinct(ids)
    requires forall x :: x in ids ==> x !in updates && x in MentionIds(mentions)
    ensures WeightsUnder(WithIds(updates, ids, a), mentions) ==
      WeightsUnder(updates, mentions) + Copies(|ids|, a.weight - 1.0)
  {
    if ids != [] {
      var n := |ids| - 1;
      var init, x := ids[..n], ids[n];
      assert x in ids && x !in init;
      ManyMoreAnnotations(mentions, updates, init, a);
      WithIdsKeys(updates, init, a);
      OneMoreAnnotation(mentions, WithIds(updates, init, a), x, a);
    }
  }

  lemma {:induction false} FreshTotal(mentions: seq<Mention>)
    ensures WeightsUnder(map[], mentions) == |mentions| as real
  {
    if mentions != [] {
      FreshTotal(mentions[..|mentions| - 1]);
    }
  }

  // r copies of 1 / r, each off by at most half a millionth.
  lemma ReciprocalCopies(r: real, w: real)
    requires r >= 1.0 && -0.0000005 <= w - 1.0 / r <= 0.0000005
    ensures -0.0000005 * r <= r * (w - 1.0) + r - 1.0 <= 0.0000005 * r
  {
    var reciprocal := 1.0 / r;
    var error := w - reciprocal;
    assert r * reciprocal == 1.0;
    Distribute(r, reciprocal, error);
    ScaledBound(r, error);
  }

  // Replacing n weights of 1 by a rounded 1 / n leaves about one.
  lemma ClusterCountsAsOne(c: Cluster)
    requires c.size == |c.ids| >= 1
    ensures var size := |c.ids| as real;
      -0.0000005 * size <= Copies(|c.ids|, AnnotationFor(c).weight - 1.0) + size - 1.0 <= 0.0000005 * size
  {
    CopiesAreProduct(|c.ids|, AnnotationFor(c).weight - 1.0);
    ReciprocalCopies(|c.ids| as real, AnnotationFor(c).weight);
  }

  lemma Distribute(r: real, a: real, b: real)
    ensures r * (a + b - 1.0) == r * a + r * b - r
  {
  }

  lemma ScaledBound(n: real, error: real)
    requires n >= 0.0 && -0.0000005 <= error <= 0.0000005
    ensures -0.0000005 * n <= n * error <= 0.0000005 * n
  {
  }

  ghost function ExpectedWeight(mentions: seq<Mention>, clusters: seq<Cluster>): real {
    |clusters| as real + |mentions| as real - ClusteredCount(clusters) as real
  }

  lemma LastIsApart(clusters: seq<Cluster>, x: string)
    requires clusters != [] && Disjoint(clusters) && x in clusters[|clusters| - 1].ids
    ensures x !in IdsIn(clusters[..|clusters| - 1])
  {
  }

  // The weights of a fresh batch add up to the number of clusters plus the number of
  // unclustered mentions, up to half a millionth per clustered mention.
  lemma {:induction false} WeightsConserved(mentions: seq<Mention>, clusters: seq<Cluster>)
    requires DistinctIds(mentions) && Conservable(mentions, clusters)
    ensures var error := WeightsUnder(Annotations(clusters), mentions) - ExpectedWeight(mentions, clusters);
      -0.0000005 * ClusteredCount(clusters) as real <= error <= 0.0000005 * ClusteredCount(clusters) as real
  {
    if clusters == [] {
      FreshTotal(mentions);
    } else {
      ConservableInit(mentions, clusters);
      WeightsConserved(mentions, clusters[..|clusters| - 1]);
      LastClusterWeight(mentions, clusters, clusters[..|clusters| - 1], clusters[|clusters| - 1]);
    }
  }

  lemma LastClusterWeight(mentions: seq<Mention>, clusters: seq<Cluster>, init: seq<Cluster>, c: Cluster)
    requires DistinctIds(mentions) && clusters != []
    requires init == clusters[..|clusters| - 1] && c == clusters[|clusters| - 1]
    requires Sound(c, MentionIds(mentions)) && forall x :: x in c.ids ==> x !in Annotations(init)
    ensures var size := |c.ids| as real;
      var added := WeightsUnder(Annotations(clusters), mentions) - WeightsUnder(Annotations(init), mentions);
      && -0.0000005 * size <= added + size - 1.0 <= 0.0000005 * size
      && ExpectedWeight(mentions, clusters) == ExpectedWeight(mentions, init) + 1.0 - size
      && ClusteredCount(clusters) as real == ClusteredCount(init) as real + size
  {
    ManyMoreAnnotations(mentions, Annotations(init), c.ids, AnnotationFor(c));
    ClusterCountsAsOne(c);
  }

  lemma ConservableInit(mentions: seq<Mention>, clusters: seq<Cluster>)
    requires Conservable(mentions, clusters) && clusters != []
    ensures var init, c := clusters[..|clusters| - 1], clusters[|clusters| - 1];
      && Conservable(mentions, init) && Sound(c, MentionIds(mentions))
      && forall x :: x in c.ids ==> x !in Annotations(init)
  {
    var init, c := clusters[..|clusters| - 1], clusters[|clusters| - 1];
    assert c in clusters;
    AnnotationKeys(init);
    forall x | x in c.ids
      ensures x !in Annotations(init)
    {
      LastIsApart(clusters, x);
    }
  }

  // The same, for the batch as annotated.
  lemma AnnotatedWeightsConserved(
    cfg: Config, h: Hashing, mentions: seq<Mention>, exact: seq<Cluster>, near: seq<Cluster>, updated: seq<Mention>)
    requires DistinctIds(mentions) && Fresh(mentions) && Analyzed(cfg, h, mentions, exact, near)
    requires updated == AnnotatedAll(Annotations(exact + near), mentions)
    ensures var clustered := ClusteredCount(exact + near);
      var expected := |exact + near| as real + |mentions| as real - clustered as real;
      expected - 0.0000005 * clustered as real <= TotalWeight(updated) <= expected + 0.0000005 * clustered as real
  {
    NoMentionInTwoClusters(cfg, h, mentions, exact, near);
    WeightsConserved(mentions, exact + near);
    AnnotatedTotal(mentions, Annotations(exact + near));
  }
}
