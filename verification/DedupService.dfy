// internal/dedup/usecase/annotate_dedup.py: cluster records, the exact and near passes as
// wholes, and the annotation of mentions.
module DedupService {
  import opened Basics
  import opened Connectivity
  import opened DedupModel
  import opened DedupNear
  import opened Grouping
  import opened Rounding
  import opened Sorting
  import opened Texts
  import opened UnionFinds

  function IdsOf(members: seq<Mention>): (ids: seq<string>)
    ensures |ids| == |members| && forall i :: 0 <= i < |ids| ==> ids[i] == members[i].id
  {
    seq(|members|, i requires 0 <= i < |members| => members[i].id)
  }

  // ----- From groups to clusters ---------------------------------------------------------

  // The class map of the ids, seen on the mentions themselves.
  ghost function KeyOf(members: seq<Mention>, cls: map<string, string>): map<Mention, string>
    requires forall m :: m in members ==> m.id in cls
  {
    map m | m in members :: cls[m.id]
  }

  // `members` are distinct mentions, all classified, and nothing else is.
  ghost predicate Classified(byId: map<string, Mention>, cls: map<string, string>, members: seq<Mention>) {
    && Distinct(members)
    && (forall m :: m in members ==> m.id in byId && byId[m.id] == m && m.id in cls)
    && (forall x :: x in cls ==> x in byId && byId[x].id == x && byId[x] in members)
  }

  // c lists one group, in any order, with the group's representative.
  ghost predicate Records(c: Cluster, group: seq<Mention>) {
    && |group| >= 2
    && c.size == |c.ids| && Distinct(c.ids)
    && (forall x :: x in c.ids <==> exists m :: m in group && m.id == x)
    && c.representative == Representative(group).id
    && c.representativeText == Representative(group).raw
  }

  lemma GroupIsClass(
    byId: map<string, Mention>, cls: map<string, string>, members: seq<Mention>,
    groups: map<string, seq<Mention>>, order: seq<string>, k: string, x: string)
    requires Classified(byId, cls, members)
    requires IsGrouping(members, KeyOf(members, cls), groups, order) && k in groups
    ensures x in cls && cls[x] == k <==> exists m :: m in groups[k] && m.id == x
  {
    MembersAre(members, KeyOf(members, cls), k);
    if x in cls && cls[x] == k {
      assert byId[x] in groups[k];
    }
  }

  lemma RecordIsClass(
    byId: map<string, Mention>, cls: map<string, string>, members: seq<Mention>,
    groups: map<string, seq<Mention>>, order: seq<string>, k: string, c: Cluster)
    requires Classified(byId, cls, members)
    requires IsGrouping(members, KeyOf(members, cls), groups, order)
    requires k in groups && Records(c, groups[k])
    ensures IsClass(byId, cls, c) && cls[c.representative] == k
  {
    forall x
      ensures x in c.ids <==> x in cls && cls[x] == k
    {
      GroupIsClass(byId, cls, members, groups, order, k, x);
    }
    GroupMembersKnown(byId, cls, members, groups, order, k);
    RecordFits(byId, cls, groups[k], k, c);
  }

  lemma RecordFits(byId: map<string, Mention>, cls: map<string, string>, group: seq<Mention>, k: string, c: Cluster)
    requires cls.Keys <= byId.Keys && Records(c, group) && Distinct(group)
    requires forall m :: m in group ==> m.id in byId && byId[m.id] == m
    requires forall x :: x in c.ids <==> x in cls && cls[x] == k
    ensures IsClass(byId, cls, c) && cls[c.representative] == k
  {
    RepresentativeIsBest(group);
    assert |c.ids| >= 2 by {
      var m, n := group[0], group[1];
      assert m in group && n in group && m != n;
      assert m.id in c.ids && n.id in c.ids && m.id != n.id;
    }
  }

  // c is the class of one of the keys handled.
  ghost predicate ClassOf(byId: map<string, Mention>, cls: map<string, string>, done: seq<string>, c: Cluster) {
    IsClass(byId, cls, c) && cls[c.representative] in done
  }

  ghost predicate HasCluster(cls: map<string, string>, clusters: seq<Cluster>, k: string) {
    exists c :: c in clusters && c.representative in cls && cls[c.representative] == k
  }

  ghost predicate KeysApart(cls: map<string, string>, clusters: seq<Cluster>) {
    forall c, d :: c in clusters && d in clusters && c != d ==>
      c.representative in cls && d.representative in cls && cls[c.representative] != cls[d.representative]
  }

  // The clusters of the keys handled so far.
  ghost predicate Gathered(
    byId: map<string, Mention>, cls: map<string, string>, groups: map<string, seq<Mention>>,
    done: seq<string>, clusters: seq<Cluster>)
  {
    && (forall c {:trigger ClassOf(byId, cls, done, c)} :: c in clusters ==> ClassOf(byId, cls, done, c))
    && Distinct(clusters) && KeysApart(cls, clusters)
    && (forall k {:trigger HasCluster(cls, clusters, k)} ::
          k in done && k in groups && |groups[k]| >= 2 ==> HasCluster(cls, clusters, k))
  }

  lemma GatherOne(
    byId: map<string, Mention>, cls: map<string, string>, groups: map<string, seq<Mention>>,
    done: seq<string>, clusters: seq<Cluster>, k: string, c: Cluster)
    requires Gathered(byId, cls, groups, done, clusters) && k !in done
    requires IsClass(byId, cls, c) && cls[c.representative] == k
    ensures Gathered(byId, cls, groups, done + [k], clusters + [c])
  {
    var more := clusters + [c];
    forall d | d in clusters
      ensures d != c && d.representative in cls && cls[d.representative] != k && ClassOf(byId, cls, done + [k], d)
    {
      assert ClassOf(byId, cls, done, d);
    }
    assert ClassOf(byId, cls, done + [k], c);
    forall l | l in done + [k] && l in groups && |groups[l]| >= 2
      ensures HasCluster(cls, more, l)
    {
      if l == k {
        assert c in more;
      } else {
        assert HasCluster(cls, clusters, l);
        var d :| d in clusters && d.representative in cls && cls[d.representative] == l;
        assert d in more;
      }
    }
  }

  // One round of the loop over groups: recorded as c, or too small to record.
  lemma GatherRecorded(
    byId: map<string, Mention>, cls: map<string, string>, members: seq<Mention>,
    groups: map<string, seq<Mention>>, order: seq<string>, i: nat, clusters: seq<Cluster>, c: Cluster)
    requires Classified(byId, cls, members)
    requires IsGrouping(members, KeyOf(members, cls), groups, order)
    requires i < |order| && Gathered(byId, cls, groups, order[..i], clusters)
    requires order[i] in groups && Records(c, groups[order[i]])
    ensures Gathered(byId, cls, groups, order[..i + 1], clusters + [c])
  {
    RecordIsClass(byId, cls, members, groups, order, order[i], c);
    assert order[i] !in order[..i];
    GatherOne(byId, cls, groups, order[..i], clusters, order[i], c);
    assert order[..i + 1] == order[..i] + [order[i]];
  }

  lemma GatherNone(
    byId: map<string, Mention>, cls: map<string, string>, groups: map<string, seq<Mention>>,
    done: seq<string>, clusters: seq<Cluster>, k: string)
    requires Gathered(byId, cls, groups, done, clusters) && k in groups && |groups[k]| < 2
    ensures Gathered(byId, cls, groups, done + [k], clusters)
  {
    forall c | c in clusters
      ensures ClassOf(byId, cls, done + [k], c)
    {
      assert ClassOf(byId, cls, done, c);
    }
    forall l | l in done + [k] && l in groups && |groups[l]| >= 2
      ensures HasCluster(cls, clusters, l)
    {
      assert l in done;
    }
  }

  lemma GatheredIsClustering(
    byId: map<string, Mention>, cls: map<string, string>, members: seq<Mention>,
    groups: map<string, seq<Mention>>, order: seq<string>, clusters: seq<Cluster>)
    requires Classified(byId, cls, members)
    requires IsGrouping(members, KeyOf(members, cls), groups, order)
    requires Gathered(byId, cls, groups, order, clusters)
    ensures Clustering(byId, cls, clusters)
  {
    forall c | c in clusters
      ensures IsClass(byId, cls, c)
    {
      assert ClassOf(byId, cls, order, c);
    }
    forall x, y | x in cls && y in cls && x != y && cls[x] == cls[y]
      ensures exists c :: c in clusters && x in c.ids
    {
      TwinIsGathered(byId, cls, members, groups, order, clusters, x, y);
    }
  }

  lemma TwinIsGathered(
    byId: map<string, Mention>, cls: map<string, string>, members: seq<Mention>,
    groups: map<string, seq<Mention>>, order: seq<string>, clusters: seq<Cluster>, x: string, y: string)
    requires Classified(byId, cls, members)
    requires IsGrouping(members, KeyOf(members, cls), groups, order)
    requires Gathered(byId, cls, groups, order, clusters)
    requires x in cls && y in cls && x != y && cls[x] == cls[y]
    ensures exists c :: c in clusters && x in c.ids
  {
    TwoInAGroup(members, KeyOf(members, cls), groups, order, byId[x], byId[y]);
    InItsGroup(members, KeyOf(members, cls), groups, order, byId[x]);
    var c := GatheredHas(byId, cls, groups, order, clusters, cls[x]);
  }

  lemma GatheredHas(
    byId: map<string, Mention>, cls: map<string, string>, groups: map<string, seq<Mention>>,
    done: seq<string>, clusters: seq<Cluster>, k: string)
    returns (c: Cluster)
    requires Gathered(byId, cls, groups, done, clusters)
    requires k in done && k in groups && |groups[k]| >= 2
    ensures c in clusters && forall x :: x in cls && cls[x] == k ==> x in c.ids
  {
    assert HasCluster(cls, clusters, k);
    c :| c in clusters && c.representative in cls && cls[c.representative] == k;
    assert ClassOf(byId, cls, done, c);
  }

  lemma ClusteringReordered(byId: map<string, Mention>, cls: map<string, string>, a: seq<Cluster>, b: seq<Cluster>)
    requires Clustering(byId, cls, a) && multiset(a) == multiset(b)
    ensures Clustering(byId, cls, b)
  {
    DistinctByMultiset(a, b);
    assert forall c :: c in a <==> c in b by {
      forall c ensures c in a <==> c in b {
        assert c in a <==> c in multiset(a);
        assert c in b <==> c in multiset(b);
      }
    }
  }

  // ----- The exact pass --------------------------------------------------------------------

  ghost function Fingerprinted(cfg: Config, h: Hashing, mentions: seq<Mention>): seq<Mention> {
    if mentions == [] then []
    else
      var n := |mentions| - 1;
      Fingerprinted(cfg, h, mentions[..n]) +
      (if Fingerprint(cfg, h, mentions[n].compact).Some? then [mentions[n]] else [])
  }

  lemma {:induction false} FingerprintedAre(cfg: Config, h: Hashing, mentions: seq<Mention>)
    ensures forall m :: m in Fingerprinted(cfg, h, mentions) <==> m in mentions && Fingerprint(cfg, h, m.compact).Some?
    ensures Distinct(mentions) ==> Distinct(Fingerprinted(cfg, h, mentions))
  {
    if mentions != [] {
      var n := |mentions| - 1;
      FingerprintedAre(cfg, h, mentions[..n]);
      assert mentions == mentions[..n] + [mentions[n]];
      if Distinct(mentions) {
        assert mentions[n] !in mentions[..n];
      }
    }
  }

  function ExactRecord(fingerprint: string, group: seq<Mention>): Cluster
    requires group != []
  {
    var rep := Representative(group);
    Cluster("exact:" + Prefix(fingerprint, 16), Exact, rep.id, rep.raw, IdsOf(group), |group|, 1.0, fingerprint)
  }

  // `group` holds members of the class k only.
  ghost predicate OfClass(byId: map<string, Mention>, cls: map<string, string>, k: string, group: seq<Mention>) {
    && group != [] && Distinct(group)
    && forall m :: m in group ==> m.id in byId && byId[m.id] == m && m.id in cls && cls[m.id] == k
  }

  // c carries the id, fingerprint and members of one exact class.
  ghost predicate ExactRecorded(byId: map<string, Mention>, cls: map<string, string>, c: Cluster) {
    exists k, group :: OfClass(byId, cls, k, group) && c == ExactRecord(k, group)
  }

  lemma ExactRecords(byId: map<string, Mention>, fingerprint: string, group: seq<Mention>)
    requires |group| >= 2 && Distinct(group) && forall m :: m in group ==> m.id in byId && byId[m.id] == m
    ensures Records(ExactRecord(fingerprint, group), group)
  {
    var c := ExactRecord(fingerprint, group);
    forall x
      ensures x in c.ids <==> exists m :: m in group && m.id == x
    {
      if x in c.ids {
        var i :| 0 <= i < |c.ids| && c.ids[i] == x;
        assert group[i] in group;
      }
      if m :| m in group && m.id == x {
        var i :| 0 <= i < |group| && group[i] == m;
        assert c.ids[i] == x;
      }
    }
  }

  method GroupExact(cfg: Config, h: Hashing, mentions: seq<Mention>)
    returns (groups: map<string, seq<Mention>>, order: seq<string>)
    requires DistinctIds(mentions)
    ensures IsGrouping(Fingerprinted(cfg, h, mentions), ExactKey(cfg, h, mentions), groups, order)
  {
    groups, order := map[], [];
    for i := 0 to |mentions|
      invariant Keyed(Fingerprinted(cfg, h, mentions[..i]), ExactKey(cfg, h, mentions))
      invariant IsGrouping(Fingerprinted(cfg, h, mentions[..i]), ExactKey(cfg, h, mentions), groups, order)
    {
      var m := mentions[i];
      GroupExactStep(cfg, h, mentions, i, groups, order);
      match Fingerprint(cfg, h, m.compact)
      case None =>
      case Some(f) => groups, order := Append(groups, f, m), AppendKey(order, f);
    }
    assert mentions[..|mentions|] == mentions;
  }

  lemma GroupExactStep(
    cfg: Config, h: Hashing, mentions: seq<Mention>, i: nat, groups: map<string, seq<Mention>>, order: seq<string>)
    requires DistinctIds(mentions) && i < |mentions|
    requires Keyed(Fingerprinted(cfg, h, mentions[..i]), ExactKey(cfg, h, mentions))
    requires IsGrouping(Fingerprinted(cfg, h, mentions[..i]), ExactKey(cfg, h, mentions), groups, order)
    ensures Keyed(Fingerprinted(cfg, h, mentions[..i + 1]), ExactKey(cfg, h, mentions))
    ensures match Fingerprint(cfg, h, mentions[i].compact)
      case None => IsGrouping(Fingerprinted(cfg, h, mentions[..i + 1]), ExactKey(cfg, h, mentions), groups, order)
      case Some(f) =>
        IsGrouping(Fingerprinted(cfg, h, mentions[..i + 1]), ExactKey(cfg, h, mentions),
                   Append(groups, f, mentions[i]), AppendKey(order, f))
  {
    FingerprintedStep(cfg, h, mentions, i);
    if Fingerprint(cfg, h, mentions[i].compact).Some? {
      assert mentions[i] in mentions;
      GroupingStep(Fingerprinted(cfg, h, mentions[..i]), ExactKey(cfg, h, mentions), groups, order, mentions[i]);
    } else {
      assert Fingerprinted(cfg, h, mentions[..i + 1]) == Fingerprinted(cfg, h, mentions[..i]);
    }
  }

  lemma FingerprintedStep(cfg: Config, h: Hashing, mentions: seq<Mention>, i: nat)
    requires DistinctIds(mentions) && i < |mentions|
    ensures Keyed(Fingerprinted(cfg, h, mentions[..i]), ExactKey(cfg, h, mentions))
    ensures Keyed(Fingerprinted(cfg, h, mentions[..i + 1]), ExactKey(cfg, h, mentions))
    ensures Fingerprinted(cfg, h, mentions[..i + 1]) == Fingerprinted(cfg, h, mentions[..i]) +
      (if Fingerprint(cfg, h, mentions[i].compact).Some? then [mentions[i]] else [])
  {
    assert mentions[..i + 1][..i] == mentions[..i];
    FingerprintedAre(cfg, h, mentions[..i]);
    FingerprintedAre(cfg, h, mentions[..i + 1]);
  }

  ghost function ExactKey(cfg: Config, h: Hashing, mentions: seq<Mention>): (key: map<Mention, string>)
    requires DistinctIds(mentions)
    ensures Keyed(Fingerprinted(cfg, h, mentions), key)
    ensures forall m :: m in key <==> m in mentions && Fingerprint(cfg, h, m.compact).Some?
    ensures forall m :: m in key ==> key[m] == Fingerprint(cfg, h, m.compact).value
  {
    FingerprintedAre(cfg, h, mentions);
    map m | m in mentions && Fingerprint(cfg, h, m.compact).Some? :: Fingerprint(cfg, h, m.compact).value
  }

  lemma ExactKeyIsKeyOf(cfg: Config, h: Hashing, mentions: seq<Mention>)
    requires DistinctIds(mentions)
    ensures Classified(ById(mentions), ExactClasses(cfg, h, mentions), Fingerprinted(cfg, h, mentions))
    ensures KeyOf(Fingerprinted(cfg, h, mentions), ExactClasses(cfg, h, mentions)) == ExactKey(cfg, h, mentions)
  {
    FingerprintedAre(cfg, h, mentions);
    assert Distinct(mentions);
    SelectedClassified(cfg, h, mentions, Fingerprinted(cfg, h, mentions));
  }

  lemma SelectedClassified(cfg: Config, h: Hashing, mentions: seq<Mention>, selected: seq<Mention>)
    requires DistinctIds(mentions) && Distinct(selected)
    requires forall m :: m in selected <==> m in mentions && Fingerprint(cfg, h, m.compact).Some?
    ensures Classified(ById(mentions), ExactClasses(cfg, h, mentions), selected)
  {
    var byId, cls := ById(mentions), ExactClasses(cfg, h, mentions);
    forall m | m in selected
      ensures m.id in byId && byId[m.id] == m && m.id in cls
    {
      assert m in mentions;
    }
  }

  method ExactClusters(cfg: Config, h: Hashing, mentions: seq<Mention>) returns (clusters: seq<Cluster>)
    requires DistinctIds(mentions)
    ensures Clustering(ById(mentions), ExactClasses(cfg, h, mentions), clusters)
    ensures forall c :: c in clusters ==> ExactRecorded(ById(mentions), ExactClasses(cfg, h, mentions), c)
    ensures forall c :: c in clusters ==> ListsGroup(Fingerprinted(cfg, h, mentions), ExactClasses(cfg, h, mentions), c)
    ensures Ordered(clusters, FingerprintLe)
  {
    ghost var byId, cls := ById(mentions), ExactClasses(cfg, h, mentions);
    ghost var members := Fingerprinted(cfg, h, mentions);
    var groups, order := GroupExact(cfg, h, mentions);
    ExactKeyIsKeyOf(cfg, h, mentions);
    SortedKeeps(order, LexLe);
    SortedDistinct(order, LexLe);
    LexLeIsPreorder();
    SortedOrdered(order, LexLe);
    var sorted := Sorted(order, LexLe);
    ReorderedGrouping(members, KeyOf(members, cls), groups, order, sorted);
    clusters := RecordExact(groups, sorted, byId, cls, members);
  }

  // Exact clusters are listed by fingerprint.
  predicate FingerprintLe(a: Cluster, b: Cluster) {
    LexLe(a.fingerprint, b.fingerprint)
  }

  // The clusters so far, sorted, are of fingerprints before position n.
  ghost predicate ByFingerprint(order: seq<string>, n: nat, clusters: seq<Cluster>) {
    Ordered(clusters, FingerprintLe) && forall c :: c in clusters ==> exists j :: 0 <= j < n && j < |order| && order[j] == c.fingerprint
  }

  lemma NextFingerprint(order: seq<string>, n: nat, clusters: seq<Cluster>, c: Cluster)
    requires Ordered(order, LexLe) && n < |order| && ByFingerprint(order, n, clusters) && c.fingerprint == order[n]
    ensures ByFingerprint(order, n + 1, clusters + [c])
  {
    forall i | 0 <= i < |clusters|
      ensures FingerprintLe(clusters[i], c)
    {
      assert clusters[i] in clusters;
    }
  }

  lemma ClusterLeIsPreorder()
    ensures Preorder(ClusterLe)
  {
    LexLeIsPreorder();
  }

  // c lists the members of its fingerprint's class as `members` does.
  ghost predicate ListsGroup(members: seq<Mention>, cls: map<string, string>, c: Cluster) {
    && (forall m :: m in members ==> m.id in cls)
    && c.ids == IdsOf(Members(members, KeyOf(members, cls), c.fingerprint))
  }

  // Everything recorded of the keys before position n.
  ghost predicate ExactSoFar(
    byId: map<string, Mention>, cls: map<string, string>, members: seq<Mention>, groups: map<string, seq<Mention>>,
    order: seq<string>, n: nat, clusters: seq<Cluster>)
    requires n <= |order|
  {
    && Gathered(byId, cls, groups, order[..n], clusters) && ByFingerprint(order, n, clusters)
    && (forall c {:trigger ListsGroup(members, cls, c)} :: c in clusters ==> ListsGroup(members, cls, c))
    && forall c {:trigger ExactRecorded(byId, cls, c)} :: c in clusters ==> ExactRecorded(byId, cls, c)
  }

  lemma LaterFingerprint(order: seq<string>, n: nat, clusters: seq<Cluster>)
    requires ByFingerprint(order, n, clusters)
    ensures ByFingerprint(order, n + 1, clusters)
  {
  }

  lemma ExactTaken(
    byId: map<string, Mention>, cls: map<string, string>, members: seq<Mention>,
    groups: map<string, seq<Mention>>, order: seq<string>, i: nat, clusters: seq<Cluster>)
    requires Classified(byId, cls, members) && Ordered(order, LexLe)
    requires IsGrouping(members, KeyOf(members, cls), groups, order)
    requires i < |order| && ExactSoFar(byId, cls, members, groups, order, i, clusters)
    requires order[i] in groups && |groups[order[i]]| >= 2
    ensures ExactSoFar(byId, cls, members, groups, order, i + 1, clusters + [ExactRecord(order[i], groups[order[i]])])
  {
    var k := order[i];
    var group := groups[k];
    var c := ExactRecord(k, group);
    GroupMembersKnown(byId, cls, members, groups, order, k);
    ExactRecords(byId, k, group);
    GatherRecorded(byId, cls, members, groups, order, i, clusters, c);
    NextFingerprint(order, i, clusters, c);
    assert ListsGroup(members, cls, c);
    assert ExactRecorded(byId, cls, c) by {
      assert OfClass(byId, cls, k, group);
    }
  }

  lemma ExactSkipped(
    byId: map<string, Mention>, cls: map<string, string>, members: seq<Mention>, groups: map<string, seq<Mention>>,
    order: seq<string>, i: nat, clusters: seq<Cluster>)
    requires i < |order| && ExactSoFar(byId, cls, members, groups, order, i, clusters)
    requires order[i] in groups && |groups[order[i]]| < 2
    ensures ExactSoFar(byId, cls, members, groups, order, i + 1, clusters)
  {
    GatherNone(byId, cls, groups, order[..i], clusters, order[i]);
    assert order[..i + 1] == order[..i] + [order[i]];
    LaterFingerprint(order, i, clusters);
  }

  method RecordExact(
    groups: map<string, seq<Mention>>, order: seq<string>,
    ghost byId: map<string, Mention>, ghost cls: map<string, string>, ghost members: seq<Mention>)
    returns (clusters: seq<Cluster>)
    requires Classified(byId, cls, members)
    requires IsGrouping(members, KeyOf(members, cls), groups, order)
    requires Ordered(order, LexLe)
    ensures Clustering(byId, cls, clusters)
    ensures forall c :: c in clusters ==> ExactRecorded(byId, cls, c)
    ensures forall c :: c in clusters ==> ListsGroup(members, cls, c)
    ensures Ordered(clusters, FingerprintLe)
  {
    clusters := [];
    for i := 0 to |order|
      invariant ExactSoFar(byId, cls, members, groups, order, i, clusters)
    {
      var k := order[i];
      assert k in order;
      if |groups[k]| < 2 {
        ExactSkipped(byId, cls, members, groups, order, i, clusters);
        continue;
      }
      ExactTaken(byId, cls, members, groups, order, i, clusters);
      clusters := clusters + [ExactRecord(k, groups[k])];
    }
    assert order[..|order|] == order;
    GatheredIsClustering(byId, cls, members, groups, order, clusters);
  }

  lemma GroupMembersKnown(
    byId: map<string, Mention>, cls: map<string, string>, members: seq<Mention>,
    groups: map<string, seq<Mention>>, order: seq<string>, k: string)
    requires Classified(byId, cls, members)
    requires IsGrouping(members, KeyOf(members, cls), groups, order) && k in groups
    ensures OfClass(byId, cls, k, groups[k])
    ensures forall m :: m in groups[k] ==> m in members
  {
    MembersAre(members, KeyOf(members, cls), k);
  }

  // ----- The near pass ---------------------------------------------------------------------

  // The running sums of the two nested loops of _cluster_similarity.
  ghost function RowSum(sets: seq<set<string>>, i: nat, j: nat): real
    requires i < |sets| && j <= |sets|
  {
    if j <= i + 1 then 0.0 else RowSum(sets, i, j - 1) + Jaccard(sets[i], sets[j - 1])
  }

  ghost function PairSum(sets: seq<set<string>>, i: nat): real
    requires i <= |sets|
  {
    if i == 0 then 0.0 else PairSum(sets, i - 1) + RowSum(sets, i - 1, |sets|)
  }

  ghost function PairsBefore(n: nat, i: nat): int {
    if i == 0 then 0 else PairsBefore(n, i - 1) + n - i
  }

  lemma {:induction false} PairCount(n: nat, i: nat)
    ensures 2 * PairsBefore(n, i) == i * (2 * n - i - 1)
  {
    if i > 0 {
      PairCount(n, i - 1);
    }
  }

  // Rounded to four places, the mean similarity over all unordered pairs.
  ghost function MeanSimilarity(sets: seq<set<string>>): real {
    var pairs := |sets| * (|sets| - 1) / 2;
    if pairs <= 0 then 1.0 else Round4(PairSum(sets, |sets|) / pairs as real)
  }

  method ClusterSimilarity(sets: seq<set<string>>) returns (similarity: real)
    ensures similarity == MeanSimilarity(sets)
  {
    if |sets| < 2 {
      return 1.0;
    }
    var total, pairs := SimilarityTotals(sets);
    AllPairs(|sets|);
    similarity := if pairs > 0 then Round4(total / pairs as real) else 1.0;
  }

  lemma AllPairs(n: nat)
    ensures PairsBefore(n, n) == n * (n - 1) / 2
    ensures n >= 2 ==> n * (n - 1) / 2 > 0
    ensures n < 2 ==> n * (n - 1) / 2 == 0
  {
    PairCount(n, n);
    assert 2 * n - n - 1 == n - 1;
    if n >= 2 {
      assert n * (n - 1) >= n * 1;
    }
  }

  method SimilarityTotals(sets: seq<set<string>>) returns (total: real, pairs: int)
    ensures total == PairSum(sets, |sets|) && pairs == PairsBefore(|sets|, |sets|)
  {
    total, pairs := 0.0, 0;
    for li := 0 to |sets|
      invariant total == PairSum(sets, li)
      invariant pairs == PairsBefore(|sets|, li)
    {
      for ri := li + 1 to |sets|
        invariant total == PairSum(sets, li) + RowSum(sets, li, ri)
        invariant pairs == PairsBefore(|sets|, li) + ri - li - 1
      {
        total := total + Jaccard(sets[li], sets[ri]);
        pairs := pairs + 1;
      }
    }
  }

  function Candidates(cfg: Config, exactMembers: set<string>, mentions: seq<Mention>): seq<Mention> {
    if mentions == [] then []
    else
      var n := |mentions| - 1;
      Candidates(cfg, exactMembers, mentions[..n]) +
      (if IsCandidate(cfg, exactMembers, mentions[n]) then [mentions[n]] else [])
  }

  lemma {:induction false} CandidatesAre(cfg: Config, exactMembers: set<string>, mentions: seq<Mention>)
    ensures forall m :: m in Candidates(cfg, exactMembers, mentions) <==> m in mentions && IsCandidate(cfg, exactMembers, m)
    ensures DistinctIds(mentions) ==> DistinctIds(Candidates(cfg, exactMembers, mentions))
  {
    if mentions != [] {
      var n := |mentions| - 1;
      CandidatesAre(cfg, exactMembers, mentions[..n]);
      assert mentions == mentions[..n] + [mentions[n]];
      if DistinctIds(mentions) {
        assert DistinctIds(mentions[..n]);
        forall m | m in Candidates(cfg, exactMembers, mentions[..n])
          ensures m.id != mentions[n].id
        {
          assert m in mentions[..n];
        }
      }
    }
  }

  ghost function TextsOf(cfg: Config, candidates: seq<Mention>): map<string, string>
    requires DistinctIds(candidates)
  {
    map m | m in candidates && Shingles(cfg, m.compact) != {} :: m.id := m.compact
  }

  // The dicts of shingles and of non-empty signatures, in candidate order.
  method Prepare(cfg: Config, h: Hashing, candidates: seq<Mention>)
    returns (shingles: map<string, set<string>>, ids: seq<string>, signatures: map<string, seq<nat>>)
    requires DistinctIds(candidates)
    ensures IsPrepared(cfg, h, TextsOf(cfg, candidates), shingles, ids, signatures)
    ensures forall m :: m in candidates ==> m.id in shingles && shingles[m.id] == Shingles(cfg, m.compact)
  {
    shingles, ids, signatures := map[], [], map[];
    for i := 0 to |candidates|
      invariant DistinctIds(candidates[..i])
      invariant IsPrepared(cfg, h, TextsOf(cfg, candidates[..i]), shingles, ids, signatures)
      invariant forall m :: m in candidates[..i] ==> m.id in shingles && shingles[m.id] == Shingles(cfg, m.compact)
    {
      var m := candidates[i];
      assert candidates[..i + 1] == candidates[..i] + [m];
      var s := Shingles(cfg, m.compact);
      PrepareOne(cfg, h, candidates[..i], m, shingles, ids, signatures);
      shingles := shingles[m.id := s];
      if s != {} {
        var signature := MinhashSignature(cfg, h, s);
        ids := ids + [m.id];
        signatures := signatures[m.id := signature];
      }
    }
    assert candidates[..|candidates|] == candidates;
  }

  lemma PrepareOne(
    cfg: Config, h: Hashing, done: seq<Mention>, m: Mention,
    shingles: map<string, set<string>>, ids: seq<string>, signatures: map<string, seq<nat>>)
    requires DistinctIds(done + [m]) && DistinctIds(done)
    requires IsPrepared(cfg, h, TextsOf(cfg, done), shingles, ids, signatures)
    ensures var s := Shingles(cfg, m.compact);
      if s == {} then IsPrepared(cfg, h, TextsOf(cfg, done + [m]), shingles[m.id := s], ids, signatures)
      else IsPrepared(cfg, h, TextsOf(cfg, done + [m]), shingles[m.id := s], ids + [m.id],
                      signatures[m.id := Signature(cfg, h, s)])
  {
    TextsOfMore(cfg, done, m);
    if Shingles(cfg, m.compact) != {} {
      PreparedMore(cfg, h, TextsOf(cfg, done), shingles, ids, signatures, m.id, m.compact);
    } else {
      PreparedSame(cfg, h, TextsOf(cfg, done), shingles, ids, signatures, m.id, Shingles(cfg, m.compact));
    }
  }

  lemma PreparedSame(
    cfg: Config, h: Hashing, texts: map<string, string>, shingles: map<string, set<string>>, ids: seq<string>,
    signatures: map<string, seq<nat>>, x: string, s: set<string>)
    requires IsPrepared(cfg, h, texts, shingles, ids, signatures) && x !in texts
    ensures IsPrepared(cfg, h, texts, shingles[x := s], ids, signatures)
  {
  }

  lemma TextsOfMore(cfg: Config, done: seq<Mention>, m: Mention)
    requires DistinctIds(done + [m]) && DistinctIds(done)
    ensures m.id !in TextsOf(cfg, done)
    ensures TextsOf(cfg, done + [m]) ==
      if Shingles(cfg, m.compact) == {} then TextsOf(cfg, done) else TextsOf(cfg, done)[m.id := m.compact]
  {
    forall d | d in done
      ensures d.id != m.id
    {
      var i :| 0 <= i < |done| && done[i] == d;
      assert (done + [m])[i] == d && (done + [m])[|done|] == m;
    }
  }

  lemma PreparedMore(
    cfg: Config, h: Hashing, texts: map<string, string>, shingles: map<string, set<string>>, ids: seq<string>,
    signatures: map<string, seq<nat>>, x: string, text: string)
    requires IsPrepared(cfg, h, texts, shingles, ids, signatures) && x !in texts
    ensures IsPrepared(cfg, h, texts[x := text], shingles[x := Shingles(cfg, text)], ids + [x],
                       signatures[x := Signature(cfg, h, Shingles(cfg, text))])
  {
    assert x !in ids;
  }

  // The near clusters are the components of `edges` among `vertices`.
  ghost predicate Components(
    byId: map<string, Mention>, vertices: set<string>, edges: set<(string, string)>, clusters: seq<Cluster>)
  {
    exists root: map<string, string> :: root.Keys == vertices && Represents(root, edges) && Clustering(byId, root, clusters)
  }

  // The outcome of the near pass over `texts`.
  ghost predicate NearResult(
    byId: map<string, Mention>, cfg: Config, h: Hashing, texts: map<string, string>, near: seq<Cluster>)
  {
    Components(byId, texts.Keys, NearEdges(cfg, h, texts), near)
  }

  // The dict of groups by root.
  method GroupNear(
    uf: CompressingUnionFind<string>, ids: seq<string>, byId: map<string, Mention>, ghost members: seq<Mention>)
    returns (groups: map<string, seq<Mention>>, order: seq<string>)
    requires uf.Valid() && forall x :: x in ids ==> x in byId && x in uf.root
    requires |members| == |ids| && forall i :: 0 <= i < |ids| ==> byId[ids[i]] == members[i] && members[i].id == ids[i]
    modifies uf
    ensures uf.Valid() && uf.root == old(uf.root)
    ensures forall m :: m in members ==> m.id in uf.root
    ensures IsGrouping(members, KeyOf(members, uf.root), groups, order)
  {
    groups, order := map[], [];
    forall m | m in members
      ensures m.id in uf.root
    {
      var i :| 0 <= i < |members| && members[i] == m;
      assert ids[i] in ids;
    }
    ghost var key := KeyOf(members, uf.root);
    for i := 0 to |ids|
      invariant uf.Valid() && uf.root == old(uf.root)
      invariant Keyed(members[..i], key) && IsGrouping(members[..i], key, groups, order)
    {
      assert members[..i + 1] == members[..i] + [members[i]];
      assert ids[i] in ids;
      var r := uf.Find(ids[i]);
      GroupingStep(members[..i], key, groups, order, members[i]);
      groups, order := Append(groups, r, byId[ids[i]]), AppendKey(order, r);
    }
    assert members[..|ids|] == members;
  }

  function Compacts(group: seq<Mention>): seq<string> {
    seq(|group|, i requires 0 <= i < |group| => group[i].compact)
  }

  function NearRecord(h: Hashing, group: seq<Mention>, similarity: real): Cluster
    requires group != []
  {
    var rep := Representative(group);
    var clusterHash := h.digest(Join(Sorted(Compacts(group), LexLe), "|"));
    Cluster("near:" + Prefix(clusterHash, 16), Near, rep.id, rep.raw, Sorted(IdsOf(group), LexLe), |group|,
            similarity, clusterHash)
  }

  // c carries the id, sorted members and mean similarity of some members of one class.
  ghost predicate NearRecorded(
    h: Hashing, shingles: map<string, set<string>>, byId: map<string, Mention>, cls: map<string, string>, c: Cluster)
  {
    exists k, group :: OfClass(byId, cls, k, group) && NearListing(h, shingles, group, c)
  }

  ghost predicate NearListing(h: Hashing, shingles: map<string, set<string>>, group: seq<Mention>, c: Cluster) {
    && group != [] && (forall m :: m in group ==> m.id in shingles)
    && c == NearRecord(h, group, MeanSimilarity(ShinglesOfGroup(shingles, group)))
  }

  ghost predicate KnownGroup(byId: map<string, Mention>, group: seq<Mention>) {
    group != [] && Distinct(group) && forall m :: m in group ==> m.id in byId && byId[m.id] == m
  }

  function ShingleSets(cfg: Config, group: seq<Mention>): seq<set<string>> {
    seq(|group|, i requires 0 <= i < |group| => Shingles(cfg, group[i].compact))
  }

  // The same, in terms of the mentions' texts.
  ghost predicate NearNamed(cfg: Config, h: Hashing, byId: map<string, Mention>, c: Cluster) {
    exists group :: KnownGroup(byId, group) && c == NearRecord(h, group, MeanSimilarity(ShingleSets(cfg, group)))
  }

  lemma RecordedIsNamed(
    cfg: Config, h: Hashing, shingles: map<string, set<string>>, byId: map<string, Mention>, cls: map<string, string>, c: Cluster)
    requires NearRecorded(h, shingles, byId, cls, c)
    requires forall x :: x in cls ==> x in byId && x in shingles && shingles[x] == Shingles(cfg, byId[x].compact)
    ensures NearNamed(cfg, h, byId, c)
  {
    var k, group :| OfClass(byId, cls, k, group) && NearListing(h, shingles, group, c);
    GroupIsKnown(byId, cls, k, group);
    ShinglesAreOfTexts(cfg, shingles, byId, group);
  }

  lemma GroupIsKnown(byId: map<string, Mention>, cls: map<string, string>, k: string, group: seq<Mention>)
    requires OfClass(byId, cls, k, group)
    ensures KnownGroup(byId, group) && forall m :: m in group ==> m.id in cls
  {
  }

  lemma ShinglesAreOfTexts(cfg: Config, shingles: map<string, set<string>>, byId: map<string, Mention>, group: seq<Mention>)
    requires KnownGroup(byId, group)
    requires forall m :: m in group ==> m.id in shingles && shingles[m.id] == Shingles(cfg, byId[m.id].compact)
    ensures ShinglesOfGroup(shingles, group) == ShingleSets(cfg, group)
  {
  }

  lemma NearRecords(byId: map<string, Mention>, h: Hashing, group: seq<Mention>, similarity: real)
    requires |group| >= 2 && Distinct(group) && forall m :: m in group ==> m.id in byId && byId[m.id] == m
    ensures Records(NearRecord(h, group, similarity), group)
  {
    ExactRecords(byId, "", group);
    SortedKeeps(IdsOf(group), LexLe);
    SortedDistinct(IdsOf(group), LexLe);
  }

  // The sort key (-size, cluster id).
  predicate ClusterLe(a: Cluster, b: Cluster) {
    a.size > b.size || (a.size == b.size && LexLe(a.clusterId, b.clusterId))
  }

  function ShinglesOfGroup(shingles: map<string, set<string>>, group: seq<Mention>): seq<set<string>>
    requires forall m :: m in group ==> m.id in shingles
  {
    seq(|group|, i requires 0 <= i < |group| => shingles[group[i].id])
  }

  ghost predicate NearSoFar(
    h: Hashing, shingles: map<string, set<string>>, byId: map<string, Mention>, cls: map<string, string>,
    groups: map<string, seq<Mention>>, order: seq<string>, n: nat, clusters: seq<Cluster>)
    requires n <= |order|
  {
    && Gathered(byId, cls, groups, order[..n], clusters)
    && forall c {:trigger NearRecorded(h, shingles, byId, cls, c)} :: c in clusters ==> NearRecorded(h, shingles, byId, cls, c)
  }

  lemma NearTaken(
    h: Hashing, shingles: map<string, set<string>>, byId: map<string, Mention>, cls: map<string, string>,
    members: seq<Mention>, groups: map<string, seq<Mention>>, order: seq<string>, i: nat, clusters: seq<Cluster>, c: Cluster)
    requires Classified(byId, cls, members)
    requires IsGrouping(members, KeyOf(members, cls), groups, order)
    requires forall m :: m in members ==> m.id in shingles
    requires i < |order| && NearSoFar(h, shingles, byId, cls, groups, order, i, clusters)
    requires order[i] in groups && |groups[order[i]]| >= 2 && NearListing(h, shingles, groups[order[i]], c)
    ensures NearSoFar(h, shingles, byId, cls, groups, order, i + 1, clusters + [c])
  {
    var k := order[i];
    GroupMembersKnown(byId, cls, members, groups, order, k);
    NearRecords(byId, h, groups[k], MeanSimilarity(ShinglesOfGroup(shingles, groups[k])));
    GatherRecorded(byId, cls, members, groups, order, i, clusters, c);
    assert NearRecorded(h, shingles, byId, cls, c) by {
      assert OfClass(byId, cls, k, groups[k]);
    }
  }

  lemma NearSkipped(
    h: Hashing, shingles: map<string, set<string>>, byId: map<string, Mention>, cls: map<string, string>,
    groups: map<string, seq<Mention>>, order: seq<string>, i: nat, clusters: seq<Cluster>)
    requires i < |order| && NearSoFar(h, shingles, byId, cls, groups, order, i, clusters)
    requires order[i] in groups && |groups[order[i]]| < 2
    ensures NearSoFar(h, shingles, byId, cls, groups, order, i + 1, clusters)
  {
    GatherNone(byId, cls, groups, order[..i], clusters, order[i]);
    assert order[..i + 1] == order[..i] + [order[i]];
  }

  method RecordNear(
    h: Hashing, shingles: map<string, set<string>>, groups: map<string, seq<Mention>>, order: seq<string>,
    ghost byId: map<string, Mention>, ghost cls: map<string, string>, ghost members: seq<Mention>)
    returns (clusters: seq<Cluster>)
    requires Classified(byId, cls, members)
    requires IsGrouping(members, KeyOf(members, cls), groups, order)
    requires forall m :: m in members ==> m.id in shingles
    ensures Clustering(byId, cls, clusters)
    ensures forall c :: c in clusters ==> NearRecorded(h, shingles, byId, cls, c)
  {
    clusters := [];
    for i := 0 to |order|
      invariant NearSoFar(h, shingles, byId, cls, groups, order, i, clusters)
    {
      var k := order[i];
      assert k in order;
      if |groups[k]| < 2 {
        NearSkipped(h, shingles, byId, cls, groups, order, i, clusters);
        continue;
      }
      var c := RecordGroup(h, shingles, groups[k], byId, cls, members, groups, order, k);
      NearTaken(h, shingles, byId, cls, members, groups, order, i, clusters, c);
      clusters := clusters + [c];
    }
    assert order[..|order|] == order;
    GatheredIsClustering(byId, cls, members, groups, order, clusters);
  }

  method RecordGroup(
    h: Hashing, shingles: map<string, set<string>>, group: seq<Mention>,
    ghost byId: map<string, Mention>, ghost cls: map<string, string>, ghost members: seq<Mention>,
    ghost groups: map<string, seq<Mention>>, ghost order: seq<string>, ghost k: string)
    returns (c: Cluster)
    requires Classified(byId, cls, members)
    requires IsGrouping(members, KeyOf(members, cls), groups, order)
    requires forall m :: m in members ==> m.id in shingles
    requires k in groups && group == groups[k]
    ensures NearListing(h, shingles, group, c)
  {
    GroupMembersKnown(byId, cls, members, groups, order, k);
    var similarity := ClusterSimilarity(ShinglesOfGroup(shingles, group));
    c := NearRecord(h, group, similarity);
  }

  lemma TinyComponents(byId: map<string, Mention>, cfg: Config, h: Hashing, texts: map<string, string>)
    requires |texts| < 2 && texts.Keys <= byId.Keys
    ensures NearResult(byId, cfg, h, texts, [])
  {
    var root := map x | x in texts :: x;
    forall x, y | x in texts && y in texts
      ensures x == y
    {
      if x != y {
        assert {x, y} <= texts.Keys;
        assert |{x, y}| == 2;
        SubsetSize({x, y}, texts.Keys);
      }
    }
    assert NearEdges(cfg, h, texts) == {};
    DiscreteRepresents(root);
    assert root.Keys == texts.Keys;
    assert Clustering(byId, root, []);
  }

  lemma CandidateTexts(cfg: Config, exactMembers: set<string>, mentions: seq<Mention>)
    requires DistinctIds(mentions)
    ensures DistinctIds(Candidates(cfg, exactMembers, mentions))
    ensures TextsOf(cfg, Candidates(cfg, exactMembers, mentions)) == NearTexts(cfg, exactMembers, mentions)
    ensures forall m :: m in Candidates(cfg, exactMembers, mentions) ==> m in mentions
  {
    CandidatesAre(cfg, exactMembers, mentions);
    SelectedTexts(cfg, exactMembers, mentions, Candidates(cfg, exactMembers, mentions));
  }

  lemma SelectedTexts(cfg: Config, exactMembers: set<string>, mentions: seq<Mention>, selected: seq<Mention>)
    requires DistinctIds(mentions) && DistinctIds(selected)
    requires forall m :: m in selected <==> m in mentions && IsCandidate(cfg, exactMembers, m)
    ensures TextsOf(cfg, selected) == NearTexts(cfg, exactMembers, mentions)
  {
    var a, b := TextsOf(cfg, selected), NearTexts(cfg, exactMembers, mentions);
    forall x | x in a
      ensures x in b && a[x] == b[x]
    {
      var m :| m in selected && Shingles(cfg, m.compact) != {} && m.id == x;
      assert m in mentions;
    }
    forall x | x in b
      ensures x in a
    {
      var m :| m in mentions && IsCandidate(cfg, exactMembers, m) && Shingles(cfg, m.compact) != {} && m.id == x;
      assert m in selected;
    }
  }

  method NearClusters(cfg: Config, h: Hashing, mentions: seq<Mention>, exactMembers: set<string>)
    returns (clusters: seq<Cluster>)
    requires DistinctIds(mentions)
    ensures NearResult(ById(mentions), cfg, h, NearTexts(cfg, exactMembers, mentions), clusters)
    ensures forall c :: c in clusters ==> NearNamed(cfg, h, ById(mentions), c)
    ensures Ordered(clusters, ClusterLe)
  {
    CandidateTexts(cfg, exactMembers, mentions);
    var candidates := Candidates(cfg, exactMembers, mentions);
    CandidatesKnown(candidates, mentions);
    clusters := ClusterCandidates(cfg, h, candidates, ById(mentions));
  }

  lemma CandidatesKnown(candidates: seq<Mention>, mentions: seq<Mention>)
    requires DistinctIds(mentions) && forall m :: m in candidates ==> m in mentions
    ensures forall m :: m in candidates ==> m.id in ById(mentions) && ById(mentions)[m.id] == m
  {
  }

  method ClusterCandidates(cfg: Config, h: Hashing, candidates: seq<Mention>, ghost byIdAll: map<string, Mention>)
    returns (clusters: seq<Cluster>)
    requires DistinctIds(candidates)
    requires forall m :: m in candidates ==> m.id in byIdAll && byIdAll[m.id] == m
    ensures NearResult(byIdAll, cfg, h, TextsOf(cfg, candidates), clusters)
    ensures forall c :: c in clusters ==> NearNamed(cfg, h, byIdAll, c)
    ensures Ordered(clusters, ClusterLe)
  {
    if |candidates| < 2 {
      FewTexts(cfg, candidates);
      TinyCandidates(byIdAll, cfg, h, candidates);
      return [];
    }
    var shingles, ids, signatures := Prepare(cfg, h, candidates);
    if |signatures| < 2 {
      assert |TextsOf(cfg, candidates).Keys| == |signatures.Keys|;
      TinyCandidates(byIdAll, cfg, h, candidates);
      return [];
    }
    CandidatesFound(cfg, candidates, byIdAll);
    clusters := ClusterPrepared(cfg, h, ById(candidates), shingles, ids, signatures, byIdAll, TextsOf(cfg, candidates));
  }

  lemma TinyCandidates(byId: map<string, Mention>, cfg: Config, h: Hashing, candidates: seq<Mention>)
    requires DistinctIds(candidates) && |TextsOf(cfg, candidates)| < 2
    requires forall m :: m in candidates ==> m.id in byId && byId[m.id] == m
    ensures NearResult(byId, cfg, h, TextsOf(cfg, candidates), [])
  {
    assert TextsOf(cfg, candidates).Keys <= byId.Keys;
    TinyComponents(byId, cfg, h, TextsOf(cfg, candidates));
  }

  lemma CandidatesFound(cfg: Config, candidates: seq<Mention>, byIdAll: map<string, Mention>)
    requires DistinctIds(candidates)
    requires forall m :: m in candidates ==> m.id in byIdAll && byIdAll[m.id] == m
    ensures forall x :: x in TextsOf(cfg, candidates) ==>
      var byId := ById(candidates);
      && x in byId && byId[x].id == x && byId[x].compact == TextsOf(cfg, candidates)[x]
      && x in byIdAll && byIdAll[x] == byId[x]
  {
  }

  lemma FewTexts(cfg: Config, candidates: seq<Mention>)
    requires DistinctIds(candidates) && |candidates| < 2
    ensures |TextsOf(cfg, candidates)| < 2
  {
    if candidates == [] {
      assert TextsOf(cfg, candidates) == map[];
    } else {
      assert TextsOf(cfg, candidates).Keys <= {candidates[0].id};
      SubsetSize(TextsOf(cfg, candidates).Keys, {candidates[0].id});
    }
  }

  method ClusterPrepared(
    cfg: Config, h: Hashing, byId: map<string, Mention>, shingles: map<string, set<string>>, ids: seq<string>,
    signatures: map<string, seq<nat>>, ghost byIdAll: map<string, Mention>, ghost texts: map<string, string>)
    returns (clusters: seq<Cluster>)
    requires IsPrepared(cfg, h, texts, shingles, ids, signatures)
    requires forall x :: x in texts ==>
      x in byId && byId[x].id == x && byId[x].compact == texts[x] && x in byIdAll && byIdAll[x] == byId[x]
    ensures NearResult(byIdAll, cfg, h, texts, clusters)
    ensures forall c :: c in clusters ==> NearNamed(cfg, h, byIdAll, c)
    ensures Ordered(clusters, ClusterLe)
  {
    var uf := Unite(cfg, h, texts, shingles, ids, signatures);
    ghost var members := seq(|ids|, i requires 0 <= i < |ids| => assert ids[i] in ids; byId[ids[i]]);
    var groups, order := GroupNear(uf, ids, byId, members);
    MembersClassified(byIdAll, uf.root, ids, members);
    var unsorted := RecordNear(h, shingles, groups, order, byIdAll, uf.root, members);
    clusters := Sorted(unsorted, ClusterLe);
    SortedKeeps(unsorted, ClusterLe);
    ClusterLeIsPreorder();
    SortedOrdered(unsorted, ClusterLe);
    ClusteringReordered(byIdAll, uf.root, unsorted, clusters);
    forall c | c in clusters
      ensures NearNamed(cfg, h, byIdAll, c)
    {
      assert c in multiset(unsorted);
      RecordedIsNamed(cfg, h, shingles, byIdAll, uf.root, c);
    }
  }

  lemma MembersClassified(byId: map<string, Mention>, cls: map<string, string>, ids: seq<string>, members: seq<Mention>)
    requires |members| == |ids| && Distinct(ids)
    requires forall x :: x in ids <==> x in cls
    requires forall i :: 0 <= i < |ids| ==> ids[i] in byId && byId[ids[i]] == members[i] && members[i].id == ids[i]
    ensures Classified(byId, cls, members)
  {
    forall x | x in cls
      ensures x in byId && byId[x].id == x && byId[x] in members
    {
      var i :| 0 <= i < |ids| && ids[i] == x;
      assert members[i] in members;
    }
  }

  // ----- Annotation --------------------------------------------------------------------------

  function AnnotationFor(c: Cluster): Annotation {
    Annotation(Some(c.clusterId), Some(c.kind), Some(c.representative), c.size, Some(c.similarity),
               Round6(1.0 / Max(c.size, 1) as real))
  }

  function WithIds(updates: map<string, Annotation>, ids: seq<string>, a: Annotation): map<string, Annotation> {
    if ids == [] then updates else WithIds(updates, ids[..|ids| - 1], a)[ids[|ids| - 1] := a]
  }

  function Annotations(clusters: seq<Cluster>): map<string, Annotation> {
    if clusters == [] then map[]
    else
      var c := clusters[|clusters| - 1];
      WithIds(Annotations(clusters[..|clusters| - 1]), c.ids, AnnotationFor(c))
  }

  lemma {:induction false} WithIdsAre(updates: map<string, Annotation>, ids: seq<string>, a: Annotation, x: string)
    ensures x in ids ==> x in WithIds(updates, ids, a) && WithIds(updates, ids, a)[x] == a
    ensures x !in ids && x in updates ==> x in WithIds(updates, ids, a) && WithIds(updates, ids, a)[x] == updates[x]
  {
    if ids != [] {
      var n := |ids| - 1;
      WithIdsAre(updates, ids[..n], a, x);
      assert ids == ids[..n] + [ids[n]];
    }
  }

  ghost function IdsIn(clusters: seq<Cluster>): set<string> {
    set c, x | c in clusters && x in c.ids :: x
  }

  lemma {:induction false} WithIdsKeys(updates: map<string, Annotation>, ids: seq<string>, a: Annotation)
    ensures forall x :: x in WithIds(updates, ids, a) <==> x in updates || x in ids
  {
    if ids != [] {
      WithIdsKeys(updates, ids[..|ids| - 1], a);
    }
  }

  lemma {:induction false} AnnotationKeys(clusters: seq<Cluster>)
    ensures Annotations(clusters).Keys == IdsIn(clusters)
  {
    if clusters != [] {
      var init, c := clusters[..|clusters| - 1], clusters[|clusters| - 1];
      assert clusters == init + [c];
      AnnotationKeys(init);
      WithIdsKeys(Annotations(init), c.ids, AnnotationFor(c));
      assert IdsIn(clusters) == IdsIn(init) + Elements(c.ids);
    }
  }

  // x's last cluster is the i-th.
  ghost predicate LastListedIn(clusters: seq<Cluster>, i: nat, x: string) {
    i < |clusters| && x in clusters[i].ids && forall j :: i < j < |clusters| ==> x !in clusters[j].ids
  }

  lemma {:induction false} LastClusterWins(clusters: seq<Cluster>, i: nat, x: string)
    requires LastListedIn(clusters, i, x)
    ensures x in Annotations(clusters) && Annotations(clusters)[x] == AnnotationFor(clusters[i])
  {
    var n := |clusters| - 1;
    var init, last := clusters[..n], clusters[n];
    WithIdsAre(Annotations(init), last.ids, AnnotationFor(last), x);
    if i < n {
      LastClusterWins(init, i, x);
    }
  }

  // An id listed more than once ends up with the annotation of the last cluster listing it.
  method AnnotationMap(clusters: seq<Cluster>) returns (updates: map<string, Annotation>)
    ensures updates == Annotations(clusters)
    ensures forall i: nat, x :: LastListedIn(clusters, i, x) ==> x in updates && updates[x] == AnnotationFor(clusters[i])
  {
    updates := map[];
    for i := 0 to |clusters|
      invariant updates == Annotations(clusters[..i])
    {
      var c := clusters[i];
      ghost var before := updates;
      for j := 0 to |c.ids|
        invariant updates == WithIds(before, c.ids[..j], AnnotationFor(c))
      {
        updates := updates[c.ids[j] := AnnotationFor(c)];
        assert c.ids[..j + 1][..j] == c.ids[..j];
      }
      assert c.ids[..|c.ids|] == c.ids;
      assert clusters[..i + 1][..i] == clusters[..i];
    }
    assert clusters[..|clusters|] == clusters;
    forall i: nat, x | LastListedIn(clusters, i, x)
      ensures x in updates && updates[x] == AnnotationFor(clusters[i])
    {
      LastClusterWins(clusters, i, x);
    }
  }

  function Annotated(updates: map<string, Annotation>, m: Mention): Mention {
    if m.id in updates then m.(dedup := updates[m.id]) else m
  }

  function AnnotatedAll(updates: map<string, Annotation>, mentions: seq<Mention>): seq<Mention> {
    seq(|mentions|, i requires 0 <= i < |mentions| => Annotated(updates, mentions[i]))
  }

  datatype Analysis = Analysis(mentionsUpdated: nat, exactCount: nat, nearCount: nat, clusters: seq<Cluster>)

  function CountLarge(clusters: seq<Cluster>): nat {
    if clusters == [] then 0 else CountLarge(clusters[1..]) + (if clusters[0].size > 1 then 1 else 0)
  }

  function MemberIds(clusters: seq<Cluster>): (ids: set<string>)
    ensures ids == IdsIn(clusters)
  {
    set c, x | c in clusters && x in c.ids :: x
  }

  // The two passes have found exactly the exact classes and, among the rest, the near components.
  ghost predicate Analyzed(cfg: Config, h: Hashing, mentions: seq<Mention>, exact: seq<Cluster>, near: seq<Cluster>)
    requires DistinctIds(mentions)
  {
    && (if cfg.exactEnabled then Clustering(ById(mentions), ExactClasses(cfg, h, mentions), exact) else exact == [])
    && (if cfg.nearEnabled then NearResult(ById(mentions), cfg, h, NearTexts(cfg, IdsIn(exact), mentions), near)
        else near == [])
  }

  // Every cluster bears the id, members and similarity that its members call for, and the
  // lists are sorted.
  ghost predicate AllNamed(cfg: Config, h: Hashing, mentions: seq<Mention>, exact: seq<Cluster>, near: seq<Cluster>)
    requires DistinctIds(mentions)
  {
    && (forall c :: c in exact ==> ExactRecorded(ById(mentions), ExactClasses(cfg, h, mentions), c))
    && (forall c :: c in near ==> NearNamed(cfg, h, ById(mentions), c))
    && Ordered(exact, FingerprintLe) && Ordered(near, ClusterLe)
  }

  // Each mention carries the annotation of the last cluster that lists it, and is otherwise
  // as it was.
  ghost predicate EachAnnotated(clusters: seq<Cluster>, mentions: seq<Mention>, updated: seq<Mention>) {
    && |updated| == |mentions|
    && (forall i, k: nat :: 0 <= i < |mentions| && LastListedIn(clusters, k, mentions[i].id) ==>
          updated[i] == mentions[i].(dedup := AnnotationFor(clusters[k])))
    && (forall i :: 0 <= i < |mentions| && mentions[i].id !in IdsIn(clusters) ==> updated[i] == mentions[i])
  }

  lemma AnnotatedEach(clusters: seq<Cluster>, mentions: seq<Mention>)
    ensures EachAnnotated(clusters, mentions, AnnotatedAll(Annotations(clusters), mentions))
  {
    AnnotationKeys(clusters);
    forall i, k: nat | 0 <= i < |mentions| && LastListedIn(clusters, k, mentions[i].id)
      ensures AnnotatedAll(Annotations(clusters), mentions)[i] == mentions[i].(dedup := AnnotationFor(clusters[k]))
    {
      LastClusterWins(clusters, k, mentions[i].id);
    }
  }

  method Annotate(cfg: Config, h: Hashing, mentions: seq<Mention>)
    returns (updated: seq<Mention>, analysis: Analysis, exact: seq<Cluster>, near: seq<Cluster>)
    requires DistinctIds(mentions)
    ensures Analyzed(cfg, h, mentions, exact, near)
    ensures AllNamed(cfg, h, mentions, exact, near)
    ensures forall c :: c in exact ==> ListsGroup(Fingerprinted(cfg, h, mentions), ExactClasses(cfg, h, mentions), c)
    ensures analysis.clusters == exact + near
    ensures EachAnnotated(exact + near, mentions, updated)
    ensures updated == AnnotatedAll(Annotations(exact + near), mentions)
    ensures analysis.mentionsUpdated == |Annotations(exact + near)|
    ensures analysis.exactCount == CountLarge(exact) && analysis.nearCount == CountLarge(near)
  {
    exact, near := [], [];
    if mentions == [] {
      NothingToAnalyze(cfg, h);
      AnnotatedEach([], []);
      return [], Analysis(0, 0, 0, []), [], [];
    }
    if cfg.exactEnabled {
      exact := ExactClusters(cfg, h, mentions);
    }
    var exactMembers := MemberIds(exact);
    if cfg.nearEnabled {
      near := NearClusters(cfg, h, mentions, exactMembers);
    }
    var updates := AnnotationMap(exact + near);
    updated := AnnotatedAll(updates, mentions);
    AnnotatedEach(exact + near, mentions);
    analysis := Analysis(|updates|, CountLarge(exact), CountLarge(near), exact + near);
  }

  lemma NothingToAnalyze(cfg: Config, h: Hashing)
    ensures Analyzed(cfg, h, [], [], [])
  {
    TinyComponents(ById([]), cfg, h, NearTexts(cfg, {}, []));
    assert IdsIn([]) == {};
  }
}
