// internal/dedup/usecase/annotate_dedup.py: what each mention of a batch is annotated with.
module DedupAnnotations {
  import opened Basics
  import opened DedupModel
  import opened DedupOrder
  import opened DedupService
  import opened DedupTheorems
  import opened Permutations

  lemma DisjointInit(clusters: seq<Cluster>)
    requires clusters != [] && Disjoint(clusters)
    ensures Disjoint(clusters[..|clusters| - 1])
  {
  }

  // With disjoint clusters no annotation is overwritten: a member keeps its cluster's.
  lemma AnnotationIsOfCluster(clusters: seq<Cluster>, c: Cluster, x: string)
    requires Disjoint(clusters) && c in clusters && x in c.ids
    ensures x in Annotations(clusters) && Annotations(clusters)[x] == AnnotationFor(c)
  {
    var i :| 0 <= i < |clusters| && clusters[i] == c;
    LastClusterWins(clusters, i, x);
  }

  lemma LastIds(clusters: seq<Cluster>)
    requires clusters != [] && Disjoint(clusters)
    ensures var init, last := clusters[..|clusters| - 1], clusters[|clusters| - 1];
      IdsIn(clusters) == IdsIn(init) + Elements(last.ids) && IdsIn(init) !! Elements(last.ids)
  {
    var init, last := clusters[..|clusters| - 1], clusters[|clusters| - 1];
    assert clusters == init + [last];
    forall x | x in last.ids
      ensures x !in IdsIn(init)
    {
      LastIsApart(clusters, x);
    }
  }

  lemma {:induction false} IdCount(clusters: seq<Cluster>)
    requires Disjoint(clusters) && forall c :: c in clusters ==> Distinct(c.ids)
    ensures |IdsIn(clusters)| == ClusteredCount(clusters)
  {
    if clusters == [] {
      assert IdsIn(clusters) == {};
    } else {
      var n := |clusters| - 1;
      assert clusters[n] in clusters;
      DisjointInit(clusters);
      IdCount(clusters[..n]);
      LastIds(clusters);
      DistinctSize(clusters[n].ids);
    }
  }

  // Each clustered mention is annotated once.
  lemma AnnotationCount(clusters: seq<Cluster>)
    requires Disjoint(clusters) && forall c :: c in clusters ==> Distinct(c.ids)
    ensures |Annotations(clusters)| == ClusteredCount(clusters)
  {
    AnnotationKeys(clusters);
    IdCount(clusters);
    assert |Annotations(clusters)| == |Annotations(clusters).Keys|;
  }

  // Every mention of a cluster carries exactly that cluster's annotation, every other one is
  // returned as it came, and the counter counts the clustered mentions.
  lemma MentionsAreAnnotated(
    cfg: Config, h: Hashing, mentions: seq<Mention>, exact: seq<Cluster>, near: seq<Cluster>, updated: seq<Mention>)
    requires DistinctIds(mentions) && Analyzed(cfg, h, mentions, exact, near)
    requires updated == AnnotatedAll(Annotations(exact + near), mentions)
    ensures |updated| == |mentions|
    ensures forall i, c :: 0 <= i < |mentions| && c in exact + near && mentions[i].id in c.ids ==>
      updated[i] == mentions[i].(dedup := AnnotationFor(c))
    ensures forall i :: 0 <= i < |mentions| && mentions[i].id !in IdsIn(exact + near) ==> updated[i] == mentions[i]
    ensures |Annotations(exact + near)| == ClusteredCount(exact + near)
  {
    var clusters := exact + near;
    NoMentionInTwoClusters(cfg, h, mentions, exact, near);
    SoundAreDistinct(mentions, clusters);
    AnnotationKeys(clusters);
    AnnotationCount(clusters);
    forall i, c | 0 <= i < |mentions| && c in clusters && mentions[i].id in c.ids
      ensures updated[i] == mentions[i].(dedup := AnnotationFor(c))
    {
      AnnotationIsOfCluster(clusters, c, mentions[i].id);
    }
  }

  lemma SoundAreDistinct(mentions: seq<Mention>, clusters: seq<Cluster>)
    requires Conservable(mentions, clusters)
    ensures forall c :: c in clusters ==> Distinct(c.ids)
  {
    forall c | c in clusters
      ensures Distinct(c.ids)
    {
      assert Sound(c, MentionIds(mentions));
    }
  }

  // ----- The order of the batch ------------------------------------------------------------

  // A cluster and a relisting of it annotate alike.
  lemma AnnotatesAlike(clusters: seq<Cluster>, others: seq<Cluster>, c: Cluster, d: Cluster, x: string)
    requires Disjoint(clusters) && Disjoint(others) && c in clusters && d in others
    requires Relisted(c, d) && x in c.ids
    ensures x in Annotations(clusters) && x in Annotations(others) && Annotations(clusters)[x] == Annotations(others)[x]
  {
    AnnotationIsOfCluster(clusters, c, x);
    assert x in Elements(d.ids);
    AnnotationIsOfCluster(others, d, x);
  }

  lemma SameAnnotations(exact: seq<Cluster>, near: seq<Cluster>, exact': seq<Cluster>, near': seq<Cluster>)
    requires Disjoint(exact + near) && Disjoint(exact' + near')
    requires IdsIn(exact + near) == IdsIn(exact' + near')
    requires Elements(near) == Elements(near')
    requires forall c :: c in exact ==> exists d :: d in exact' && Relisted(c, d)
    ensures Annotations(exact + near) == Annotations(exact' + near')
  {
    AnnotationKeys(exact + near);
    AnnotationKeys(exact' + near');
    forall x | x in IdsIn(exact + near)
      ensures Annotations(exact + near)[x] == Annotations(exact' + near')[x]
    {
      var c :| c in exact + near && x in c.ids;
      if c in exact {
        var d :| d in exact' && Relisted(c, d);
        AnnotatesAlike(exact + near, exact' + near', c, d, x);
      } else {
        assert c in Elements(near');
        AnnotatesAlike(exact + near, exact' + near', c, c, x);
      }
    }
  }

  lemma AnnotatedPermuted(updates: map<string, Annotation>, mentions: seq<Mention>, permuted: seq<Mention>)
    requires multiset(mentions) == multiset(permuted)
    ensures multiset(AnnotatedAll(updates, mentions)) == multiset(AnnotatedAll(updates, permuted))
  {
    var f := m => Annotated(updates, m);
    assert AnnotatedAll(updates, mentions) == Mapped(f, mentions);
    assert AnnotatedAll(updates, permuted) == Mapped(f, permuted);
    MappedPermuted(f, mentions, permuted);
  }

  lemma IdsInBoth(a: seq<Cluster>, b: seq<Cluster>)
    ensures IdsIn(a + b) == IdsIn(a) + IdsIn(b)
  {
  }

  // Permuting the batch annotates every mention as before.
  lemma AnnotationsIgnoreOrder(
    cfg: Config, h: Hashing, mentions: seq<Mention>, permuted: seq<Mention>,
    exact: seq<Cluster>, near: seq<Cluster>, exact': seq<Cluster>, near': seq<Cluster>)
    requires DistinctIds(mentions) && DistinctIds(permuted) && multiset(mentions) == multiset(permuted)
    requires Analyzed(cfg, h, mentions, exact, near) && AllNamed(cfg, h, mentions, exact, near)
    requires Analyzed(cfg, h, permuted, exact', near') && AllNamed(cfg, h, permuted, exact', near')
    ensures Annotations(exact + near) == Annotations(exact' + near')
    ensures multiset(AnnotatedAll(Annotations(exact + near), mentions)) ==
      multiset(AnnotatedAll(Annotations(exact' + near'), permuted))
  {
    InputOrderIrrelevant(cfg, h, mentions, permuted, exact, near, exact', near');
    SameClustersSameIds(exact, exact');
    SameClustersSameIds(near, near');
    IdsInBoth(exact, near);
    IdsInBoth(exact', near');
    RecordsIgnoreOrder(cfg, h, mentions, permuted, exact, near, exact', near');
    NoMentionInTwoClusters(cfg, h, mentions, exact, near);
    NoMentionInTwoClusters(cfg, h, permuted, exact', near');
    SameAnnotations(exact, near, exact', near');
    AnnotatedPermuted(Annotations(exact + near), mentions, permuted);
  }
}
