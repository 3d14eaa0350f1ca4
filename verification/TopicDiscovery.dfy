// internal/enrichment/usecase/topic_enricher.py: clustering documents by shared top tokens.
module TopicDiscovery {
  import opened Basics
  import opened Connectivity
  import opened Grouping
  import opened Rounding
  import opened Sorting
  import opened Texts
  import opened UnionFinds

  const CLUSTER_THRESHOLD := 2
  const TOP_N_TOKENS := 8

  datatype Document = Document(id: string, mentionId: string, sourceId: string, text: string)

  datatype Assignment = Assignment(documentId: string, topicKey: string, topicLabel: string, confidence: real)

  datatype Artifact = Artifact(
    topicKey: string, topicLabel: string, topTerms: seq<string>, size: nat, representatives: seq<string>)

  // The regular-expression tokenizer with its stopwords, and the md5 prefix of a topic key.
  datatype Lexer = Lexer(tokenize: string -> seq<string>, digest8: string -> string)

  // ----- Counter.most_common -------------------------------------------------------------

  function Count(tokens: seq<string>, t: string): nat {
    multiset(tokens)[t]
  }

  function FirstAppearances(tokens: seq<string>): (r: seq<string>)
    ensures Distinct(r) && forall t :: t in r <==> t in tokens
  {
    if tokens == [] then []
    else
      var n := |tokens| - 1;
      var before := FirstAppearances(tokens[..n]);
      assert tokens == tokens[..n] + [tokens[n]];
      if tokens[n] in before then before else before + [tokens[n]]
  }

  function MostCommon(tokens: seq<string>, n: nat): seq<string> {
    var sorted := Sorted(FirstAppearances(tokens), (a, b) => Count(tokens, a) >= Count(tokens, b));
    if |sorted| <= n then sorted else sorted[..n]
  }

  lemma MostCommonOrdered(tokens: seq<string>, n: nat, kept: string, dropped: string)
    requires kept in MostCommon(tokens, n) && dropped in tokens && dropped !in MostCommon(tokens, n)
    ensures Count(tokens, kept) >= Count(tokens, dropped)
  {
    var le := (a, b) => Count(tokens, a) >= Count(tokens, b);
    var first := FirstAppearances(tokens);
    SortedKeeps(first, le);
    SortedOrdered(first, le);
    var sorted, most := Sorted(first, le), MostCommon(tokens, n);
    var i :| 0 <= i < |most| && most[i] == kept;
    assert dropped in sorted;
    var j :| 0 <= j < |sorted| && sorted[j] == dropped;
    assert forall q :: 0 <= q < |most| ==> most[q] == sorted[q] && most[q] in most;
    assert le(sorted[i], sorted[j]);
  }

  // a is met before b.
  ghost predicate MetBefore(tokens: seq<string>, a: string, b: string) {
    exists k :: 0 <= k < |tokens| && tokens[k] == a && b !in tokens[..k + 1]
  }

  lemma {:induction false} FirstAppearancesInOrder(tokens: seq<string>, a: string, b: string)
    requires Precedes(FirstAppearances(tokens), a, b)
    ensures MetBefore(tokens, a, b)
  {
    var n := |tokens| - 1;
    var before := FirstAppearances(tokens[..n]);
    var first := FirstAppearances(tokens);
    var i, j :| 0 <= i < j < |first| && first[i] == a && first[j] == b;
    if j < |before| {
      assert before[i] == a && before[j] == b;
      FirstAppearancesInOrder(tokens[..n], a, b);
      var k :| 0 <= k < n && tokens[..n][k] == a && b !in tokens[..n][..k + 1];
      assert tokens[..k + 1] == tokens[..n][..k + 1];
      assert tokens[k] == a;
    } else {
      assert before[i] == a && b == tokens[n] && b !in before;
      assert a in tokens[..n];
      var k :| 0 <= k < n && tokens[..n][k] == a;
      assert forall l :: 0 <= l < k + 1 ==> tokens[..k + 1][l] == tokens[..n][l] && tokens[..n][l] in tokens[..n];
      assert tokens[k] == a;
    }
  }

  // Counter.most_common lists by falling count, and equally frequent tokens as they were met.
  lemma MostCommonInOrder(tokens: seq<string>, n: nat, i: nat, j: nat)
    requires i < j < |MostCommon(tokens, n)|
    ensures var a, b := MostCommon(tokens, n)[i], MostCommon(tokens, n)[j];
      Count(tokens, a) > Count(tokens, b) || (Count(tokens, a) == Count(tokens, b) && MetBefore(tokens, a, b))
  {
    var le := (a, b) => Count(tokens, a) >= Count(tokens, b);
    var first := FirstAppearances(tokens);
    SortedOrdered(first, le);
    var a, b := Sorted(first, le)[i], Sorted(first, le)[j];
    assert le(a, b);
    if Count(tokens, a) == Count(tokens, b) {
      SortedKeepsTies(first, le, i, j);
      FirstAppearancesInOrder(tokens, a, b);
    }
  }

  // At most n distinct tokens, none less frequent than one that was left out.
  lemma MostCommonAreTop(tokens: seq<string>, n: nat)
    ensures |MostCommon(tokens, n)| <= n && Distinct(MostCommon(tokens, n))
    ensures forall t :: t in MostCommon(tokens, n) ==> t in tokens
    ensures forall kept, dropped ::
      kept in MostCommon(tokens, n) && dropped in tokens && dropped !in MostCommon(tokens, n) ==>
      Count(tokens, kept) >= Count(tokens, dropped)
    ensures (forall t :: t in tokens ==> t in MostCommon(tokens, n)) || |MostCommon(tokens, n)| == n
  {
    var le := (a, b) => Count(tokens, a) >= Count(tokens, b);
    SortedKeeps(FirstAppearances(tokens), le);
    SortedDistinct(FirstAppearances(tokens), le);
    forall kept, dropped | kept in MostCommon(tokens, n) && dropped in tokens && dropped !in MostCommon(tokens, n)
      ensures Count(tokens, kept) >= Count(tokens, dropped)
    {
      MostCommonOrdered(tokens, n, kept, dropped);
    }
  }

  // ----- The overlap graph ---------------------------------------------------------------

  function TokenSet(tops: seq<seq<string>>, i: nat): set<string>
    requires i < |tops|
  {
    set t | t in tops[i]
  }

  predicate Overlap(tops: seq<seq<string>>, i: nat, j: nat)
    requires i < |tops| && j < |tops|
  {
    |TokenSet(tops, i) * TokenSet(tops, j)| >= CLUSTER_THRESHOLD
  }

  // Two documents overlap exactly when two different tokens are among the top tokens of both.
  lemma OverlapExactlyWhen(tops: seq<seq<string>>, i: nat, j: nat)
    requires i < |tops| && j < |tops|
    ensures Overlap(tops, i, j) <==> exists a, b :: a != b && SharedTop(tops, i, j, a) && SharedTop(tops, i, j, b)
  {
    var shared := TokenSet(tops, i) * TokenSet(tops, j);
    if |shared| >= CLUSTER_THRESHOLD {
      var a :| a in shared;
      assert |shared - {a}| == |shared| - 1;
      var b :| b in shared - {a};
      assert SharedTop(tops, i, j, a) && SharedTop(tops, i, j, b);
    }
    if a, b :| a != b && SharedTop(tops, i, j, a) && SharedTop(tops, i, j, b) {
      assert {a, b} <= shared;
      SubsetSize({a, b}, shared);
    }
  }

  ghost predicate SharedTop(tops: seq<seq<string>>, i: nat, j: nat, t: string)
    requires i < |tops| && j < |tops|
  {
    t in tops[i] && t in tops[j]
  }

  // All pairs of documents that share at least two top tokens.
  ghost function OverlapEdges(tops: seq<seq<string>>): set<(nat, nat)> {
    set i: nat, j: nat | i < |tops| && j < |tops| && i < j && Overlap(tops, i, j) :: (i, j)
  }

  function TopsOf(lexer: Lexer, documents: seq<Document>): (tops: seq<seq<string>>)
    ensures |tops| == |documents|
  {
    seq(|documents|, i requires 0 <= i < |documents| => MostCommon(lexer.tokenize(documents[i].text), TOP_N_TOKENS))
  }

  ghost predicate Tracks(uf: HalvingUnionFind<nat>, edges: set<(nat, nat)>, n: nat)
    reads uf
  {
    uf.Valid() && (forall i: nat :: i in uf.root <==> i < n) && Represents(uf.root, edges)
  }

  method JoinPair(tops: seq<seq<string>>, uf: HalvingUnionFind<nat>, i: nat, j: nat, ghost edges: set<(nat, nat)>)
    returns (ghost more: set<(nat, nat)>)
    requires i < |tops| && j < |tops| && Tracks(uf, edges, |tops|)
    modifies uf
    ensures Tracks(uf, more, |tops|)
    ensures more == if Overlap(tops, i, j) then edges + {(i, j)} else edges
  {
    more := edges;
    if |TokenSet(tops, i) * TokenSet(tops, j)| >= CLUSTER_THRESHOLD {
      more := edges + {(i, j)};
      MergedRepresents(uf.root, edges, j, i, (i, j));
      uf.Union(i, j);
    }
  }

  // The double loop joins exactly the overlapping pairs.
  method UniteOverlapping(tops: seq<seq<string>>) returns (uf: HalvingUnionFind<nat>)
    ensures fresh(uf) && Tracks(uf, OverlapEdges(tops), |tops|)
  {
    uf := new HalvingUnionFind(Indices(|tops|));
    ghost var edges: set<(nat, nat)> := {};
    DiscreteRepresents(uf.root);
    for i := 0 to |tops|
      invariant Tracks(uf, edges, |tops|)
      invariant forall e :: e in edges <==> e in OverlapEdges(tops) && e.0 < i
    {
      for j := i + 1 to |tops|
        invariant Tracks(uf, edges, |tops|)
        invariant forall e :: e in edges <==> e in OverlapEdges(tops) && (e.0 < i || (e.0 == i && e.1 < j))
      {
        edges := JoinPair(tops, uf, i, j, edges);
      }
    }
    assert edges == OverlapEdges(tops);
  }

  function Indices(n: nat): (r: seq<nat>)
    ensures |r| == n && forall i :: 0 <= i < n ==> r[i] == i
    ensures forall i: nat :: i in r <==> i < n
  {
    if n == 0 then [] else Indices(n - 1) + [n - 1]
  }

  // ----- Discovery -------------------------------------------------------------------------

  function Terms(tops: seq<seq<string>>, members: seq<nat>): seq<string>
    requires forall i :: 0 <= i < |members| ==> members[i] < |tops|
  {
    if members == [] then [] else tops[members[0]] + Terms(tops, members[1..])
  }

  // The terms of a cluster are the top tokens of its members, one after the other.
  lemma {:induction false} TermsAppend(tops: seq<seq<string>>, a: seq<nat>, b: seq<nat>)
    requires forall i :: 0 <= i < |a| ==> a[i] < |tops|
    requires forall i :: 0 <= i < |b| ==> b[i] < |tops|
    ensures Terms(tops, a + b) == Terms(tops, a) + Terms(tops, b)
    ensures |a| == 1 ==> Terms(tops, a) == tops[a[0]]
  {
    if a == [] {
      assert a + b == b;
    } else {
      TermsAppend(tops, a[1..], b);
      assert (a + b)[1..] == a[1..] + b;
      Regroup(tops[a[0]], Terms(tops, a[1..]), Terms(tops, b));
    }
  }

  function TopTerms(tops: seq<seq<string>>, members: seq<nat>): (terms: seq<string>)
    requires forall i :: 0 <= i < |members| ==> members[i] < |tops|
    ensures terms != []
  {
    var terms := MostCommon(Terms(tops, members), 6);
    if terms == [] then ["misc"] else terms
  }

  // The first three terms in canonical form.
  function KeyText(terms: seq<string>): string {
    Join(Sorted(if |terms| <= 3 then terms else terms[..3], LexLe), "_")
  }

  function TopicKey(lexer: Lexer, terms: seq<string>): string {
    "topic-" + lexer.digest8(KeyText(terms))
  }

  function TopicLabel(terms: seq<string>): string {
    if terms == [] then "misc" else Join(if |terms| <= 3 then terms else terms[..3], " / ")
  }

  function Confidence(size: nat): (c: real)
    ensures 0.0 < c <= 0.85
    ensures size <= 10 ==> c == 0.35 + 0.05 * size as real
    ensures size >= 10 ==> c == 0.85
  {
    if 0.35 + size as real * 0.05 < 0.85 then 0.35 + size as real * 0.05 else 0.85
  }

  function ArtifactOf(lexer: Lexer, documents: seq<Document>, tops: seq<seq<string>>, members: seq<nat>): (a: Artifact)
    requires |tops| == |documents| && forall i :: 0 <= i < |members| ==> members[i] < |tops|
    ensures a.size == |members|
  {
    var terms := TopTerms(tops, members);
    var shown := if |members| <= 5 then |members| else 5;
    Artifact(TopicKey(lexer, terms), TopicLabel(terms), terms, |members|,
             seq(shown, i requires 0 <= i < shown => documents[members[i]].id))
  }

  function AssignmentOf(documents: seq<Document>, a: Artifact, i: nat): Assignment
    requires i < |documents|
  {
    Assignment(documents[i].id, a.topicKey, a.topicLabel, Round3(Confidence(a.size)))
  }

  // The rounding of the confidence changes nothing.
  lemma ConfidenceIsExact(documents: seq<Document>, a: Artifact, i: nat)
    requires i < |documents|
    ensures AssignmentOf(documents, a, i) == Assignment(documents[i].id, a.topicKey, a.topicLabel, Confidence(a.size))
  {
    var n := if a.size >= 10 then 850 else 350 + 50 * a.size;
    assert Nearest(Confidence(a.size) * 1000.0, n);
    RoundsToMultiple(Confidence(a.size), n);
  }

  // What a cluster's artifact says: up to six of the most frequent top tokens of its members
  // (or "misc" if they have none), its size, up to five of its documents, a label of the first
  // three terms, and the digest of these three in ascending order.
  lemma ArtifactSays(lexer: Lexer, documents: seq<Document>, tops: seq<seq<string>>, members: seq<nat>, three: seq<string>)
    requires |tops| == |documents| && forall i :: 0 <= i < |members| ==> members[i] < |tops|
    requires FirstThree(TopTerms(tops, members), three)
    ensures var a, terms := ArtifactOf(lexer, documents, tops, members), Terms(tops, members);
      && (terms == [] ==> a.topTerms == ["misc"]) && (terms != [] ==> a.topTerms == MostCommon(terms, 6))
      && a.size == |members| && a.topicLabel == Join(three, " / ")
      && |a.representatives| == (if |members| < 5 then |members| else 5)
      && (forall i :: 0 <= i < |a.representatives| ==> a.representatives[i] == documents[members[i]].id)
    ensures exists sorted ::
      (Ordered(sorted, LexLe) && multiset(sorted) == multiset(three)
       && ArtifactOf(lexer, documents, tops, members).topicKey == "topic-" + lexer.digest8(Join(sorted, "_")))
  {
    var terms := TopTerms(tops, members);
    assert three == if |terms| <= 3 then terms else terms[..3];
    NoTermsNoTop(Terms(tops, members));
    LexLeIsPreorder();
    SortedOrdered(three, LexLe);
    SortedKeeps(three, LexLe);
  }

  lemma NoTermsNoTop(terms: seq<string>)
    ensures MostCommon(terms, 6) == [] <==> terms == []
  {
    MostCommonAreTop(terms, 6);
    if terms != [] {
      assert terms[0] in terms;
    }
  }

  ghost predicate Increasing(members: seq<nat>) {
    forall i, j :: 0 <= i < j < |members| ==> members[i] < members[j]
  }

  // The documents of a cluster are listed in order, and the clusters by their first document.
  ghost predicate Ascending(clusters: seq<seq<nat>>) {
    && (forall c :: 0 <= c < |clusters| ==> clusters[c] != [] && Increasing(clusters[c]))
    && (forall c, d :: 0 <= c < d < |clusters| ==> clusters[c][0] < clusters[d][0])
  }

  // A duplicate-free list of roots, with the documents of each root in its cluster.
  ghost predicate ClusteredBy(tops: seq<seq<string>>, root: map<nat, nat>, order: seq<nat>, clusters: seq<seq<nat>>) {
    && (forall i: nat :: i in root <==> i < |tops|)
    && Represents(root, OverlapEdges(tops))
    && |order| == |clusters| && Distinct(order)
    && (forall c, x :: 0 <= c < |clusters| && x in clusters[c] ==> x in root && root[x] == order[c])
    && multiset(Flattened(clusters)) == multiset(Indices(|tops|))
    && Ascending(clusters)
  }

  ghost predicate IsClusteringOf(tops: seq<seq<string>>, clusters: seq<seq<nat>>) {
    exists root: map<nat, nat>, order: seq<nat> :: ClusteredBy(tops, root, order, clusters)
  }

  // Two documents are in one cluster exactly when a chain of documents, each sharing at
  // least two top tokens with the next, joins them.
  lemma SameClusterIffChain(tops: seq<seq<string>>, clusters: seq<seq<nat>>, c: nat, d: nat, x: nat, y: nat)
    requires IsClusteringOf(tops, clusters)
    requires c < |clusters| && d < |clusters| && x in clusters[c] && y in clusters[d]
    ensures c == d <==> Connected(OverlapEdges(tops), x, y)
  {
    var root: map<nat, nat>, order: seq<nat> :| ClusteredBy(tops, root, order, clusters);
    assert root[x] == order[c] && root[y] == order[d];
    assert root[x] == root[y] <==> Connected(OverlapEdges(tops), x, y);
  }

  ghost function Flattened(clusters: seq<seq<nat>>): seq<nat> {
    if clusters == [] then [] else Flattened(clusters[..|clusters| - 1]) + clusters[|clusters| - 1]
  }

  ghost function SizeSum(artifacts: seq<Artifact>): nat {
    if artifacts == [] then 0 else SizeSum(artifacts[..|artifacts| - 1]) + artifacts[|artifacts| - 1].size
  }

  ghost predicate GroupedTo(n: nat, root: map<nat, nat>, groups: map<nat, seq<nat>>, order: seq<nat>) {
    Keyed(Indices(n), root) && IsGrouping(Indices(n), root, groups, order) && GroupsAscend(n, groups, order)
  }

  ghost predicate GroupsAscend(n: nat, groups: map<nat, seq<nat>>, order: seq<nat>) {
    && (forall k :: k in groups ==> groups[k] != [] && Increasing(groups[k]) && forall x :: x in groups[k] ==> x < n)
    && (forall c, d :: 0 <= c < d < |order| ==> order[c] in groups && order[d] in groups && groups[order[c]][0] < groups[order[d]][0])
  }

  lemma AppendAscends(n: nat, groups: map<nat, seq<nat>>, order: seq<nat>, k: nat)
    requires GroupsAscend(n, groups, order) && forall l :: l in order <==> l in groups
    ensures GroupsAscend(n + 1, Append(groups, k, n), AppendKey(order, k))
  {
    var more, keys := Append(groups, k, n), AppendKey(order, k);
    forall l | l in more
      ensures more[l] != [] && Increasing(more[l]) && forall x :: x in more[l] ==> x < n + 1
    {
      if l == k && k in groups {
        assert forall i :: 0 <= i < |groups[k]| ==> groups[k][i] in groups[k];
      }
    }
    forall c, d | 0 <= c < d < |keys|
      ensures keys[c] in more && keys[d] in more && more[keys[c]][0] < more[keys[d]][0]
    {
      assert c < |order| && order[c] in groups;
      assert groups[order[c]][0] in groups[order[c]];
    }
  }

  lemma GroupIndex(root: map<nat, nat>, i: nat, groups: map<nat, seq<nat>>, order: seq<nat>)
    requires GroupedTo(i, root, groups, order) && i in root
    ensures GroupedTo(i + 1, root, Append(groups, root[i], i), AppendKey(order, root[i]))
  {
    GroupingStep(Indices(i), root, groups, order, i);
    AppendAscends(i, groups, order, root[i]);
  }

  lemma NothingGrouped(root: map<nat, nat>)
    ensures GroupedTo(0, root, map[], [])
  {
    assert Indices(0) == [];
  }

  method GroupByRoot(uf: HalvingUnionFind<nat>, n: nat) returns (groups: map<nat, seq<nat>>, order: seq<nat>)
    requires uf.Valid() && forall i: nat :: i < n ==> i in uf.root
    modifies uf
    ensures uf.Valid() && uf.root == old(uf.root)
    ensures GroupedTo(n, uf.root, groups, order)
  {
    groups, order := map[], [];
    ghost var root := uf.root;
    NothingGrouped(root);
    for i := 0 to n
      invariant uf.Valid() && uf.root == root
      invariant GroupedTo(i, root, groups, order)
    {
      groups, order := FindAndGroup(uf, i, groups, order);
    }
  }

  method FindAndGroup(uf: HalvingUnionFind<nat>, i: nat, groups: map<nat, seq<nat>>, order: seq<nat>)
    returns (more: map<nat, seq<nat>>, keys: seq<nat>)
    requires uf.Valid() && i in uf.root && GroupedTo(i, uf.root, groups, order)
    modifies uf
    ensures uf.Valid() && uf.root == old(uf.root)
    ensures GroupedTo(i + 1, uf.root, more, keys)
  {
    ghost var root := uf.root;
    var r := uf.Find(i);
    more, keys := GroupOne(root, i, r, groups, order);
  }

  // grouped[find(i)].append(i)
  method GroupOne(ghost root: map<nat, nat>, i: nat, r: nat, groups: map<nat, seq<nat>>, order: seq<nat>)
    returns (more: map<nat, seq<nat>>, keys: seq<nat>)
    requires GroupedTo(i, root, groups, order) && i in root && r == root[i]
    ensures GroupedTo(i + 1, root, more, keys)
  {
    GroupIndex(root, i, groups, order);
    more, keys := Append(groups, r, i), AppendKey(order, r);
  }

  function GroupsInOrder(groups: map<nat, seq<nat>>, order: seq<nat>): (clusters: seq<seq<nat>>)
    requires forall k :: k in order ==> k in groups
    ensures |clusters| == |order| && forall c :: 0 <= c < |order| ==> clusters[c] == groups[order[c]]
  {
    seq(|order|, c requires 0 <= c < |order| => groups[order[c]])
  }

  lemma {:induction false} FlattenedIsConcatenation(groups: map<nat, seq<nat>>, order: seq<nat>)
    requires forall k :: k in order ==> k in groups
    ensures Flattened(GroupsInOrder(groups, order)) == Concatenation(groups, order)
  {
    if order != [] {
      var n := |order| - 1;
      FlattenedIsConcatenation(groups, order[..n]);
      assert GroupsInOrder(groups, order)[..n] == GroupsInOrder(groups, order[..n]);
    }
  }

  lemma GroupMembersShareRoot(n: nat, root: map<nat, nat>, groups: map<nat, seq<nat>>, order: seq<nat>, c: nat)
    requires GroupedTo(n, root, groups, order) && c < |order|
    ensures order[c] in groups
    ensures forall x :: x in groups[order[c]] ==> x < n && x in root && root[x] == order[c]
  {
    assert order[c] in order;
    MembersAre(Indices(n), root, order[c]);
  }

  lemma GroupsAreClusters(tops: seq<seq<string>>, root: map<nat, nat>, groups: map<nat, seq<nat>>, order: seq<nat>)
    requires forall i: nat :: i in root <==> i < |tops|
    requires Represents(root, OverlapEdges(tops))
    requires GroupedTo(|tops|, root, groups, order)
    ensures IsClusteringOf(tops, GroupsInOrder(groups, order))
    ensures ClustersWithin(GroupsInOrder(groups, order), |tops|)
  {
    FlattenedIsEverything(|tops|, root, groups, order);
    EveryGroupSharesRoot(|tops|, root, groups, order);
    GroupsAscendInOrder(|tops|, groups, order);
    assert ClusteredBy(tops, root, order, GroupsInOrder(groups, order));
  }

  lemma GroupsAscendInOrder(n: nat, groups: map<nat, seq<nat>>, order: seq<nat>)
    requires GroupsAscend(n, groups, order) && forall l :: l in order <==> l in groups
    ensures Ascending(GroupsInOrder(groups, order))
  {
    var clusters := GroupsInOrder(groups, order);
    forall c | 0 <= c < |clusters|
      ensures clusters[c] != [] && Increasing(clusters[c])
    {
      assert order[c] in groups;
    }
  }

  lemma FlattenedIsEverything(n: nat, root: map<nat, nat>, groups: map<nat, seq<nat>>, order: seq<nat>)
    requires GroupedTo(n, root, groups, order)
    ensures multiset(Flattened(GroupsInOrder(groups, order))) == multiset(Indices(n))
  {
    GroupingConserves(Indices(n), root, groups, order);
    FlattenedIsConcatenation(groups, order);
  }

  lemma EveryGroupSharesRoot(n: nat, root: map<nat, nat>, groups: map<nat, seq<nat>>, order: seq<nat>)
    requires GroupedTo(n, root, groups, order)
    ensures forall c, x :: 0 <= c < |order| && x in GroupsInOrder(groups, order)[c] ==> x in root && root[x] == order[c]
    ensures ClustersWithin(GroupsInOrder(groups, order), n)
  {
    forall c | 0 <= c < |order|
      ensures forall x :: x in GroupsInOrder(groups, order)[c] ==> x < n && x in root && root[x] == order[c]
    {
      GroupMembersShareRoot(n, root, groups, order, c);
    }
    forall c, i | 0 <= c < |order| && 0 <= i < |GroupsInOrder(groups, order)[c]|
      ensures GroupsInOrder(groups, order)[c][i] < n
    {
      assert GroupsInOrder(groups, order)[c][i] in GroupsInOrder(groups, order)[c];
    }
  }

  lemma NoClusters()
    ensures IsClusteringOf([], [])
  {
    DiscreteRepresents<nat>(map[]);
    assert OverlapEdges([]) == {};
    assert ClusteredBy([], map[], [], []);
  }

  // ----- The output lists --------------------------------------------------------------------

  ghost predicate ClustersWithin(clusters: seq<seq<nat>>, n: nat) {
    forall c, i :: 0 <= c < |clusters| && 0 <= i < |clusters[c]| ==> clusters[c][i] < n
  }

  // The artifact of each cluster, and for each document of each cluster its assignment.
  ghost predicate Listed(
    lexer: Lexer, documents: seq<Document>, tops: seq<seq<string>>, clusters: seq<seq<nat>>,
    assignments: seq<Assignment>, artifacts: seq<Artifact>)
    requires |tops| == |documents| && ClustersWithin(clusters, |documents|)
  {
    && |artifacts| == |clusters|
    && (forall c {:trigger artifacts[c]} :: 0 <= c < |clusters| ==> artifacts[c] == ArtifactOf(lexer, documents, tops, clusters[c]))
    && |assignments| == |Flattened(clusters)|
    && forall p: nat :: p < |assignments| ==> PlaceListed(documents, clusters, artifacts, assignments, p)
  }

  // Assignment p is that of the p-th clustered document.
  ghost predicate PlaceListed(
    documents: seq<Document>, clusters: seq<seq<nat>>, artifacts: seq<Artifact>, assignments: seq<Assignment>, p: nat)
    requires |artifacts| == |clusters|
  {
    var flat := Flattened(clusters);
    && p < |flat| && p < |assignments| && flat[p] < |documents|
    && AssignedIn(documents, clusters, artifacts, flat[p], assignments[p])
  }

  // Document i belongs to some cluster and got that cluster's topic.
  ghost predicate AssignedIn(
    documents: seq<Document>, clusters: seq<seq<nat>>, artifacts: seq<Artifact>, i: nat, a: Assignment)
    requires i < |documents| && |artifacts| == |clusters|
  {
    exists c: nat :: AssignedFrom(documents, clusters, artifacts, i, a, c)
  }

  ghost predicate AssignedFrom(
    documents: seq<Document>, clusters: seq<seq<nat>>, artifacts: seq<Artifact>, i: nat, a: Assignment, c: nat)
    requires i < |documents| && |artifacts| == |clusters|
  {
    c < |clusters| && i in clusters[c] && a == AssignmentOf(documents, artifacts[c], i)
  }

  method Discover(lexer: Lexer, documents: seq<Document>)
    returns (assignments: seq<Assignment>, artifacts: seq<Artifact>, clusters: seq<seq<nat>>)
    ensures ClustersWithin(clusters, |documents|)
    ensures IsClusteringOf(TopsOf(lexer, documents), clusters)
    ensures Listed(lexer, documents, TopsOf(lexer, documents), clusters, assignments, artifacts)
  {
    if documents == [] {
      NoClusters();
      return [], [], [];
    }
    var tops := TopsOf(lexer, documents);
    var uf := UniteOverlapping(tops);
    var groups, order := GroupByRoot(uf, |tops|);
    GroupsAreClusters(tops, uf.root, groups, order);
    clusters := GroupsInOrder(groups, order);
    assignments, artifacts := ListTopics(lexer, documents, tops, clusters);
  }

  method ListTopics(lexer: Lexer, documents: seq<Document>, tops: seq<seq<string>>, clusters: seq<seq<nat>>)
    returns (assignments: seq<Assignment>, artifacts: seq<Artifact>)
    requires |tops| == |documents| && ClustersWithin(clusters, |documents|)
    ensures Listed(lexer, documents, tops, clusters, assignments, artifacts)
  {
    assignments, artifacts := [], [];
    for c := 0 to |clusters|
      invariant ClustersWithin(clusters[..c], |documents|)
      invariant Listed(lexer, documents, tops, clusters[..c], assignments, artifacts)
    {
      assignments, artifacts := ListTopic(lexer, documents, tops, clusters[..c], clusters[c], assignments, artifacts);
      assert clusters[..c + 1] == clusters[..c] + [clusters[c]];
    }
    assert clusters[..|clusters|] == clusters;
  }

  // One cluster: its artifact, and an assignment for each of its documents.
  method ListTopic(
    lexer: Lexer, documents: seq<Document>, tops: seq<seq<string>>, ghost done: seq<seq<nat>>, members: seq<nat>,
    assignments: seq<Assignment>, artifacts: seq<Artifact>)
    returns (moreAssignments: seq<Assignment>, moreArtifacts: seq<Artifact>)
    requires |tops| == |documents| && ClustersWithin(done, |documents|)
    requires forall i :: 0 <= i < |members| ==> members[i] < |documents|
    requires Listed(lexer, documents, tops, done, assignments, artifacts)
    ensures ClustersWithin(done + [members], |documents|)
    ensures Listed(lexer, documents, tops, done + [members], moreAssignments, moreArtifacts)
  {
    var artifact := ArtifactOf(lexer, documents, tops, members);
    var more := Assign(documents, artifact, members);
    ListOne(lexer, documents, tops, done, members, assignments, artifacts, more, artifact);
    moreAssignments, moreArtifacts := assignments + more, artifacts + [artifact];
  }

  method Assign(documents: seq<Document>, artifact: Artifact, members: seq<nat>) returns (more: seq<Assignment>)
    requires forall i :: 0 <= i < |members| ==> members[i] < |documents|
    ensures |more| == |members|
    ensures forall i :: 0 <= i < |members| ==> more[i] == AssignmentOf(documents, artifact, members[i])
  {
    more := [];
    for i := 0 to |members|
      invariant |more| == i
      invariant forall k :: 0 <= k < i ==> more[k] == AssignmentOf(documents, artifact, members[k])
    {
      more := more + [AssignmentOf(documents, artifact, members[i])];
    }
  }

  lemma ListOne(
    lexer: Lexer, documents: seq<Document>, tops: seq<seq<string>>, done: seq<seq<nat>>, members: seq<nat>,
    assignments: seq<Assignment>, artifacts: seq<Artifact>, more: seq<Assignment>, artifact: Artifact)
    requires |tops| == |documents| && ClustersWithin(done, |documents|)
    requires forall i :: 0 <= i < |members| ==> members[i] < |documents|
    requires Listed(lexer, documents, tops, done, assignments, artifacts)
    requires artifact == ArtifactOf(lexer, documents, tops, members)
    requires |more| == |members| && forall i :: 0 <= i < |members| ==> more[i] == AssignmentOf(documents, artifact, members[i])
    ensures ClustersWithin(done + [members], |documents|)
    ensures Listed(lexer, documents, tops, done + [members], assignments + more, artifacts + [artifact])
  {
    var all := done + [members];
    assert all[..|done|] == done;
    assert Flattened(all) == Flattened(done) + members;
    forall p: nat | p < |assignments + more|
      ensures PlaceListed(documents, all, artifacts + [artifact], assignments + more, p)
    {
      assert p < |assignments| ==> PlaceListed(documents, done, artifacts, assignments, p);
      ListedAt(documents, done, members, assignments, artifacts, more, artifact, p);
    }
  }

  lemma ListedAt(
    documents: seq<Document>, done: seq<seq<nat>>, members: seq<nat>, assignments: seq<Assignment>,
    artifacts: seq<Artifact>, more: seq<Assignment>, artifact: Artifact, p: nat)
    requires |artifacts| == |done| && |assignments| == |Flattened(done)| && |more| == |members|
    requires p < |assignments| ==>
      Flattened(done)[p] < |documents| && AssignedIn(documents, done, artifacts, Flattened(done)[p], assignments[p])
    requires forall i :: 0 <= i < |members| ==> members[i] < |documents|
    requires forall i :: 0 <= i < |members| ==> more[i] == AssignmentOf(documents, artifact, members[i])
    requires p < |assignments + more|
    ensures var flat := Flattened(done) + members;
      && flat[p] < |documents|
      && AssignedIn(documents, done + [members], artifacts + [artifact], flat[p], (assignments + more)[p])
  {
    if p < |assignments| {
      AssignedStays(documents, done, members, artifacts, artifact, Flattened(done)[p], assignments[p]);
    } else {
      AssignedNow(documents, done, members, artifacts, artifact, members[p - |assignments|]);
    }
  }

  lemma AssignedStays(
    documents: seq<Document>, done: seq<seq<nat>>, members: seq<nat>, artifacts: seq<Artifact>, artifact: Artifact,
    i: nat, a: Assignment)
    requires i < |documents| && |artifacts| == |done| && AssignedIn(documents, done, artifacts, i, a)
    ensures AssignedIn(documents, done + [members], artifacts + [artifact], i, a)
  {
    var c: nat :| AssignedFrom(documents, done, artifacts, i, a, c);
    assert AssignedFrom(documents, done + [members], artifacts + [artifact], i, a, c);
  }

  lemma AssignedNow(
    documents: seq<Document>, done: seq<seq<nat>>, members: seq<nat>, artifacts: seq<Artifact>, artifact: Artifact, i: nat)
    requires i < |documents| && |artifacts| == |done| && i in members
    ensures AssignedIn(documents, done + [members], artifacts + [artifact], i, AssignmentOf(documents, artifact, i))
  {
    assert AssignedFrom(
        documents, done + [members], artifacts + [artifact], i, AssignmentOf(documents, artifact, i), |done|);
  }

  // ----- What the output lists promise -------------------------------------------------------

  lemma {:induction false} SizesAddUp(
    lexer: Lexer, documents: seq<Document>, tops: seq<seq<string>>, clusters: seq<seq<nat>>, artifacts: seq<Artifact>)
    requires |tops| == |documents| && ClustersWithin(clusters, |documents|) && |artifacts| == |clusters|
    requires forall c :: 0 <= c < |clusters| ==> artifacts[c] == ArtifactOf(lexer, documents, tops, clusters[c])
    ensures SizeSum(artifacts) == |Flattened(clusters)|
  {
    if clusters != [] {
      var n := |clusters| - 1;
      assert ClustersWithin(clusters[..n], |documents|);
      SizesAddUp(lexer, documents, tops, clusters[..n], artifacts[..n]);
    }
  }

  // Every document is assigned exactly once and the artifact sizes add up to the documents.
  lemma EveryDocumentOnce(
    lexer: Lexer, documents: seq<Document>, clusters: seq<seq<nat>>, assignments: seq<Assignment>, artifacts: seq<Artifact>)
    requires ClustersWithin(clusters, |documents|) && IsClusteringOf(TopsOf(lexer, documents), clusters)
    requires Listed(lexer, documents, TopsOf(lexer, documents), clusters, assignments, artifacts)
    ensures |assignments| == |Flattened(clusters)| == |documents| && SizeSum(artifacts) == |documents|
    ensures Distinct(Flattened(clusters)) && forall i: nat :: i in Flattened(clusters) <==> i < |documents|
    ensures forall p :: 0 <= p < |assignments| ==>
      Flattened(clusters)[p] < |documents| && assignments[p].documentId == documents[Flattened(clusters)[p]].id
  {
    SizesAddUp(lexer, documents, TopsOf(lexer, documents), clusters, artifacts);
    EveryIndexOnce(TopsOf(lexer, documents), clusters);
    AssignmentsNameTheirDocuments(lexer, documents, TopsOf(lexer, documents), clusters, assignments, artifacts);
  }

  lemma AssignmentsNameTheirDocuments(
    lexer: Lexer, documents: seq<Document>, tops: seq<seq<string>>, clusters: seq<seq<nat>>,
    assignments: seq<Assignment>, artifacts: seq<Artifact>)
    requires |tops| == |documents| && ClustersWithin(clusters, |documents|)
    requires Listed(lexer, documents, tops, clusters, assignments, artifacts)
    ensures forall p :: 0 <= p < |assignments| ==>
      Flattened(clusters)[p] < |documents| && assignments[p].documentId == documents[Flattened(clusters)[p]].id
  {
    forall p | 0 <= p < |assignments|
      ensures Flattened(clusters)[p] < |documents| && assignments[p].documentId == documents[Flattened(clusters)[p]].id
    {
      assert PlaceListed(documents, clusters, artifacts, assignments, p);
    }
  }

  lemma EveryIndexOnce(tops: seq<seq<string>>, clusters: seq<seq<nat>>)
    requires IsClusteringOf(tops, clusters)
    ensures |Flattened(clusters)| == |tops| && Distinct(Flattened(clusters))
    ensures forall i: nat :: i in Flattened(clusters) <==> i < |tops|
  {
    var n, flat := |tops|, Flattened(clusters);
    assert multiset(flat) == multiset(Indices(n));
    assert |multiset(flat)| == |flat| && |multiset(Indices(n))| == n;
    DistinctByMultiset(Indices(n), flat);
    forall i: nat
      ensures i in flat <==> i < n
    {
      assert i in flat <==> i in multiset(flat);
      assert i in Indices(n) <==> i in multiset(Indices(n));
    }
  }

  // ----- A topic key does not identify a cluster ---------------------------------------------

  lemma PrefixCancels(a: string, b: string)
    requires "topic-" + a == "topic-" + b
    ensures a == b
  {
    assert a == ("topic-" + a)[6..] && b == ("topic-" + b)[6..];
  }

  // Two clusters get one topic key exactly when the first three of their top terms, sorted
  // and joined, are the same text; the digests of these two texts are taken not to collide.
  lemma KeysEqualExactlyWhen(
    lexer: Lexer, documents: seq<Document>, tops: seq<seq<string>>, clusters: seq<seq<nat>>,
    assignments: seq<Assignment>, artifacts: seq<Artifact>, c: nat, d: nat)
    requires |tops| == |documents| && ClustersWithin(clusters, |documents|)
    requires Listed(lexer, documents, tops, clusters, assignments, artifacts)
    requires c < |clusters| && d < |clusters|
    requires var s, t := KeyText(TopTerms(tops, clusters[c])), KeyText(TopTerms(tops, clusters[d]));
      lexer.digest8(s) == lexer.digest8(t) ==> s == t
    ensures artifacts[c].topicKey == artifacts[d].topicKey <==>
      KeyText(TopTerms(tops, clusters[c])) == KeyText(TopTerms(tops, clusters[d]))
  {
    KeyOfArtifact(lexer, documents, tops, clusters, assignments, artifacts, c);
    KeyOfArtifact(lexer, documents, tops, clusters, assignments, artifacts, d);
    if artifacts[c].topicKey == artifacts[d].topicKey {
      PrefixCancels(lexer.digest8(KeyText(TopTerms(tops, clusters[c]))), lexer.digest8(KeyText(TopTerms(tops, clusters[d]))));
    }
  }

  lemma KeyOfArtifact(
    lexer: Lexer, documents: seq<Document>, tops: seq<seq<string>>, clusters: seq<seq<nat>>,
    assignments: seq<Assignment>, artifacts: seq<Artifact>, c: nat)
    requires |tops| == |documents| && ClustersWithin(clusters, |documents|)
    requires Listed(lexer, documents, tops, clusters, assignments, artifacts) && c < |clusters|
    ensures |artifacts| == |clusters| && artifacts[c].topicKey == TopicKey(lexer, TopTerms(tops, clusters[c]))
  {
    assert artifacts[c] == ArtifactOf(lexer, documents, tops, clusters[c]);
  }

  // ----- Documents with at most one top token stay alone --------------------------------------

  lemma NoEdgesAt(tops: seq<seq<string>>, x: nat)
    requires x < |tops| && |tops[x]| <= 1
    ensures forall z: nat :: !Adjacent(OverlapEdges(tops), x, z)
  {
    forall z: nat | z < |tops|
      ensures !Overlap(tops, x, z) && !Overlap(tops, z, x)
    {
      var a, b := TokenSet(tops, x), TokenSet(tops, z);
      assert |a| <= 1 by {
        if tops[x] != [] {
          assert a == {tops[x][0]};
        }
      }
      SubsetSize(a * b, a);
      SubsetSize(b * a, a);
    }
  }

  lemma Isolated(tops: seq<seq<string>>, x: nat, y: nat)
    requires x < |tops| && |tops[x]| <= 1 && Connected(OverlapEdges(tops), x, y)
    ensures x == y
  {
    NoEdgesAt(tops, x);
    IsolatedVertex(OverlapEdges(tops), x, y);
  }

  lemma {:induction false} ClusterIsDistinct(clusters: seq<seq<nat>>, c: nat)
    requires Distinct(Flattened(clusters)) && c < |clusters|
    ensures Distinct(clusters[c])
  {
    var n := |clusters| - 1;
    var before := Flattened(clusters[..n]);
    assert Flattened(clusters) == before + clusters[n];
    if c == n {
      forall i, j | 0 <= i < j < |clusters[n]|
        ensures clusters[n][i] != clusters[n][j]
      {
        assert Flattened(clusters)[|before| + i] == clusters[n][i] && Flattened(clusters)[|before| + j] == clusters[n][j];
      }
    } else {
      forall i, j | 0 <= i < j < |before|
        ensures before[i] != before[j]
      {
        assert Flattened(clusters)[i] == before[i] && Flattened(clusters)[j] == before[j];
      }
      ClusterIsDistinct(clusters[..n], c);
    }
  }

  lemma AloneInCluster(tops: seq<seq<string>>, clusters: seq<seq<nat>>, c: nat, x: nat)
    requires IsClusteringOf(tops, clusters)
    requires c < |clusters| && x in clusters[c] && x < |tops| && |tops[x]| <= 1
    ensures clusters[c] == [x]
  {
    forall y | y in clusters[c]
      ensures y == x
    {
      SameClusterIffChain(tops, clusters, c, c, x, y);
      Isolated(tops, x, y);
    }
    EveryIndexOnce(tops, clusters);
    ClusterIsDistinct(clusters, c);
    Singleton(clusters[c], x);
  }

  lemma Singleton<T>(xs: seq<T>, x: T)
    requires xs != [] && Distinct(xs) && forall y :: y in xs ==> y == x
    ensures xs == [x]
  {
    DistinctSize(xs);
    assert xs[0] in xs;
    assert Elements(xs) == {x};
  }

  // Two documents with the same at most one top token are two clusters under one key: one
  // shared token is below the threshold of two.
  lemma OneTokenDocumentsShareKey(
    lexer: Lexer, documents: seq<Document>, tops: seq<seq<string>>, clusters: seq<seq<nat>>,
    assignments: seq<Assignment>, artifacts: seq<Artifact>, c: nat, d: nat, x: nat, y: nat)
    requires |tops| == |documents| && ClustersWithin(clusters, |documents|) && IsClusteringOf(tops, clusters)
    requires Listed(lexer, documents, tops, clusters, assignments, artifacts)
    requires x < |tops| && y < |tops| && x != y && tops[x] == tops[y] && |tops[x]| <= 1
    requires c < |clusters| && d < |clusters| && x in clusters[c] && y in clusters[d]
    ensures c != d && artifacts[c].topicKey == artifacts[d].topicKey
  {
    AloneInCluster(tops, clusters, c, x);
    AloneInCluster(tops, clusters, d, y);
    TermsOfOne(tops, x);
    TermsOfOne(tops, y);
    KeyOfArtifact(lexer, documents, tops, clusters, assignments, artifacts, c);
    KeyOfArtifact(lexer, documents, tops, clusters, assignments, artifacts, d);
  }

  lemma TermsOfOne(tops: seq<seq<string>>, x: nat)
    requires x < |tops|
    ensures Terms(tops, [x]) == tops[x]
  {
    assert [x][1..] == [];
  }

  // In particular without any token at all.
  lemma TokenlessDocumentsShareKey(
    lexer: Lexer, documents: seq<Document>, tops: seq<seq<string>>, clusters: seq<seq<nat>>,
    assignments: seq<Assignment>, artifacts: seq<Artifact>, c: nat, d: nat, x: nat, y: nat)
    requires |tops| == |documents| && ClustersWithin(clusters, |documents|) && IsClusteringOf(tops, clusters)
    requires Listed(lexer, documents, tops, clusters, assignments, artifacts)
    requires x < |tops| && y < |tops| && x != y && tops[x] == [] && tops[y] == []
    requires c < |clusters| && d < |clusters| && x in clusters[c] && y in clusters[d]
    ensures c != d && artifacts[c].topicKey == artifacts[d].topicKey
  {
    OneTokenDocumentsShareKey(lexer, documents, tops, clusters, assignments, artifacts, c, d, x, y);
  }

  // Whatever is made of two documents that both say "giao", the key does not tell them apart.
  lemma SameWordTwice(lexer: Lexer, clusters: seq<seq<nat>>, assignments: seq<Assignment>, artifacts: seq<Artifact>, c: nat, d: nat)
    requires lexer.tokenize("giao") == ["giao"]
    requires var documents := [Document("1", "1", "", "giao"), Document("2", "2", "", "giao")];
      && ClustersWithin(clusters, 2) && IsClusteringOf(TopsOf(lexer, documents), clusters)
      && Listed(lexer, documents, TopsOf(lexer, documents), clusters, assignments, artifacts)
    requires c < |clusters| && d < |clusters| && 0 in clusters[c] && 1 in clusters[d]
    ensures c != d && artifacts[c].topicKey == artifacts[d].topicKey
  {
    var documents := [Document("1", "1", "", "giao"), Document("2", "2", "", "giao")];
    var tops := TopsOf(lexer, documents);
    assert tops[0] == tops[1] == MostCommon(["giao"], 8);
    MostCommonOfOne("giao", 8);
    OneTokenDocumentsShareKey(lexer, documents, tops, clusters, assignments, artifacts, c, d, 0, 1);
  }

  lemma MostCommonOfOne(t: string, n: nat)
    requires n >= 1
    ensures MostCommon([t], n) == [t]
  {
    var most := MostCommon([t], n);
    MostCommonAreTop([t], n);
    assert t in [t];
    Singleton(most, t);
  }
}
