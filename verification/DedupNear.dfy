// internal/dedup/usecase/annotate_dedup.py: the near-duplicate pass, step by step.
module DedupNear {
  import opened Basics
  import opened Connectivity
  import opened DedupModel
  import opened Grouping
  import opened UnionFinds

  // Everything later steps read: the candidates' shingles, and the signatures in order.
  ghost predicate IsPrepared(
    cfg: Config, h: Hashing, texts: map<string, string>,
    shingles: map<string, set<string>>, ids: seq<string>, signatures: map<string, seq<nat>>)
  {
    && Distinct(ids)
    && (forall x :: x in ids <==> x in texts)
    && signatures.Keys == texts.Keys
    && (forall x :: x in texts ==>
          && x in shingles && shingles[x] == Shingles(cfg, texts[x])
          && signatures[x] == Signature(cfg, h, shingles[x]))
  }

  // ----- MinHash ---------------------------------------------------------------------

  // The set is walked in an arbitrary order.
  method LeastSlot(h: Hashing, seed: nat, s: set<string>) returns (m: nat)
    requires s != {}
    ensures m == MinSlot(h, seed, s)
  {
    var first :| first in s;
    m := h.slot(seed, first);
    ghost var seen := {first};
    var rest := s - {first};
    while rest != {}
      invariant seen + rest == s
      invariant exists x :: x in seen && h.slot(seed, x) == m
      invariant forall x :: x in seen ==> m <= h.slot(seed, x)
      decreases rest
    {
      var x :| x in rest;
      if h.slot(seed, x) < m {
        m := h.slot(seed, x);
      }
      seen, rest := seen + {x}, rest - {x};
    }
    assert seen == s;
  }

  method MinhashSignature(cfg: Config, h: Hashing, s: set<string>) returns (signature: seq<nat>)
    ensures signature == Signature(cfg, h, s)
  {
    signature := [];
    if s == {} {
      return;
    }
    for seed := 0 to cfg.numPerm
      invariant |signature| == seed
      invariant forall k :: 0 <= k < seed ==> signature[k] == Signature(cfg, h, s)[k]
    {
      var m := LeastSlot(h, seed, s);
      signature := signature + [m];
    }
  }

  // ----- Banding ---------------------------------------------------------------------

  type Buckets = map<(nat, seq<nat>), seq<string>>

  // Each bucket lists, once each, the entered (id, band index) pairs with its band.
  ghost predicate IsBanded(
    cfg: Config, signatures: map<string, seq<nat>>, entered: set<(string, nat)>, buckets: Buckets)
  {
    && (forall e {:trigger e in entered} :: e in entered ==> Entered(cfg, signatures, buckets, e.0, e.1))
    && (forall k {:trigger buckets[k]} :: k in buckets ==> BucketOk(cfg, signatures, entered, k, buckets[k]))
  }

  ghost predicate Entered(cfg: Config, signatures: map<string, seq<nat>>, buckets: Buckets, x: string, b: nat) {
    x in signatures &&
    var band := Band(cfg, signatures[x], b);
    band != [] ==> (b, band) in buckets && x in buckets[(b, band)]
  }

  ghost predicate BucketOk(
    cfg: Config, signatures: map<string, seq<nat>>, entered: set<(string, nat)>, k: (nat, seq<nat>), bucket: seq<string>)
  {
    && k.1 != [] && Distinct(bucket)
    && forall x :: x in bucket ==> x in signatures && (x, k.0) in entered && Band(cfg, signatures[x], k.0) == k.1
  }

  lemma EnterBand(
    cfg: Config, signatures: map<string, seq<nat>>, entered: set<(string, nat)>, buckets: Buckets, x: string, b: nat)
    requires IsBanded(cfg, signatures, entered, buckets)
    requires x in signatures && (x, b) !in entered
    requires Band(cfg, signatures[x], b) != []
    ensures IsBanded(cfg, signatures, entered + {(x, b)}, Append(buckets, (b, Band(cfg, signatures[x], b)), x))
  {
    var key := (b, Band(cfg, signatures[x], b));
    var grown := Append(buckets, key, x);
    var more := entered + {(x, b)};
    var was := if key in buckets then buckets[key] else [];
    assert grown[key] == was + [x];
    forall e | e in more
      ensures Entered(cfg, signatures, grown, e.0, e.1)
    {
      if e in entered {
        StaysEntered(cfg, signatures, buckets, key, x, e.0, e.1);
      }
    }
    forall k | k in grown
      ensures BucketOk(cfg, signatures, more, k, grown[k])
    {
      if k == key {
        assert key in buckets ==> BucketOk(cfg, signatures, entered, key, buckets[key]);
        assert x !in was;
      } else {
        assert BucketOk(cfg, signatures, entered, k, buckets[k]);
      }
    }
  }

  lemma StaysEntered(
    cfg: Config, signatures: map<string, seq<nat>>, buckets: Buckets, key: (nat, seq<nat>), added: string, x: string, b: nat)
    requires Entered(cfg, signatures, buckets, x, b)
    ensures Entered(cfg, signatures, Append(buckets, key, added), x, b)
  {
  }

  method FillBuckets(cfg: Config, ids: seq<string>, signatures: map<string, seq<nat>>) returns (buckets: Buckets)
    requires Distinct(ids) && forall x :: x in ids ==> x in signatures
    ensures IsBanded(cfg, signatures, set x, b | x in ids && 0 <= b < cfg.numBands :: (x, b), buckets)
  {
    buckets := map[];
    ghost var entered: set<(string, nat)> := {};
    for i := 0 to |ids|
      invariant IsBanded(cfg, signatures, entered, buckets)
      invariant forall e :: e in entered <==> e.0 in ids[..i] && e.1 < cfg.numBands
    {
      var mid := ids[i];
      assert mid !in ids[..i];
      for b := 0 to cfg.numBands
        invariant IsBanded(cfg, signatures, entered, buckets)
        invariant forall e :: e in entered <==> (e.0 in ids[..i] && e.1 < cfg.numBands) || (e.0 == mid && e.1 < b)
      {
        var band := Band(cfg, signatures[mid], b);
        if band == [] {
          entered := entered + {(mid, b)};
          continue;
        }
        assert (mid, b) !in entered;
        EnterBand(cfg, signatures, entered, buckets, mid, b);
        buckets := Append(buckets, (b, band), mid);
        entered := entered + {(mid, b)};
      }
      assert ids[..i + 1] == ids[..i] + [mid];
    }
    assert ids[..|ids|] == ids;
    assert entered == set x, b | x in ids && 0 <= b < cfg.numBands :: (x, b);
  }

  // ----- Joining -----------------------------------------------------------------------

  ghost predicate SimilarTo(cfg: Config, shingles: map<string, set<string>>, x: string, y: string) {
    x in shingles && y in shingles && Jaccard(shingles[x], shingles[y]) >= cfg.threshold
  }

  // The union-find's classes are the components of the edges joined so far.
  ghost predicate Tracks(uf: CompressingUnionFind<string>, edges: set<(string, string)>, vertices: set<string>)
    reads uf
  {
    uf.Valid() && uf.root.Keys == vertices && Represents(uf.root, edges)
  }

  // Compares one pair and joins it if it is similar enough.
  method JoinPair(
    cfg: Config, shingles: map<string, set<string>>, uf: CompressingUnionFind<string>,
    x: string, y: string, ghost edges: set<(string, string)>, ghost vertices: set<string>)
    returns (ghost more: set<(string, string)>)
    requires Tracks(uf, edges, vertices) && x in vertices && y in vertices
    requires vertices <= shingles.Keys
    modifies uf
    ensures Tracks(uf, more, vertices)
    ensures more == if SimilarTo(cfg, shingles, x, y) then edges + {(x, y)} else edges
  {
    more := edges;
    if Jaccard(shingles[x], shingles[y]) >= cfg.threshold {
      more := edges + {(x, y)};
      MergedRepresents(uf.root, edges, x, y, (x, y));
      uf.Union(x, y);
    }
  }

  ghost predicate PairOf(cfg: Config, shingles: map<string, set<string>>, ids: seq<string>, e: (string, string)) {
    e.0 in ids && e.1 in ids && e.0 != e.1 && SimilarTo(cfg, shingles, e.0, e.1)
  }

  ghost predicate JoinedRow(
    cfg: Config, shingles: map<string, set<string>>, ids: seq<string>, i: nat, upTo: nat, edges: set<(string, string)>)
    requires i < upTo <= |ids|
  {
    forall j :: i < j < upTo && SimilarTo(cfg, shingles, ids[i], ids[j]) ==> (ids[i], ids[j]) in edges
  }

  ghost predicate RowsJoined(
    cfg: Config, shingles: map<string, set<string>>, ids: seq<string>, upTo: nat, edges: set<(string, string)>)
    requires upTo <= |ids|
  {
    forall i: nat :: i < upTo ==> JoinedRow(cfg, shingles, ids, i, |ids|, edges)
  }

  ghost predicate AllJoined(
    cfg: Config, shingles: map<string, set<string>>, ids: seq<string>, edges: set<(string, string)>) {
    RowsJoined(cfg, shingles, ids, |ids|, edges)
  }

  ghost predicate OnlyPairs(
    cfg: Config, shingles: map<string, set<string>>, ids: seq<string>, edges: set<(string, string)>, more: set<(string, string)>)
  {
    forall e :: e in more ==> e in edges || PairOf(cfg, shingles, ids, e)
  }

  lemma RowStays(
    cfg: Config, shingles: map<string, set<string>>, ids: seq<string>, i: nat, upTo: nat,
    edges: set<(string, string)>, more: set<(string, string)>)
    requires i < upTo <= |ids| && edges <= more && JoinedRow(cfg, shingles, ids, i, upTo, edges)
    ensures JoinedRow(cfg, shingles, ids, i, upTo, more)
  {
  }

  lemma RowsStay(
    cfg: Config, shingles: map<string, set<string>>, ids: seq<string>, upTo: nat,
    edges: set<(string, string)>, more: set<(string, string)>)
    requires upTo <= |ids| && edges <= more && RowsJoined(cfg, shingles, ids, upTo, edges)
    ensures RowsJoined(cfg, shingles, ids, upTo, more)
  {
    forall i: nat | i < upTo
      ensures JoinedRow(cfg, shingles, ids, i, |ids|, more)
    {
      RowStays(cfg, shingles, ids, i, |ids|, edges, more);
    }
  }

  lemma AllJoinedStays(
    cfg: Config, shingles: map<string, set<string>>, ids: seq<string>, edges: set<(string, string)>, more: set<(string, string)>)
    requires edges <= more && AllJoined(cfg, shingles, ids, edges)
    ensures AllJoined(cfg, shingles, ids, more)
  {
    RowsStay(cfg, shingles, ids, |ids|, edges, more);
  }

  lemma OnlyPairsChain(
    cfg: Config, shingles: map<string, set<string>>, ids: seq<string>, edges: set<(string, string)>,
    more: set<(string, string)>, most: set<(string, string)>)
    requires OnlyPairs(cfg, shingles, ids, edges, more) && OnlyPairs(cfg, shingles, ids, more, most)
    ensures OnlyPairs(cfg, shingles, ids, edges, most)
  {
  }

  lemma PairAdded(
    cfg: Config, shingles: map<string, set<string>>, ids: seq<string>, i: nat, j: nat, edges: set<(string, string)>,
    before: set<(string, string)>, more: set<(string, string)>)
    requires i < j < |ids| && Distinct(ids)
    requires OnlyPairs(cfg, shingles, ids, edges, before) && JoinedRow(cfg, shingles, ids, i, j, before)
    requires more == if SimilarTo(cfg, shingles, ids[i], ids[j]) then before + {(ids[i], ids[j])} else before
    ensures OnlyPairs(cfg, shingles, ids, edges, more) && JoinedRow(cfg, shingles, ids, i, j + 1, more)
  {
  }

  // The inner loop: the li-th id against all later ones.
  method JoinRow(
    cfg: Config, shingles: map<string, set<string>>, uf: CompressingUnionFind<string>, ids: seq<string>, li: nat,
    ghost edges: set<(string, string)>, ghost vertices: set<string>)
    returns (ghost more: set<(string, string)>)
    requires Tracks(uf, edges, vertices) && vertices <= shingles.Keys
    requires li < |ids| && Distinct(ids) && forall x :: x in ids ==> x in vertices
    modifies uf
    ensures Tracks(uf, more, vertices) && edges <= more
    ensures OnlyPairs(cfg, shingles, ids, edges, more)
    ensures JoinedRow(cfg, shingles, ids, li, |ids|, more)
  {
    more := edges;
    for ri := li + 1 to |ids|
      invariant Tracks(uf, more, vertices) && edges <= more
      invariant OnlyPairs(cfg, shingles, ids, edges, more)
      invariant JoinedRow(cfg, shingles, ids, li, ri, more)
    {
      ghost var before := more;
      more := JoinPair(cfg, shingles, uf, ids[li], ids[ri], before, vertices);
      PairAdded(cfg, shingles, ids, li, ri, edges, before, more);
    }
  }

  // Joins every similar pair of the list, and nothing else.
  method JoinSimilarPairs(
    cfg: Config, shingles: map<string, set<string>>, uf: CompressingUnionFind<string>,
    ids: seq<string>, ghost edges: set<(string, string)>, ghost vertices: set<string>)
    returns (ghost more: set<(string, string)>)
    requires Tracks(uf, edges, vertices) && vertices <= shingles.Keys
    requires Distinct(ids) && forall x :: x in ids ==> x in vertices
    modifies uf
    ensures Tracks(uf, more, vertices) && edges <= more
    ensures OnlyPairs(cfg, shingles, ids, edges, more)
    ensures AllJoined(cfg, shingles, ids, more)
  {
    more := edges;
    for li := 0 to |ids|
      invariant Tracks(uf, more, vertices) && edges <= more
      invariant OnlyPairs(cfg, shingles, ids, edges, more)
      invariant RowsJoined(cfg, shingles, ids, li, more)
    {
      ghost var before := more;
      more := JoinRow(cfg, shingles, uf, ids, li, before, vertices);
      OnlyPairsChain(cfg, shingles, ids, edges, before, more);
      RowsStay(cfg, shingles, ids, li, before, more);
    }
  }

  ghost predicate Joinable(cfg: Config, bucket: seq<string>) {
    2 <= |bucket| <= cfg.maxBucketSize
  }

  // All buckets of acceptable size, in an arbitrary order.
  method JoinBuckets(
    cfg: Config, shingles: map<string, set<string>>, uf: CompressingUnionFind<string>, buckets: Buckets,
    ghost vertices: set<string>)
    returns (ghost edges: set<(string, string)>)
    requires Tracks(uf, {}, vertices) && vertices <= shingles.Keys
    requires forall k :: k in buckets ==> Distinct(buckets[k]) && forall x :: x in buckets[k] ==> x in vertices
    modifies uf
    ensures Tracks(uf, edges, vertices)
    ensures forall e :: e in edges ==> exists k :: k in buckets && Joinable(cfg, buckets[k]) && PairOf(cfg, shingles, buckets[k], e)
    ensures forall k :: k in buckets && Joinable(cfg, buckets[k]) ==> AllJoined(cfg, shingles, buckets[k], edges)
  {
    edges := {};
    var rest := buckets.Keys;
    while rest != {}
      invariant rest <= buckets.Keys
      invariant Tracks(uf, edges, vertices)
      invariant forall e :: e in edges ==> exists k :: k in buckets && Joinable(cfg, buckets[k]) && PairOf(cfg, shingles, buckets[k], e)
      invariant forall k :: k in buckets && k !in rest && Joinable(cfg, buckets[k]) ==> AllJoined(cfg, shingles, buckets[k], edges)
      decreases rest
    {
      var k :| k in rest;
      rest := rest - {k};
      if |buckets[k]| < 2 || |buckets[k]| > cfg.maxBucketSize {
        continue;
      }
      ghost var before := edges;
      edges := JoinSimilarPairs(cfg, shingles, uf, buckets[k], before, vertices);
      forall l | l in buckets && l !in rest && l != k && Joinable(cfg, buckets[l])
        ensures AllJoined(cfg, shingles, buckets[l], edges)
      {
        AllJoinedStays(cfg, shingles, buckets[l], before, edges);
      }
    }
  }

  // ----- The edges found are the edges of the graph ------------------------------------

  ghost function AllBands(cfg: Config, ids: seq<string>): set<(string, nat)> {
    set x, b | x in ids && 0 <= b < cfg.numBands :: (x, b)
  }

  lemma BucketIsWhole(
    cfg: Config, h: Hashing, texts: map<string, string>, shingles: map<string, set<string>>, ids: seq<string>,
    signatures: map<string, seq<nat>>, buckets: Buckets, k: (nat, seq<nat>))
    requires IsPrepared(cfg, h, texts, shingles, ids, signatures)
    requires IsBanded(cfg, signatures, AllBands(cfg, ids), buckets)
    requires k in buckets && k.0 < cfg.numBands
    ensures forall x :: x in buckets[k] <==> x in Bucket(cfg, h, texts, k.0, k.1)
    ensures |buckets[k]| == |Bucket(cfg, h, texts, k.0, k.1)|
  {
    assert BucketOk(cfg, signatures, AllBands(cfg, ids), k, buckets[k]);
    forall x | x in Bucket(cfg, h, texts, k.0, k.1)
      ensures x in buckets[k]
    {
      assert (x, k.0) in AllBands(cfg, ids);
      assert Entered(cfg, signatures, buckets, x, k.0);
    }
    DistinctSize(buckets[k]);
    assert Elements(buckets[k]) == Bucket(cfg, h, texts, k.0, k.1);
  }

  lemma BucketPairIsEdge(
    cfg: Config, h: Hashing, texts: map<string, string>, shingles: map<string, set<string>>, ids: seq<string>,
    signatures: map<string, seq<nat>>, buckets: Buckets, k: (nat, seq<nat>), e: (string, string))
    requires IsPrepared(cfg, h, texts, shingles, ids, signatures)
    requires IsBanded(cfg, signatures, AllBands(cfg, ids), buckets)
    requires k in buckets && Joinable(cfg, buckets[k]) && PairOf(cfg, shingles, buckets[k], e)
    ensures e in NearEdges(cfg, h, texts)
  {
    assert BucketOk(cfg, signatures, AllBands(cfg, ids), k, buckets[k]);
    assert (e.0, k.0) in AllBands(cfg, ids);
    BucketIsWhole(cfg, h, texts, shingles, ids, signatures, buckets, k);
    assert BandOf(cfg, h, texts, k.0, e.0) == BandOf(cfg, h, texts, k.0, e.1) == k.1;
    assert Banded(cfg, h, texts, e.0, e.1);
  }

  lemma EdgeIsBucketPair(
    cfg: Config, h: Hashing, texts: map<string, string>, shingles: map<string, set<string>>, ids: seq<string>,
    signatures: map<string, seq<nat>>, buckets: Buckets, x: string, y: string, edges: set<(string, string)>)
    requires IsPrepared(cfg, h, texts, shingles, ids, signatures)
    requires IsBanded(cfg, signatures, AllBands(cfg, ids), buckets)
    requires forall k :: k in buckets && Joinable(cfg, buckets[k]) ==> AllJoined(cfg, shingles, buckets[k], edges)
    requires (x, y) in NearEdges(cfg, h, texts) && Banded(cfg, h, texts, x, y)
    ensures Adjacent(edges, x, y)
  {
    var b: nat :| b < cfg.numBands && BandOf(cfg, h, texts, b, x) == BandOf(cfg, h, texts, b, y) != []
      && |Bucket(cfg, h, texts, b, BandOf(cfg, h, texts, b, x))| <= cfg.maxBucketSize;
    var k := (b, BandOf(cfg, h, texts, b, x));
    assert (x, b) in AllBands(cfg, ids);
    assert Entered(cfg, signatures, buckets, x, b);
    BucketIsWhole(cfg, h, texts, shingles, ids, signatures, buckets, k);
    assert x in buckets[k] && y in buckets[k];
    ListedPairJoined(cfg, shingles, buckets[k], x, y, edges);
  }

  lemma ListedPairJoined(
    cfg: Config, shingles: map<string, set<string>>, ids: seq<string>, x: string, y: string, edges: set<(string, string)>)
    requires x in ids && y in ids && x != y
    requires |ids| >= 2 ==> SimilarTo(cfg, shingles, x, y)
    requires |ids| >= 2 ==> AllJoined(cfg, shingles, ids, edges)
    ensures Adjacent(edges, x, y)
  {
    var i :| 0 <= i < |ids| && ids[i] == x;
    var j :| 0 <= j < |ids| && ids[j] == y;
    assert JoinedRow(cfg, shingles, ids, i, |ids|, edges) && JoinedRow(cfg, shingles, ids, j, |ids|, edges);
    JaccardSymmetric(shingles[x], shingles[y]);
  }

  lemma SameAdjacencySameClasses(root: map<string, string>, edges: set<(string, string)>, others: set<(string, string)>)
    requires Represents(root, edges)
    requires forall e :: e in edges ==> Adjacent(others, e.0, e.1)
    requires forall e :: e in others ==> Adjacent(edges, e.0, e.1)
    ensures Represents(root, others)
  {
    forall x, y | x in root && y in root
      ensures root[x] == root[y] <==> Connected(others, x, y)
    {
      if Connected(edges, x, y) {
        ConnectedMonotone(edges, others, x, y);
      }
      if Connected(others, x, y) {
        ConnectedMonotone(others, edges, x, y);
      }
    }
  }

  // Banding, then every pair when the batch is small: the classes are the components of
  // the graph of pairs that the algorithm looks at.
  method Unite(
    cfg: Config, h: Hashing, ghost texts: map<string, string>, shingles: map<string, set<string>>, ids: seq<string>,
    signatures: map<string, seq<nat>>)
    returns (uf: CompressingUnionFind<string>)
    requires IsPrepared(cfg, h, texts, shingles, ids, signatures)
    ensures fresh(uf) && Tracks(uf, NearEdges(cfg, h, texts), texts.Keys)
  {
    var buckets := FillBuckets(cfg, ids, signatures);
    uf := new CompressingUnionFind(ids);
    DiscreteRepresents(uf.root);
    assert uf.root.Keys == texts.Keys;
    forall k | k in buckets
      ensures Distinct(buckets[k]) && forall x :: x in buckets[k] ==> x in texts
    {
      assert BucketOk(cfg, signatures, AllBands(cfg, ids), k, buckets[k]);
    }
    ghost var edges := JoinBuckets(cfg, shingles, uf, buckets, texts.Keys);
    ghost var found := edges;
    if |ids| <= BRUTE_FORCE_THRESHOLD {
      found := JoinSimilarPairs(cfg, shingles, uf, ids, edges, texts.Keys);
    }
    FoundEdgesAreEdges(cfg, h, texts, shingles, ids, signatures, buckets, edges, found);
    SameAdjacencySameClasses(uf.root, found, NearEdges(cfg, h, texts));
  }

  lemma FoundEdgesAreEdges(
    cfg: Config, h: Hashing, texts: map<string, string>, shingles: map<string, set<string>>, ids: seq<string>,
    signatures: map<string, seq<nat>>, buckets: Buckets, edges: set<(string, string)>, found: set<(string, string)>)
    requires IsPrepared(cfg, h, texts, shingles, ids, signatures)
    requires IsBanded(cfg, signatures, AllBands(cfg, ids), buckets)
    requires forall e :: e in edges ==> exists k :: k in buckets && Joinable(cfg, buckets[k]) && PairOf(cfg, shingles, buckets[k], e)
    requires forall k :: k in buckets && Joinable(cfg, buckets[k]) ==> AllJoined(cfg, shingles, buckets[k], edges)
    requires edges <= found
    requires |ids| > BRUTE_FORCE_THRESHOLD ==> found == edges
    requires OnlyPairs(cfg, shingles, ids, edges, found)
    requires |ids| <= BRUTE_FORCE_THRESHOLD ==> AllJoined(cfg, shingles, ids, found)
    ensures forall e :: e in found ==> Adjacent(NearEdges(cfg, h, texts), e.0, e.1)
    ensures forall e :: e in NearEdges(cfg, h, texts) ==> Adjacent(found, e.0, e.1)
  {
    DistinctSize(ids);
    assert Elements(ids) == texts.Keys;
    assert |ids| == |texts.Keys| == |texts|;
    forall e | e in found
      ensures e in NearEdges(cfg, h, texts)
    {
      if e in edges {
        var k :| k in buckets && Joinable(cfg, buckets[k]) && PairOf(cfg, shingles, buckets[k], e);
        BucketPairIsEdge(cfg, h, texts, shingles, ids, signatures, buckets, k, e);
      } else {
        assert |texts| <= BRUTE_FORCE_THRESHOLD;
      }
    }
    forall e | e in NearEdges(cfg, h, texts)
      ensures Adjacent(found, e.0, e.1)
    {
      if |ids| <= BRUTE_FORCE_THRESHOLD {
        ListedPairJoined(cfg, shingles, ids, e.0, e.1, found);
      } else {
        EdgeIsBucketPair(cfg, h, texts, shingles, ids, signatures, buckets, e.0, e.1, edges);
      }
    }
  }
}
