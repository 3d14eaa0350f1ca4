// Undirected graphs over arbitrary vertices, chains of edges, and the root maps that
// describe a partition of the vertices.  Both union-finds of the repository (the
// recursive one of near-duplicate clustering and the path-halving one of topic
// discovery) are specified with these notions.
module Connectivity {

  ghost predicate Adjacent<T(!new)>(edges: set<(T, T)>, x: T, y: T) {
    (x, y) in edges || (y, x) in edges
  }

  // `steps` leads from x to y, one edge at a time.
  ghost predicate IsChain<T(!new)>(edges: set<(T, T)>, x: T, y: T, steps: seq<T>) {
    if steps == [] then x == y
    else Adjacent(edges, x, steps[0]) && IsChain(edges, steps[0], y, steps[1..])
  }

  ghost predicate Connected<T(!new)>(edges: set<(T, T)>, x: T, y: T) {
    exists steps :: IsChain(edges, x, y, steps)
  }

  lemma ConnectedReflexive<T(!new)>(edges: set<(T, T)>, x: T)
    ensures Connected(edges, x, x)
  {
    assert IsChain(edges, x, x, []);
  }

  lemma ConnectedByEdge<T(!new)>(edges: set<(T, T)>, x: T, y: T)
    requires Adjacent(edges, x, y)
    ensures Connected(edges, x, y)
  {
    assert [y][1..] == [];
    assert IsChain(edges, y, y, []);
    assert IsChain(edges, x, y, [y]);
  }

  lemma {:induction false} ChainsCompose<T(!new)>(edges: set<(T, T)>, x: T, y: T, z: T, p: seq<T>, q: seq<T>)
    requires IsChain(edges, x, y, p) && IsChain(edges, y, z, q)
    ensures IsChain(edges, x, z, p + q)
  {
    if p == [] {
      assert p + q == q;
    } else {
      ChainsCompose(edges, p[0], y, z, p[1..], q);
      assert (p + q)[1..] == p[1..] + q;
    }
  }

  lemma ConnectedTransitive<T(!new)>(edges: set<(T, T)>, x: T, y: T, z: T)
    requires Connected(edges, x, y) && Connected(edges, y, z)
    ensures Connected(edges, x, z)
  {
    var p :| IsChain(edges, x, y, p);
    var q :| IsChain(edges, y, z, q);
    ChainsCompose(edges, x, y, z, p, q);
  }

  lemma IsolatedVertex<T(!new)>(edges: set<(T, T)>, x: T, y: T)
    requires (forall z :: !Adjacent(edges, x, z)) && Connected(edges, x, y)
    ensures x == y
  {
    var p :| IsChain(edges, x, y, p);
  }

  // More edges connect at least as much; only the undirected reading of an edge matters.
  lemma {:induction false} ChainMonotone<T(!new)>(edges: set<(T, T)>, more: set<(T, T)>, x: T, y: T, p: seq<T>)
    requires forall e :: e in edges ==> Adjacent(more, e.0, e.1)
    requires IsChain(edges, x, y, p)
    ensures IsChain(more, x, y, p)
    decreases p
  {
    if p != [] {
      assert Adjacent(more, x, p[0]);
      ChainMonotone(edges, more, p[0], y, p[1..]);
    }
  }

  lemma ConnectedMonotone<T(!new)>(edges: set<(T, T)>, more: set<(T, T)>, x: T, y: T)
    requires forall e :: e in edges ==> Adjacent(more, e.0, e.1)
    requires Connected(edges, x, y)
    ensures Connected(more, x, y)
  {
    var p :| IsChain(edges, x, y, p);
    ChainMonotone(edges, more, x, y, p);
  }

  // A map that is constant along every edge is constant along every chain.
  lemma {:induction false} ChainKeepsTag<T(!new), L>(edges: set<(T, T)>, tag: map<T, L>, x: T, y: T, p: seq<T>)
    requires forall e :: e in edges ==> e.0 in tag && e.1 in tag && tag[e.0] == tag[e.1]
    requires x in tag && IsChain(edges, x, y, p)
    ensures y in tag && tag[x] == tag[y]
    decreases p
  {
    if p != [] {
      ChainKeepsTag(edges, tag, p[0], y, p[1..]);
    }
  }

  lemma ConnectedKeepsTag<T(!new), L>(edges: set<(T, T)>, tag: map<T, L>, x: T, y: T)
    requires forall e :: e in edges ==> e.0 in tag && e.1 in tag && tag[e.0] == tag[e.1]
    requires x in tag && Connected(edges, x, y)
    ensures y in tag && tag[x] == tag[y]
  {
    var p :| IsChain(edges, x, y, p);
    ChainKeepsTag(edges, tag, x, y, p);
  }

  // ----- Root maps ---------------------------------------------------------------

  ghost predicate EdgesWithin<T(!new)>(edges: set<(T, T)>, vertices: set<T>) {
    forall e :: e in edges ==> e.0 in vertices && e.1 in vertices
  }

  // Two vertices have the same root exactly when a chain of edges joins them.
  ghost predicate Represents<T(!new)>(root: map<T, T>, edges: set<(T, T)>) {
    && EdgesWithin(edges, root.Keys)
    && forall x, y :: x in root && y in root ==> (root[x] == root[y] <==> Connected(edges, x, y))
  }

  // The classes of `winner` and `loser` become one class, rooted where winner's was.
  ghost function Merged<T(!new)>(root: map<T, T>, winner: T, loser: T): map<T, T>
    requires winner in root && loser in root
  {
    map x | x in root :: if root[x] == root[loser] then root[winner] else root[x]
  }

  lemma DiscreteRepresents<T(!new)>(root: map<T, T>)
    requires forall x :: x in root ==> root[x] == x
    ensures Represents(root, {})
  {
    forall x, y | x in root && y in root
      ensures root[x] == root[y] <==> Connected({}, x, y)
    {
      ConnectedReflexive({}, x);
      if Connected({}, x, y) {
        ConnectedKeepsTag({}, root, x, y);
      }
    }
  }

  lemma MergedRepresents<T(!new)>(root: map<T, T>, edges: set<(T, T)>, winner: T, loser: T, added: (T, T))
    requires Represents(root, edges)
    requires winner in root && loser in root
    requires added == (winner, loser) || added == (loser, winner)
    ensures Represents(Merged(root, winner, loser), edges + {added})
  {
    var merged := Merged(root, winner, loser);
    var more := edges + {added};
    forall e | e in more
      ensures merged[e.0] == merged[e.1]
    {
      if e in edges {
        ConnectedByEdge(edges, e.0, e.1);
      }
    }
    forall x, y | x in merged && y in merged
      ensures merged[x] == merged[y] <==> Connected(more, x, y)
    {
      if Connected(more, x, y) {
        ConnectedKeepsTag(more, merged, x, y);
      }
      if merged[x] == merged[y] {
        MergedConnects(root, edges, winner, loser, added, x, y);
      }
    }
  }

  lemma MergedConnects<T(!new)>(
    root: map<T, T>, edges: set<(T, T)>, winner: T, loser: T, added: (T, T), x: T, y: T)
    requires Represents(root, edges)
    requires winner in root && loser in root && x in root && y in root
    requires added == (winner, loser) || added == (loser, winner)
    requires Merged(root, winner, loser)[x] == Merged(root, winner, loser)[y]
    ensures Connected(edges + {added}, x, y)
  {
    if root[x] == root[y] {
      ConnectedMonotone(edges, edges + {added}, x, y);
    } else if root[x] == root[loser] {
      MergedBridge(root, edges, loser, winner, added, x, y);
    } else {
      MergedBridge(root, edges, winner, loser, added, x, y);
    }
  }

  lemma MergedBridge<T(!new)>(root: map<T, T>, edges: set<(T, T)>, a: T, b: T, added: (T, T), x: T, y: T)
    requires Represents(root, edges)
    requires a in root && b in root && x in root && y in root
    requires added == (a, b) || added == (b, a)
    requires root[x] == root[a] && root[y] == root[b]
    ensures Connected(edges + {added}, x, y)
  {
    var more := edges + {added};
    ConnectedMonotone(edges, more, x, a);
    ConnectedByEdge(more, a, b);
    ConnectedMonotone(edges, more, b, y);
    ConnectedTransitive(more, x, a, b);
    ConnectedTransitive(more, x, b, y);
  }

  // ----- Parent pointers ---------------------------------------------------------

  // The pointers of x: they stay inside the forest and lead, by falling rank, to its root.
  ghost predicate Rooted<T(!new)>(parent: map<T, T>, root: map<T, T>, rank: map<T, nat>, x: T)
    requires parent.Keys == root.Keys == rank.Keys && x in parent
  {
    && parent[x] in parent && root[x] in parent
    && root[parent[x]] == root[x] && parent[root[x]] == root[x]
    && (parent[x] == x ==> root[x] == x)
    && (parent[x] != x ==> rank[parent[x]] < rank[x])
    && (root[x] != x ==> rank[root[x]] < rank[x])
  }

  // `parent` is a forest over its keys, `root` names the root of each key, and `rank`
  // strictly falls along parent pointers, so that following them ends.
  ghost predicate Forest<T(!new)>(parent: map<T, T>, root: map<T, T>, rank: map<T, nat>) {
    && parent.Keys == root.Keys == rank.Keys
    && forall x {:trigger Rooted(parent, root, rank, x)} :: x in parent ==> Rooted(parent, root, rank, x)
  }

  lemma InsertKeepsForest<T(!new)>(parent: map<T, T>, root: map<T, T>, rank: map<T, nat>, x: T)
    requires Forest(parent, root, rank) && x !in parent
    ensures Forest(parent[x := x], root[x := x], rank[x := 0])
  {
    var extended := parent[x := x];
    forall y | y in extended
      ensures Rooted(extended, root[x := x], rank[x := 0], y)
    {
      assert y != x ==> Rooted(parent, root, rank, y);
    }
  }

  // Pointing a non-root at something of lower rank in its own tree (path compression
  // and path halving) keeps every root.
  lemma RedirectKeepsForest<T(!new)>(parent: map<T, T>, root: map<T, T>, rank: map<T, nat>, x: T, target: T)
    requires Forest(parent, root, rank)
    requires x in parent && target in parent
    requires root[target] == root[x] && rank[target] < rank[x] && parent[x] != x
    ensures Forest(parent[x := target], root, rank)
  {
    var redirected := parent[x := target];
    assert redirected.Keys == parent.Keys;
    forall y | y in redirected
      ensures Rooted(redirected, root, rank, y)
    {
      assert Rooted(parent, root, rank, y);
      assert Rooted(parent, root, rank, x);
    }
  }

  // Hanging one root below another merges exactly the two trees.
  lemma LinkMergesForest<T(!new)>(parent: map<T, T>, root: map<T, T>, rank: map<T, nat>, winner: T, loser: T)
    returns (newRank: map<T, nat>)
    requires Forest(parent, root, rank)
    requires winner in parent && loser in parent && winner != loser
    requires root[winner] == winner && root[loser] == loser
    ensures Forest(parent[loser := winner], Merged(root, winner, loser), newRank)
  {
    newRank := map x | x in rank :: if root[x] == loser then rank[x] + rank[winner] + 1 else rank[x];
    var linked, merged := parent[loser := winner], Merged(root, winner, loser);
    assert linked.Keys == merged.Keys == newRank.Keys;
    assert Rooted(parent, root, rank, winner);
    forall y | y in linked
      ensures Rooted(linked, merged, newRank, y)
    {
      assert Rooted(parent, root, rank, y);
      assert Rooted(parent, root, rank, parent[y]);
      assert Rooted(parent, root, rank, root[y]);
    }
  }
}
