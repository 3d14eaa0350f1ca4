// The two union-finds of the repository.  Each keeps, besides the real parent map, a ghost
// root map and a ghost rank that makes every climb end; contracts speak of the root map.
module UnionFinds {
  import opened Connectivity

  // An item that was never seen becomes its own root (the dict's setdefault).
  ghost function WithItem<T(!new)>(root: map<T, T>, item: T): map<T, T> {
    if item in root then root else root[item := item]
  }

  // internal/dedup/usecase/annotate_dedup.py: recursive find with path compression.
  class CompressingUnionFind<T(==,!new)> {
    var parent: map<T, T>
    ghost var root: map<T, T>
    ghost var rank: map<T, nat>

    ghost predicate Valid()
      reads this
    {
      Forest(parent, root, rank)
    }

    constructor (items: seq<T>)
      ensures Valid()
      ensures root == map x | x in items :: x
    {
      parent := map x | x in items :: x;
      root := map x | x in items :: x;
      rank := map x | x in items :: 0;
    }

    method SetDefault(item: T)
      requires Valid()
      modifies this
      ensures Valid()
      ensures root == WithItem(old(root), item)
      ensures item in old(root) ==> rank == old(rank)
    {
      if item !in parent {
        InsertKeepsForest(parent, root, rank, item);
        parent := parent[item := item];
        root := root[item := item];
        rank := rank[item := 0];
      }
    }

    // Ends on every forest and rewrites parents only inside the item's own tree, so no
    // item's root changes.
    method Find(item: T) returns (r: T)
      requires Valid()
      modifies this
      ensures Valid()
      ensures root == WithItem(old(root), item) && r == root[item]
      ensures item in old(root) ==> rank == old(rank)
      decreases if item in rank then rank[item] else 0
    {
      SetDefault(item);
      var up := parent[item];
      assert Rooted(parent, root, rank, item);
      if up != item {
        var top := Find(up);
        Compress(item, top);
      }
      r := parent[item];
      assert Rooted(parent, root, rank, item);
    }

    method Compress(item: T, top: T)
      requires Valid() && item in root && top == root[item] && top != item
      modifies this`parent
      ensures Valid() && parent == old(parent)[item := top]
    {
      assert Rooted(parent, root, rank, item) && Rooted(parent, root, rank, top);
      RedirectKeepsForest(parent, root, rank, item, top);
      parent := parent[item := top];
    }

    // Merges exactly the two classes; every other item keeps its root.
    method Union(left: T, right: T)
      requires Valid() && left in root && right in root
      modifies this
      ensures Valid()
      ensures root == Merged(old(root), left, right)
    {
      var leftRoot := Find(left);
      var rightRoot := Find(right);
      if leftRoot != rightRoot {
        ghost var merged := Merged(root, left, right);
        ghost var newRank := LinkRootsOf(parent, root, rank, left, right);
        parent := parent[rightRoot := leftRoot];
        root, rank := merged, newRank;
      } else {
        assert Merged(root, left, right) == root;
      }
    }
  }

  // internal/enrichment/usecase/topic_enricher.py: iterative find with path halving; the
  // left root is hung below the right one.
  class HalvingUnionFind<T(==,!new)> {
    var parent: map<T, T>
    ghost var root: map<T, T>
    ghost var rank: map<T, nat>

    ghost predicate Valid()
      reads this
    {
      Forest(parent, root, rank)
    }

    constructor (items: seq<T>)
      ensures Valid()
      ensures root == map x | x in items :: x
    {
      parent := map x | x in items :: x;
      root := map x | x in items :: x;
      rank := map x | x in items :: 0;
    }

    method Find(start: T) returns (x: T)
      requires Valid() && start in root
      modifies this`parent
      ensures Valid() && x == root[start]
    {
      x := start;
      while parent[x] != x
        invariant Valid() && x in parent && root[x] == root[start]
        decreases rank[x]
      {
        x := Halve(x);
      }
      assert Rooted(parent, root, rank, x);
    }

    // One round of the loop: x now points at its grandparent, which is returned.
    method Halve(x: T) returns (grand: T)
      requires Valid() && x in parent && parent[x] != x
      modifies this`parent
      ensures Valid() && grand in parent
      ensures grand == parent[x] && parent == old(parent)[x := grand]
      ensures old(parent[x]) in old(parent) && grand == old(parent)[old(parent[x])]
      ensures root[grand] == root[x] && rank[grand] < rank[x]
    {
      assert Rooted(parent, root, rank, x) && Rooted(parent, root, rank, parent[x]);
      RedirectKeepsForest(parent, root, rank, x, parent[parent[x]]);
      parent := parent[x := parent[parent[x]]];
      grand := parent[x];
    }

    method Union(x: T, y: T)
      requires Valid() && x in root && y in root
      modifies this
      ensures Valid()
      ensures root == Merged(old(root), y, x)
    {
      var px := Find(x);
      var py := Find(y);
      if px != py {
        ghost var merged := Merged(root, y, x);
        ghost var newRank := LinkRootsOf(parent, root, rank, y, x);
        parent := parent[px := py];
        root, rank := merged, newRank;
      } else {
        assert Merged(root, y, x) == root;
      }
    }
  }

  lemma LinkRootsOf<T(!new)>(parent: map<T, T>, root: map<T, T>, rank: map<T, nat>, winner: T, loser: T)
    returns (newRank: map<T, nat>)
    requires Forest(parent, root, rank)
    requires winner in root && loser in root && root[winner] != root[loser]
    ensures Forest(parent[root[loser] := root[winner]], Merged(root, winner, loser), newRank)
  {
    assert Rooted(parent, root, rank, winner) && Rooted(parent, root, rank, loser);
    assert Rooted(parent, root, rank, root[winner]) && Rooted(parent, root, rank, root[loser]);
    newRank := LinkMergesForest(parent, root, rank, root[winner], root[loser]);
    assert Merged(root, root[winner], root[loser]) == Merged(root, winner, loser);
  }
}
