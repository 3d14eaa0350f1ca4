// internal/http/analytics_service.py: pages of posts, cut from a cached window of the first
// rows, cached themselves, or queried directly.  The rollup path is not taken.
module PostsWindow {
  import opened Basics
  import opened ResponseCache

  const WINDOW_SIZE: nat := 240
  const POSTS_TTL := 120.0
  const EMPTY_TTL := 10.0

  datatype Page<Post> = Page(posts: seq<Post>, total: nat)

  // Cache keys: campaign, filters, sorting and scope are one query; other endpoints share
  // the cache under keys of their own.
  datatype Key<Query> =
    | PageKey(query: Query, limit: nat, offset: nat)
    | WindowKey(query: Query)
    | OtherKey(name: string)

  // rows[offset : offset + limit]
  function Slice<Post>(rows: seq<Post>, offset: nat, limit: nat): (r: seq<Post>)
    ensures |r| == (if |rows| <= offset then 0 else if |rows| - offset < limit then |rows| - offset else limit)
    ensures forall i :: 0 <= i < |r| ==> r[i] == rows[offset + i]
  {
    rows[Min(offset, |rows|)..Min(offset + limit, |rows|)]
  }

  // LIMIT / OFFSET on the ordered rows, the total being read off the first row returned.
  function Fetch<Post>(rows: seq<Post>, offset: nat, limit: nat): Page<Post> {
    var found := Slice(rows, offset, limit);
    Page(found, if found == [] then 0 else |rows|)
  }

  function WindowOf<Post>(rows: seq<Post>): Page<Post> {
    Fetch(rows, 0, WINDOW_SIZE)
  }

  // What a page comes to, however it is served.
  function Served<Post>(rows: seq<Post>, offset: nat, limit: nat): Page<Post> {
    if offset + limit <= WINDOW_SIZE then
      Page(Slice(WindowOf(rows).posts, offset, limit), WindowOf(rows).total)
    else
      Fetch(rows, offset, limit)
  }

  lemma CutFromWindow<Post>(rows: seq<Post>, offset: nat, limit: nat)
    requires offset + limit <= WINDOW_SIZE
    ensures Slice(WindowOf(rows).posts, offset, limit) == Slice(rows, offset, limit)
    ensures WindowOf(rows).total == |rows|
  {
  }

  // The posts are always the direct slice of the rows.  The total is right exactly when the
  // page lies in the window, or starts before the end of the rows, or there are no rows:
  // a direct query past the end finds no row to read the total from and reports 0.
  lemma PageIsDirectSlice<Post>(rows: seq<Post>, offset: nat, limit: nat)
    requires limit >= 1
    ensures Served(rows, offset, limit).posts == Slice(rows, offset, limit)
    ensures Served(rows, offset, limit).total == |rows| <==>
      offset + limit <= WINDOW_SIZE || offset < |rows| || rows == []
  {
    if offset + limit <= WINDOW_SIZE {
      CutFromWindow(rows, offset, limit);
    }
  }

  lemma TotalLostPastTheEnd()
    ensures Served([7], 240, 1) == Page([], 0)
  {
  }

  // With the cache full of pages just stored, the page of a campaign without projects is
  // dropped by the call that stores it.
  lemma EmptyPageIsDropped(limit: nat, now: real)
    ensures Pruned(Put(Full(limit, now + POSTS_TTL), limit, Entry(1, now + EMPTY_TTL)), now, limit) ==
      Full(limit, now + POSTS_TTL)
  {
    ShorterLifeGoesFirst(Full(limit, now + POSTS_TTL), limit, Entry(1, now + EMPTY_TTL), now);
  }

  // What some request does to the cache between two of its awaits, which nothing interrupts.
  datatype Turn<Query, Post> =
    | LookUpPage(query: Query, limit: nat, offset: nat)
    | StoreEmptyPage(query: Query, limit: nat, offset: nat)
    | CutTheWindow(query: Query, limit: nat, offset: nat, ttl: real)
    | StoreRows(query: Query, limit: nat, offset: nat, ttl: real)
    | LookUpOther(name: string)
    | SetOther(name: string, page: Page<Post>, lifetime: Option<real>)

  class PostsService<Query(==,!new), Post(!new)> {
    const cache: Cache<Key<Query>, Page<Post>>
    const clock: Clock
    // The campaign's projects and the database, fixed for the history considered.
    const hasProjects: Query -> bool
    const database: Query -> seq<Post>

    // Whatever was last set under a posts key is what that key stands for.
    ghost predicate Valid()
      reads this, cache
    {
      && cache.Valid() && cache.clock == clock
      && forall k :: k in cache.latest ==> Stands(k, cache.latest[k].value)
    }

    function RowsOf(q: Query): seq<Post> {
      if hasProjects(q) then database(q) else []
    }

    ghost predicate Stands(k: Key<Query>, p: Page<Post>) {
      match k
      case PageKey(q, limit, offset) => p == Served(RowsOf(q), offset, limit)
      case WindowKey(q) => p == WindowOf(RowsOf(q))
      case OtherKey(_) => true
    }

    constructor (cache: Cache<Key<Query>, Page<Post>>, hasProjects: Query -> bool, database: Query -> seq<Post>)
      requires cache.Valid() && cache.latest == map[]
      ensures Valid() && this.cache == cache && this.hasProjects == hasProjects && this.database == database
    {
      this.cache, this.clock := cache, cache.clock;
      this.hasProjects, this.database := hasProjects, database;
    }

    method Store(k: Key<Query>, p: Page<Post>, ttl: real)
      requires Valid() && Stands(k, p)
      modifies cache, clock
      ensures Valid()
    {
      cache.Set(k, p, Some(ttl));
    }

    // Another endpoint uses the cache.
    method StoreOther(name: string, p: Page<Post>, ttl: Option<real>)
      requires Valid()
      modifies cache, clock
      ensures Valid()
    {
      cache.Set(OtherKey(name), p, ttl);
    }

    method Lookup(k: Key<Query>) returns (found: Option<Page<Post>>)
      requires Valid()
      modifies cache, clock
      ensures Valid()
      ensures found.Some? ==> Stands(k, found.value)
    {
      found := cache.Get(k);
    }

    method StoreEmpty(q: Query, limit: nat, offset: nat) returns (page: Page<Post>)
      requires Valid() && !hasProjects(q)
      modifies cache, clock
      ensures Valid() && page == Served(RowsOf(q), offset, limit)
    {
      page := Page([], 0);
      Store(PageKey(q, limit, offset), page, EMPTY_TTL);
    }

    // From the cached window, if it is there.
    method FromWindow(q: Query, limit: nat, offset: nat, ttl: real) returns (page: Option<Page<Post>>)
      requires Valid()
      modifies cache, clock
      ensures Valid() && (page.Some? ==> page.value == Served(RowsOf(q), offset, limit))
    {
      if offset + limit > WINDOW_SIZE {
        return None;
      }
      var window := Lookup(WindowKey(q));
      if window.None? {
        return None;
      }
      page := Some(Page(Slice(window.value.posts, offset, limit), window.value.total));
      Store(PageKey(q, limit, offset), page.value, ttl);
    }

    // From the rows of the query that has just returned.
    method FromDatabase(q: Query, limit: nat, offset: nat, ttl: real) returns (page: Page<Post>)
      requires Valid() && hasProjects(q)
      modifies cache, clock
      ensures Valid() && page == Served(RowsOf(q), offset, limit)
    {
      if offset + limit <= WINDOW_SIZE {
        var fetched := Fetch(database(q), 0, WINDOW_SIZE);
        Store(WindowKey(q), fetched, ttl);
        page := Page(Slice(fetched.posts, offset, limit), fetched.total);
      } else {
        page := Fetch(database(q), offset, limit);
      }
      Store(PageKey(q, limit, offset), page, ttl);
    }

    method TakeTurn(t: Turn<Query, Post>)
      requires Valid()
      modifies cache, clock
      ensures Valid()
    {
      match t {
        case LookUpPage(q, limit, offset) => var _ := Lookup(PageKey(q, limit, offset));
        case StoreEmptyPage(q, limit, offset) =>
          if !hasProjects(q) {
            var _ := StoreEmpty(q, limit, offset);
          }
        case CutTheWindow(q, limit, offset, ttl) => var _ := FromWindow(q, limit, offset, ttl);
        case StoreRows(q, limit, offset, ttl) =>
          if hasProjects(q) {
            var _ := FromDatabase(q, limit, offset, ttl);
          }
        case LookUpOther(name) => var _ := Lookup(OtherKey(name));
        case SetOther(name, page, lifetime) => StoreOther(name, page, lifetime);
      }
    }

    // While a request waits, others take any turns.
    method OthersRun(turns: seq<Turn<Query, Post>>)
      requires Valid()
      modifies cache, clock
      ensures Valid()
    {
      for i := 0 to |turns|
        invariant Valid()
      {
        TakeTurn(turns[i]);
      }
    }

    // Served from the page cache, the window cache or the database, and whatever other requests
    // do while this one waits for the campaign, the rollup and the query: always the same page.
    method ComputePosts(
      q: Query, limit: int, offset: int, maxLimit: int, cacheTtl: Option<real>,
      duringContext: seq<Turn<Query, Post>>, duringRollup: seq<Turn<Query, Post>>, duringQuery: seq<Turn<Query, Post>>)
      returns (page: Page<Post>)
      requires Valid()
      modifies cache, clock
      ensures Valid()
      ensures page == Served(RowsOf(q), Max(0, offset), Max(1, Min(limit, Max(1, maxLimit))))
    {
      var l: nat := Max(1, Min(limit, Max(1, maxLimit)));
      var o: nat := Max(0, offset);
      var ttl := if cacheTtl.Some? && cacheTtl.value != 0.0 then cacheTtl.value else POSTS_TTL;
      var cached := Lookup(PageKey(q, l, o));
      if cached.Some? {
        return cached.value;
      }
      OthersRun(duringContext);
      if !hasProjects(q) {
        page := StoreEmpty(q, l, o);
        return;
      }
      OthersRun(duringRollup);
      var cut := FromWindow(q, l, o, ttl);
      if cut.Some? {
        return cut.value;
      }
      OthersRun(duringQuery);
      page := FromDatabase(q, l, o, ttl);
    }
  }
}
