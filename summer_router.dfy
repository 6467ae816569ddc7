/** The Summer `Router` of `Router.cpp`: registration stores the handler
    value it is given, so one handler can sit in several tables, and
    `resolve` turns a path into the root-to-leaf handler pipeline. */
module SummerRouter {
  import opened Message
  import opened Handlers
  import opened Routing

  /** The tables after `handle(methods, path, h)` has visited `methods`. */
  function HandleEach(ts: Tables, methods: seq<RequestMethod>, path: string, h: Handler): (r: Tables)
    requires |ts| == MethodCount
    ensures |r| == MethodCount
    decreases |methods|
  {
    if methods == [] then ts
    else Register(HandleEach(ts, methods[..|methods| - 1], path, h), MethodIndex(methods[|methods| - 1]), path, h)
  }

  /** `handle(methods, path, h)` maps `path` to `h` in the table of every
      method in the collection and leaves every other table as it was. */
  lemma {:induction false} HandleEachAt(ts: Tables, methods: seq<RequestMethod>, path: string, h: Handler, i: nat)
    requires |ts| == MethodCount && i < MethodCount
    ensures HandleEach(ts, methods, path, h)[i] ==
              if MethodAt(i) in methods then ts[i][path := h] else ts[i]
    decreases |methods|
  {
    if methods != [] {
      var front := methods[..|methods| - 1];
      var last := methods[|methods| - 1];
      HandleEachAt(ts, front, path, h, i);
      assert methods == front + [last];
      MethodAtIndex(last);
    }
  }

  /** The tables after `use(path, h)` has run `n` rounds of its loop. */
  function UseSame(ts: Tables, path: string, h: Handler, n: nat): (r: Tables)
    requires n <= |ts|
    ensures |r| == |ts|
    decreases n
  {
    if n == 0 then ts else Register(UseSame(ts, path, h, n - 1), n - 1, path, h)
  }

  /** `use` maps `path` to the very same handler in every table below `n`. */
  lemma {:induction false} UseSameAt(ts: Tables, path: string, h: Handler, n: nat, i: nat)
    requires n <= |ts| && i < |ts|
    ensures UseSame(ts, path, h, n)[i] == if i < n then ts[i][path := h] else ts[i]
    decreases n
  {
    if n > 0 {
      UseSameAt(ts, path, h, n - 1, i);
    }
  }

  /** The methods `use` walks over: GET up to, not including, UNDETERMINED. */
  const RoutedMethods: seq<RequestMethod> := [GET, HEAD, POST, PUT, DELETE, CONNECT, OPTIONS, TRACE, PATCH]

  /** `use(path, h)` is `handle(methods, path, h)` over every method but
      UNDETERMINED. */
  lemma UseIsHandleEach(ts: Tables, path: string, h: Handler)
    requires |ts| == MethodCount
    ensures UseSame(ts, path, h, MethodIndex(UNDETERMINED)) == HandleEach(ts, RoutedMethods, path, h)
  {
    forall i | 0 <= i < MethodCount
      ensures UseSame(ts, path, h, MethodIndex(UNDETERMINED))[i] == HandleEach(ts, RoutedMethods, path, h)[i]
    {
      UseSameAt(ts, path, h, MethodIndex(UNDETERMINED), i);
      HandleEachAt(ts, RoutedMethods, path, h, i);
      if i < MethodIndex(UNDETERMINED) {
        assert RoutedMethods[i] == MethodAt(i);
      } else {
        assert MethodAt(i) == UNDETERMINED && UNDETERMINED !in RoutedMethods;
      }
    }
  }

  class Router {
    /** `routing_tables`, one per method. */
    var tables: Tables

    predicate Valid()
      reads this
    {
      |tables| == MethodCount
    }

    constructor ()
      ensures Valid() && tables == EmptyTables()
    {
      tables := EmptyTables();
    }

    /** `handle(method, path, handler)`: only that method's table changes. */
    method Handle(m: RequestMethod, path: string, h: Handler)
      requires Valid()
      modifies this
      ensures Valid()
      ensures tables == Register(old(tables), MethodIndex(m), path, h)
    {
      tables := Register(tables, MethodIndex(m), path, h);
    }

    /** `handle(methods, path, handler)`: one `handle` per method listed. */
    method HandleMethods(methods: seq<RequestMethod>, path: string, h: Handler)
      requires Valid()
      modifies this
      ensures Valid()
      ensures tables == HandleEach(old(tables), methods, path, h)
    {
      for k := 0 to |methods|
        invariant Valid()
        invariant tables == HandleEach(old(tables), methods[..k], path, h)
      {
        Handle(methods[k], path, h);
        assert methods[..k + 1][..k] == methods[..k];
      }
      assert methods[..|methods|] == methods;
    }

    method Get(path: string, h: Handler)
      requires Valid()
      modifies this
      ensures Valid()
      ensures tables == Register(old(tables), MethodIndex(GET), path, h)
    {
      Handle(GET, path, h);
    }

    method Post(path: string, h: Handler)
      requires Valid()
      modifies this
      ensures Valid()
      ensures tables == Register(old(tables), MethodIndex(POST), path, h)
    {
      Handle(POST, path, h);
    }

    method Put(path: string, h: Handler)
      requires Valid()
      modifies this
      ensures Valid()
      ensures tables == Register(old(tables), MethodIndex(PUT), path, h)
    {
      Handle(PUT, path, h);
    }

    /** `use(path, handler)`: the same handler into every table from GET up
        to, not including, UNDETERMINED. */
    method Use(path: string, h: Handler)
      requires Valid()
      modifies this
      ensures Valid()
      ensures tables == UseSame(old(tables), path, h, MethodIndex(UNDETERMINED))
    {
      var i := MethodIndex(GET);
      while i != MethodIndex(UNDETERMINED)
        invariant 0 <= i <= MethodIndex(UNDETERMINED)
        invariant Valid()
        invariant tables == UseSame(old(tables), path, h, i)
        decreases MethodIndex(UNDETERMINED) - i
      {
        Handle(MethodAt(i), path, h);
        i := i + 1;
      }
    }

    /** `resolve(method, path)`: the exact entry, then each stored shorter
        prefix, collected by stepping back through the table, then put
        root first. */
    method Resolve(m: RequestMethod, path: string) returns (route: seq<Handler>)
      requires Valid()
      ensures route == Route(tables[MethodIndex(m)], path)
    {
      var t := tables[MethodIndex(m)];
      var collected: seq<Handler> := [];
      if path in t {
        // `found` starts at the entry for `path` itself
        var k := |path| + 1;
        while k > 0
          invariant 0 <= k <= |path| + 1
          invariant collected == Reverse(Stored(t, path, k, |path|))
          decreases k
        {
          k := k - 1;
          var here := if path[..k] in t then [t[path[..k]]] else [];
          ReverseAppend(here, Stored(t, path, k + 1, |path|));
          collected := collected + here;
        }
      }
      // std::reverse
      route := [];
      var i := |collected|;
      while i > 0
        invariant 0 <= i <= |collected|
        invariant route == Reverse(collected[i..])
        decreases i
      {
        i := i - 1;
        assert collected[i..][1..] == collected[i + 1..];
        route := route + [collected[i]];
      }
      assert collected[0..] == collected;
      ReverseReverse(Stored(t, path, 0, |path|));
    }

    /** `resolve(request)`: reads the method and path but returns no
        handlers at all. */
    method ResolveRequest(req: Request) returns (route: seq<Handler>)
      requires Valid()
      ensures route == []
    {
      var t := tables[MethodIndex(req.httpMethod)];
      var path := req.uri.absPath;
      route := [];
    }
  }

  // Examples: prefix middleware and overwrite

  const Api: string := "/api"
  const ApiUsers: string := "/api/users"
  const Other: string := "/other"

  /** H1 registered at "/api" with `use` and H2 at "/api/users" with `get`
      leave the GET table holding exactly those two entries. */
  lemma MiddlewareTable(h1: Handler, h2: Handler)
    ensures Register(UseSame(EmptyTables(), Api, h1, MethodIndex(UNDETERMINED)), MethodIndex(GET), ApiUsers, h2)[MethodIndex(GET)]
              == map[Api := h1, ApiUsers := h2]
  {
    UseSameAt(EmptyTables(), Api, h1, MethodIndex(UNDETERMINED), MethodIndex(GET));
  }

  /** With that table, GET on "/api/users" runs H1 then H2, GET on "/api"
      runs H1, and an unregistered path runs nothing. */
  lemma MiddlewareRoutes(h1: Handler, h2: Handler)
    ensures Route(map[Api := h1, ApiUsers := h2], ApiUsers) == [h1, h2]
    ensures Route(map[Api := h1, ApiUsers := h2], Api) == [h1]
    ensures Route(map[Api := h1, ApiUsers := h2], Other) == []
  {
    var t := map[Api := h1, ApiUsers := h2];
    forall j | 0 <= j <= |ApiUsers| && j != 4 && j != 10
      ensures ApiUsers[..j] !in t
    {
      assert |ApiUsers[..j]| == j;
    }
    assert ApiUsers[..4] == Api && ApiUsers[..10] == ApiUsers;
    StoredSkip(t, ApiUsers, 0, 4, 10);
    StoredSkip(t, ApiUsers, 5, 10, 10);
    assert Stored(t, ApiUsers, 10, 10) == [h2];
    forall j | 0 <= j < |Api|
      ensures Api[..j] !in t
    {
      assert |Api[..j]| == j;
    }
    assert Api[..4] == Api;
    StoredSkip(t, Api, 0, 4, 4);
    assert Other !in t;
  }

  /** Registering a path again replaces its handler: the route then ends
      with the newer one. */
  lemma OverwriteExample(ts: Tables, path: string, ha: Handler, hb: Handler)
    requires |ts| == MethodCount
    ensures var t := Register(Register(ts, MethodIndex(GET), path, ha), MethodIndex(GET), path, hb)[MethodIndex(GET)];
            Route(t, path) != [] && Route(t, path)[|Route(t, path)| - 1] == hb
  {
    var t := Register(Register(ts, MethodIndex(GET), path, ha), MethodIndex(GET), path, hb)[MethodIndex(GET)];
    RouteShape(t, path);
  }
}
