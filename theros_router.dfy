/** The Theros `Router` of `Router.h`: registration builds a new `Handler`
    from the given callables for every table it inserts into. Its
    `resolve` overloads are only declared there; resolution is modelled
    on the Summer router. */
module TherosRouter {
  import opened Message
  import opened Handlers
  import opened Routing

  /** The tables after `use(path, fs...)` has run `n` rounds of its loop
      with the counter at `first` before it: round `i` inserts a handler
      with id `first + i + 1` into table `i`. */
  function UseFresh(ts: Tables, path: string, fs: seq<Callable>, first: int, n: nat): (r: Tables)
    requires n <= |ts|
    ensures |r| == |ts|
    decreases n
  {
    if n == 0 then ts
    else Register(UseFresh(ts, path, fs, first, n - 1), n - 1, path, Handler(fs, first + n))
  }

  /** `use` with the counter at `first`: each table below `n` maps `path`
      to its own handler over `fs`, numbered in method order; nothing
      else is touched. */
  lemma {:induction false} UseFreshAt(ts: Tables, path: string, fs: seq<Callable>, first: int, n: nat, i: nat)
    requires n <= |ts| && i < |ts|
    ensures UseFresh(ts, path, fs, first, n)[i] ==
              if i < n then ts[i][path := Handler(fs, first + i + 1)] else ts[i]
    decreases n
  {
    if n > 0 {
      UseFreshAt(ts, path, fs, first, n - 1, i);
    }
  }

  /** Every table `use` writes gets a handler with a different id. */
  lemma UseFreshDistinctIds(ts: Tables, path: string, fs: seq<Callable>, first: int, n: nat, i: nat, j: nat)
    requires n <= |ts| && i < j < n
    ensures path in UseFresh(ts, path, fs, first, n)[i] && path in UseFresh(ts, path, fs, first, n)[j]
    ensures UseFresh(ts, path, fs, first, n)[i][path].id < UseFresh(ts, path, fs, first, n)[j][path].id
  {
    UseFreshAt(ts, path, fs, first, n, i);
    UseFreshAt(ts, path, fs, first, n, j);
  }

  class Router {
    /** `routing_tables`, one per method. */
    var tables: Tables

    predicate Valid()
      reads this
    {
      |tables| == MethodCount
    }

    /** `Router()`: `method_count` empty tables. */
    constructor ()
      ensures Valid() && tables == EmptyTables()
    {
      tables := EmptyTables();
    }

    /** `handle(method, path, fs...)`: a new handler over `fs` replaces
        whatever `path` held in that method's table, and only there. */
    method Handle(m: RequestMethod, path: string, fs: seq<Callable>, ids: IdCounter)
      requires Valid() && |fs| > 0
      modifies this, ids
      ensures Valid()
      ensures ids.value == old(ids.value) + 1
      ensures tables == Register(old(tables), MethodIndex(m), path, Handler(fs, ids.value))
    {
      var h := NewHandler(ids, fs);
      tables := Register(tables, MethodIndex(m), path, h);
    }

    method Get(path: string, fs: seq<Callable>, ids: IdCounter)
      requires Valid() && |fs| > 0
      modifies this, ids
      ensures Valid()
      ensures ids.value == old(ids.value) + 1
      ensures tables == Register(old(tables), MethodIndex(GET), path, Handler(fs, ids.value))
    {
      Handle(GET, path, fs, ids);
    }

    method Post(path: string, fs: seq<Callable>, ids: IdCounter)
      requires Valid() && |fs| > 0
      modifies this, ids
      ensures Valid()
      ensures ids.value == old(ids.value) + 1
      ensures tables == Register(old(tables), MethodIndex(POST), path, Handler(fs, ids.value))
    {
      Handle(POST, path, fs, ids);
    }

    method Put(path: string, fs: seq<Callable>, ids: IdCounter)
      requires Valid() && |fs| > 0
      modifies this, ids
      ensures Valid()
      ensures ids.value == old(ids.value) + 1
      ensures tables == Register(old(tables), MethodIndex(PUT), path, Handler(fs, ids.value))
    {
      Handle(PUT, path, fs, ids);
    }

    /** `use(path, fs...)`: `handle` for every method from GET up to, not
        including, UNDETERMINED, each with a handler of its own. */
    method Use(path: string, fs: seq<Callable>, ids: IdCounter)
      requires Valid() && |fs| > 0
      modifies this, ids
      ensures Valid()
      ensures ids.value == old(ids.value) + MethodIndex(UNDETERMINED)
      ensures tables == UseFresh(old(tables), path, fs, old(ids.value), MethodIndex(UNDETERMINED))
    {
      var i := MethodIndex(GET);
      while i != MethodIndex(UNDETERMINED)
        invariant 0 <= i <= MethodIndex(UNDETERMINED)
        invariant Valid()
        invariant ids.value == old(ids.value) + i
        invariant tables == UseFresh(old(tables), path, fs, old(ids.value), i)
        decreases MethodIndex(UNDETERMINED) - i
      {
        Handle(MethodAt(i), path, fs, ids);
        i := i + 1;
      }
    }
  }
}
