/** The routing tables both routers keep, one per request method, and the
    route a path resolves to.

    `Trie.h` is not part of this model. A table is modelled as a map from
    the stored paths to their handlers, with two assumptions about the
    trie: `insert` of a path already present replaces its handler, and
    stepping back from an entry (`--found`) reaches the next shorter
    stored prefix of its path (character by character), passing over
    prefixes that hold no entry, and reaches `end()` after the shortest. */
module Routing {
  import opened Message
  import opened Handlers

  type Table = map<string, Handler>

  /** `routing_tables`: indexed by `MethodIndex`. */
  type Tables = seq<Table>

  function EmptyTables(): (ts: Tables)
    ensures |ts| == MethodCount
    ensures forall i :: 0 <= i < |ts| ==> ts[i] == map[]
  {
    seq(MethodCount, _ => map[])
  }

  /** `t.insert({path, h})` into the table at index `i`. */
  function Register(ts: Tables, i: nat, path: string, h: Handler): (r: Tables)
    requires i < |ts|
    ensures |r| == |ts|
    ensures path in r[i] && r[i][path] == h
    ensures forall p :: p != path ==> (p in r[i] <==> p in ts[i]) && (p in ts[i] ==> r[i][p] == ts[i][p])
    ensures forall j :: 0 <= j < |ts| && j != i ==> r[j] == ts[j]
  {
    ts[i := ts[i][path := h]]
  }

  // Resolution

  /** The handlers stored at the prefixes `path[..j]`, `lo <= j <= hi`,
      shortest first. */
  function Stored(t: Table, path: string, lo: nat, hi: nat): seq<Handler>
    requires hi <= |path|
    decreases hi + 1 - lo
  {
    if lo > hi then []
    else (if path[..lo] in t then [t[path[..lo]]] else []) + Stored(t, path, lo + 1, hi)
  }

  /** The prefix lengths `j`, `lo <= j <= hi`, at which `t` holds an
      entry, in increasing order. */
  function StoredLengths(t: Table, path: string, lo: nat, hi: nat): (ls: seq<nat>)
    requires hi <= |path|
    ensures forall k :: 0 <= k < |ls| ==> lo <= ls[k] <= hi && path[..ls[k]] in t
    ensures forall k, k' :: 0 <= k < k' < |ls| ==> ls[k] < ls[k']
    ensures forall j :: lo <= j <= hi && path[..j] in t ==> j in ls
    decreases hi + 1 - lo
  {
    if lo > hi then []
    else (if path[..lo] in t then [lo] else []) + StoredLengths(t, path, lo + 1, hi)
  }

  /** What `resolve` returns: nothing when the path itself holds no
      entry, else the handlers of all stored prefixes of the path, root
      to leaf, the path's own handler last. */
  function Route(t: Table, path: string): seq<Handler> {
    if path in t then Stored(t, path, 0, |path|) else []
  }

  /** `Stored` is the table read at the `StoredLengths`, in order. */
  lemma {:induction false} StoredAtLengths(t: Table, path: string, lo: nat, hi: nat)
    requires hi <= |path|
    ensures |Stored(t, path, lo, hi)| == |StoredLengths(t, path, lo, hi)|
    ensures forall k :: 0 <= k < |Stored(t, path, lo, hi)| ==>
              Stored(t, path, lo, hi)[k] == t[path[..StoredLengths(t, path, lo, hi)[k]]]
    decreases hi + 1 - lo
  {
    if lo <= hi {
      StoredAtLengths(t, path, lo + 1, hi);
      var hs, ls := Stored(t, path, lo + 1, hi), StoredLengths(t, path, lo + 1, hi);
      if path[..lo] in t {
        assert Stored(t, path, lo, hi) == [t[path[..lo]]] + hs;
        assert StoredLengths(t, path, lo, hi) == [lo] + ls;
      } else {
        assert Stored(t, path, lo, hi) == hs;
        assert StoredLengths(t, path, lo, hi) == ls;
      }
    }
  }

  /** Prefixes that hold no entry contribute nothing. */
  lemma {:induction false} StoredSkip(t: Table, path: string, lo: nat, mid: nat, hi: nat)
    requires lo <= mid <= hi + 1 && hi <= |path|
    requires forall j :: lo <= j < mid ==> path[..j] !in t
    ensures Stored(t, path, lo, hi) == Stored(t, path, mid, hi)
    decreases mid - lo
  {
    if lo < mid {
      StoredSkip(t, path, lo + 1, mid, hi);
    }
  }

  /** The last element of `Stored` up to a stored `hi` is that entry. */
  lemma {:induction false} StoredEndsAt(t: Table, path: string, lo: nat, hi: nat)
    requires lo <= hi <= |path| && path[..hi] in t
    ensures Stored(t, path, lo, hi) != []
    ensures Stored(t, path, lo, hi)[|Stored(t, path, lo, hi)| - 1] == t[path[..hi]]
    decreases hi - lo
  {
    if lo < hi {
      StoredEndsAt(t, path, lo + 1, hi);
    }
  }

  /** The route of a stored path ends with that path's own handler; its
      elements are the handlers at the stored prefixes, shortest first,
      each prefix once. */
  lemma RouteShape(t: Table, path: string)
    ensures path !in t ==> Route(t, path) == []
    ensures path in t ==> Route(t, path) != [] && Route(t, path)[|Route(t, path)| - 1] == t[path]
    ensures path in t ==>
              && |Route(t, path)| == |StoredLengths(t, path, 0, |path|)|
              && forall k :: 0 <= k < |Route(t, path)| ==>
                   Route(t, path)[k] == t[path[..StoredLengths(t, path, 0, |path|)[k]]]
  {
    if path in t {
      assert Route(t, path) == Stored(t, path, 0, |path|);
      assert path[..|path|] == path;
      StoredEndsAt(t, path, 0, |path|);
      StoredAtLengths(t, path, 0, |path|);
    } else {
      assert Route(t, path) == [];
    }
  }

  /** A handler is on the route of a stored path exactly when it is the
      handler of some stored prefix of that path. */
  lemma RouteMembers(t: Table, path: string, h: Handler)
    requires path in t
    ensures h in Route(t, path) <==> exists j :: 0 <= j <= |path| && path[..j] in t && t[path[..j]] == h
  {
    RouteShape(t, path);
    var ls := StoredLengths(t, path, 0, |path|);
    if h in Route(t, path) {
      var k :| 0 <= k < |Route(t, path)| && Route(t, path)[k] == h;
      assert path[..ls[k]] in t;
    }
    if exists j :: 0 <= j <= |path| && path[..j] in t && t[path[..j]] == h {
      var j :| 0 <= j <= |path| && path[..j] in t && t[path[..j]] == h;
      assert j in ls;
      var k :| 0 <= k < |ls| && ls[k] == j;
      assert Route(t, path)[k] == h;
    }
  }

  // Reversal

  function Reverse<T>(s: seq<T>): (r: seq<T>)
    ensures |r| == |s|
    ensures forall i :: 0 <= i < |s| ==> r[i] == s[|s| - 1 - i]
  {
    if s == [] then [] else Reverse(s[1..]) + [s[0]]
  }

  lemma ReverseAppend<T>(a: seq<T>, b: seq<T>)
    ensures Reverse(a + b) == Reverse(b) + Reverse(a)
  {
    assert |Reverse(a + b)| == |Reverse(b) + Reverse(a)|;
    forall i | 0 <= i < |a| + |b|
      ensures Reverse(a + b)[i] == (Reverse(b) + Reverse(a))[i]
    {
      if i < |b| {
        assert Reverse(a + b)[i] == (a + b)[|a| + |b| - 1 - i] == b[|b| - 1 - i];
      } else {
        assert Reverse(a + b)[i] == (a + b)[|a| + |b| - 1 - i] == a[|a| + |b| - 1 - i];
      }
    }
  }

  /** `std::reverse` twice is the identity. */
  lemma ReverseReverse<T>(s: seq<T>)
    ensures Reverse(Reverse(s)) == s
  {
  }
}
