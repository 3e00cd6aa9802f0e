/** The routing table and the order in which its routes are documented
    (src/apifairy/core.py:213-215): the table sorted by the length of each
    rule's text. Python's sort is stable, so routes whose rules have equal
    length keep their table order. */
module RouteOrder {
  import opened Wrappers
  import opened Decorators

  /** A route of the routing table: its rule text, endpoint name and methods,
      and the docstring and descriptor (`_spec`) of its view function, which
      has no descriptor when no decorator of this library was applied. */
  datatype Route = Route(rule: string, endpoint: string, methods: set<string>, doc: string,
                         spec: Option<Descriptor>)

  /** The sort key. */
  function Length(r: Route): nat {
    |r.rule|
  }

  predicate Sorted(s: seq<Route>) {
    forall i, j :: 0 <= i < j < |s| ==> Length(s[i]) <= Length(s[j])
  }

  /** Every rule in `s` is at least `lo` long. */
  predicate AtLeast(s: seq<Route>, lo: nat) {
    forall i :: 0 <= i < |s| ==> lo <= Length(s[i])
  }

  /** Inserts `x` after every route whose rule is not longer than its own. */
  function Insert(x: Route, s: seq<Route>): (r: seq<Route>)
    requires Sorted(s)
    ensures Sorted(r)
    ensures multiset(r) == multiset(s) + multiset{x}
    ensures s != [] ==> AtLeast(r, if Length(x) < Length(s[0]) then Length(x) else Length(s[0]))
    ensures s == [] ==> r == [x]
  {
    if s == [] then [x]
    else if Length(x) < Length(s[0]) then
      assert AtLeast(s, Length(s[0]));
      SortedCons(x, s);
      [x] + s
    else
      var rest := Insert(x, s[1..]);
      assert s == [s[0]] + s[1..];
      SortedCons(s[0], rest);
      [s[0]] + rest
  }

  lemma SortedCons(y: Route, s: seq<Route>)
    requires Sorted(s) && AtLeast(s, Length(y))
    ensures Sorted([y] + s) && AtLeast([y] + s, Length(y))
  {
    var r := [y] + s;
    forall i, j | 0 <= i < j < |r|
      ensures Length(r[i]) <= Length(r[j])
    {
      assert r[j] == s[j - 1];
      if i > 0 {
        assert r[i] == s[i - 1];
      }
    }
  }

  /** The routes sorted by rule length, earlier routes first among equal lengths. */
  function Sort(s: seq<Route>): (r: seq<Route>)
    ensures Sorted(r)
    ensures multiset(r) == multiset(s)
  {
    if s == [] then []
    else
      var prefix := s[..|s| - 1];
      assert s == prefix + [s[|s| - 1]];
      Insert(s[|s| - 1], Sort(prefix))
  }

  /** The routes of `s` whose rule is `n` long, in order. */
  function WithLength(s: seq<Route>, n: nat): seq<Route> {
    if s == [] then []
    else (if Length(s[0]) == n then [s[0]] else []) + WithLength(s[1..], n)
  }

  lemma {:induction false} WithLengthAppend(s: seq<Route>, x: Route, n: nat)
    ensures WithLength(s + [x], n) == WithLength(s, n) + (if Length(x) == n then [x] else [])
  {
    if s != [] {
      assert (s + [x])[1..] == s[1..] + [x];
      WithLengthAppend(s[1..], x, n);
    }
  }

  lemma {:induction false} WithLengthAbove(s: seq<Route>, n: nat)
    requires AtLeast(s, n + 1)
    ensures WithLength(s, n) == []
  {
    if s != [] {
      WithLengthAbove(s[1..], n);
    }
  }

  /** Inserting into a sorted sequence places `x` after every route of its length. */
  lemma {:induction false} InsertWithLength(x: Route, s: seq<Route>, n: nat)
    requires Sorted(s)
    ensures WithLength(Insert(x, s), n) == WithLength(s, n) + (if Length(x) == n then [x] else [])
  {
    if s == [] {
    } else if Length(x) < Length(s[0]) {
      var r := [x] + s;
      assert r[1..] == s;
      if Length(x) == n {
        assert AtLeast(s, n + 1);
        WithLengthAbove(s, n);
      }
    } else {
      var rest := Insert(x, s[1..]);
      var r := [s[0]] + rest;
      assert r[1..] == rest;
      InsertWithLength(x, s[1..], n);
    }
  }

  /** The sort is stable: the routes whose rules have the same length appear
      in the sorted table in the order they had in the routing table. */
  lemma {:induction false} SortIsStable(s: seq<Route>, n: nat)
    ensures WithLength(Sort(s), n) == WithLength(s, n)
  {
    if s != [] {
      var prefix := s[..|s| - 1];
      var x := s[|s| - 1];
      assert s == prefix + [x];
      var tail := if Length(x) == n then [x] else [];
      assert Sort(s) == Insert(x, Sort(prefix));
      SortIsStable(prefix, n);
      InsertWithLength(x, Sort(prefix), n);
      assert WithLength(Sort(s), n) == WithLength(prefix, n) + tail;
      WithLengthAppend(prefix, x, n);
    }
  }

  /** Sorting keeps exactly the routes of the table. */
  lemma SortKeepsRoutes(s: seq<Route>, r: Route)
    ensures r in Sort(s) <==> r in s
  {
    assert r in multiset(Sort(s)) <==> r in multiset(s);
  }
}
